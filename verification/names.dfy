/**
 Decimal rendering, byte order of strings, and the spool's file names.

 Strings model Go strings: one `char` stands for one byte.
 */
module Names {

  // ---------- byte order ----------

  /** Go's `<` on strings. */
  predicate Less(a: string, b: string) {
    b != [] && (a == [] || a[0] < b[0] || (a[0] == b[0] && Less(a[1..], b[1..])))
  }

  lemma {:induction false} LessIrreflexive(a: string)
    ensures !Less(a, a)
  {
    if a != [] {
      LessIrreflexive(a[1..]);
    }
  }

  lemma {:induction false} LessTransitive(a: string, b: string, c: string)
    requires Less(a, b) && Less(b, c)
    ensures Less(a, c)
  {
    if a != [] && a[0] == b[0] && b[0] == c[0] {
      LessTransitive(a[1..], b[1..], c[1..]);
    }
  }

  lemma {:induction false} LessTotal(a: string, b: string)
    ensures Less(a, b) || a == b || Less(b, a)
  {
    if a != [] && b != [] && a[0] == b[0] {
      LessTotal(a[1..], b[1..]);
      assert a == [a[0]] + a[1..] && b == [b[0]] + b[1..];
    }
  }

  /** Prefixes of equal length decide the order unless they are equal. */
  lemma {:induction false} LessConcat(a: string, b: string, x: string, y: string)
    requires |a| == |b|
    ensures Less(a + x, b + y) <==> Less(a, b) || (a == b && Less(x, y))
  {
    if a == [] {
      assert a + x == x && b + y == y;
    } else {
      assert (a + x)[1..] == a[1..] + x && (b + y)[1..] == b[1..] + y;
      LessConcat(a[1..], b[1..], x, y);
      assert a == [a[0]] + a[1..] && b == [b[0]] + b[1..];
    }
  }

  // ---------- decimal rendering ----------

  function Pow10(n: nat): nat {
    if n == 0 then 1 else 10 * Pow10(n - 1)
  }

  function Digit(d: nat): (c: char)
    requires d < 10
    ensures '0' <= c <= '9'
  {
    ('0' as int + d) as char
  }

  /** `%0{width}d`: at least `width` digits, at least one. */
  function Decimal(n: nat, width: nat): (s: string)
    ensures s != []
    ensures forall i :: 0 <= i < |s| ==> '0' <= s[i] <= '9'
    decreases n, width
  {
    if n < 10 && width <= 1 then [Digit(n)]
    else Decimal(n / 10, if width > 0 then width - 1 else 0) + [Digit(n % 10)]
  }

  /** The number a digit string denotes. */
  function Value(s: string): nat
    requires forall i :: 0 <= i < |s| ==> '0' <= s[i] <= '9'
  {
    if s == [] then 0 else 10 * Value(s[..|s| - 1]) + (s[|s| - 1] as int - '0' as int)
  }

  lemma {:induction false} ValueOfDecimal(n: nat, width: nat)
    ensures Value(Decimal(n, width)) == n
    decreases n, width
  {
    var s := Decimal(n, width);
    if !(n < 10 && width <= 1) {
      var w' := if width > 0 then width - 1 else 0;
      ValueOfDecimal(n / 10, w');
      assert s[..|s| - 1] == Decimal(n / 10, w');
    }
  }

  lemma {:induction false} DecimalLength(n: nat, width: nat)
    requires 1 <= width && n < Pow10(width)
    ensures |Decimal(n, width)| == width
    decreases width
  {
    if width > 1 {
      DecimalLength(n / 10, width - 1);
    }
  }

  lemma {:induction false} DecimalEqual(m: nat, n: nat, width: nat)
    ensures Decimal(m, width) == Decimal(n, width) <==> m == n
  {
    ValueOfDecimal(m, width);
    ValueOfDecimal(n, width);
  }

  /** A larger number is not printed shorter. */
  lemma {:induction false} DecimalGrows(m: nat, n: nat, width: nat)
    requires m <= n
    ensures |Decimal(m, width)| <= |Decimal(n, width)|
    decreases n, width
  {
    if !(m < 10 && width <= 1) {
      DecimalGrows(m / 10, n / 10, if width > 0 then width - 1 else 0);
    }
  }

  predicate AllDigits(s: string) {
    forall i :: 0 <= i < |s| ==> '0' <= s[i] <= '9'
  }

  lemma LessDigit(d: char, e: char)
    ensures Less([d], [e]) <==> d < e
  {
    assert [d][1..] == [] && [e][1..] == [];
  }

  /** Digit strings of one length are ordered as the numbers they denote. */
  lemma {:induction false} DigitsOrder(s: string, t: string)
    requires AllDigits(s) && AllDigits(t) && |s| == |t|
    ensures Less(s, t) <==> Value(s) < Value(t)
    ensures s == t <==> Value(s) == Value(t)
    decreases |s|
  {
    if s != [] {
      var n := |s| - 1;
      ghost var p, q, d, e := Value(s[..n]), Value(t[..n]), s[n] as int - '0' as int, t[n] as int - '0' as int;
      assert Value(s) == 10 * p + d && Value(t) == 10 * q + e;
      hide Less, Value;
      DigitsOrder(s[..n], t[..n]);
      LessConcat(s[..n], t[..n], [s[n]], [t[n]]);
      LessDigit(s[n], t[n]);
      assert s == s[..n] + [s[n]] && t == t[..n] + [t[n]];
    }
  }

  /** A number without its last `k` digits. */
  function LeadingDigits(n: nat, k: nat): nat {
    if k == 0 then n else LeadingDigits(n / 10, k - 1)
  }

  lemma {:induction false} ValueOfPrefix(s: string, k: nat)
    requires AllDigits(s) && k <= |s|
    ensures Value(s[..|s| - k]) == LeadingDigits(Value(s), k)
  {
    if k == 0 {
      assert s[..|s|] == s;
    } else {
      var t := s[..|s| - 1];
      ValueOfPrefix(t, k - 1);
      assert t[..|t| - (k - 1)] == s[..|s| - k];
    }
  }

  // ---------- file names ----------

  /** A name `Append` creates: the final name, or the temporary one with ".tmp" added. */
  datatype Name = Name(ns: nat, counter: nat, tmp: bool)

  function Extension(tmp: bool): string {
    if tmp then ".jsonl.gz.tmp" else ".jsonl.gz"
  }

  function Render(n: Name): string {
    Decimal(n.ns, 20) + ("-" + (Decimal(n.counter, 10) + Extension(n.tmp)))
  }

  predicate HasSuffix(s: string, t: string) {
    |t| <= |s| && s[|s| - |t|..] == t
  }

  /** The names `List` keeps. */
  predicate IsSpoolFile(s: string) {
    !HasSuffix(s, ".tmp") && HasSuffix(s, ".jsonl.gz")
  }

  lemma SuffixOf(a: string, b: string, t: string)
    requires |t| <= |b|
    ensures HasSuffix(a + b, t) <==> HasSuffix(b, t)
  {
    assert (a + b)[|a + b| - |t|..] == b[|b| - |t|..];
  }

  lemma RenderedKind(n: Name)
    ensures IsSpoolFile(Render(n)) <==> !n.tmp
    ensures HasSuffix(Render(n), ".tmp") <==> n.tmp
  {
    var a, e := Decimal(n.ns, 20) + ("-" + Decimal(n.counter, 10)), Extension(n.tmp);
    assert Render(n) == a + e;
    SuffixOf(a, e, ".tmp");
    SuffixOf(a, e, ".jsonl.gz");
    assert ".jsonl.gz"[5..] == "l.gz"[..] && ".jsonl.gz"[0..] == ".jsonl.gz";
    assert ".jsonl.gz.tmp"[9..] == ".tmp";
  }

  lemma {:induction false} SplitAtDash(a: string, b: string, x: string, y: string)
    requires '-' !in a && '-' !in b && a + ("-" + x) == b + ("-" + y)
    ensures a == b && x == y
  {
    var s, t := a + ("-" + x), b + ("-" + y);
    assert forall i :: 0 <= i < |a| ==> s[i] == a[i] != '-';
    assert forall i :: 0 <= i < |b| ==> t[i] == b[i] != '-';
    assert s[|a|] == '-' && t[|b|] == '-';
    assert a == s[..|a|] && b == t[..|b|];
    assert x == s[|a| + 1..] && y == t[|b| + 1..];
  }

  lemma DropSuffix(x: string, y: string, e: string)
    requires x + e == y + e
    ensures x == y
  {
    assert x == (x + e)[..|x + e| - |e|] && y == (y + e)[..|y + e| - |e|];
  }

  /** Two appends never share a name unless they share both the clock reading and the counter. */
  lemma RenderInjective(a: Name, b: Name)
    requires Render(a) == Render(b)
    ensures a == b
  {
    RenderedKind(a);
    RenderedKind(b);
    var e, x, y := Extension(a.tmp), Decimal(a.counter, 10), Decimal(b.counter, 10);
    SplitAtDash(Decimal(a.ns, 20), Decimal(b.ns, 20), x + e, y + e);
    DropSuffix(x, y, e);
    DecimalEqual(a.ns, b.ns, 20);
    DecimalEqual(a.counter, b.counter, 10);
  }

  /** Directory order: the byte order of the names. */
  predicate Before(a: Name, b: Name) {
    Less(Render(a), Render(b))
  }

  lemma BeforeIrreflexive(a: Name)
    ensures !Before(a, a)
  {
    LessIrreflexive(Render(a));
  }

  lemma BeforeTransitive(a: Name, b: Name, c: Name)
    requires Before(a, b) && Before(b, c)
    ensures Before(a, c)
  {
    LessTransitive(Render(a), Render(b), Render(c));
  }

  lemma BeforeTotal(a: Name, b: Name)
    ensures Before(a, b) || a == b || Before(b, a)
  {
    LessTotal(Render(a), Render(b));
    if Render(a) == Render(b) {
      RenderInjective(a, b);
    }
  }

  /** Chronological order: clock reading, then counter, final name before its own temporary. */
  predicate Older(a: Name, b: Name) {
    a.ns < b.ns
    || (a.ns == b.ns && a.counter < b.counter)
    || (a.ns == b.ns && a.counter == b.counter && !a.tmp && b.tmp)
  }

  lemma LessExtension(a: bool, b: bool)
    ensures Less(Extension(a), Extension(b)) <==> !a && b
  {
    LessIrreflexive(Extension(a));
    LessConcat(".jsonl.gz", ".jsonl.gz", "", ".tmp");
    LessConcat(".jsonl.gz", ".jsonl.gz", ".tmp", "");
    LessIrreflexive(".jsonl.gz");
    assert ".jsonl.gz" + "" == ".jsonl.gz" && ".jsonl.gz" + ".tmp" == ".jsonl.gz.tmp";
  }

  /** The clock is a non-negative int64, which "%020d" prints in 20 digits. */
  predicate ClockFits(n: Name) {
    n.ns < 0x8000_0000_0000_0000
  }

  /** The digits "%010d" takes for a counter. */
  function Width(counter: nat): nat {
    |Decimal(counter, 10)|
  }

  /**
   The one way byte order can go wrong: two files of one nanosecond whose counters have different
   widths, the older counter exceeding the leading digits of the newer.
   */
  predicate Misordered(a: Name, b: Name) {
    && a.ns == b.ns && a.counter < b.counter
    && Width(a.counter) < Width(b.counter)
    && a.counter > LeadingDigits(b.counter, Width(b.counter) - Width(a.counter))
  }

  /** The first 10^10 - 1 appends of a process are all ten digits wide. */
  lemma TenDigitsSuffice(a: Name, b: Name)
    requires a.counter < 1_00000_00000 && b.counter < 1_00000_00000
    ensures !Misordered(a, b)
  {
    assert Pow10(10) == 1_00000_00000;
    DecimalLength(a.counter, 10);
    DecimalLength(b.counter, 10);
  }

  lemma LessByHead(s: string, t: string)
    requires s != [] && t != [] && s[0] < t[0]
    ensures Less(s, t)
  {
  }

  /** How two counters compare as text, an extension following each. */
  lemma CounterOrder(x: nat, y: nat, e: string, f: string)
    requires x < y && e != [] && e[0] < '0'
    ensures Less(Decimal(x, 10) + e, Decimal(y, 10) + f)
            <==> Width(x) >= Width(y) || x <= LeadingDigits(y, Width(y) - Width(x))
  {
    hide Decimal, Less, Value;
    var X, Y := Decimal(x, 10), Decimal(y, 10);
    DecimalGrows(x, y, 10);
    var k := |Y| - |X|;
    var P, R := Y[..|X|], Y[|X|..];
    assert Y == P + R;
    assert Y + f == P + (R + f);
    ValueOfDecimal(x, 10);
    ValueOfDecimal(y, 10);
    ValueOfPrefix(Y, k);
    DigitsOrder(X, P);
    LessConcat(X, P, e, R + f);
    if k == 0 {
      assert P == Y;
    } else {
      LessByHead(e, R + f);
    }
  }

  lemma ClockOrder(a: Name, b: Name)
    requires ClockFits(a) && ClockFits(b)
    ensures Less(Decimal(a.ns, 20), Decimal(b.ns, 20)) <==> a.ns < b.ns
    ensures Decimal(a.ns, 20) == Decimal(b.ns, 20) <==> a.ns == b.ns
    ensures |Decimal(a.ns, 20)| == |Decimal(b.ns, 20)|
  {
    assert Pow10(10) == 1_00000_00000;
    assert Pow10(20) == 1_00000_00000_00000_00000;
    DecimalLength(a.ns, 20);
    DecimalLength(b.ns, 20);
    DigitsOrder(Decimal(a.ns, 20), Decimal(b.ns, 20));
    ValueOfDecimal(a.ns, 20);
    ValueOfDecimal(b.ns, 20);
  }

  /** The clock reading decides first, then the rest of the name. */
  lemma BeforeByParts(a: Name, b: Name)
    requires ClockFits(a) && ClockFits(b)
    ensures Before(a, b) <==> a.ns < b.ns || (a.ns == b.ns && Less(Tail(a), Tail(b)))
  {
    ClockOrder(a, b);
    LessConcat(Decimal(a.ns, 20), Decimal(b.ns, 20), "-" + Tail(a), "-" + Tail(b));
    LessConcat("-", "-", Tail(a), Tail(b));
    LessIrreflexive("-");
  }

  /** A name without its clock reading. */
  function Tail(n: Name): string {
    Decimal(n.counter, 10) + Extension(n.tmp)
  }

  lemma OlderIsBefore(a: Name, b: Name)
    requires ClockFits(a) && ClockFits(b) && Older(a, b)
    ensures Before(a, b) <==> !Misordered(a, b)
  {
    BeforeByParts(a, b);
    if a.ns == b.ns {
      if a.counter < b.counter {
        CounterOrder(a.counter, b.counter, Extension(a.tmp), Extension(b.tmp));
        DecimalGrows(a.counter, b.counter, 10);
      } else {
        var c := Decimal(a.counter, 10);
        LessConcat(c, c, Extension(a.tmp), Extension(b.tmp));
        LessIrreflexive(c);
        LessExtension(a.tmp, b.tmp);
      }
    }
  }

  /** Sorting names as strings, as `List` and `evict` do, sorts them chronologically but for misordered pairs. */
  lemma ByteOrderIsChronological(a: Name, b: Name)
    requires ClockFits(a) && ClockFits(b)
    ensures Before(a, b) <==> if Older(a, b) then !Misordered(a, b) else Misordered(b, a)
  {
    if Older(a, b) {
      OlderIsBefore(a, b);
    } else if a == b {
      BeforeIrreflexive(a);
    } else {
      OlderIsBefore(b, a);
      BeforeTotal(a, b);
      if Before(a, b) && Before(b, a) {
        BeforeTransitive(a, b, a);
        BeforeIrreflexive(a);
      }
    }
  }

  /** The counter's width is a real limit: append 10^10 sorts before the one preceding it in the same nanosecond. */
  lemma CounterOverflowBreaksOrder()
    ensures var a, b := Name(0, 99999_99999, false), Name(0, 1_00000_00000, false);
      Older(a, b) && Before(b, a)
  {
    var a, b := Name(0, 99999_99999, false), Name(0, 1_00000_00000, false);
    assert Pow10(10) == 1_00000_00000;
    DecimalLength(99999_99999, 10);
    assert Width(1_00000_00000) == 11;
    assert LeadingDigits(1_00000_00000, 1) == 1000_000_000;
    ByteOrderIsChronological(b, a);
  }
}
