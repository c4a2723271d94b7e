/** What the two syslog parsers share: internal/parser/syslog_common.go and the Go string helpers they use. */
module Syslog {
  import opened Collections
  import opened Entries
  import opened Names

  datatype Error = InvalidFormat | TruncatedLine | InvalidPriority

  datatype Result<+T> = Ok(value: T) | Err(error: Error)

  // ---------- searching strings ----------

  /** strings.IndexAny: the first position of a character of `cs`, or the length if there is none. */
  function IndexAny(s: string, cs: string): (i: nat)
    ensures i <= |s| && (forall k :: 0 <= k < i ==> s[k] !in cs) && (i < |s| ==> s[i] in cs)
  {
    if s == "" || s[0] in cs then 0 else 1 + IndexAny(s[1..], cs)
  }

  lemma {:induction false} IndexAfter(a: string, b: string, cs: string)
    requires forall k :: 0 <= k < |a| ==> a[k] !in cs
    requires b == "" || b[0] in cs
    ensures IndexAny(a + b, cs) == |a|
  {
    var s := a + b;
    assert forall k :: 0 <= k < |a| ==> s[k] == a[k];
    assert b != "" ==> s[|a|] == b[0];
  }

  predicate Free(s: string, cs: string) {
    forall k :: 0 <= k < |s| ==> s[k] !in cs
  }

  predicate AllDigits(s: string) {
    forall i :: 0 <= i < |s| ==> '0' <= s[i] <= '9'
  }

  // ---------- strconv.Atoi ----------

  /** An int64 in decimal with an optional sign. */
  function Atoi(s: string): Option<int> {
    var signed := s != "" && (s[0] == '+' || s[0] == '-');
    var digits := if signed then s[1..] else s;
    if digits == "" || !AllDigits(digits) then None
    else
      var n: int := if signed && s[0] == '-' then -(Value(digits) as int) else Value(digits);
      if -0x8000_0000_0000_0000 <= n < 0x8000_0000_0000_0000 then Some(n) else None
  }

  lemma AtoiOfDecimal(n: nat)
    requires n < 0x8000_0000_0000_0000
    ensures Atoi(Decimal(n, 1)) == Some(n)
  {
    ValueOfDecimal(n, 1);
  }

  lemma AtoiOfDigits(d: string)
    requires d != "" && AllDigits(d)
    ensures Atoi(d) == if Value(d) < 0x8000_0000_0000_0000 then Some(Value(d)) else None
    ensures Atoi("+" + d) == if Value(d) < 0x8000_0000_0000_0000 then Some(Value(d)) else None
    ensures Atoi("-" + d) == if Value(d) <= 0x8000_0000_0000_0000 then Some(0 - Value(d) as int) else None
  {
    hide Value;
    assert ("-" + d)[1..] == d && ("+" + d)[1..] == d;
  }

  /** A sign may stand before the digits, and the value must be an int64. */
  lemma AtoiOfSigned(n: nat)
    ensures Atoi(Decimal(n, 1)) == if n < 0x8000_0000_0000_0000 then Some(n) else None
    ensures Atoi("+" + Decimal(n, 1)) == if n < 0x8000_0000_0000_0000 then Some(n) else None
    ensures Atoi("-" + Decimal(n, 1)) == if n <= 0x8000_0000_0000_0000 then Some(0 - n as int) else None
  {
    hide Atoi, Value;
    ValueOfDecimal(n, 1);
    AtoiOfDigits(Decimal(n, 1));
  }

  /** Anything but digits behind an optional sign is no number. */
  lemma AtoiRefuses(s: string)
    requires s == "" || s == "-" || s == "+" || exists i :: 0 < i < |s| && !('0' <= s[i] <= '9')
    ensures Atoi(s) == None
  {
    if i :| 0 < i < |s| && !('0' <= s[i] <= '9') {
      assert s[1..][i - 1] == s[i];
    }
  }

  lemma AtoiRefusesStart(s: string)
    requires s != "" && !('0' <= s[0] <= '9') && s[0] != '-' && s[0] != '+'
    ensures Atoi(s) == None
  {
  }

  // ---------- PRI ----------

  const MAX_PRIORITY: nat := 191

  /** The first position from `i` on that is not a digit. */
  function DigitsEnd(s: string, i: nat): (e: nat)
    requires i <= |s|
    ensures i <= e <= |s| && AllDigits(s[i..e]) && (e < |s| ==> !('0' <= s[e] <= '9'))
    decreases |s| - i
  {
    if i < |s| && '0' <= s[i] <= '9' then
      var e := DigitsEnd(s, i + 1);
      assert s[i..e] == [s[i]] + s[i + 1..e];
      e
    else i
  }

  /** "<" 1*3DIGIT ">" with a value of at most 191: the rest of the line and the value. */
  function Priority(s: string): (r: Result<(string, nat)>)
    ensures r.Ok? ==> r.value.1 <= MAX_PRIORITY
  {
    if |s| < 3 || s[0] != '<' then Err(InvalidFormat)
    else
      var end := DigitsEnd(s, 1);
      if end < |s| && s[end] == '>' && 2 <= end <= 4 && Value(s[1..end]) <= MAX_PRIORITY
      then Ok((s[end + 1..], Value(s[1..end])))
      else Err(InvalidPriority)
  }

  lemma DigitsEndIs(s: string, i: nat, e: nat)
    requires i <= e <= |s| && AllDigits(s[i..e]) && (e < |s| ==> !('0' <= s[e] <= '9'))
    ensures DigitsEnd(s, i) == e
  {
    var d := DigitsEnd(s, i);
    assert forall k :: i <= k < e ==> s[k] == s[i..e][k - i];
    assert forall k :: i <= k < d ==> s[k] == s[i..d][k - i];
  }

  lemma ValueSnoc(s: string, i: nat, k: nat)
    requires i <= k < |s| && AllDigits(s[i..k + 1])
    ensures AllDigits(s[i..k])
    ensures Value(s[i..k + 1]) == 10 * Value(s[i..k]) + (s[k] as int - '0' as int)
  {
    var t := s[i..k + 1];
    assert t[..|t| - 1] == s[i..k];
    assert forall j :: 0 <= j < |s[i..k]| ==> s[i..k][j] == t[j];
  }

  /** The digits stop at `end`, at a bracket. */
  lemma PriorityAt(s: string, end: nat)
    requires 1 <= end <= 4 && end < |s| && |s| >= 3 && s[0] == '<' && AllDigits(s[1..end]) && s[end] == '>'
    ensures Priority(s) == if end == 1 || Value(s[1..end]) > MAX_PRIORITY then Err(InvalidPriority)
                           else Ok((s[end + 1..], Value(s[1..end])))
  {
    hide Value;
    DigitsEndIs(s, 1, end);
  }

  /** The digits stop at `i`, at the end or before something else, or there are too many. */
  lemma PriorityNowhere(s: string, i: nat)
    requires 1 <= i <= |s| && |s| >= 3 && s[0] == '<' && AllDigits(s[1..i])
    requires i >= 5 || i == |s| || (s[i] != '>' && !('0' <= s[i] <= '9'))
    ensures Priority(s) == Err(InvalidPriority)
  {
    hide Value;
    assert forall k :: 1 <= k < i ==> s[k] == s[1..i][k - 1];
    if i < 5 {
      DigitsEndIs(s, 1, i);
    }
  }

  /** `parsePriorityField` as written: one pass over at most four characters. */
  method ParsePriorityField(s: string) returns (r: Result<(string, nat)>)
    ensures r == Priority(s)
  {
    if |s| < 3 || s[0] != '<' { return Err(InvalidFormat); }
    var end, prio, i := 0, 0, 1;
    assert s[1..1] == [] && Value([]) == 0;
    hide Value, Priority, AllDigits;
    assert AllDigits(s[1..1]) by { NoDigits(); }
    while i < |s| && i <= 4
      invariant 1 <= i <= 5 && i <= |s|
      invariant AllDigits(s[1..i]) && prio == Value(s[1..i])
      invariant end == 0
    {
      var c := s[i];
      if c == '>' {
        PriorityAt(s, i);
        end := i;
        break;
      }
      if c < '0' || c > '9' {
        PriorityNowhere(s, i);
        return Err(InvalidPriority);
      }
      OneMoreDigit(s, i);
      prio := prio * 10 + (c as int - '0' as int);
      i := i + 1;
    }
    if end == 0 {
      PriorityNowhere(s, i);
      return Err(InvalidPriority);
    }
    if end == 1 || prio > MAX_PRIORITY { return Err(InvalidPriority); }
    return Ok((s[end + 1..], prio));
  }

  lemma NoDigits()
    ensures AllDigits([])
  {
  }

  lemma OneMoreDigit(s: string, i: nat)
    requires 1 <= i < |s| && AllDigits(s[1..i]) && '0' <= s[i] <= '9'
    ensures AllDigits(s[1..i + 1])
    ensures Value(s[1..i + 1]) == 10 * Value(s[1..i]) + (s[i] as int - '0' as int)
  {
    assert s[1..i + 1] == s[1..i] + [s[i]];
    ValueSnoc(s, 1, i);
  }

  /** One to three digits of value at most 191 in angle brackets, leading zeros or not, are accepted. */
  lemma PriorityAccepts(d: string, rest: string)
    requires AllDigits(d) && 1 <= |d| <= 3 && Value(d) <= 191
    ensures Priority("<" + d + (">" + rest)) == Ok((rest, Value(d)))
  {
    var s := "<" + d + (">" + rest);
    assert s[1..1 + |d|] == d;
    DigitsEndIs(s, 1, 1 + |d|);
    assert s[|d| + 2..] == rest;
  }

  /** Nothing else is. */
  lemma PriorityIsGrammatical(s: string)
    ensures Priority(s) == Err(InvalidFormat) <==> |s| < 3 || s[0] != '<'
    ensures Priority(s).Ok? ==>
              exists d :: AllDigits(d) && 1 <= |d| <= 3 && Value(d) <= 191
                          && s == "<" + d + (">" + Priority(s).value.0) && Priority(s).value.1 == Value(d)
  {
    if Priority(s).Ok? {
      var end := DigitsEnd(s, 1);
      var d := s[1..end];
      assert s == "<" + d + (">" + s[end + 1..]);
    }
  }

  function PrintPriority(n: nat): string {
    "<" + Decimal(n, 1) + ">"
  }

  lemma ShortDecimal(n: nat)
    requires n <= MAX_PRIORITY
    ensures 1 <= |Decimal(n, 1)| <= 3
  {
    if n >= 10 {
      var m := n / 10;
      assert Decimal(n, 1) == Decimal(m, 0) + [Digit(n % 10)];
      if m >= 10 {
        assert m / 10 < 10;
        assert Decimal(m, 0) == Decimal(m / 10, 0) + [Digit(m % 10)];
        assert Decimal(m / 10, 0) == [Digit(m / 10)];
      }
    }
  }

  lemma PriorityRoundTrip(n: nat, rest: string)
    requires n <= MAX_PRIORITY
    ensures Priority(PrintPriority(n) + rest) == Ok((rest, n))
  {
    var d := Decimal(n, 1);
    var s := PrintPriority(n) + rest;
    ShortDecimal(n);
    ValueOfDecimal(n, 1);
    assert s[1..1 + |d|] == d;
    DigitsEndIs(s, 1, 1 + |d|);
    assert s[|d| + 2..] == rest;
  }

  /** Every severity has its level; anything else counts as a warning. */
  function SeverityToLevel(severity: int): Level {
    match severity
    case 0 => Emergency
    case 1 => Alert
    case 2 => Critical
    case 3 => Level.Error
    case 4 => Warning
    case 5 => Notice
    case 6 => Info
    case 7 => Debug
    case _ => Warning
  }

  /** Numerical severities, table 2 in section 6.2.1 of RFC 5424. */
  function Severity(l: Level): nat {
    match l
    case Emergency => 0
    case Alert => 1
    case Critical => 2
    case Error => 3
    case Warning => 4
    case Notice => 5
    case Info => 6
    case Debug => 7
  }

  /** Levels and severities correspond one to one; an unknown severity reads as a warning. */
  lemma SeverityRoundTrip(l: Level, n: int)
    ensures SeverityToLevel(Severity(l)) == l
    ensures 0 <= n <= 7 ==> Severity(SeverityToLevel(n)) == n
    ensures !(0 <= n <= 7) ==> SeverityToLevel(n) == Warning
  {
  }

  // ---------- line ends ----------

  function TrimTrailingNewline(line: string): string {
    var n := |line|;
    var line1 := if n > 0 && line[n - 1] == '\n' then line[..n - 1] else line;
    var m := |line1|;
    if m > 0 && line1[m - 1] == '\r' then line1[..m - 1] else line1
  }

  predicate NoLineEnd(s: string) {
    s != "" ==> s[|s| - 1] != '\n' && s[|s| - 1] != '\r'
  }

  /** A line may come with no terminator, with LF or with CR LF. */
  predicate IsLineEnd(eol: string) {
    eol == "" || eol == "\n" || eol == "\r\n"
  }

  /** One terminator is removed, and no more: what stands before a CR LF is kept whatever it is. */
  lemma TrimUndoes(s: string, eol: string)
    requires IsLineEnd(eol)
    requires eol != "\r\n" ==> s != "" ==> s[|s| - 1] != '\r'
    requires eol == "" ==> NoLineEnd(s)
    ensures TrimTrailingNewline(s + eol) == s
  {
    var line := s + eol;
    if eol == "\r\n" {
      assert line[..|line| - 1] == s + "\r";
      assert (s + "\r")[..|s|] == s;
    } else if eol == "\n" {
      assert line[..|line| - 1] == s;
    } else {
      assert line == s;
    }
  }
}
