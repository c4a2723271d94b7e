/**
 The two ways journal export text is cut into records: the streaming splitter of
 internal/source/journal.go and the blank-line split of internal/oneshot/sources.go.
 Text is a sequence of Unicode characters.
 */
module JournalSplitting {
  import opened Collections
  import opened Syslog

  // ---------- lines and groups of lines ----------

  /** strings.Split(t, "\n") */
  function SplitLines(t: string): (ls: seq<string>)
    ensures ls != []
    decreases |t|
  {
    var i := IndexAny(t, "\n");
    if i == |t| then [t] else [t[..i]] + SplitLines(t[i + 1..])
  }

  function NonEmpty(ls: seq<string>): seq<string> {
    if ls == [] then [] else (if ls[0] == "" then [] else [ls[0]]) + NonEmpty(ls[1..])
  }

  /** The lines a record gives the parser. */
  function RecordLines(r: string): seq<string> {
    NonEmpty(SplitLines(r))
  }

  /** Maximal runs of non-empty lines. */
  function Groups(ls: seq<string>): (gs: seq<seq<string>>)
    ensures ls != [] && ls[0] != "" ==> gs != [] && gs[0] != [] && gs[0][0] == ls[0]
  {
    if ls == [] then []
    else if ls[0] == "" then Groups(ls[1..])
    else if |ls| > 1 && ls[1] != "" then
      var gs := Groups(ls[1..]);
      [[ls[0]] + gs[0]] + gs[1..]
    else [[ls[0]]] + Groups(ls[1..])
  }

  /** The records of an export text: groups of lines separated by blank ones. */
  function Records(t: string): seq<seq<string>> {
    Groups(SplitLines(t))
  }

  lemma SplitFirst(l: string, rest: string)
    requires Free(l, "\n")
    ensures SplitLines(l + "\n" + rest) == [l] + SplitLines(rest)
  {
    var t := l + "\n" + rest;
    assert t == l + ("\n" + rest);
    IndexAfter(l, "\n" + rest, "\n");
    assert t[..|l|] == l && t[|l| + 1..] == rest;
  }

  lemma {:induction false} SplitLinesAt(a: string, b: string)
    ensures SplitLines(a + "\n" + b) == SplitLines(a) + SplitLines(b)
    decreases |a|
  {
    hide SplitLines;
    var i := IndexAny(a, "\n");
    if i == |a| {
      SplitOneLine(a);
      SplitFirst(a, b);
    } else {
      var l, a' := a[..i], a[i + 1..];
      assert a == l + "\n" + a';
      assert a + "\n" + b == l + "\n" + (a' + "\n" + b);
      SplitFirst(l, a');
      SplitFirst(l, a' + "\n" + b);
      SplitLinesAt(a', b);
    }
  }

  lemma SplitOneLine(l: string)
    requires Free(l, "\n")
    ensures SplitLines(l) == [l]
  {
    IndexAfter(l, "", "\n");
    assert l + "" == l;
  }

  lemma {:induction false} NonEmptyConcat(a: seq<string>, b: seq<string>)
    ensures NonEmpty(a + b) == NonEmpty(a) + NonEmpty(b)
  {
    if a == [] {
      assert a + b == b;
    } else {
      assert (a + b)[1..] == a[1..] + b;
      NonEmptyConcat(a[1..], b);
    }
  }

  /** One more line in front: it opens a group of its own, or joins the first one. */
  lemma GroupsCons(l: string, ls: seq<string>)
    ensures var gs := Groups(ls);
      Groups([l] + ls) ==
        if l == "" then gs
        else if ls != [] && ls[0] != "" then [[l] + gs[0]] + gs[1..]
        else [[l]] + gs
  {
    assert ([l] + ls)[1..] == ls;
  }

  /** A blank line separates. */
  lemma {:induction false} GroupsAtBlank(a: seq<string>, b: seq<string>)
    ensures Groups(a + [""] + b) == Groups(a) + Groups(b)
  {
    hide Groups;
    GroupsOfNone();
    if a == [] {
      assert a + [""] + b == [""] + b;
      GroupsCons("", b);
    } else {
      var l, rest := a[0], a[1..];
      assert a == [l] + rest && a + [""] + b == [l] + (rest + [""] + b);
      GroupsAtBlank(rest, b);
      GroupsCons(l, rest);
      GroupsCons(l, rest + [""] + b);
      assert rest != [] ==> (rest + [""] + b)[0] == rest[0];
    }
  }

  lemma GroupsOfNone()
    ensures Groups([]) == []
  {
  }

  predicate NoBlank(ls: seq<string>) {
    forall i :: 0 <= i < |ls| ==> ls[i] != ""
  }

  lemma {:induction false} GroupOfNonBlank(ls: seq<string>)
    requires NoBlank(ls)
    ensures Groups(ls) == (if ls == [] then [] else [ls]) && NonEmpty(ls) == ls
  {
    if ls != [] {
      GroupOfNonBlank(ls[1..]);
      assert [ls[0]] + ls[1..] == ls;
      if |ls| > 1 {
        assert ls[1..][0] == ls[1];
        assert Groups(ls[1..])[1..] == [];
      } else {
        assert ls[1..] == [] && ls == [ls[0]];
      }
    }
  }

  // ---------- the streaming splitter ----------

  /** Lines as the builder holds them. */
  function Joined(ls: seq<string>): string {
    if ls == [] then "" else Joined(ls[..|ls| - 1]) + (ls[|ls| - 1] + "\n")
  }

  lemma JoinedSnoc(ls: seq<string>, l: string)
    ensures Joined(ls + [l]) == Joined(ls) + (l + "\n")
  {
    assert (ls + [l])[..|ls|] == ls;
  }

  ghost predicate AllLines(ls: seq<string>) {
    forall i :: 0 <= i < |ls| ==> ls[i] != "" && Free(ls[i], "\n")
  }

  /** A record followed by an unterminated last line. */
  lemma {:induction false} LinesOfJoined(ls: seq<string>, last: string)
    requires AllLines(ls) && Free(last, "\n")
    ensures RecordLines(Joined(ls) + last) == ls + if last == "" then [] else [last]
    decreases |ls|
  {
    hide SplitLines, NonEmpty, Free;
    SplitOneLine(last);
    NonEmptyOne(last);
    if ls == [] {
      assert Joined(ls) + last == last;
    } else {
      var init, l := ls[..|ls| - 1], ls[|ls| - 1];
      assert Joined(ls) + last == (Joined(init) + l) + "\n" + last;
      SplitLinesAt(Joined(init) + l, last);
      NonEmptyConcat(SplitLines(Joined(init) + l), SplitLines(last));
      LinesOfJoined(init, l);
      assert ls == init + [l];
    }
  }

  lemma {:induction false} SplitJoined(ls: seq<string>, rest: string)
    requires AllLines(ls)
    ensures SplitLines(Joined(ls) + rest) == ls + SplitLines(rest)
    decreases |ls|
  {
    hide SplitLines;
    if ls == [] {
      assert Joined(ls) + rest == rest;
    } else {
      var init, l := ls[..|ls| - 1], ls[|ls| - 1];
      assert Joined(ls) + rest == Joined(init) + (l + "\n" + rest);
      SplitJoined(init, l + "\n" + rest);
      SplitFirst(l, rest);
      assert ls == init + [l];
    }
  }

  /** Records as the journal exports them, a blank line behind each. */
  function PrintRecords(gs: seq<seq<string>>): string {
    if gs == [] then "" else Joined(gs[0]) + ("\n" + PrintRecords(gs[1..]))
  }

  /** Printed records are found again, each with exactly its lines. */
  lemma {:induction false} RecordsReadBack(gs: seq<seq<string>>)
    requires forall i :: 0 <= i < |gs| ==> gs[i] != [] && AllLines(gs[i])
    ensures Records(PrintRecords(gs)) == gs
  {
    hide SplitLines, Groups;
    if gs == [] {
      SplitOneLine("");
      GroupsCons("", []);
      GroupsOfNone();
      assert [""] + [] == [""];
    } else {
      var g, more := gs[0], PrintRecords(gs[1..]);
      RecordsReadBack(gs[1..]);
      SplitJoined(g, "\n" + more);
      SplitFirst("", more);
      assert "" + "\n" + more == "\n" + more;
      assert g + ([""] + SplitLines(more)) == g + [""] + SplitLines(more);
      GroupsAtBlank(g, SplitLines(more));
      GroupOfNonBlank(g);
      assert gs == [g] + gs[1..];
    }
  }

  function LinesOfAll(rs: seq<string>): seq<seq<string>> {
    seq(|rs|, i requires 0 <= i < |rs| => RecordLines(rs[i]))
  }

  lemma LinesOfAllSnoc(rs: seq<string>, r: string)
    ensures LinesOfAll(rs + [r]) == LinesOfAll(rs) + [RecordLines(r)]
  {
  }

  /** The state of the loop: what is emitted, what is held, what is still to come. */
  ghost predicate Consuming(t: string, out: seq<string>, held: seq<string>, rest: string) {
    AllLines(held) && LinesOfAll(out) + Groups(held + SplitLines(rest)) == Records(t)
  }

  lemma CutLine(rest: string, i: nat)
    requires i == IndexAny(rest, "\n") < |rest|
    ensures rest == rest[..i] + "\n" + rest[i + 1..] && Free(rest[..i], "\n")
  {
    hide IndexAny;
    assert rest[i] in "\n";
    CutAt(rest, i, '\n');
  }

  lemma CutAt(s: string, i: nat, c: char)
    requires i < |s| && s[i] == c
    ensures s == s[..i] + [c] + s[i + 1..]
  {
  }

  lemma AllLinesSnoc(ls: seq<string>, l: string)
    requires AllLines(ls) && l != "" && Free(l, "\n")
    ensures AllLines(ls + [l])
  {
    hide Free;
  }

  lemma NonEmptyOne(l: string)
    ensures NonEmpty([l]) == if l == "" then [] else [l]
  {
  }

  lemma ConsumeLine(t: string, out: seq<string>, held: seq<string>, rest: string, i: nat)
    requires Consuming(t, out, held, rest) && i == IndexAny(rest, "\n") < |rest| && i > 0
    ensures Consuming(t, out, held + [rest[..i]], rest[i + 1..])
  {
    hide Groups, LinesOfAll, SplitLines, AllLines, Free, Records;
    var l, more := rest[..i], rest[i + 1..];
    CutLine(rest, i);
    AllLinesSnoc(held, l);
    SplitFirst(l, more);
    assert held + ([l] + SplitLines(more)) == held + [l] + SplitLines(more);
  }

  lemma ConsumeBlank(t: string, out: seq<string>, held: seq<string>, rest: string)
    requires Consuming(t, out, held, rest) && rest != "" && IndexAny(rest, "\n") == 0
    ensures Consuming(t, if held == [] then out else out + [Joined(held)], [], rest[1..])
  {
    hide Groups, RecordLines, LinesOfAll, SplitLines, NonEmpty;
    var more := SplitLines(rest[1..]);
    assert rest == "" + "\n" + rest[1..];
    SplitFirst("", rest[1..]);
    assert held + ([""] + more) == held + [""] + more;
    GroupsAtBlank(held, more);
    GroupOfNonBlank(held);
    assert [] + more == more;
    if held != [] {
      LinesOfJoined(held, "");
      assert Joined(held) + "" == Joined(held) && held + [] == held;
      LinesOfAllSnoc(out, Joined(held));
      assert LinesOfAll(out) + ([held] + Groups(more)) == LinesOfAll(out) + [held] + Groups(more);
    } else {
      assert [] + Groups(more) == Groups(more);
    }
  }

  lemma ConsumeEnd(t: string, out: seq<string>, held: seq<string>, rest: string)
    requires Consuming(t, out, held, rest) && Free(rest, "\n")
    ensures var buf := Joined(held) + rest;
      LinesOfAll(if buf == "" then out else out + [buf]) == Records(t)
      && (buf == "" <==> held == [] && rest == "")
  {
    hide RecordLines, LinesOfAll, SplitLines, Groups;
    var buf := Joined(held) + rest;
    SplitOneLine(rest);
    LinesOfJoined(held, rest);
    var ls := held + if rest == "" then [] else [rest];
    assert Groups(held + [rest]) == Groups(ls) by {
      if rest == "" {
        GroupsAtBlank(held, []);
        GroupOfNonBlank([]);
        assert held + [""] + [] == held + [""] && ls == held;
        assert Groups(held) + [] == Groups(held);
      }
    }
    GroupOfNonBlank(ls);
    LinesOfAllSnoc(out, buf);
    assert held != [] ==> Joined(held) != "";
  }

  /** `consume`: reads line by line, emits what it holds at every blank line and at the end. */
  method Consume(t: string) returns (out: seq<string>)
    ensures LinesOfAll(out) == Records(t)
    ensures forall i :: 0 <= i < |out| ==> out[i] != ""
  {
    hide Groups, LinesOfAll, RecordLines;
    var buf, rest := "", t;
    out := [];
    ghost var held: seq<string> := [];
    StartConsuming(t);
    while true
      invariant Consuming(t, out, held, rest) && buf == Joined(held)
      invariant forall i :: 0 <= i < |out| ==> out[i] != ""
      decreases |rest|
    {
      var i := IndexAny(rest, "\n");
      if i == |rest| {
        ConsumeEnd(t, out, held, rest);
        buf := buf + rest;
        if buf != "" {
          out := out + [buf];
        }
        return;
      }
      if i == 0 {
        ConsumeBlank(t, out, held, rest);
        if buf != "" {
          out := out + [buf];
          buf := "";
        }
        held := [];
      } else {
        ConsumeLine(t, out, held, rest, i);
        JoinedSnoc(held, rest[..i]);
        buf := buf + (rest[..i] + "\n");
        held := held + [rest[..i]];
      }
      rest := rest[i + 1..];
    }
  }

  lemma StartConsuming(t: string)
    ensures Consuming(t, [], [], t)
  {
    assert [] + SplitLines(t) == SplitLines(t);
    assert [] + Records(t) == Records(t);
  }

  // ---------- the blank-line split ----------

  /** The first "\n\n" at or after `i`, or the end. */
  function DoubleNewline(t: string, i: nat): (j: nat)
    requires i <= |t|
    ensures i <= j <= |t|
    ensures j < |t| ==> j + 1 < |t| && t[j] == '\n' && t[j + 1] == '\n'
    ensures forall k :: i <= k < j && k + 1 < |t| ==> !(t[k] == '\n' && t[k + 1] == '\n')
    decreases |t| - i
  {
    if i + 1 >= |t| then |t|
    else if t[i] == '\n' && t[i + 1] == '\n' then i
    else DoubleNewline(t, i + 1)
  }

  /** strings.Split(t, "\n\n") */
  function SplitBlank(t: string): (ps: seq<string>)
    decreases |t|
  {
    var i := DoubleNewline(t, 0);
    if i == |t| then [t] else [t[..i]] + SplitBlank(t[i + 2..])
  }

  /** unicode.IsSpace */
  predicate IsSpace(c: char) {
    c in "\t\n\U{b}\U{c}\r \U{85}\U{a0}\U{1680}\U{2028}\U{2029}\U{202f}\U{205f}\U{3000}"
    || '\U{2000}' <= c <= '\U{200a}'
  }

  function TrimLeft(s: string): string {
    if s != "" && IsSpace(s[0]) then TrimLeft(s[1..]) else s
  }

  function TrimRight(s: string): string {
    if s != "" && IsSpace(s[|s| - 1]) then TrimRight(s[..|s| - 1]) else s
  }

  /** strings.TrimSpace */
  function TrimSpace(s: string): string {
    TrimRight(TrimLeft(s))
  }

  function TrimmedPieces(ps: seq<string>): seq<string> {
    if ps == [] then []
    else (if TrimSpace(ps[0]) == "" then [] else [TrimSpace(ps[0])]) + TrimmedPieces(ps[1..])
  }

  /** The record loop of `JournalSource.Read`. */
  method SplitRecords(t: string) returns (out: seq<string>)
    ensures out == TrimmedPieces(SplitBlank(t))
  {
    hide SplitBlank, TrimSpace;
    var pieces := SplitBlank(t);
    out := [];
    for i := 0 to |pieces|
      invariant out + TrimmedPieces(pieces[i..]) == TrimmedPieces(pieces)
    {
      var rec := TrimSpace(pieces[i]);
      assert pieces[i..][1..] == pieces[i + 1..];
      if rec != "" {
        out := out + [rec];
      }
    }
  }

  // ---------- one piece is one record ----------

  /** Only the first and the last line may be blank. */
  predicate SolidInside(ls: seq<string>) {
    forall k :: 0 < k < |ls| - 1 ==> ls[k] != ""
  }

  predicate NoDouble(p: string) {
    forall k :: 0 <= k && k + 1 < |p| ==> !(p[k] == '\n' && p[k + 1] == '\n')
  }

  lemma {:induction false} PieceIsSolid(p: string)
    requires NoDouble(p)
    ensures SolidInside(SplitLines(p))
    ensures SplitLines(p)[0] == "" ==> p == "" || p[0] == '\n'
    decreases |p|
  {
    var i := IndexAny(p, "\n");
    if i < |p| {
      var rest := p[i + 1..];
      assert NoDouble(rest) by { assert forall k :: 0 <= k < |rest| ==> rest[k] == p[i + 1 + k]; }
      PieceIsSolid(rest);
      assert rest != "" ==> rest[0] == p[i + 1] != '\n';
      assert rest == "" ==> SplitLines(rest) == [""];
    }
  }

  lemma BlankFirst(ls: seq<string>)
    requires ls != [] && ls[0] == ""
    ensures Groups(ls) == Groups(ls[1..]) && NonEmpty(ls) == NonEmpty(ls[1..])
  {
  }

  lemma BlankLast(ls: seq<string>)
    requires ls != [] && ls[|ls| - 1] == ""
    ensures Groups(ls) == Groups(ls[..|ls| - 1]) && NonEmpty(ls) == NonEmpty(ls[..|ls| - 1])
  {
    hide Groups, NonEmpty;
    var b := ls[..|ls| - 1];
    assert ls == b + [""] + [] && ls == b + [""];
    GroupsAtBlank(b, []);
    GroupOfNonBlank([]);
    NonEmptyConcat(b, [""]);
    NonEmptyOne("");
  }

  lemma SolidIsOneGroup(ls: seq<string>)
    requires SolidInside(ls)
    ensures Groups(ls) == if NonEmpty(ls) == [] then [] else [NonEmpty(ls)]
    decreases |ls|
  {
    hide Groups, NonEmpty;
    if ls != [] && ls[0] == "" {
      BlankFirst(ls);
      assert SolidInside(ls[1..]) by { assert forall k :: 0 <= k < |ls| - 1 ==> ls[1..][k] == ls[k + 1]; }
      SolidIsOneGroup(ls[1..]);
    } else if ls != [] && ls[|ls| - 1] == "" {
      BlankLast(ls);
      assert SolidInside(ls[..|ls| - 1]);
      SolidIsOneGroup(ls[..|ls| - 1]);
    } else {
      GroupOfNonBlank(ls);
    }
  }

  // ---------- trimming ----------

  /** A record's first line does not start, and its last line does not end, with white space. */
  predicate Tidy(g: seq<string>) {
    g != [] && g[0] != "" && !IsSpace(g[0][0])
    && g[|g| - 1] != "" && !IsSpace(g[|g| - 1][|g[|g| - 1]| - 1])
  }

  lemma {:induction false} TrimLeftKeepsLines(p: string)
    requires var g := RecordLines(p); g == [] || (g[0] != "" && !IsSpace(g[0][0]))
    ensures RecordLines(TrimLeft(p)) == RecordLines(p)
    ensures RecordLines(p) == [] ==> TrimLeft(p) == ""
    decreases |p|
  {
    hide IsSpace;
    if p != "" {
      if p[0] == '\n' {
        assert p == "" + "\n" + p[1..];
        SplitFirst("", p[1..]);
        NonEmptyConcat([""], SplitLines(p[1..]));
        NonEmptyOne("");
        TrimLeftKeepsLines(p[1..]);
        assert IsSpace('\n') by { NewlineIsSpace(); }
      } else {
        FirstLineStarts(p);
      }
    }
  }

  lemma NewlineIsSpace()
    ensures IsSpace('\n')
  {
  }

  lemma FirstLineStarts(p: string)
    requires p != "" && p[0] != '\n'
    ensures var g := RecordLines(p); g != [] && g[0] != "" && g[0][0] == p[0]
  {
    var i := IndexAny(p, "\n");
    assert i > 0 && SplitLines(p)[0] == p[..i];
  }

  /** The last character of the last line of a record. */
  predicate EndsWith(g: seq<string>, c: char) {
    g != [] && g[|g| - 1] != "" && g[|g| - 1][|g[|g| - 1]| - 1] == c
  }

  lemma EndsWithTail(a: seq<string>, b: seq<string>, c: char)
    requires EndsWith(b, c)
    ensures EndsWith(a + b, c)
  {
  }

  lemma {:induction false} LastLineEnds(p: string)
    requires p != "" && p[|p| - 1] != '\n'
    ensures EndsWith(RecordLines(p), p[|p| - 1])
    decreases |p|
  {
    hide SplitLines, NonEmpty, Free, EndsWith;
    var i := IndexAny(p, "\n");
    if i == |p| {
      assert Free(p, "\n") by { NoNewline(p); }
      SplitOneLine(p);
      NonEmptyOne(p);
      EndsItself(p);
    } else {
      var l, rest := p[..i], p[i + 1..];
      CutLine(p, i);
      SplitFirst(l, rest);
      NonEmptyConcat([l], SplitLines(rest));
      assert p[i] in "\n";
      assert rest != "" && rest[|rest| - 1] == p[|p| - 1];
      LastLineEnds(rest);
      EndsWithTail(NonEmpty([l]), RecordLines(rest), p[|p| - 1]);
    }
  }

  lemma NoNewline(p: string)
    requires IndexAny(p, "\n") == |p|
    ensures Free(p, "\n")
  {
  }

  lemma EndsItself(p: string)
    requires p != ""
    ensures EndsWith([p], p[|p| - 1])
  {
  }

  lemma {:induction false} TrimRightKeepsLines(p: string)
    requires var g := RecordLines(p);
      g == [] || (g[|g| - 1] != "" && !IsSpace(g[|g| - 1][|g[|g| - 1]| - 1]))
    ensures RecordLines(TrimRight(p)) == RecordLines(p)
    ensures RecordLines(p) == [] ==> TrimRight(p) == ""
    decreases |p|
  {
    hide IsSpace, RecordLines;
    EmptyRecord();
    if p != "" {
      var q := p[..|p| - 1];
      if p[|p| - 1] == '\n' {
        assert p == q + "\n";
        SameLinesWithoutLast(q);
        TrimRightKeepsLines(q);
        NewlineIsSpace();
      } else {
        LastLineEnds(p);
      }
    }
  }

  lemma TrimKeepsRecord(p: string)
    requires RecordLines(p) == [] || Tidy(RecordLines(p))
    ensures RecordLines(TrimSpace(p)) == RecordLines(p)
    ensures TrimSpace(p) == "" <==> RecordLines(p) == []
  {
    hide TrimLeft, TrimRight, IsSpace, RecordLines;
    TrimLeftKeepsLines(p);
    TrimRightKeepsLines(TrimLeft(p));
    EmptyRecord();
  }

  lemma EmptyRecord()
    ensures RecordLines("") == []
  {
  }

  // ---------- agreement ----------

  ghost predicate AllTidy(gs: seq<seq<string>>) {
    forall i :: 0 <= i < |gs| ==> Tidy(gs[i])
  }

  lemma PieceNoDouble(t: string, i: nat)
    requires i == DoubleNewline(t, 0)
    ensures NoDouble(t[..i])
    ensures i < |t| ==> i + 1 < |t| && t[i] == '\n' && t[i + 1] == '\n'
  {
  }

  lemma CutTwice(t: string, i: nat)
    requires i + 1 < |t| && t[i] == '\n' && t[i + 1] == '\n'
    ensures t == t[..i] + "\n" + ("" + "\n" + t[i + 2..])
  {
    CutAt(t, i, '\n');
    assert t[i + 1..] == ['\n'] + t[i + 2..];
  }

  lemma PieceRecords(t: string, i: nat)
    requires i == DoubleNewline(t, 0)
    ensures Records(t[..i]) == if RecordLines(t[..i]) == [] then [] else [RecordLines(t[..i])]
    ensures i < |t| ==> Records(t) == Records(t[..i]) + Records(t[i + 2..])
  {
    hide SplitLines, Groups, NonEmpty, SolidInside, DoubleNewline;
    PieceNoDouble(t, i);
    PieceIsSolid(t[..i]);
    SolidIsOneGroup(SplitLines(t[..i]));
    if i < |t| {
      var a, b := t[..i], t[i + 2..];
      CutTwice(t, i);
      SplitLinesAt(a, "" + "\n" + b);
      SplitFirst("", b);
      assert SplitLines(a) + ([""] + SplitLines(b)) == SplitLines(a) + [""] + SplitLines(b);
      GroupsAtBlank(SplitLines(a), SplitLines(b));
    }
  }

  lemma LinesOfAllCons(r: string, rs: seq<string>)
    ensures LinesOfAll([r] + rs) == [RecordLines(r)] + LinesOfAll(rs)
  {
  }

  lemma AllTidyParts(a: seq<seq<string>>, b: seq<seq<string>>)
    requires AllTidy(a + b)
    ensures AllTidy(a) && AllTidy(b)
  {
    hide Tidy;
    assert forall i :: 0 <= i < |a| ==> a[i] == (a + b)[i];
    assert forall i :: 0 <= i < |b| ==> b[i] == (a + b)[|a| + i];
  }

  lemma TrimmedPieceLines(p: string)
    requires RecordLines(p) == [] || Tidy(RecordLines(p))
    ensures LinesOfAll(if TrimSpace(p) == "" then [] else [TrimSpace(p)])
            == if RecordLines(p) == [] then [] else [RecordLines(p)]
  {
    hide TrimSpace, RecordLines, Tidy;
    TrimKeepsRecord(p);
    LinesOfAllCons(TrimSpace(p), []);
  }

  lemma LinesOfAllConcat(a: seq<string>, b: seq<string>)
    ensures LinesOfAll(a + b) == LinesOfAll(a) + LinesOfAll(b)
  {
  }

  /** The blank-line split hands the parser the records of the text, if they are tidy. */
  lemma {:induction false} SplitAgrees(t: string)
    requires AllTidy(Records(t))
    ensures LinesOfAll(TrimmedPieces(SplitBlank(t))) == Records(t)
    decreases |t|
  {
    hide Records, RecordLines, LinesOfAll, TrimSpace, Tidy, AllTidy;
    var i := DoubleNewline(t, 0);
    var p := t[..i];
    PieceRecords(t, i);
    var head := if TrimSpace(p) == "" then [] else [TrimSpace(p)];
    if i == |t| {
      assert p == t;
      OneTidy(Records(t));
      TrimmedPieceLines(p);
      assert [t][1..] == [] && head + [] == head;
      assert TrimmedPieces(SplitBlank(t)) == head;
    } else {
      var rest := t[i + 2..];
      AllTidyParts(Records(p), Records(rest));
      OneTidy(Records(p));
      TrimmedPieceLines(p);
      SplitAgrees(rest);
      assert ([p] + SplitBlank(rest))[1..] == SplitBlank(rest);
      assert TrimmedPieces(SplitBlank(t)) == head + TrimmedPieces(SplitBlank(rest));
      LinesOfAllConcat(head, TrimmedPieces(SplitBlank(rest)));
    }
  }

  lemma OneTidy(gs: seq<seq<string>>)
    requires AllTidy(gs)
    ensures gs != [] ==> Tidy(gs[0])
  {
  }

  // ---------- and only then ----------

  /** How many characters other than newlines a text has: trimming a tidy record removes none. */
  function Ink(p: string): nat {
    if p == "" then 0 else (if p[0] == '\n' then 0 else 1) + Ink(p[1..])
  }

  function TotalLength(ls: seq<string>): nat {
    if ls == [] then 0 else |ls[0]| + TotalLength(ls[1..])
  }

  lemma {:induction false} InkConcat(a: string, b: string)
    ensures Ink(a + b) == Ink(a) + Ink(b)
  {
    if a == "" {
      assert a + b == b;
    } else {
      assert (a + b)[1..] == a[1..] + b;
      InkConcat(a[1..], b);
    }
  }

  lemma {:induction false} InkOfLine(l: string)
    requires Free(l, "\n")
    ensures Ink(l) == |l|
  {
    if l != "" {
      assert l[0] !in "\n";
      InkOfLine(l[1..]);
    }
  }

  lemma {:induction false} InkIsRecordLength(p: string)
    ensures TotalLength(RecordLines(p)) == Ink(p)
    decreases |p|
  {
    hide SplitLines, NonEmpty, Free, TotalLength;
    var i := IndexAny(p, "\n");
    if i == |p| {
      NoNewline(p);
      SplitOneLine(p);
      InkOfLine(p);
      LineLength(p, []);
      NonEmptyConcat([p], []);
      assert [p] + [] == [p];
    } else {
      var l, rest := p[..i], p[i + 1..];
      CutLine(p, i);
      SplitFirst(l, rest);
      InkOfLine(l);
      InkConcat(l, "\n" + rest);
      assert p == l + ("\n" + rest);
      assert ("\n" + rest)[1..] == rest;
      NonEmptyConcat([l], SplitLines(rest));
      LineLength(l, NonEmpty(SplitLines(rest)));
      InkIsRecordLength(rest);
    }
  }

  lemma LineLength(l: string, more: seq<string>)
    ensures NonEmpty([]) == [] && TotalLength([]) == 0
    ensures TotalLength(NonEmpty([l]) + more) == |l| + TotalLength(more)
  {
    NonEmptyOne(l);
    if l == "" {
      assert [] + more == more;
    } else {
      assert ([l] + more)[1..] == more;
    }
  }

  lemma {:induction false} TrimLeftLoses(p: string)
    ensures Ink(TrimLeft(p)) <= Ink(p)
    ensures var g := RecordLines(p);
      g != [] && g[0] != "" && IsSpace(g[0][0]) ==> Ink(TrimLeft(p)) < Ink(p)
    decreases |p|
  {
    hide IsSpace;
    if p != "" {
      if p[0] == '\n' {
        assert p == "" + "\n" + p[1..];
        SplitFirst("", p[1..]);
        NonEmptyConcat([""], SplitLines(p[1..]));
        NonEmptyOne("");
        assert [] + RecordLines(p[1..]) == RecordLines(p[1..]);
        NewlineIsSpace();
      } else {
        FirstLineStarts(p);
      }
      TrimLeftLoses(p[1..]);
    }
  }

  lemma {:induction false} TrimRightLoses(p: string)
    ensures Ink(TrimRight(p)) <= Ink(p)
    ensures var g := RecordLines(p);
      g != [] && g[|g| - 1] != "" && IsSpace(g[|g| - 1][|g[|g| - 1]| - 1]) ==> Ink(TrimRight(p)) < Ink(p)
    decreases |p|
  {
    hide IsSpace, Ink, RecordLines;
    EmptyRecord();
    if p != "" {
      var q, c := p[..|p| - 1], p[|p| - 1];
      assert p == q + [c];
      InkConcat(q, [c]);
      InkOfOne(c);
      if c == '\n' {
        SameLinesWithoutLast(q);
        NewlineIsSpace();
      } else {
        LastLineEnds(p);
      }
      TrimRightLoses(q);
    }
  }

  lemma InkOfOne(c: char)
    ensures Ink([c]) == if c == '\n' then 0 else 1
  {
  }

  lemma SameLinesWithoutLast(q: string)
    ensures RecordLines(q + "\n") == RecordLines(q)
  {
    hide SplitLines, NonEmpty;
    assert q + "\n" == q + "\n" + "";
    SplitLinesAt(q, "");
    SplitOneLine("");
    NonEmptyConcat(SplitLines(q), [""]);
    NonEmptyOne("");
  }

  lemma {:induction false} NonEmptyHasNoBlank(ls: seq<string>)
    ensures NoBlank(NonEmpty(ls))
  {
    if ls != [] {
      NonEmptyHasNoBlank(ls[1..]);
    }
  }

  /** Trimming an untidy record loses part of it. */
  lemma TrimLoses(p: string)
    ensures Ink(TrimSpace(p)) <= Ink(p)
    ensures RecordLines(p) != [] && !Tidy(RecordLines(p)) ==> Ink(TrimSpace(p)) < Ink(p)
  {
    hide IsSpace, Ink, RecordLines, TrimLeft, TrimRight;
    TrimLeftLoses(p);
    TrimRightLoses(TrimLeft(p));
    var g := RecordLines(p);
    RecordHasNoBlank(p);
    if g != [] && !IsSpace(g[0][0]) {
      TrimLeftKeepsLines(p);
    }
  }

  lemma RecordHasNoBlank(p: string)
    ensures NoBlank(RecordLines(p))
  {
    NonEmptyHasNoBlank(SplitLines(p));
  }

  function GroupsLength(gs: seq<seq<string>>): nat {
    if gs == [] then 0 else TotalLength(gs[0]) + GroupsLength(gs[1..])
  }

  lemma {:induction false} GroupsLengthConcat(a: seq<seq<string>>, b: seq<seq<string>>)
    ensures GroupsLength(a + b) == GroupsLength(a) + GroupsLength(b)
  {
    if a == [] {
      assert a + b == b;
    } else {
      assert (a + b)[1..] == a[1..] + b;
      GroupsLengthConcat(a[1..], b);
    }
  }

  /** The trimmed piece against the record it comes from. */
  lemma PieceLoses(p: string)
    ensures var head := if TrimSpace(p) == "" then [] else [TrimSpace(p)];
      var gs := if RecordLines(p) == [] then [] else [RecordLines(p)];
      && GroupsLength(LinesOfAll(head)) <= GroupsLength(gs)
      && (RecordLines(p) != [] && !Tidy(RecordLines(p)) ==> GroupsLength(LinesOfAll(head)) < GroupsLength(gs))
  {
    hide TrimSpace, RecordLines, Tidy, Ink, TotalLength;
    TrimLoses(p);
    InkIsRecordLength(p);
    InkIsRecordLength(TrimSpace(p));
    OneGroupLength(RecordLines(p));
    OneGroupLength(RecordLines(TrimSpace(p)));
    LinesOfAllCons(TrimSpace(p), []);
    NoInk();
  }

  lemma OneGroupLength(g: seq<string>)
    ensures GroupsLength([g]) == TotalLength(g) && GroupsLength([]) == 0 && TotalLength([]) == 0
  {
  }

  lemma NoInk()
    ensures Ink("") == 0 && LinesOfAll([]) == []
  {
  }

  lemma {:induction false} SplitLoses(t: string)
    ensures GroupsLength(LinesOfAll(TrimmedPieces(SplitBlank(t)))) <= GroupsLength(Records(t))
    ensures !AllTidy(Records(t)) ==>
              GroupsLength(LinesOfAll(TrimmedPieces(SplitBlank(t)))) < GroupsLength(Records(t))
    decreases |t|
  {
    hide Records, RecordLines, LinesOfAll, TrimSpace, Tidy, GroupsLength;
    var i := DoubleNewline(t, 0);
    var p := t[..i];
    PieceRecords(t, i);
    PieceLoses(p);
    var head := if TrimSpace(p) == "" then [] else [TrimSpace(p)];
    if i == |t| {
      assert p == t;
      assert [t][1..] == [] && head + [] == head;
      assert TrimmedPieces(SplitBlank(t)) == head;
    } else {
      var rest := t[i + 2..];
      SplitLoses(rest);
      assert ([p] + SplitBlank(rest))[1..] == SplitBlank(rest);
      assert TrimmedPieces(SplitBlank(t)) == head + TrimmedPieces(SplitBlank(rest));
      LinesOfAllConcat(head, TrimmedPieces(SplitBlank(rest)));
      GroupsLengthConcat(LinesOfAll(head), LinesOfAll(TrimmedPieces(SplitBlank(rest))));
      GroupsLengthConcat(Records(p), Records(rest));
      if AllTidy(Records(p)) && AllTidy(Records(rest)) {
        TidyParts(Records(p), Records(rest));
      }
    }
  }

  lemma TidyParts(a: seq<seq<string>>, b: seq<seq<string>>)
    requires AllTidy(a) && AllTidy(b)
    ensures AllTidy(a + b)
  {
    hide Tidy;
  }

  /**
   The blank-line split and the streaming splitter give the parser the same lines, record by record,
   if and only if no record begins or ends in white space.
   */
  lemma SplittersAgreeIffTidy(t: string)
    ensures LinesOfAll(TrimmedPieces(SplitBlank(t))) == Records(t) <==> AllTidy(Records(t))
  {
    hide *;
    if AllTidy(Records(t)) {
      SplitAgrees(t);
    } else {
      SplitLoses(t);
    }
  }
}
