/**
 The RFC 5424 parser of internal/parser/syslog_rfc5424.go, its printer, and the grammar of
 structured data. Timestamps are opaque tokens decoded by a given function.
 */
module Rfc5424 {
  import opened Collections
  import opened Entries
  import opened Syslog

  type ParseTime = string -> Option<Time>

  // ---------- tokens ----------

  /** The token up to the next space, and what follows the space. */
  function TakeUntilSpace(s: string): Result<(string, string)> {
    var i := IndexAny(s, " ");
    if i == |s| then (if s == "" then Err(TruncatedLine) else Ok(("", s)))
    else if i == 0 then Err(InvalidFormat)
    else Ok((s[i + 1..], s[..i]))
  }

  predicate Token(s: string) {
    s != "" && Free(s, " ")
  }

  lemma TakeToken(t: string, rest: string)
    requires Token(t)
    ensures TakeUntilSpace(t + " " + rest) == Ok((rest, t))
  {
    assert t + " " + rest == t + (" " + rest);
    IndexAfter(t, " " + rest, " ");
    var s := t + " " + rest;
    assert s[|t| + 1..] == rest && s[..|t|] == t;
  }

  /** An empty token is refused, a missing one is a truncated line, and the last one needs no space. */
  lemma TokenCases(s: string)
    ensures TakeUntilSpace(s) == Err(InvalidFormat) <==> s != "" && s[0] == ' '
    ensures TakeUntilSpace(s) == Err(TruncatedLine) <==> s == ""
    ensures Token(s) ==> TakeUntilSpace(s) == Ok(("", s))
  {
    if Token(s) {
      assert s + "" == s;
      IndexAfter(s, "", " ");
    }
  }

  // ---------- structured data: where a block ends ----------

  /** How many backslashes stand directly before position `j`, counting from `start`. */
  function Backslashes(s: string, start: nat, j: nat): nat
    requires start <= j <= |s|
    decreases j - start
  {
    if start < j && s[j - 1] == '\\' then 1 + Backslashes(s, start, j - 1) else 0
  }

  /** A character is escaped if an odd number of backslashes precedes it. */
  predicate Escaped(s: string, start: nat, j: nat)
    requires start <= j <= |s|
  {
    Backslashes(s, start, j) % 2 == 1
  }

  /** How many unescaped double quotes stand before position `j`. */
  function Quotes(s: string, start: nat, j: nat): nat
    requires start <= j <= |s|
    decreases j - start
  {
    if start == j then 0
    else Quotes(s, start, j - 1) + if s[j - 1] == '"' && !Escaped(s, start, j - 1) then 1 else 0
  }

  /** An unescaped ']' outside quotes. */
  predicate Closes(s: string, start: nat, j: nat)
    requires start <= j < |s|
  {
    s[j] == ']' && !Escaped(s, start, j) && Quotes(s, start, j) % 2 == 0
  }

  /** `j` is where the block whose text starts at `start` ends, or the end of input if it does not. */
  ghost predicate IsBlockEnd(s: string, start: nat, j: nat) {
    && start <= j <= |s|
    && (forall k :: start <= k < j ==> !Closes(s, start, k))
    && (j < |s| ==> Closes(s, start, j))
  }

  /** The scanner's position: not escaped, in or out of quotes, and no end before it. */
  ghost predicate ScannedTo(s: string, start: nat, j: nat, inQuote: bool) {
    && start <= j <= |s|
    && (j < |s| ==> !Escaped(s, start, j))
    && inQuote == (Quotes(s, start, j) % 2 == 1)
    && forall k :: start <= k < j ==> !Closes(s, start, k)
  }

  lemma ScanPlain(s: string, start: nat, j: nat, inQuote: bool)
    requires ScannedTo(s, start, j, inQuote) && j < |s|
    requires s[j] != '\\' || j + 1 == |s|
    requires s[j] != '"' && !(s[j] == ']' && !inQuote)
    ensures ScannedTo(s, start, j + 1, inQuote)
  {
  }

  lemma ScanQuote(s: string, start: nat, j: nat, inQuote: bool)
    requires ScannedTo(s, start, j, inQuote) && j < |s| && s[j] == '"'
    ensures ScannedTo(s, start, j + 1, !inQuote)
  {
  }

  lemma ScanEscape(s: string, start: nat, j: nat, inQuote: bool)
    requires ScannedTo(s, start, j, inQuote) && j + 1 < |s| && s[j] == '\\'
    ensures ScannedTo(s, start, j + 2, inQuote)
  {
    assert Backslashes(s, start, j + 1) == 1 + Backslashes(s, start, j);
    assert Escaped(s, start, j + 1);
    if s[j + 1] == '\\' {
      assert Backslashes(s, start, j + 2) == 2 + Backslashes(s, start, j);
    }
    assert Quotes(s, start, j + 1) == Quotes(s, start, j);
    assert Quotes(s, start, j + 2) == Quotes(s, start, j + 1);
  }

  /** Where the scan that stands at `j` stops. */
  function Scan(s: string, j: nat, inQuote: bool): (e: nat)
    requires j <= |s|
    ensures j <= e <= |s|
    decreases |s| - j
  {
    if j == |s| then j
    else if s[j] == '\\' && j + 1 < |s| then Scan(s, j + 2, inQuote)
    else if s[j] == '"' then Scan(s, j + 1, !inQuote)
    else if !inQuote && s[j] == ']' then j
    else Scan(s, j + 1, inQuote)
  }

  /** Skipping escapes and toggling on quotes finds exactly the end the grammar defines. */
  lemma {:induction false} ScanFindsEnd(s: string, start: nat, j: nat, inQuote: bool)
    requires ScannedTo(s, start, j, inQuote)
    ensures IsBlockEnd(s, start, Scan(s, j, inQuote))
    decreases |s| - j
  {
    if j < |s| {
      if s[j] == '\\' && j + 1 < |s| {
        ScanEscape(s, start, j, inQuote);
        ScanFindsEnd(s, start, j + 2, inQuote);
      } else if s[j] == '"' {
        ScanQuote(s, start, j, inQuote);
        ScanFindsEnd(s, start, j + 1, !inQuote);
      } else if !(!inQuote && s[j] == ']') {
        ScanPlain(s, start, j, inQuote);
        ScanFindsEnd(s, start, j + 1, inQuote);
      }
    }
  }

  // ---------- structured data: blocks ----------

  /** The end of the run of blocks at `i`, or None if one is not closed. */
  function BlocksEnd(s: string, i: nat): (r: Option<nat>)
    requires i <= |s|
    ensures r.Some? ==> i <= r.value <= |s|
    decreases |s| - i
  {
    if i == |s| || s[i] != '[' then Some(i)
    else
      var j := Scan(s, i + 1, false);
      if j == |s| then None else BlocksEnd(s, j + 1)
  }

  /** `readStructuredData`: the rest and the raw text. */
  function StructuredData(s: string): Result<(string, string)> {
    if s == "" then Err(TruncatedLine)
    else if s[0] == '-' then Ok((s[1..], "-"))
    else if s[0] != '[' then Err(InvalidFormat)
    else match BlocksEnd(s, 0)
      case None => Err(InvalidFormat)
      case Some(i) => Ok((s[i..], s[..i]))
  }

  /** `s[i..e]` is one block, ended by its first unquoted, unescaped ']'. */
  ghost predicate IsBlock(s: string, i: nat, e: nat) {
    i + 1 < e <= |s| && s[i] == '[' && IsBlockEnd(s, i + 1, e - 1)
  }

  /** `s[i..end]` is a run of blocks. */
  ghost predicate AreBlocks(s: string, i: nat, end: nat)
    requires i <= end <= |s|
    decreases end - i
  {
    i == end || exists e: nat :: IsBlock(s, i, e) && e <= end && AreBlocks(s, e, end)
  }

  lemma {:induction false} BlocksEndIsGrammatical(s: string, i: nat)
    requires i <= |s| && BlocksEnd(s, i).Some?
    ensures var end := BlocksEnd(s, i).value;
      AreBlocks(s, i, end) && (end < |s| ==> s[end] != '[')
    decreases |s| - i
  {
    if i < |s| && s[i] == '[' {
      var j := Scan(s, i + 1, false);
      ScanFindsEnd(s, i + 1, i + 1, false);
      BlocksEndIsGrammatical(s, j + 1);
      assert IsBlock(s, i, j + 1);
    }
  }

  lemma BlockEndIsUnique(s: string, start: nat, j: nat, k: nat)
    requires IsBlockEnd(s, start, j) && IsBlockEnd(s, start, k)
    ensures j == k
  {
    hide Closes;
  }

  /** The converse: a run of blocks that no '[' follows is read to its end. */
  lemma {:induction false} GrammarIsScanned(s: string, i: nat, end: nat)
    requires i <= end <= |s| && AreBlocks(s, i, end) && (end < |s| ==> s[end] != '[')
    ensures BlocksEnd(s, i) == Some(end)
    decreases end - i
  {
    hide Scan, IsBlockEnd;
    if i < end {
      var e: nat :| IsBlock(s, i, e) && e <= end && AreBlocks(s, e, end);
      ScanFindsEnd(s, i + 1, i + 1, false);
      BlockEndIsUnique(s, i + 1, Scan(s, i + 1, false), e - 1);
      GrammarIsScanned(s, e, end);
    }
  }

  /**
   A successful scan splits its input; unless the data is "-", it is one or more blocks each ending at
   its first unquoted, unescaped ']', and no further block follows.
   */
  lemma ScanIsGrammatical(s: string)
    requires StructuredData(s).Ok?
    ensures var (rest, sd) := StructuredData(s).value;
      && sd + rest == s
      && (sd == "-" || (0 < |sd| && AreBlocks(s, 0, |sd|) && (rest != "" ==> rest[0] != '[')))
  {
    if s[0] == '[' {
      BlocksEndIsGrammatical(s, 0);
    }
  }

  /** And every input that starts with such data is accepted, with exactly that data. */
  lemma GrammaticalIsScanned(s: string, end: nat)
    requires 0 < end <= |s| && AreBlocks(s, 0, end) && (end < |s| ==> s[end] != '[')
    ensures StructuredData(s) == Ok((s[end..], s[..end]))
  {
    GrammarIsScanned(s, 0, end);
  }

  /** `readStructuredData` as written, with its nested loops. */
  method ReadStructuredData(s: string) returns (r: Result<(string, string)>)
    ensures r == StructuredData(s)
  {
    if s == "" { return Err(TruncatedLine); }
    if s[0] == '-' { return Ok((s[1..], "-")); }
    if s[0] != '[' { return Err(InvalidFormat); }
    var i := 0;
    while i < |s|
      invariant i <= |s| && BlocksEnd(s, i) == BlocksEnd(s, 0)
    {
      if s[i] != '[' { break; }
      var j, inQuote := i + 1, false;
      while j < |s|
        invariant i < j <= |s| && Scan(s, j, inQuote) == Scan(s, i + 1, false)
      {
        var c := s[j];
        if c == '\\' && j + 1 < |s| {
          j := j + 2;
          continue;
        }
        if c == '"' {
          inQuote := !inQuote;
          j := j + 1;
          continue;
        }
        if !inQuote && c == ']' { break; }
        j := j + 1;
      }
      if j >= |s| { return Err(InvalidFormat); }
      i := j + 1;
    }
    return Ok((s[i..], s[..i]));
  }

  // ---------- printing structured data ----------

  datatype Param = Param(name: string, value: string)

  datatype Element = Element(id: string, params: seq<Param>)

  /** SD-NAME: no '=', space, ']' or '"' (section 6.3.2 of RFC 5424). A backslash is legal. */
  predicate SdName(s: string) {
    s != "" && Free(s, "= ]\"")
  }

  predicate SdElement(e: Element) {
    SdName(e.id) && forall i :: 0 <= i < |e.params| ==> SdName(e.params[i].name)
  }

  /** Every backslash, paired off from the left, has a character to escape. */
  predicate Settled(t: string) {
    if t == "" then true
    else if t[0] == '\\' then |t| >= 2 && Settled(t[2..])
    else Settled(t[1..])
  }

  /** The scanner takes every backslash for an escape, so one may not stand directly before the closing ']'. */
  predicate ClosesItself(e: Element) {
    e.params != [] || Settled(e.id)
  }

  /** Section 6.3.3 of RFC 5424: '"', '\' and ']' are escaped in a PARAM-VALUE. */
  function EscapeValue(v: string): string {
    if v == "" then ""
    else (if v[0] == '"' || v[0] == '\\' || v[0] == ']' then ['\\', v[0]] else [v[0]]) + EscapeValue(v[1..])
  }

  function PrintParam(p: Param): string {
    (" " + p.name + "=") + ("\"" + (EscapeValue(p.value) + "\""))
  }

  function PrintParams(ps: seq<Param>): string {
    if ps == [] then "" else PrintParam(ps[0]) + PrintParams(ps[1..])
  }

  function PrintElement(e: Element): string {
    "[" + (e.id + (PrintParams(e.params) + "]"))
  }

  function PrintElements(es: seq<Element>): string {
    if es == [] then "" else PrintElement(es[0]) + PrintElements(es[1..])
  }

  /** `s` has `t` at position `j`. */
  predicate HasAt(s: string, j: nat, t: string) {
    j + |t| <= |s| && s[j..j + |t|] == t
  }

  lemma HasWithin(s: string, j: nat, t: string)
    requires HasAt(s, j, t)
    ensures j + |t| <= |s|
  {
  }

  lemma HasParts(s: string, j: nat, a: string, b: string)
    requires HasAt(s, j, a + b)
    ensures HasAt(s, j, a) && HasAt(s, j + |a|, b)
  {
    var t := s[j..j + |a + b|];
    assert s[j..j + |a|] == t[..|a|] && s[j + |a|..j + |a| + |b|] == t[|a|..];
  }

  lemma {:induction false} ScanOverPlain(s: string, j: nat, t: string, q: bool)
    requires HasAt(s, j, t) && Free(t, "\"]") && Settled(t)
    ensures Scan(s, j, q) == Scan(s, j + |t|, q)
    decreases |t|
  {
    if t != "" {
      var n := if t[0] == '\\' then 2 else 1;
      assert s[j] == s[j..j + |t|][0] == t[0];
      assert t == t[..n] + t[n..];
      HasParts(s, j, t[..n], t[n..]);
      ScanOverPlain(s, j + n, t[n..], q);
    }
  }

  /** A text that is not settled leaves its last backslash to escape whatever follows it. */
  lemma {:induction false} ScanOverDangling(s: string, j: nat, t: string, q: bool)
    requires HasAt(s, j, t) && Free(t, "\"]") && !Settled(t) && j + |t| < |s|
    ensures Scan(s, j, q) == Scan(s, j + |t| + 1, q)
    decreases |t|
  {
    var n := if t[0] == '\\' then 2 else 1;
    assert s[j] == s[j..j + |t|][0] == t[0];
    if |t| >= n {
      assert t == t[..n] + t[n..];
      HasParts(s, j, t[..n], t[n..]);
      ScanOverDangling(s, j + n, t[n..], q);
    }
  }

  lemma {:induction false} SettledIfEndsPlain(t: string)
    requires t != "" && t[|t| - 1] != '\\'
    ensures Settled(t)
  {
    if t[0] == '\\' {
      if |t| > 2 {
        SettledIfEndsPlain(t[2..]);
      }
    } else if |t| > 1 {
      SettledIfEndsPlain(t[1..]);
    }
  }

  lemma {:induction false} ScanOverValue(s: string, j: nat, v: string)
    requires HasAt(s, j, EscapeValue(v))
    ensures Scan(s, j, true) == Scan(s, j + |EscapeValue(v)|, true)
    decreases |v|
  {
    if v != "" {
      var c := if v[0] == '"' || v[0] == '\\' || v[0] == ']' then ['\\', v[0]] else [v[0]];
      HasParts(s, j, c, EscapeValue(v[1..]));
      assert s[j] == s[j..j + |c|][0] == c[0];
      ScanOverValue(s, j + |c|, v[1..]);
    }
  }

  lemma ScanOverQuote(s: string, j: nat, q: bool)
    requires HasAt(s, j, "\"")
    ensures Scan(s, j, q) == Scan(s, j + 1, !q)
  {
    assert s[j] == s[j..j + 1][0];
  }

  lemma LeadIsPlain(id: string, name: string)
    requires SdName(name) && Free(id, "\"]")
    ensures Free(id + (" " + name + "="), "\"]") && Settled(id + (" " + name + "="))
  {
    SettledIfEndsPlain(id + (" " + name + "="));
  }

  /** From `id`, which may end in a backslash, over the parameter behind it. */
  lemma ScanOverParam(s: string, j: nat, id: string, p: Param)
    requires HasAt(s, j, id + PrintParam(p)) && SdName(p.name) && Free(id, "\"]")
    ensures Scan(s, j, false) == Scan(s, j + |id| + |PrintParam(p)|, false)
  {
    hide Scan, HasAt, EscapeValue, SdName, Free, Settled;
    var lead, value := id + (" " + p.name + "="), EscapeValue(p.value);
    var k := j + |lead|;
    assert id + PrintParam(p) == lead + ("\"" + (value + "\""));
    HasParts(s, j, lead, "\"" + (value + "\""));
    HasParts(s, k, "\"", value + "\"");
    HasParts(s, k + 1, value, "\"");
    LeadIsPlain(id, p.name);
    ScanOverPlain(s, j, lead, false);
    ScanOverQuote(s, k, false);
    ScanOverValue(s, k + 1, p.value);
    ScanOverQuote(s, k + 1 + |value|, true);
    assert |id + PrintParam(p)| == |lead| + |value| + 2;
  }

  lemma {:induction false} ScanOverParams(s: string, j: nat, ps: seq<Param>)
    requires HasAt(s, j, PrintParams(ps)) && forall i :: 0 <= i < |ps| ==> SdName(ps[i].name)
    ensures Scan(s, j, false) == Scan(s, j + |PrintParams(ps)|, false)
    decreases |ps|
  {
    hide Scan, HasAt, PrintParam, SdName;
    if ps != [] {
      HasParts(s, j, PrintParam(ps[0]), PrintParams(ps[1..]));
      assert "" + PrintParam(ps[0]) == PrintParam(ps[0]);
      ScanOverParam(s, j, "", ps[0]);
      ScanOverParams(s, j + |PrintParam(ps[0])|, ps[1..]);
    }
  }

  lemma OneAt(s: string, j: nat, c: char)
    requires HasAt(s, j, [c])
    ensures j < |s| && s[j] == c
  {
    assert s[j] == s[j..j + 1][0];
  }

  lemma ScanStops(s: string, j: nat)
    requires HasAt(s, j, "]")
    ensures j < |s| && Scan(s, j, false) == j
  {
    OneAt(s, j, ']');
  }

  lemma ElementParts(s: string, j: nat, e: Element)
    requires HasAt(s, j, PrintElement(e)) && SdElement(e)
    ensures j + |PrintElement(e)| <= |s| && s[j] == '[' && |PrintElement(e)| == 2 + |e.id| + |PrintParams(e.params)|
    ensures HasAt(s, j + 1, e.id + PrintParams(e.params)) && HasAt(s, j + |PrintElement(e)| - 1, "]")
    ensures Free(e.id, "\"]")
  {
    hide Scan, HasAt, PrintParams;
    var params := PrintParams(e.params);
    HasWithin(s, j, PrintElement(e));
    HasParts(s, j, "[", e.id + (params + "]"));
    OneAt(s, j, '[');
    assert e.id + (params + "]") == (e.id + params) + "]";
    HasParts(s, j + 1, e.id + params, "]");
  }

  /** A self-closing element is scanned to its own ']'. */
  lemma ScanOverElement(s: string, j: nat, e: Element)
    requires HasAt(s, j, PrintElement(e)) && SdElement(e) && ClosesItself(e)
    ensures j + |PrintElement(e)| <= |s| && s[j] == '['
    ensures Scan(s, j + 1, false) == j + |PrintElement(e)| - 1
  {
    hide Scan, HasAt, PrintElement, PrintParam, SdName, Free, Settled;
    ElementParts(s, j, e);
    var ps := e.params;
    if ps == [] {
      assert e.id + "" == e.id;
      ScanOverPlain(s, j + 1, e.id, false);
    } else {
      var rest := PrintParams(ps[1..]);
      assert e.id + PrintParams(ps) == (e.id + PrintParam(ps[0])) + rest;
      HasParts(s, j + 1, e.id + PrintParam(ps[0]), rest);
      ScanOverParam(s, j + 1, e.id, ps[0]);
      ScanOverParams(s, j + 1 + |e.id| + |PrintParam(ps[0])|, ps[1..]);
    }
    ScanStops(s, j + |PrintElement(e)| - 1);
  }

  /** Any other one is scanned past its ']'. */
  lemma ScanPastElement(s: string, j: nat, e: Element)
    requires HasAt(s, j, PrintElement(e)) && SdElement(e) && !ClosesItself(e)
    ensures j + |PrintElement(e)| <= |s| && s[j] == '['
    ensures Scan(s, j + 1, false) == Scan(s, j + |PrintElement(e)|, false)
  {
    hide Scan, HasAt, PrintElement, SdName, Free, Settled;
    ElementParts(s, j, e);
    assert e.id + "" == e.id;
    ScanOverDangling(s, j + 1, e.id, false);
  }

  lemma ScanOverBracket(s: string, j: nat)
    requires j < |s| && s[j] == '['
    ensures Scan(s, j, false) == Scan(s, j + 1, false)
  {
  }

  /** A run of elements is read to its end exactly if its last element closes itself. */
  lemma {:induction false} BlocksOfElements(s: string, i: nat, es: seq<Element>)
    requires HasAt(s, i, PrintElements(es)) && (forall k :: 0 <= k < |es| ==> SdElement(es[k]))
    requires var e := i + |PrintElements(es)|; e < |s| ==> s[e] != '['
    ensures i <= |s| && (BlocksEnd(s, i) == Some(i + |PrintElements(es)|) <==>
                         es == [] || ClosesItself(es[|es| - 1]))
    decreases |es|
  {
    hide HasAt, Scan, PrintElement, SdElement, ClosesItself;
    HasWithin(s, i, PrintElements(es));
    if es != [] {
      var e, rest := es[0], es[1..];
      var k := i + |PrintElement(e)|;
      HasParts(s, i, PrintElement(e), PrintElements(rest));
      BlocksOfElements(s, k, rest);
      if ClosesItself(e) {
        ScanOverElement(s, i, e);
      } else {
        ScanPastElement(s, i, e);
        if rest != [] {
          StartsWithBracket(s, k, rest);
          ScanOverBracket(s, k);
        }
      }
    }
  }

  lemma StartsWithBracket(s: string, k: nat, es: seq<Element>)
    requires HasAt(s, k, PrintElements(es)) && es != []
    ensures k < |s| && s[k] == '['
  {
    ElementsStart(es);
    assert s[k] == s[k..k + |PrintElements(es)|][0];
  }

  lemma ElementsStart(es: seq<Element>)
    requires es != []
    ensures PrintElements(es) != "" && PrintElements(es)[0] == '['
  {
  }

  lemma BlocksReadBack(sd: string, rest: string)
    requires sd != "" && sd[0] == '['
    ensures StructuredData(sd + rest) == Ok((rest, sd)) <==> BlocksEnd(sd + rest, 0) == Some(|sd|)
  {
    var s := sd + rest;
    assert s[0] == '[' && s[..|sd|] == sd && s[|sd|..] == rest;
  }

  lemma HasPrefix(a: string, b: string)
    ensures HasAt(a + b, 0, a) && (b != "" ==> |a| < |a + b| && (a + b)[|a|] == b[0])
  {
    assert (a + b)[0..0 + |a|] == a;
  }

  /**
   Printed structured data is read back exactly, whatever parameter values it carries, if and only if
   its last element has a parameter or an id whose backslashes pair off.
   */
  lemma StructuredDataRoundTrip(es: seq<Element>, rest: string)
    requires es != [] && (forall k :: 0 <= k < |es| ==> SdElement(es[k])) && (rest == "" || rest[0] != '[')
    ensures StructuredData(PrintElements(es) + rest) == Ok((rest, PrintElements(es)))
            <==> ClosesItself(es[|es| - 1])
  {
    hide BlocksEnd, StructuredData, SdElement, PrintElements, HasAt, ClosesItself;
    var sd := PrintElements(es);
    ElementsStart(es);
    HasPrefix(sd, rest);
    BlocksOfElements(sd + rest, 0, es);
    BlocksReadBack(sd, rest);
  }

  /** The legal element [a\], whose id ends in a backslash, is refused. */
  lemma BackslashIdIsRefused()
    ensures SdElement(Element("a\\", [])) && PrintElement(Element("a\\", [])) == "[a\\]"
    ensures StructuredData("[a\\]") == Err(InvalidFormat)
  {
    assert Scan("[a\\]", 4, false) == 4;
    assert Scan("[a\\]", 2, false) == 4;
    assert Scan("[a\\]", 1, false) == 4;
  }

  // ---------- the parser ----------

  const BOM: string := "\U{ef}\U{bb}\U{bf}"

  function NilIfDash(s: string): string {
    if s == "-" then "" else s
  }

  function TrimBom(s: string): string {
    if |s| >= 3 && s[..3] == BOM then s[3..] else s
  }

  function ProcId(s: string): int {
    if s == "-" then 0 else match Atoi(s) case None => 0 case Some(v) => v
  }

  /** The message: one separating space and an optional BOM removed. */
  function Message(rest: string): string {
    TrimBom(if rest != "" && rest[0] == ' ' then rest[1..] else rest)
  }

  function TimeOf(parseTime: ParseTime, token: string): Result<Time> {
    if token == "-" then Ok(Zero)
    else match parseTime(token) case None => Err(InvalidFormat) case Some(t) => Ok(t)
  }

  function ParseHeader(parseTime: ParseTime, prio: nat, s: string): Result<LogEntry> {
    match TakeUntilSpace(s)                      // VERSION
    case Err(e) => Err(e)
    case Ok((s1, _)) =>
      match TakeUntilSpace(s1)                   // TIMESTAMP
      case Err(e) => Err(e)
      case Ok((s2, ts)) =>
        match TimeOf(parseTime, ts)
        case Err(e) => Err(e)
        case Ok(time) =>
          match TakeUntilSpace(s2)               // HOSTNAME
          case Err(e) => Err(e)
          case Ok((s3, host)) =>
            match TakeUntilSpace(s3)             // APP-NAME
            case Err(e) => Err(e)
            case Ok((s4, app)) =>
              match TakeUntilSpace(s4)           // PROCID
              case Err(e) => Err(e)
              case Ok((s5, procid)) =>
                match TakeUntilSpace(s5)         // MSGID
                case Err(e) => Err(e)
                case Ok((s6, _)) => ParseBody(prio, time, host, app, procid, s6)
  }

  function ParseBody(prio: nat, time: Time, host: string, app: string, procid: string, s: string): Result<LogEntry> {
    match StructuredData(s)
    case Err(e) => Err(e)
    case Ok((rest, sd)) =>
      Ok(LogEntry(time, SeverityToLevel(prio % 8), prio / 8, NilIfDash(host), NilIfDash(app), ProcId(procid),
                  Message(rest), "syslog_rfc5424",
                  if sd != "" && sd != "-" then map["structured_data" := sd] else map[]))
  }

  function Parse(parseTime: ParseTime, line: string): Result<LogEntry> {
    var l := TrimTrailingNewline(line);
    if l == "" then Err(TruncatedLine)
    else match Priority(l)
      case Err(e) => Err(e)
      case Ok((rest, prio)) => ParseHeader(parseTime, prio, rest)
  }

  // ---------- round trip ----------

  datatype Record = Record(
    prio: nat, version: string, timestamp: string, host: string, app: string, procid: string, msgid: string,
    sd: seq<Element>,          // empty prints as "-"
    bom: bool,                 // the message comes with a byte order mark
    msg: Option<string>
  )

  predicate Valid(parseTime: ParseTime, r: Record) {
    && r.prio <= MAX_PRIORITY
    && Token(r.version) && Token(r.timestamp) && Token(r.host) && Token(r.app) && Token(r.procid) && Token(r.msgid)
    && (r.timestamp == "-" || parseTime(r.timestamp).Some?)
    && (forall k :: 0 <= k < |r.sd| ==> SdElement(r.sd[k])) && (r.sd != [] ==> ClosesItself(r.sd[|r.sd| - 1]))
    && (r.msg.Some? ==> NoLineEnd(r.msg.value) && (r.bom || !StartsWithBom(r.msg.value)))
  }

  predicate StartsWithBom(s: string) {
    |s| >= 3 && s[..3] == "\U{ef}\U{bb}\U{bf}"
  }

  /** The message part: a space, a byte order mark if asked for, the text. */
  function PrintMessage(r: Record): string {
    match r.msg case None => "" case Some(m) => " " + ((if r.bom then "\U{ef}\U{bb}\U{bf}" else "") + m)
  }

  function PrintSd(sd: seq<Element>): string {
    if sd == [] then "-" else PrintElements(sd)
  }

  function PrintBody(r: Record): string {
    PrintSd(r.sd) + PrintMessage(r)
  }

  /** HEADER SP STRUCTURED-DATA [SP MSG], section 6 of RFC 5424. */
  function Print(r: Record): string {
    PrintPriority(r.prio) + (r.version + " " + (r.timestamp + " " + (r.host + " " + (r.app + " "
      + (r.procid + " " + (r.msgid + " " + PrintBody(r)))))))
  }

  lemma MessageRoundTrip(r: Record)
    requires r.msg.Some? ==> r.bom || !StartsWithBom(r.msg.value)
    ensures Message(PrintMessage(r)) == r.msg.GetOr("")
    ensures PrintMessage(r) == "" || PrintMessage(r)[0] == ' '
  {
    if r.msg.Some? {
      var m := r.msg.value;
      var body := (if r.bom then "\U{ef}\U{bb}\U{bf}" else "") + m;
      assert (" " + body)[1..] == body;
      if r.bom {
        assert body[..3] == "\U{ef}\U{bb}\U{bf}" && body[3..] == m;
      } else {
        assert body == m;
      }
    }
  }

  /** The space before the message may be missing; a byte order mark is removed all the same. */
  lemma MessageWithoutSpace(m: string)
    requires m != "" && m[0] != ' '
    ensures Message(m) == if StartsWithBom(m) then m[3..] else m
  {
  }

  lemma BodyRoundTrip(r: Record, time: Time)
    requires (forall k :: 0 <= k < |r.sd| ==> SdElement(r.sd[k])) && (r.sd != [] ==> ClosesItself(r.sd[|r.sd| - 1]))
    requires r.msg.Some? ==> r.bom || !StartsWithBom(r.msg.value)
    ensures ParseBody(r.prio, time, r.host, r.app, r.procid, PrintBody(r))
            == Ok(LogEntry(time, SeverityToLevel(r.prio % 8), r.prio / 8, NilIfDash(r.host), NilIfDash(r.app),
                           ProcId(r.procid), r.msg.GetOr(""), "syslog_rfc5424",
                           if r.sd == [] then map[] else map["structured_data" := PrintElements(r.sd)]))
  {
    hide Atoi, BlocksEnd, PrintElements;
    var rest := PrintMessage(r);
    MessageRoundTrip(r);
    if r.sd == [] {
      assert ("-" + rest)[1..] == rest;
    } else {
      StructuredDataRoundTrip(r.sd, rest);
      ElementsStart(r.sd);
    }
  }

  lemma HeaderRoundTrip(parseTime: ParseTime, r: Record, time: Time, body: string)
    requires Valid(parseTime, r) && TimeOf(parseTime, r.timestamp) == Ok(time)
    ensures ParseHeader(parseTime, r.prio, r.version + " " + (r.timestamp + " " + (r.host + " " + (r.app + " "
              + (r.procid + " " + (r.msgid + " " + body))))))
            == ParseBody(r.prio, time, r.host, r.app, r.procid, body)
  {
    hide TakeUntilSpace, Token, ParseBody, TimeOf;
    var s6 := body;
    var s5 := r.msgid + " " + s6;
    var s4 := r.procid + " " + s5;
    var s3 := r.app + " " + s4;
    var s2 := r.host + " " + s3;
    var s1 := r.timestamp + " " + s2;
    TakeToken(r.version, s1);
    TakeToken(r.timestamp, s2);
    TakeToken(r.host, s3);
    TakeToken(r.app, s4);
    TakeToken(r.procid, s5);
    TakeToken(r.msgid, s6);
  }

  lemma AppendedTail(a: string, b: string)
    requires b != "" && NoLineEnd(b)
    ensures a + b != "" && NoLineEnd(a + b)
  {
    assert (a + b)[|a + b| - 1] == b[|b| - 1];
  }

  lemma PrintHasNoLineEnd(parseTime: ParseTime, r: Record)
    requires Valid(parseTime, r)
    ensures NoLineEnd(Print(r)) && Print(r) != ""
  {
    hide NoLineEnd, PrintPriority, PrintBody;
    BodyHasNoLineEnd(r);
    AppendedTail(r.msgid + " ", PrintBody(r));
    AppendedTail(r.procid + " ", r.msgid + " " + PrintBody(r));
    AppendedTail(r.app + " ", r.procid + " " + (r.msgid + " " + PrintBody(r)));
    var s := r.app + " " + (r.procid + " " + (r.msgid + " " + PrintBody(r)));
    AppendedTail(r.host + " ", s);
    AppendedTail(r.timestamp + " ", r.host + " " + s);
    AppendedTail(r.version + " ", r.timestamp + " " + (r.host + " " + s));
    AppendedTail(PrintPriority(r.prio), r.version + " " + (r.timestamp + " " + (r.host + " " + s)));
  }

  lemma BodyHasNoLineEnd(r: Record)
    requires r.msg.Some? ==> NoLineEnd(r.msg.value)
    ensures PrintBody(r) != "" && NoLineEnd(PrintBody(r))
  {
    SdEnds(r.sd);
    if r.msg.Some? {
      var b, m := PrintBody(r), PrintMessage(r);
      assert b[|b| - 1] == m[|m| - 1];
      if r.msg.value != "" {
        assert m[|m| - 1] == r.msg.value[|r.msg.value| - 1];
      }
    }
  }

  lemma {:induction false} SdEnds(sd: seq<Element>)
    ensures var s := PrintSd(sd); s != "" && (s[|s| - 1] == '-' || s[|s| - 1] == ']')
  {
    if sd != [] {
      var e := PrintElement(sd[0]);
      assert e[|e| - 1] == ']';
      if |sd| > 1 {
        SdEnds(sd[1..]);
        var t := PrintElements(sd[1..]);
        assert (e + t)[|e + t| - 1] == t[|t| - 1];
      } else {
        assert PrintElements(sd[1..]) == "";
        assert e + "" == e;
      }
    }
  }

  /**
   Parsing a printed line, with any terminator, recovers every field the entry keeps: "-" stands for
   nothing, a process id that is no number for 0.
   */
  lemma ParseRoundTrip(parseTime: ParseTime, r: Record, eol: string)
    requires Valid(parseTime, r) && IsLineEnd(eol)
    ensures var p := Parse(parseTime, Print(r) + eol);
      && p.Ok? && r.prio == 8 * p.value.facility + Severity(p.value.level)
      && p.value == LogEntry(
           if r.timestamp == "-" then Zero else parseTime(r.timestamp).value,
           p.value.level, p.value.facility,
           if r.host == "-" then "" else r.host,
           if r.app == "-" then "" else r.app,
           if Atoi(r.procid).Some? then Atoi(r.procid).value else 0,
           r.msg.GetOr(""), "syslog_rfc5424",
           if r.sd == [] then map[] else map["structured_data" := PrintElements(r.sd)])
  {
    hide Atoi, Parse, Print, PrintElements, Valid, IsLineEnd;
    assert Valid(parseTime, r);
    SeverityRoundTrip(Info, r.prio % 8);
    DashIsNoNumber();
    ReadsBack(parseTime, r, eol);
    ValidParts(parseTime, r);
  }

  lemma ValidParts(parseTime: ParseTime, r: Record)
    requires Valid(parseTime, r)
    ensures r.timestamp == "-" || parseTime(r.timestamp).Some?
  {
  }

  lemma DashIsNoNumber()
    ensures Atoi("-") == None
  {
  }

  lemma ReadsBack(parseTime: ParseTime, r: Record, eol: string)
    requires Valid(parseTime, r) && IsLineEnd(eol)
    ensures TimeOf(parseTime, r.timestamp).Ok?
    ensures Parse(parseTime, Print(r) + eol)
            == Ok(LogEntry(TimeOf(parseTime, r.timestamp).value, SeverityToLevel(r.prio % 8), r.prio / 8,
                           NilIfDash(r.host), NilIfDash(r.app), ProcId(r.procid), r.msg.GetOr(""), "syslog_rfc5424",
                           if r.sd == [] then map[] else map["structured_data" := PrintElements(r.sd)]))
  {
    var time := TimeOf(parseTime, r.timestamp).value;
    hide Priority, PrintPriority, ParseHeader, ParseBody, PrintBody, TrimTrailingNewline, NoLineEnd, TimeOf;
    PrintHasNoLineEnd(parseTime, r);
    TrimUndoes(Print(r), eol);
    PriorityRoundTrip(r.prio, r.version + " " + (r.timestamp + " " + (r.host + " " + (r.app + " "
      + (r.procid + " " + (r.msgid + " " + PrintBody(r)))))));
    HeaderRoundTrip(parseTime, r, time, PrintBody(r));
    BodyRoundTrip(r, time);
  }
}
