/** The journal export parser of internal/parser/journald.go, and how far it depends on field order. */
module Journald {
  import opened Collections
  import opened Entries
  import opened Names
  import opened Syslog
  import J = JournalSplitting

  // ---------- the parser ----------

  const RECOGNISED: set<string> :=
    {"MESSAGE", "PRIORITY", "_HOSTNAME", "_PID", "SYSLOG_IDENTIFIER", "_COMM", "SYSLOG_FACILITY", "__REALTIME_TIMESTAMP"}

  const EMPTY: LogEntry := LogEntry(Zero, Emergency, 0, "", "", 0, "", "journald", map[])

  /** `assignJournaldField`; numbers that do not parse leave their slot alone. */
  function Assign(e: LogEntry, key: string, val: string): LogEntry {
    if key == "MESSAGE" then e.(message := val)
    else if key == "PRIORITY" then
      match Atoi(val) case None => e case Some(n) => if 0 <= n <= 7 then e.(level := SeverityToLevel(n)) else e
    else if key == "_HOSTNAME" then e.(hostname := val)
    else if key == "_PID" then match Atoi(val) case None => e case Some(n) => e.(pid := n)
    else if key == "SYSLOG_IDENTIFIER" then e.(process := val)
    else if key == "_COMM" then (if e.process == "" then e.(process := val) else e)
    else if key == "SYSLOG_FACILITY" then match Atoi(val) case None => e case Some(n) => e.(facility := n)
    else if key == "__REALTIME_TIMESTAMP" then
      match Atoi(val) case None => e case Some(n) => e.(timestamp := At(n * 1000))
    else e.(fields := e.fields[key := val])
  }

  datatype Field = Field(key: string, val: string)

  /** KEY=value; a line without '=' or with nothing before it is dropped. */
  function FieldOf(line: string): Option<Field> {
    var eq := IndexAny(line, "=");
    if eq == 0 || eq == |line| then None else Some(Field(line[..eq], line[eq + 1..]))
  }

  function AssignLine(e: LogEntry, line: string): LogEntry {
    match FieldOf(line) case None => e case Some(f) => Assign(e, f.key, f.val)
  }

  /** The entry after all lines, in order. */
  function Build(ls: seq<string>): LogEntry {
    if ls == [] then EMPTY else AssignLine(Build(ls[..|ls| - 1]), ls[|ls| - 1])
  }

  function Finish(e: LogEntry): Result<LogEntry> {
    if e.message == "" && e.fields == map[] then Err(InvalidFormat) else Ok(e)
  }

  function ParseLines(ls: seq<string>): Result<LogEntry> {
    Finish(Build(ls))
  }

  function Parse(record: string): Result<LogEntry> {
    if record == "" then Err(TruncatedLine) else ParseLines(J.RecordLines(record))
  }

  /** `Parse` as written: one pass over the lines, blank ones skipped. */
  method ParseRecord(record: string) returns (r: Result<LogEntry>)
    ensures r == Parse(record)
  {
    if record == "" { return Err(TruncatedLine); }
    hide Assign, J.SplitLines;
    var lines := J.SplitLines(record);
    var e := EMPTY;
    for i := 0 to |lines|
      invariant e == Build(J.NonEmpty(lines[..i]))
    {
      var line := lines[i];
      assert lines[..i + 1] == lines[..i] + [line];
      J.NonEmptyConcat(lines[..i], [line]);
      J.NonEmptyOne(line);
      if line == "" {
        assert J.NonEmpty(lines[..i]) + [] == J.NonEmpty(lines[..i]);
        continue;
      }
      BuildSnoc(J.NonEmpty(lines[..i]), line);
      match FieldOf(line)
      case None =>
      case Some(f) => e := Assign(e, f.key, f.val);
    }
    assert lines[..|lines|] == lines;
    r := Finish(e);
  }

  lemma BuildSnoc(ls: seq<string>, l: string)
    ensures Build(ls + [l]) == AssignLine(Build(ls), l)
  {
    assert (ls + [l])[..|ls|] == ls;
  }

  // ---------- both splitters feed it alike ----------

  function ParseAll(rs: seq<string>): seq<Result<LogEntry>> {
    seq(|rs|, i requires 0 <= i < |rs| => Parse(rs[i]))
  }

  /** On tidy text, whatever records the streaming splitter emits, the one-shot source parses to the same entries. */
  lemma SourcesAgree(t: string, streamed: seq<string>)
    requires J.LinesOfAll(streamed) == J.Records(t) && (forall i :: 0 <= i < |streamed| ==> streamed[i] != "")
    requires J.AllTidy(J.Records(t))
    ensures ParseAll(J.TrimmedPieces(J.SplitBlank(t))) == ParseAll(streamed)
  {
    hide J.Records, J.AllTidy, J.RecordLines, J.SplitBlank, ParseLines;
    var split := J.TrimmedPieces(J.SplitBlank(t));
    J.SplitAgrees(t);
    PiecesNotEmpty(J.SplitBlank(t));
    assert |split| == |J.LinesOfAll(split)| == |J.LinesOfAll(streamed)| == |streamed|;
    forall i | 0 <= i < |split| ensures Parse(split[i]) == Parse(streamed[i]) {
      assert J.RecordLines(split[i]) == J.LinesOfAll(split)[i] == J.LinesOfAll(streamed)[i] == J.RecordLines(streamed[i]);
    }
  }

  lemma {:induction false} PiecesNotEmpty(ps: seq<string>)
    ensures forall i :: 0 <= i < |J.TrimmedPieces(ps)| ==> J.TrimmedPieces(ps)[i] != ""
  {
    if ps != [] {
      PiecesNotEmpty(ps[1..]);
    }
  }

  // ---------- field order ----------

  type Fields = map<string, string>

  /** The fields of a record, later ones winning. */
  function FieldMap(ls: seq<string>): Fields {
    if ls == [] then map[]
    else
      var m := FieldMap(ls[..|ls| - 1]);
      match FieldOf(ls[|ls| - 1]) case None => m case Some(f) => m[f.key := f.val]
  }

  function Get(m: Fields, key: string): string {
    if key in m then m[key] else ""
  }

  function Number(m: Fields, key: string): Option<int> {
    if key in m then Atoi(m[key]) else None
  }

  /** The entry as a function of the fields alone. */
  function FromFields(m: Fields): LogEntry {
    LogEntry(
      match Number(m, "__REALTIME_TIMESTAMP") case None => Zero case Some(n) => At(n * 1000),
      match Number(m, "PRIORITY") case None => Emergency
      case Some(n) => if 0 <= n <= 7 then SeverityToLevel(n) else Emergency,
      match Number(m, "SYSLOG_FACILITY") case None => 0 case Some(n) => n,
      Get(m, "_HOSTNAME"),
      if Get(m, "SYSLOG_IDENTIFIER") != "" then Get(m, "SYSLOG_IDENTIFIER") else Get(m, "_COMM"),
      match Number(m, "_PID") case None => 0 case Some(n) => n,
      Get(m, "MESSAGE"),
      "journald",
      map k | k in m && k !in RECOGNISED :: m[k])
  }

  /** An identifier that is present but empty competes with the command name. */
  predicate Clash(m: Fields) {
    "SYSLOG_IDENTIFIER" in m && m["SYSLOG_IDENTIFIER"] == "" && Get(m, "_COMM") != ""
  }

  /** The entry apart from its process name. */
  function Rest(e: LogEntry): LogEntry {
    e.(process := "")
  }

  lemma OwnFields(m: Fields, key: string, val: string)
    requires key !in m
    ensures FromFields(m[key := val]).fields
            == if key in RECOGNISED then FromFields(m).fields else FromFields(m).fields[key := val]
  {
    hide Atoi, SeverityToLevel;
  }

  /** What a new field does to each slot but the process name, wherever it comes in the record. */
  ghost predicate SlotsUpdated(before: LogEntry, after: LogEntry, key: string, val: string) {
    && after.message == (if key == "MESSAGE" then val else before.message)
    && after.hostname == (if key == "_HOSTNAME" then val else before.hostname)
    && after.pid == (if key == "_PID" && Atoi(val).Some? then Atoi(val).value else before.pid)
    && after.facility == (if key == "SYSLOG_FACILITY" && Atoi(val).Some? then Atoi(val).value else before.facility)
    && after.timestamp == (if key == "__REALTIME_TIMESTAMP" && Atoi(val).Some?
                           then At(Atoi(val).value * 1000) else before.timestamp)
    && after.level == (if key == "PRIORITY" && Atoi(val).Some? && 0 <= Atoi(val).value <= 7
                       then SeverityToLevel(Atoi(val).value) else before.level)
    && after.source == before.source
    && after.fields == if key in RECOGNISED then before.fields else before.fields[key := val]
  }

  lemma AssignUpdates(e: LogEntry, key: string, val: string)
    ensures SlotsUpdated(e, Assign(e, key, val), key, val)
  {
    hide Atoi, SeverityToLevel;
  }

  lemma FromFieldsUpdates(m: Fields, key: string, val: string)
    requires key !in m
    ensures SlotsUpdated(FromFields(m), FromFields(m[key := val]), key, val)
  {
    hide Atoi, SeverityToLevel;
    OwnFields(m, key, val);
  }

  lemma AssignKeepsRest(e: LogEntry, m: Fields, key: string, val: string)
    requires key !in m && Rest(e) == Rest(FromFields(m))
    ensures Rest(Assign(e, key, val)) == Rest(FromFields(m[key := val]))
  {
    hide Atoi, SeverityToLevel, Assign, FromFields;
    AssignUpdates(e, key, val);
    FromFieldsUpdates(m, key, val);
    var f := FromFields(m);
    assert e == Rest(f).(process := e.process);
  }

  lemma AssignProcess(e: LogEntry, m: Fields, key: string, val: string)
    requires key !in m && !Clash(m[key := val]) && e.process == FromFields(m).process
    ensures Assign(e, key, val).process == FromFields(m[key := val]).process
  {
    hide Atoi;
  }

  ghost function HasKey(key: string): string -> nat {
    (line: string) => match FieldOf(line) case None => 0 case Some(f) => if f.key == key then 1 else 0
  }

  /** No key occurs twice. */
  ghost predicate DistinctKeys(ls: seq<string>) {
    forall key :: SumSeq(ls, HasKey(key)) <= 1
  }

  lemma {:induction false} KeyInMap(ls: seq<string>, key: string)
    ensures key in FieldMap(ls) <==> SumSeq(ls, HasKey(key)) > 0
  {
    if ls != [] {
      var init, l := ls[..|ls| - 1], ls[|ls| - 1];
      assert ls == init + [l];
      SumSeqSnoc(init, l, HasKey(key));
      KeyInMap(init, key);
    }
  }

  lemma DistinctInit(ls: seq<string>)
    requires ls != [] && DistinctKeys(ls)
    ensures DistinctKeys(ls[..|ls| - 1])
    ensures var f := FieldOf(ls[|ls| - 1]); f.Some? ==> f.value.key !in FieldMap(ls[..|ls| - 1])
  {
    var init, l := ls[..|ls| - 1], ls[|ls| - 1];
    assert ls == init + [l];
    forall key ensures SumSeq(init, HasKey(key)) + HasKey(key)(l) <= 1 {
      SumSeqSnoc(init, l, HasKey(key));
    }
    if FieldOf(l).Some? {
      KeyInMap(init, FieldOf(l).value.key);
    }
  }

  /** All but the process name always depends on the fields alone; without a clash that does too. */
  lemma {:induction false} BuildIsFromFields(ls: seq<string>)
    requires DistinctKeys(ls)
    ensures Rest(Build(ls)) == Rest(FromFields(FieldMap(ls)))
    ensures !Clash(FieldMap(ls)) ==> Build(ls) == FromFields(FieldMap(ls))
  {
    hide FieldOf, Assign, FromFields;
    if ls == [] {
      NoFields();
    } else {
      var init, f := ls[..|ls| - 1], FieldOf(ls[|ls| - 1]);
      DistinctInit(ls);
      BuildIsFromFields(init);
      if f.Some? {
        AssignKeepsRest(Build(init), FieldMap(init), f.value.key, f.value.val);
        if !Clash(FieldMap(ls)) {
          AssignProcess(Build(init), FieldMap(init), f.value.key, f.value.val);
        }
      }
    }
  }

  lemma NoFields()
    ensures FromFields(map[]) == EMPTY
  {
  }

  // ---------- permutations ----------

  lemma {:induction false} LineOfKey(ls: seq<string>, key: string) returns (line: string)
    requires key in FieldMap(ls)
    ensures line in ls && FieldOf(line) == Some(Field(key, FieldMap(ls)[key]))
  {
    hide FieldOf;
    var f := FieldOf(ls[|ls| - 1]);
    if f.Some? && f.value.key == key {
      line := ls[|ls| - 1];
    } else {
      line := LineOfKey(ls[..|ls| - 1], key);
    }
  }

  lemma {:induction false} KeyOfLine(ls: seq<string>, line: string)
    requires DistinctKeys(ls) && line in ls && FieldOf(line).Some?
    ensures var f := FieldOf(line).value; f.key in FieldMap(ls) && FieldMap(ls)[f.key] == f.val
  {
    hide FieldOf, DistinctKeys;
    var init := ls[..|ls| - 1];
    DistinctInit(ls);
    if line != ls[|ls| - 1] {
      assert line in init;
      KeyOfLine(init, line);
    }
  }

  lemma PermutedFields(a: seq<string>, b: seq<string>)
    requires DistinctKeys(a) && multiset(a) == multiset(b)
    ensures DistinctKeys(b) && FieldMap(a) == FieldMap(b)
  {
    hide FieldOf, FieldMap;
    forall key ensures SumSeq(b, HasKey(key)) <= 1 {
      SumOfPermutation(a, b, HasKey(key));
    }
    FieldsWithin(a, b);
    FieldsWithin(b, a);
  }

  lemma FieldsWithin(a: seq<string>, b: seq<string>)
    requires DistinctKeys(b) && multiset(a) == multiset(b)
    ensures forall key :: key in FieldMap(a) ==> key in FieldMap(b) && FieldMap(b)[key] == FieldMap(a)[key]
  {
    hide FieldOf, FieldMap, DistinctKeys;
    forall key | key in FieldMap(a) ensures key in FieldMap(b) && FieldMap(b)[key] == FieldMap(a)[key] {
      var line := LineOfKey(a, key);
      assert line in multiset(a);
      KeyOfLine(b, line);
    }
  }

  /** The record parses at all: it has a message or a field of its own. */
  predicate Accepted(m: Fields) {
    Finish(FromFields(m)).Ok?
  }

  lemma AcceptedOrNot(ls: seq<string>)
    requires DistinctKeys(ls)
    ensures ParseLines(ls) == if Accepted(FieldMap(ls)) then Ok(Build(ls)) else Err(InvalidFormat)
  {
    hide FieldMap, FromFields, DistinctKeys, Build;
    BuildIsFromFields(ls);
    var e, e' := Build(ls), FromFields(FieldMap(ls));
    assert e.message == Rest(e).message == Rest(e').message == e'.message;
    assert e.fields == Rest(e).fields == Rest(e').fields == e'.fields;
  }

  /** The order in which a record's lines come makes no difference to the parser. */
  ghost predicate OrderIrrelevant(ls: seq<string>) {
    forall other: seq<string> :: multiset(other) == multiset(ls) ==> ParseLines(other) == ParseLines(ls)
  }

  lemma NoClashNoOrder(ls: seq<string>)
    requires DistinctKeys(ls) && !(Clash(FieldMap(ls)) && Accepted(FieldMap(ls)))
    ensures OrderIrrelevant(ls)
  {
    hide FieldMap, Build, Clash, Accepted, ParseLines, DistinctKeys, FromFields;
    forall other: seq<string> | multiset(other) == multiset(ls) ensures ParseLines(other) == ParseLines(ls) {
      PermutedFields(ls, other);
      BuildIsFromFields(ls);
      BuildIsFromFields(other);
      AcceptedOrNot(ls);
      AcceptedOrNot(other);
    }
  }

  lemma TakeOut(ls: seq<string>, x: string) returns (rest: seq<string>)
    requires x in multiset(ls)
    ensures multiset(rest) + multiset{x} == multiset(ls)
  {
    var i :| 0 <= i < |ls| && ls[i] == x;
    BagWithout(ls, i);
    rest := Without(ls, i);
  }

  /** Two lines put last, in either order. */
  lemma PutLast(ls: seq<string>, x: string, y: string) returns (rest: seq<string>)
    requires x in ls && y in ls && x != y
    ensures multiset(rest + [x] + [y]) == multiset(ls) && multiset(rest + [y] + [x]) == multiset(ls)
  {
    var most := TakeOut(ls, x);
    assert y in multiset(ls) && y in multiset(most);
    rest := TakeOut(most, y);
    BagOfSnoc(rest, x);
    BagOfSnoc(rest + [x], y);
    BagOfSnoc(rest, y);
    BagOfSnoc(rest + [y], x);
  }

  lemma AssignIdentifier(e: LogEntry)
    ensures Assign(e, "SYSLOG_IDENTIFIER", "").process == ""
  {
  }

  lemma AssignCommand(e: LogEntry, val: string)
    requires e.process == ""
    ensures Assign(e, "_COMM", val).process == val
  {
  }

  lemma ClashDependsOnOrder(ls: seq<string>)
    requires DistinctKeys(ls) && Clash(FieldMap(ls)) && Accepted(FieldMap(ls))
    ensures !OrderIrrelevant(ls)
  {
    var m := FieldMap(ls);
    hide FieldMap, Build, Accepted, ParseLines, DistinctKeys, FromFields, Assign, FieldOf;
    var x := LineOfKey(ls, "SYSLOG_IDENTIFIER");
    var y := LineOfKey(ls, "_COMM");
    var rest := PutLast(ls, x, y);
    var a, b := rest + [x] + [y], rest + [y] + [x];
    BuildSnoc(rest, x);
    BuildSnoc(rest + [x], y);
    BuildSnoc(rest + [y], x);
    AssignIdentifier(Build(rest));
    AssignIdentifier(Build(rest + [y]));
    AssignCommand(Build(rest + [x]), m["_COMM"]);
    assert Build(a).process != Build(b).process;
    PermutedFields(ls, a);
    PermutedFields(ls, b);
    AcceptedOrNot(a);
    AcceptedOrNot(b);
  }

  /**
   For a record with distinct keys every permutation of its lines parses to the same result, if and only
   if it is not an acceptable record with an empty SYSLOG_IDENTIFIER beside a non-empty _COMM.
   */
  lemma OrderIrrelevantIff(ls: seq<string>)
    requires DistinctKeys(ls)
    ensures OrderIrrelevant(ls) <==> !(Clash(FieldMap(ls)) && Accepted(FieldMap(ls)))
  {
    hide *;
    if Clash(FieldMap(ls)) && Accepted(FieldMap(ls)) {
      ClashDependsOnOrder(ls);
    } else {
      NoClashNoOrder(ls);
    }
  }

  // ---------- lines ----------

  /** KEY=value, the key being everything before the first '='. */
  lemma FieldReadsBack(key: string, val: string)
    requires key != "" && Free(key, "=")
    ensures FieldOf(key + ("=" + val)) == Some(Field(key, val))
  {
    var l := key + ("=" + val);
    IndexAfter(key, "=" + val, "=");
    assert l[..|key|] == key && l[|key| + 1..] == val;
  }

  /** A line is dropped exactly if it has no '=' or nothing before it. */
  lemma DroppedIff(line: string)
    ensures FieldOf(line).None? <==> '=' !in line || line[0] == '='
  {
    var eq := IndexAny(line, "=");
    assert eq < |line| ==> line[eq] == '=' && '=' in line;
    assert '=' in line ==> eq < |line|;
  }

  /** A record is refused exactly if it has neither a message nor a field of its own. */
  lemma AcceptedIff(ls: seq<string>)
    requires DistinctKeys(ls)
    ensures ParseLines(ls) == Err(InvalidFormat)
            <==> Get(FieldMap(ls), "MESSAGE") == "" && FieldMap(ls).Keys <= RECOGNISED
    ensures ParseLines(ls) != Err(InvalidFormat) ==> ParseLines(ls) == Ok(Build(ls))
  {
    hide Build, FieldMap, DistinctKeys, Atoi, SeverityToLevel;
    AcceptedOrNot(ls);
    var m := FieldMap(ls);
    assert FromFields(m).message == Get(m, "MESSAGE");
    assert FromFields(m).fields == map[] <==> m.Keys <= RECOGNISED by {
      if k :| k in m && k !in RECOGNISED {
        assert k in FromFields(m).fields;
      }
    }
  }

  // ---------- round trip ----------

  function LineOf(f: Field): string {
    f.key + ("=" + f.val)
  }

  function LinesOf(fs: seq<Field>): seq<string> {
    seq(|fs|, i requires 0 <= i < |fs| => LineOf(fs[i]))
  }

  /** The record as journalctl exports it: one line a field. */
  function Print(fs: seq<Field>): string {
    J.Joined(LinesOf(fs))
  }

  predicate Printable(fs: seq<Field>) {
    && (forall i :: 0 <= i < |fs| ==> fs[i].key != "" && Free(fs[i].key, "=\n") && Free(fs[i].val, "\n"))
    && (forall i, j :: 0 <= i < j < |fs| ==> fs[i].key != fs[j].key)
  }

  function MapOf(fs: seq<Field>): Fields {
    if fs == [] then map[] else MapOf(fs[..|fs| - 1])[fs[|fs| - 1].key := fs[|fs| - 1].val]
  }

  lemma PrintableInit(fs: seq<Field>)
    requires Printable(fs) && fs != []
    ensures Printable(fs[..|fs| - 1]) && fs[|fs| - 1].key !in MapOf(fs[..|fs| - 1])
    ensures FieldOf(LineOf(fs[|fs| - 1])) == Some(fs[|fs| - 1])
    ensures LinesOf(fs) == LinesOf(fs[..|fs| - 1]) + [LineOf(fs[|fs| - 1])]
  {
    var init, f := fs[..|fs| - 1], fs[|fs| - 1];
    KeysOfMap(init);
    FieldReadsBack(f.key, f.val);
  }

  predicate HasField(fs: seq<Field>, k: string) {
    exists i :: 0 <= i < |fs| && fs[i].key == k
  }

  lemma HasFieldSnoc(fs: seq<Field>, k: string)
    requires fs != []
    ensures HasField(fs, k) <==> HasField(fs[..|fs| - 1], k) || fs[|fs| - 1].key == k
  {
    var init := fs[..|fs| - 1];
    assert forall i :: 0 <= i < |init| ==> init[i] == fs[i];
  }

  lemma {:induction false} KeysOfMap(fs: seq<Field>)
    ensures forall k :: k in MapOf(fs) <==> HasField(fs, k)
  {
    if fs != [] {
      hide HasField;
      KeysOfMap(fs[..|fs| - 1]);
      forall k ensures k in MapOf(fs) <==> HasField(fs, k) {
        HasFieldSnoc(fs, k);
      }
    }
  }

  lemma {:induction false} PrintedFields(fs: seq<Field>)
    requires Printable(fs)
    ensures FieldMap(LinesOf(fs)) == MapOf(fs) && DistinctKeys(LinesOf(fs))
  {
    hide FieldOf, LineOf, Printable, LinesOf;
    if fs == [] {
      NoLines();
    } else {
      var init, f := fs[..|fs| - 1], fs[|fs| - 1];
      PrintableInit(fs);
      PrintedFields(init);
      assert LinesOf(fs)[..|LinesOf(fs)| - 1] == LinesOf(init);
      forall key ensures SumSeq(LinesOf(fs), HasKey(key)) <= 1 {
        SumSeqSnoc(LinesOf(init), LineOf(f), HasKey(key));
        KeyInMap(LinesOf(init), key);
      }
    }
  }

  lemma NoLines()
    ensures LinesOf([]) == [] && FieldMap([]) == map[] && DistinctKeys([])
  {
  }

  lemma PrintedLines(fs: seq<Field>)
    requires Printable(fs)
    ensures J.RecordLines(Print(fs)) == LinesOf(fs)
  {
    hide J.RecordLines, J.Joined;
    var ls := LinesOf(fs);
    assert J.AllLines(ls) by {
      forall i | 0 <= i < |ls| ensures ls[i] != "" && Free(ls[i], "\n") {
        assert ls[i] == LineOf(fs[i]);
      }
    }
    J.LinesOfJoined(ls, "");
    assert J.Joined(ls) + "" == J.Joined(ls) && ls + [] == ls;
  }

  lemma PrintIsNotEmpty(fs: seq<Field>)
    requires fs != []
    ensures Print(fs) != ""
  {
  }

  /**
   Whatever fields a record is printed from, parsing it gives the entry of those fields, or refuses it if
   there is neither a message nor a field of its own.
   */
  lemma RecordReadsBack(fs: seq<Field>)
    requires fs != [] && Printable(fs) && !Clash(MapOf(fs))
    ensures Parse(Print(fs)) ==
            if Get(MapOf(fs), "MESSAGE") == "" && MapOf(fs).Keys <= RECOGNISED then Err(InvalidFormat)
            else Ok(FromFields(MapOf(fs)))
  {
    hide J.RecordLines, J.Joined, LinesOf, Printable, FromFields, Clash, FieldMap, Build, DistinctKeys;
    PrintIsNotEmpty(fs);
    PrintedLines(fs);
    PrintedFields(fs);
    BuildIsFromFields(LinesOf(fs));
    AcceptedIff(LinesOf(fs));
  }

  // ---------- entries as records ----------

  lemma {:induction false} MapOfAt(fs: seq<Field>, i: nat)
    requires Printable(fs) && i < |fs|
    ensures fs[i].key in MapOf(fs) && MapOf(fs)[fs[i].key] == fs[i].val
  {
    if i < |fs| - 1 {
      MapOfAt(fs[..|fs| - 1], i);
    }
  }

  /** The well-known fields of an entry. */
  function Known(e: LogEntry, micros: nat): seq<Field>
    requires e.pid >= 0 && e.facility >= 0
  {
    [Field("MESSAGE", e.message), Field("PRIORITY", Decimal(Severity(e.level), 1)), Field("_HOSTNAME", e.hostname),
     Field("_PID", Decimal(e.pid, 1)), Field("SYSLOG_IDENTIFIER", e.process),
     Field("SYSLOG_FACILITY", Decimal(e.facility, 1)), Field("__REALTIME_TIMESTAMP", Decimal(micros, 1))]
  }

  /** What the journal can hold: single-line texts, numbers within an int64, whole microseconds. */
  predicate Exportable(own: seq<Field>, e: LogEntry, micros: nat) {
    && Printable(own) && (forall i :: 0 <= i < |own| ==> own[i].key !in RECOGNISED) && e.fields == MapOf(own)
    && Free(e.message, "\n") && Free(e.hostname, "\n") && Free(e.process, "\n")
    && 0 <= e.pid < 0x8000_0000_0000_0000 && 0 <= e.facility < 0x8000_0000_0000_0000
    && micros < 0x8000_0000_0000_0000 && e.timestamp == At(micros * 1000)
    && e.source == "journald" && (e.message != "" || own != [])
  }

  lemma DecimalHasNoNewline(n: nat)
    ensures Free(Decimal(n, 1), "\n")
  {
  }

  predicate KeyOk(key: string) {
    key != "" && Free(key, "=\n") && key in RECOGNISED && key != "_COMM"
  }

  lemma KnownKeysOk(e: LogEntry, micros: nat)
    requires e.pid >= 0 && e.facility >= 0
    ensures forall j :: 0 <= j < 7 ==> KeyOk(Known(e, micros)[j].key)
    ensures forall i, j :: 0 <= i < j < 7 ==> Known(e, micros)[i].key != Known(e, micros)[j].key
  {
    hide Decimal, Severity, KeyOk;
    NamesAreKeys();
    var fs := Known(e, micros);
    assert |fs[0].key| == 7 && |fs[1].key| == 8 && |fs[2].key| == 9 && |fs[3].key| == 4 && |fs[4].key| == 17;
    assert |fs[5].key| == 15 && |fs[6].key| == 20;
  }

  lemma NamesAreKeys()
    ensures KeyOk("MESSAGE") && KeyOk("PRIORITY") && KeyOk("_HOSTNAME") && KeyOk("_PID")
    ensures KeyOk("SYSLOG_IDENTIFIER") && KeyOk("SYSLOG_FACILITY") && KeyOk("__REALTIME_TIMESTAMP")
  {
  }

  lemma ExportIsPrintable(own: seq<Field>, e: LogEntry, micros: nat)
    requires Exportable(own, e, micros)
    ensures Printable(own + Known(e, micros))
  {
    DecimalHasNoNewline(Severity(e.level));
    DecimalHasNoNewline(e.pid);
    DecimalHasNoNewline(e.facility);
    DecimalHasNoNewline(micros);
    KnownKeysOk(e, micros);
    hide Decimal, Severity, Free, MapOf;
    var known := Known(e, micros);
    assert forall j :: 0 <= j < 7 ==> Free(known[j].val, "\n");
    var fs := own + known;
    hide Known;
    assert forall i :: |own| <= i < |fs| ==> fs[i] == known[i - |own|];
    forall i, j | 0 <= i < j < |fs| ensures fs[i].key != fs[j].key {
      if i < |own| <= j {
        assert KeyOk(known[j - |own|].key);
      }
    }
    forall i | 0 <= i < |fs| ensures fs[i].key != "" && Free(fs[i].key, "=\n") && Free(fs[i].val, "\n") {
      if i >= |own| {
        assert KeyOk(known[i - |own|].key);
      }
    }
  }

  lemma LaterFields(own: seq<Field>, known: seq<Field>)
    requires Printable(own + known)
    ensures var m := MapOf(own + known);
      forall j :: 0 <= j < |known| ==> known[j].key in m && m[known[j].key] == known[j].val
  {
    hide Printable, MapOf;
    var fs := own + known;
    forall j | 0 <= j < |known| ensures known[j].key in MapOf(fs) && MapOf(fs)[known[j].key] == known[j].val {
      MapOfAt(fs, |own| + j);
      assert fs[|own| + j] == known[j];
    }
  }

  lemma OwnField(own: seq<Field>, known: seq<Field>, k: string)
    requires Printable(own + known) && Printable(own) && forall j :: 0 <= j < |known| ==> known[j].key != k
    ensures k in MapOf(own + known) <==> k in MapOf(own)
    ensures k in MapOf(own) ==> MapOf(own + known)[k] == MapOf(own)[k]
  {
    hide Printable, MapOf;
    var fs := own + known;
    KeysOfMap(fs);
    KeysOfMap(own);
    assert forall i :: 0 <= i < |own| ==> fs[i] == own[i];
    assert forall i :: |own| <= i < |fs| ==> fs[i] == known[i - |own|];
    if k in MapOf(own) {
      var i :| 0 <= i < |own| && own[i].key == k;
      MapOfAt(own, i);
      MapOfAt(fs, i);
      assert fs[i] == own[i];
    }
  }

  lemma OwnFieldsKept(own: seq<Field>, known: seq<Field>)
    requires Printable(own + known) && Printable(own)
    requires forall i :: 0 <= i < |own| ==> own[i].key !in RECOGNISED
    requires forall j :: 0 <= j < |known| ==> known[j].key in RECOGNISED && known[j].key != "_COMM"
    ensures var m := MapOf(own + known);
      "_COMM" !in m && (map k | k in m && k !in RECOGNISED :: m[k]) == MapOf(own)
  {
    hide Printable, MapOf;
    var m := MapOf(own + known);
    KeysOfMap(own);
    OwnField(own, known, "_COMM");
    forall k | k !in RECOGNISED ensures (k in m <==> k in MapOf(own)) && (k in m ==> m[k] == MapOf(own)[k]) {
      OwnField(own, known, k);
    }
    assert forall k :: k in MapOf(own) ==> k !in RECOGNISED;
  }

  /** The fields of an exported entry, looked up. */
  lemma ExportedLookups(own: seq<Field>, e: LogEntry, micros: nat)
    requires Exportable(own, e, micros)
    ensures var known := Known(e, micros);
      var m := MapOf(own + known);
      && (forall j :: 0 <= j < |known| ==> known[j].key in m && m[known[j].key] == known[j].val)
      && "_COMM" !in m
      && (map k | k in m && k !in RECOGNISED :: m[k]) == MapOf(own)
  {
    ExportIsPrintable(own, e, micros);
    KnownKeysOk(e, micros);
    var known := Known(e, micros);
    assert forall j :: 0 <= j < |known| ==> KeyOk(known[j].key);
    hide Printable, MapOf, Known;
    LaterFields(own, known);
    OwnFieldsKept(own, known);
  }

  lemma ExportedFields(own: seq<Field>, e: LogEntry, micros: nat)
    requires Exportable(own, e, micros)
    ensures var m := MapOf(own + Known(e, micros)); FromFields(m) == e && !Clash(m)
  {
    ExportedLookups(own, e, micros);
    SeverityRoundTrip(e.level, 0);
    AtoiOfDecimal(Severity(e.level));
    AtoiOfDecimal(e.pid);
    AtoiOfDecimal(e.facility);
    AtoiOfDecimal(micros);
    var known := Known(e, micros);
    var m := MapOf(own + known);
    hide Atoi, SeverityToLevel, Severity, Decimal, MapOf, Printable;
    assert known[0].key in m && known[1].key in m && known[2].key in m && known[3].key in m;
    assert known[4].key in m && known[5].key in m && known[6].key in m;
  }

  /** Parsing an exported entry recovers it. */
  lemma EntryRoundTrip(own: seq<Field>, e: LogEntry, micros: nat)
    requires Exportable(own, e, micros)
    ensures Parse(Print(own + Known(e, micros))) == Ok(e)
  {
    ExportIsPrintable(own, e, micros);
    ExportedFields(own, e, micros);
    ExportedLookups(own, e, micros);
    RecordReadsBack(own + Known(e, micros));
    assert Known(e, micros)[0].key == "MESSAGE";
    if own != [] {
      KeysOfMap(own);
      assert own[0].key in MapOf(own);
    }
  }
}
