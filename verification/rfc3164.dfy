/** The RFC 3164 parser of internal/parser/syslog_bsd.go and its printer. */
module Rfc3164 {
  import opened Collections
  import opened Entries
  import opened Names
  import opened Syslog

  const TIMESTAMP_LENGTH: nat := 15

  /** time.ParseInLocation with the configured year and zone put in. */
  type ParseTime = string -> Option<Time>

  // ---------- the parser ----------

  function TrimLeftSpaces(s: string): string {
    if s != "" && s[0] == ' ' then TrimLeftSpaces(s[1..]) else s
  }

  function TrimColon(s: string): string {
    if s != "" && s[0] == ':' then s[1..] else s
  }

  /** The pid in brackets, 0 if it is not a number, and what follows the bracket; no bracket, no change. */
  function TakePid(rest: string): (int, string) {
    if rest == "" || rest[0] != '[' then (0, rest)
    else
      var close := IndexAny(rest, "]");
      if close == |rest| then (0, rest)
      else
        var pid := match Atoi(rest[1..close]) case None => 0 case Some(v) => if v >= 0 then v else 0;
        (pid, rest[close + 1..])
  }

  /** `splitTagAndMessage`: tag, pid and message. Strict mode makes no difference to the result. */
  function SplitTagAndMessage(s: string): (string, int, string) {
    var end := IndexAny(s, "[: ");
    if end == |s| then (s, 0, "")
    else
      var (pid, rest) := TakePid(s[end..]);
      (s[..end], pid, TrimLeftSpaces(TrimColon(rest)))
  }

  function ParseAfterPriority(parseTime: ParseTime, prio: nat, rest: string): Result<LogEntry> {
    if |rest| < TIMESTAMP_LENGTH then Err(TruncatedLine)
    else match parseTime(rest[..TIMESTAMP_LENGTH])
      case None => Err(InvalidFormat)
      case Some(ts) =>
        var after := rest[TIMESTAMP_LENGTH..];
        if after == "" || after[0] != ' ' then Err(InvalidFormat)
        else
          var body := after[1..];
          var hostEnd := IndexAny(body, " ");
          if hostEnd == 0 || hostEnd == |body| then Err(InvalidFormat)
          else
            var (tag, pid, msg) := SplitTagAndMessage(body[hostEnd + 1..]);
            Ok(LogEntry(ts, SeverityToLevel(prio % 8), prio / 8, body[..hostEnd], tag, pid, msg, "syslog_bsd", map[]))
  }

  function Parse(parseTime: ParseTime, line: string): Result<LogEntry> {
    var l := TrimTrailingNewline(line);
    if l == "" then Err(TruncatedLine)
    else match Priority(l)
      case Err(e) => Err(e)
      case Ok((rest, prio)) => ParseAfterPriority(parseTime, prio, rest)
  }

  // ---------- round trip ----------

  datatype Record = Record(prio: nat, timestamp: string, host: string, tag: string, pid: Option<nat>, msg: string)

  predicate Valid(parseTime: ParseTime, r: Record) {
    && r.prio <= MAX_PRIORITY
    && |r.timestamp| == TIMESTAMP_LENGTH && parseTime(r.timestamp).Some?
    && r.host != "" && Free(r.host, " ")
    && Free(r.tag, "[: ")
    && (r.pid.Some? ==> r.pid.value < 0x8000_0000_0000_0000)
    && NoLineEnd(r.msg) && (r.msg != "" ==> r.msg[0] != ' ')
  }

  function PrintPid(pid: Option<nat>): string {
    match pid case None => "" case Some(n) => "[" + (Decimal(n, 1) + "]")
  }

  /** TAG[PID]: MSG */
  function PrintContent(r: Record): string {
    r.tag + (PrintPid(r.pid) + (": " + r.msg))
  }

  /** <PRI>TIMESTAMP HOSTNAME TAG[PID]: MSG, section 4.1 of RFC 3164. */
  function Print(r: Record): string {
    PrintPriority(r.prio) + (r.timestamp + (" " + (r.host + (" " + PrintContent(r)))))
  }

  lemma TakePidRoundTrip(pid: Option<nat>, rest: string)
    requires (pid.Some? ==> pid.value < 0x8000_0000_0000_0000) && rest != "" && rest[0] != '['
    ensures TakePid(PrintPid(pid) + rest) == (pid.GetOr(0), rest)
  {
    match pid {
      case None =>
        assert "" + rest == rest;
      case Some(n) =>
        var d := Decimal(n, 1);
        var s := PrintPid(pid) + rest;
        assert s == ("[" + d) + ("]" + rest);
        IndexAfter("[" + d, "]" + rest, "]");
        assert s[1..1 + |d|] == d;
        assert s[|d| + 2..] == rest;
        AtoiOfDecimal(n);
    }
  }

  lemma ContentRoundTrip(r: Record)
    requires Free(r.tag, "[: ") && (r.pid.Some? ==> r.pid.value < 0x8000_0000_0000_0000)
    requires r.msg != "" ==> r.msg[0] != ' '
    ensures SplitTagAndMessage(PrintContent(r)) == (r.tag, r.pid.GetOr(0), r.msg)
  {
    hide Atoi, Decimal, TakePid;
    var rest := PrintPid(r.pid) + (": " + r.msg);
    var s := r.tag + rest;
    IndexAfter(r.tag, rest, "[: ");
    assert s[..|r.tag|] == r.tag && s[|r.tag|..] == rest;
    TakePidRoundTrip(r.pid, ": " + r.msg);
    assert (": " + r.msg)[1..] == " " + r.msg;
    assert (" " + r.msg)[1..] == r.msg;
    assert TrimColon(": " + r.msg) == " " + r.msg;
    assert TrimLeftSpaces(r.msg) == r.msg;
    assert TrimLeftSpaces(" " + r.msg) == r.msg;
    assert IndexAny(s, "[: ") == |r.tag| < |s|;
  }

  predicate AllSpaces(s: string) {
    forall i :: 0 <= i < |s| ==> s[i] == ' '
  }

  lemma {:induction false} SpacesTrimmed(spaces: string, msg: string)
    requires AllSpaces(spaces) && (msg != "" ==> msg[0] != ' ')
    ensures TrimLeftSpaces(spaces + msg) == msg
  {
    if spaces == "" {
      assert spaces + msg == msg;
    } else {
      assert (spaces + msg)[1..] == spaces[1..] + msg;
      SpacesTrimmed(spaces[1..], msg);
    }
  }

  /** The separator may lack the colon or the space, and may have more spaces: the same parts are recovered. */
  lemma LooseContentRoundTrip(tag: string, pid: Option<nat>, colon: bool, spaces: string, msg: string)
    requires Free(tag, "[: ") && (pid.Some? ==> pid.value < 0x8000_0000_0000_0000) && AllSpaces(spaces)
    requires msg != "" ==> msg[0] != ' '
    requires colon || spaces != ""
    ensures SplitTagAndMessage(tag + (PrintPid(pid) + ((if colon then ":" else "") + (spaces + msg))))
            == (tag, pid.GetOr(0), msg)
  {
    hide Atoi, Decimal, TakePid;
    var sep := (if colon then ":" else "") + (spaces + msg);
    var rest := PrintPid(pid) + sep;
    var s := tag + rest;
    assert sep[0] == if colon then ':' else ' ';
    IndexAfter(tag, rest, "[: ");
    assert s[..|tag|] == tag && s[|tag|..] == rest;
    TakePidRoundTrip(pid, sep);
    assert TrimColon(sep) == spaces + msg;
    SpacesTrimmed(spaces, msg);
    assert IndexAny(s, "[: ") == |tag| < |s|;
  }

  /** Without a bracket, colon or space the whole content is the tag. */
  lemma BareTag(s: string)
    requires Free(s, "[: ")
    ensures SplitTagAndMessage(s) == (s, 0, "")
  {
    assert s + "" == s;
    IndexAfter(s, "", "[: ");
  }

  lemma TakeMalformedPid(inside: string, rest: string)
    requires Free(inside, "]") && (Atoi(inside).None? || Atoi(inside).value < 0)
    ensures TakePid("[" + inside + ("]" + rest)) == (0, rest)
  {
    hide Atoi;
    var s := "[" + inside + ("]" + rest);
    IndexAfter("[" + inside, "]" + rest, "]");
    assert s[1..1 + |inside|] == inside && s[|inside| + 2..] == rest;
  }

  /** A pid that is no non-negative number counts as 0. */
  lemma MalformedPid(tag: string, inside: string, msg: string)
    requires Free(tag, "[: ") && Free(inside, "]") && (msg != "" ==> msg[0] != ' ')
    requires Atoi(inside).None? || Atoi(inside).value < 0
    ensures SplitTagAndMessage(tag + ("[" + inside + ("]" + (": " + msg)))) == (tag, 0, msg)
  {
    hide Atoi, TakePid, TrimLeftSpaces, IndexAny;
    var rest := "[" + inside + ("]" + (": " + msg));
    var s := tag + rest;
    IndexAfter(tag, rest, "[: ");
    assert s[..|tag|] == tag && s[|tag|..] == rest;
    TakeMalformedPid(inside, ": " + msg);
    assert TrimColon(": " + msg) == " " + msg;
    SpacesTrimmed(" ", msg);
  }

  /** A bracket that is never closed stays in the message. */
  lemma UnclosedBracket(tag: string, rest: string)
    requires Free(tag, "[: ") && Free(rest, "]")
    ensures SplitTagAndMessage(tag + ("[" + rest)) == (tag, 0, "[" + rest)
  {
    var s := tag + ("[" + rest);
    IndexAfter(tag, "[" + rest, "[: ");
    assert s[..|tag|] == tag && s[|tag|..] == "[" + rest;
    assert ("[" + rest) + "" == "[" + rest;
    IndexAfter("[" + rest, "", "]");
  }

  /** What has to follow the priority: a timestamp of 15 bytes, a space, and a host ended by a space. */
  lemma AcceptedIff(parseTime: ParseTime, prio: nat, rest: string)
    ensures ParseAfterPriority(parseTime, prio, rest).Ok?
            <==> |rest| > 16 && parseTime(rest[..15]).Some? && rest[15] == ' ' && rest[16] != ' ' && ' ' in rest[16..]
    ensures ParseAfterPriority(parseTime, prio, rest) == Err(TruncatedLine) <==> |rest| < 15
  {
    hide SplitTagAndMessage;
    if |rest| >= 16 {
      assert rest[15..][1..] == rest[16..] && rest[15..][0] == rest[15];
    }
  }

  lemma AfterPriorityRoundTrip(parseTime: ParseTime, prio: nat, ts: string, host: string, content: string)
    requires |ts| == TIMESTAMP_LENGTH && parseTime(ts).Some? && host != "" && Free(host, " ")
    ensures var (tag, pid, msg) := SplitTagAndMessage(content);
      ParseAfterPriority(parseTime, prio, ts + (" " + (host + (" " + content))))
      == Ok(LogEntry(parseTime(ts).value, SeverityToLevel(prio % 8), prio / 8, host, tag, pid, msg, "syslog_bsd", map[]))
  {
    hide SplitTagAndMessage;
    var body := host + (" " + content);
    var s := ts + (" " + body);
    assert s[..|ts|] == ts && s[|ts|..] == " " + body && (" " + body)[1..] == body;
    IndexAfter(host, " " + content, " ");
    assert body[..|host|] == host && body[|host| + 1..] == content;
  }

  lemma PrintHasNoLineEnd(r: Record)
    requires NoLineEnd(r.msg)
    ensures NoLineEnd(Print(r)) && Print(r) != ""
  {
    var s := Print(r);
    var head := PrintPriority(r.prio)
                + (r.timestamp + (" " + (r.host + (" " + (r.tag + (PrintPid(r.pid) + ": "))))));
    assert s == head + r.msg;
    if r.msg == "" {
      assert s[|s| - 1] == ' ';
    } else {
      assert s[|s| - 1] == r.msg[|r.msg| - 1];
    }
  }

  /** Parsing a printed line, with any terminator, recovers all its parts. */
  lemma ParseRoundTrip(parseTime: ParseTime, r: Record, eol: string)
    requires Valid(parseTime, r) && IsLineEnd(eol)
    ensures var p := Parse(parseTime, Print(r) + eol);
      && p.Ok? && r.prio == 8 * p.value.facility + Severity(p.value.level)
      && p.value == LogEntry(parseTime(r.timestamp).value, p.value.level, p.value.facility, r.host, r.tag,
                             r.pid.GetOr(0), r.msg, "syslog_bsd", map[])
  {
    SeverityRoundTrip(Info, r.prio % 8);
    ReadsBack(parseTime, r, eol);
  }

  lemma ReadsBack(parseTime: ParseTime, r: Record, eol: string)
    requires Valid(parseTime, r) && IsLineEnd(eol)
    ensures Parse(parseTime, Print(r) + eol)
            == Ok(LogEntry(parseTime(r.timestamp).value, SeverityToLevel(r.prio % 8), r.prio / 8, r.host, r.tag,
                           r.pid.GetOr(0), r.msg, "syslog_bsd", map[]))
  {
    hide Priority, PrintPriority, ParseAfterPriority, PrintContent, TrimTrailingNewline, NoLineEnd, SplitTagAndMessage;
    PrintHasNoLineEnd(r);
    TrimUndoes(Print(r), eol);
    PriorityRoundTrip(r.prio, r.timestamp + (" " + (r.host + (" " + PrintContent(r)))));
    AfterPriorityRoundTrip(parseTime, r.prio, r.timestamp, r.host, PrintContent(r));
    ContentRoundTrip(r);
  }
}
