/** The file tailer of internal/source/file.go. */
module Tailing {
  import opened Collections
  import opened Entries
  import opened LineReading
  import opened Offsets

  type Parse = string -> Option<LogEntry>

  /** The entry emitted for what the parser got. */
  function EntryFor(parse: Parse, name: string, passed: (string, bool)): Option<LogEntry> {
    match parse(passed.0)
    case None => None
    case Some(e) =>
      Some(e.(source := name, fields := if passed.1 then e.fields["truncated" := "true"] else e.fields))
  }

  function Emission(e: Option<LogEntry>): seq<LogEntry> {
    if e.Some? then [e.value] else []
  }

  function EmitAll(parse: Parse, name: string, ps: seq<(string, bool)>): seq<LogEntry> {
    if ps == [] then []
    else Emission(EntryFor(parse, name, ps[0])) + EmitAll(parse, name, ps[1..])
  }

  /** A line the parser refuses yields nothing; the entry of any other is renamed, and marked if it was cut. */
  lemma EntryIs(parse: Parse, name: string, text: string, cut: bool)
    ensures EntryFor(parse, name, (text, cut)).None? <==> parse(text).None?
    ensures parse(text).Some? ==>
              var raw, e := parse(text).value, EntryFor(parse, name, (text, cut)).value;
              && e.source == name
              && (cut ==> "truncated" in e.fields && e.fields["truncated"] == "true")
              && (!cut ==> e.fields == raw.fields)
              && (forall k :: k != "truncated" ==> (k in e.fields <==> k in raw.fields))
              && (forall k :: k != "truncated" && k in raw.fields ==> e.fields[k] == raw.fields[k])
              && e == raw.(source := e.source, fields := e.fields)
  {
  }

  /** Emission goes line by line, in order: each line that parses yields exactly its entry. */
  lemma {:induction false} EmissionsInOrder(parse: Parse, name: string, ps: seq<(string, bool)>, qs: seq<(string, bool)>)
    ensures EmitAll(parse, name, ps + qs) == EmitAll(parse, name, ps) + EmitAll(parse, name, qs)
    ensures forall p :: EmitAll(parse, name, [p])
                        == match EntryFor(parse, name, p) case None => [] case Some(e) => [e]
  {
    forall p ensures EmitAll(parse, name, [p])
                     == match EntryFor(parse, name, p) case None => [] case Some(e) => [e] {
      assert [p][1..] == [];
    }
    if ps == [] {
      assert ps + qs == qs;
    } else {
      assert (ps + qs)[1..] == ps[1..] + qs;
      EmissionsInOrder(parse, name, ps[1..], qs);
    }
  }

  // ---------- what a read may return while the file is being written ----------

  /** One read from `from` to `to`: all of it, or a full buffer with a newline put behind it. */
  predicate Piece(text: string, from: nat, to: nat, maxLine: nat, raw: string) {
    && from < to <= |text|
    && (raw == text[from..to]
        || (to - from >= BufferSize(maxLine) && raw == text[from..from + BufferSize(maxLine)] + "\n"))
  }

  /** Reads that follow each other from `from` to `to`. */
  ghost predicate Pieces(text: string, from: nat, to: nat, maxLine: nat, raws: seq<string>)
    decreases |raws|
  {
    if raws == [] then from == to
    else
      var n := |raws| - 1;
      exists mid: nat :: Pieces(text, from, mid, maxLine, raws[..n]) && Piece(text, mid, to, maxLine, raws[n])
  }

  function CapAll(raws: seq<string>, maxLine: nat): seq<(string, bool)> {
    if raws == [] then [] else CapAll(raws[..|raws| - 1], maxLine) + [Capped(raws[|raws| - 1], maxLine)]
  }

  lemma OneMorePiece(text: string, from: nat, mid: nat, to: nat, maxLine: nat, raws: seq<string>, raw: string)
    requires Pieces(text, from, mid, maxLine, raws) && Piece(text, mid, to, maxLine, raw)
    ensures Pieces(text, from, to, maxLine, raws + [raw])
    ensures CapAll(raws + [raw], maxLine) == CapAll(raws, maxLine) + [Capped(raw, maxLine)]
  {
    assert (raws + [raw])[..|raws|] == raws;
  }

  lemma EmitOneMore(parse: Parse, name: string, ps: seq<(string, bool)>, p: (string, bool))
    ensures EmitAll(parse, name, ps + [p]) == EmitAll(parse, name, ps) + Emission(EntryFor(parse, name, p))
  {
    EmissionsInOrder(parse, name, ps, [p]);
  }

  /** What stat says about the configured path. */
  datatype Stat = Missing | Present(inode: nat, size: nat)

  class FileSource {
    const name: string
    const maxLine: nat
    const fromBeginning: bool
    const offsets: OffsetStore?
    var inode: nat
    var offset: nat
    var reader: Reader

    /** The offset is exactly what has been consumed of the file. */
    ghost predicate InSync(text: string)
      reads this
    {
      maxLine >= 1 && reader.pos == offset && Fits(text, BufferSize(maxLine), reader)
    }

    constructor (name: string, maxLineBytes: int, fromBeginning: bool, offsets: OffsetStore?)
      ensures this.name == name && this.fromBeginning == fromBeginning && this.offsets == offsets
      ensures maxLine == if maxLineBytes <= 0 then 65536 else maxLineBytes
    {
      this.name, this.fromBeginning, this.offsets := name, fromBeginning, offsets;
      maxLine := if maxLineBytes <= 0 then 64 * 1024 else maxLineBytes;
      inode, offset, reader := 0, 0, Reader(0, 0);
    }

    /** What the offset store has to say; without a store, nothing. */
    function LoadedOffset(unreadable: bool): Option<Offset>
      reads offsets
    {
      if offsets == null then None else Loaded(offsets.records, name, unreadable)
    }

    method OpenInitial(ino: nat, size: nat, unreadable: bool)
      modifies this
      ensures inode == ino && offset == StartOffset(fromBeginning, LoadedOffset(unreadable), ino, size)
      ensures maxLine >= 1 ==> forall text: string :: size <= |text| ==> InSync(text)
    {
      var loaded: Option<Offset> := None;
      if offsets != null && !fromBeginning {
        loaded := offsets.Load(name, unreadable);
      }
      inode := ino;
      offset := StartOffset(fromBeginning, loaded, ino, size);
      reader := Reader(offset, offset);
    }

    /** Saves the offset with the inode it belongs to. A failure is only logged. */
    method PersistOffset(fails: bool, cleaned: bool)
      modifies offsets
      ensures offsets != null ==>
                offsets.records == if fails then old(offsets.records) else old(offsets.records)[name := Offset(offset, inode)]
    {
      if offsets == null { return; }
      var ok := offsets.Save(name, Offset(offset, inode), fails, cleaned);
    }

    /** Skips the rest of an oversized line, up to the discard limit. */
    method DiscardThroughNewline(text: string, chunks: seq<nat>) returns (n: nat, left: seq<nat>)
      requires maxLine >= 1 && Fits(text, BufferSize(maxLine), reader)
      modifies this`reader
      ensures Fits(text, BufferSize(maxLine), reader)
      ensures reader.pos == old(reader.pos) + n && n < MAX_DISCARD + BufferSize(maxLine)
      ensures Quiescent(chunks) ==>
                Quiescent(left) && reader.pos == SkipTo(text, old(reader.pos), BufferSize(maxLine))
    {
      var r;
      n, r, left := SkipLine(text, BufferSize(maxLine), reader, chunks);
      reader := r;
    }

    /** One line, cut at the buffer size if it is longer. */
    method ReadLine(text: string, chunks: seq<nat>) returns (line: Option<string>, left: seq<nat>)
      requires InSync(text)
      modifies this`offset, this`reader
      ensures InSync(text) && old(offset) <= offset <= |text|
      ensures line.None? <==> offset == old(offset)
      ensures line.Some? ==> Piece(text, old(offset), offset, maxLine, line.value)
      ensures Quiescent(chunks) ==> Quiescent(left)
      ensures Quiescent(chunks) ==>
                var l := LineAt(text, old(offset), maxLine);
                line == (if l.NoLine? then None else Some(l.raw)) && (l.GotLine? ==> offset == l.next)
    {
      var size := BufferSize(maxLine);
      var st, r, rest := ReadSlice(text, size, reader, chunks);
      var slice := text[reader.pos..r.pos];
      assert r.pos == |text| ==> slice == text[offset..];
      reader, left := r, rest;
      match st
      case Found =>
        offset := offset + |slice|;
        line := Some(slice);
      case Full =>
        offset := offset + |slice|;
        var drained;
        drained, left := DiscardThroughNewline(text, left);
        offset := offset + drained;
        line := Some(slice + "\n");
      case Eof =>
        if |slice| > 0 {
          offset := offset + |slice|;
          line := Some(slice);
        } else {
          line := None;
        }
    }

    method ConsumeLine(raw: string, parse: Parse) returns (e: Option<LogEntry>)
      ensures e == EntryFor(parse, name, Capped(raw, maxLine))
    {
      var text, truncated := raw, false;
      if |raw| > maxLine {
        text, truncated := raw[..maxLine], true;
      }
      match parse(text)
      case None => e := None;
      case Some(entry) =>
        entry := entry.(source := name);
        if truncated {
          entry := entry.(fields := entry.fields["truncated" := "true"]);
        }
        e := Some(entry);
    }

    /** Reads to the end of the file. */
    method Drain(text: string, chunks: seq<nat>, parse: Parse) returns (emitted: seq<LogEntry>, ghost raws: seq<string>)
      requires InSync(text)
      modifies this`offset, this`reader
      ensures InSync(text) && old(offset) <= offset
      ensures Pieces(text, old(offset), offset, maxLine, raws)
      ensures emitted == EmitAll(parse, name, CapAll(raws, maxLine))
      ensures Quiescent(chunks) ==> offset == |text|
      ensures Quiescent(chunks) ==> emitted == EmitAll(parse, name, Passed(text, old(offset), maxLine))
    {
      assert offset <= |text|;
      emitted, raws := [], [];
      assert Pieces(text, offset, offset, maxLine, []) && EmitAll(parse, name, CapAll([], maxLine)) == [];
      hide *;
      var left := chunks;
      while true
        invariant InSync(text) && old(offset) <= offset <= |text|
        invariant Pieces(text, old(offset), offset, maxLine, raws)
        invariant emitted == EmitAll(parse, name, CapAll(raws, maxLine))
        invariant Quiescent(chunks) ==> Quiescent(left)
        invariant Quiescent(chunks) ==>
                    emitted + EmitAll(parse, name, Passed(text, offset, maxLine))
                    == EmitAll(parse, name, Passed(text, old(offset), maxLine))
        decreases |text| - offset
      {
        ghost var from := offset;
        var line;
        line, left := ReadLine(text, left);
        if line.None? {
          if Quiescent(chunks) {
            EmitNone(parse, name, text, offset, maxLine);
          }
          break;
        }
        var e := ConsumeLine(line.value, parse);
        if Quiescent(chunks) {
          EmitNext(parse, name, text, from, maxLine);
          Regroup(emitted, Emission(e), EmitAll(parse, name, Passed(text, offset, maxLine)));
        }
        OneMorePiece(text, old(offset), from, offset, maxLine, raws, line.value);
        EmitOneMore(parse, name, CapAll(raws, maxLine), Capped(line.value, maxLine));
        emitted, raws := emitted + Emission(e), raws + [line.value];
      }
    }

    /** Starts over at 0 on a new inode or a file shorter than what was consumed. */
    method CheckRotation(stat: Stat, opens: bool) returns (rotated: bool)
      modifies this
      ensures rotated <==> stat.Present? && ((stat.inode != old(inode) && opens)
                                             || (stat.inode == old(inode) && stat.size < old(offset)))
      ensures rotated ==> inode == stat.inode && offset == 0 && reader == Reader(0, 0)
      ensures !rotated ==> inode == old(inode) && offset == old(offset) && reader == old(reader)
    {
      rotated := false;
      if stat.Missing? { return; }
      if stat.inode != inode {
        if !opens { return; }
        inode, offset, reader, rotated := stat.inode, 0, Reader(0, 0), true;
      } else if stat.size < offset {
        offset, reader, rotated := 0, Reader(0, 0), true;
      }
    }
  }

  lemma EmitNone(parse: Parse, name: string, text: string, from: nat, maxLine: nat)
    requires from <= |text| && LineAt(text, from, maxLine).NoLine?
    ensures from == |text| && EmitAll(parse, name, Passed(text, from, maxLine)) == []
  {
  }

  lemma EmitNext(parse: Parse, name: string, text: string, from: nat, maxLine: nat)
    requires from <= |text| && LineAt(text, from, maxLine).GotLine?
    ensures var l := LineAt(text, from, maxLine);
      EmitAll(parse, name, Passed(text, from, maxLine))
      == Emission(EntryFor(parse, name, Capped(l.raw, maxLine))) + EmitAll(parse, name, Passed(text, l.next, maxLine))
  {
    var l := LineAt(text, from, maxLine);
    var rest := Passed(text, l.next, maxLine);
    assert ([Capped(l.raw, maxLine)] + rest)[1..] == rest;
  }
}
