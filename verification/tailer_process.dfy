/**
 One file followed by the tailer of internal/source/file.go through any number of processes. Each
 call is shown to be a run of the restart machine, whose theorems therefore hold of the code.
 */
module TailerProcess {
  import opened Collections
  import opened Entries
  import opened LineReading
  import opened Offsets
  import opened Tailing
  import R = TailerRestarts

  lemma ReachedIsGood(c: R.Config, es: seq<R.Event>, t: R.State)
    requires c.inode != 0 && R.Run(c, R.INIT, es, t)
    ensures R.Inv(c, t)
  {
    R.RunKeepsInv(c, R.INIT, es, t);
  }

  /** What happens next: the file has grown by `grown` bytes, as far as a stat can tell. */
  datatype Turn =
    | Boot(grown: nat, unreadable: bool)      // a process starts
    | Poll(chunks: seq<nat>)                  // drain
    | Check(grown: nat, opens: bool)          // checkRotation
    | Persist(fails: bool, cleaned: bool)
    | Die

  function Grown(s: R.State, n: nat, limit: nat): R.State {
    s.(size := if s.size + n <= limit then s.size + n else limit)
  }

  /** What a turn does to file, record and process. Only a boot does anything while there is no process. */
  ghost predicate TurnEffect(c: R.Config, text: string, s: R.State, turn: Turn, t: R.State) {
    match turn
    case Boot(grown, unreadable) =>
      if s.current.Some? then t == s
      else t == R.Step(c, Grown(s, grown, |text|).(current := None), R.Open(!unreadable))
    case Poll(chunks) =>
      if s.current.None? then t == s
      else
        && t.current.Some? && t.current.value.from == s.current.value.from
        && s.current.value.to <= t.current.value.to <= |text|
        && (Quiescent(chunks) ==> t.current.value.to == |text|)
        && t.saved == s.saved && t.past == s.past
    case Check(grown, _) => t == if s.current.None? then s else Grown(s, grown, |text|)
    case Persist(fails, _) =>
      t == if s.current.None? || fails then s else s.(saved := Offset(s.current.value.to, c.inode))
    case Die => t == if s.current.None? then s else R.Step(c, s, R.Crash)
  }

  /** What a turn emits: only a poll reads lines, and emits the entries of what it reads. */
  ghost predicate TurnEmits(text: string, maxLine: nat, parse: Parse, name: string, s: R.State, turn: Turn, t: R.State,
                            emitted: seq<LogEntry>)
  {
    if turn.Poll? && s.current.Some? && t.current.Some? then
      exists raws :: Pieces(text, s.current.value.to, t.current.value.to, maxLine, raws)
                     && emitted == EmitAll(parse, name, CapAll(raws, maxLine))
    else emitted == []
  }

  class TailedFile {
    const cfg: R.Config
    const name: string
    const maxLine: nat
    const text: string          // everything the file will ever hold
    const store: OffsetStore
    var source: FileSource?     // the process, while there is one
    var seen: nat               // the size the file has been seen to have
    ghost var m: R.State
    ghost var trace: seq<R.Event>

    /** The saved record, the process and its offset are those of a state that a run has reached. */
    ghost predicate Tied()
      reads this, store, source
    {
      && cfg.inode != 0 && maxLine >= 1
      && R.Run(cfg, R.INIT, trace, m)
      && m.size == seen <= |text| && m.tmp == None
      && m.saved == (if name in store.records then store.records[name] else NO_OFFSET)
      && (source == null <==> m.current.None?)
      && (source != null ==> Follows(source) && source.offset == m.current.value.to)
    }

    /** The process tails this file with this record. */
    ghost predicate Follows(src: FileSource)
      reads this, src
    {
      && src.name == name && src.maxLine == maxLine && src.fromBeginning == cfg.fromBeginning
      && src.offsets == store && src.inode == cfg.inode && src.InSync(text)
    }

    constructor (cfg: R.Config, name: string, maxLineBytes: int, text: string, store: OffsetStore)
      requires cfg.inode != 0 && name !in store.records
      ensures Tied() && m == R.INIT && source == null
      ensures this.cfg == cfg && this.text == text && this.store == store
    {
      this.cfg, this.name, this.text, this.store := cfg, name, text, store;
      maxLine := if maxLineBytes <= 0 then 64 * 1024 else maxLineBytes;
      source, seen, m, trace := null, 0, R.INIT, [];
    }

    ghost method Advance(e: R.Event)
      requires R.Run(cfg, R.INIT, trace, m) && R.Enabled(m, e)
      modifies this`m, this`trace
      ensures m == R.Step(cfg, old(m), e) && R.Run(cfg, R.INIT, trace, m)
    {
      R.RunSnoc(cfg, R.INIT, trace, m, e);
      trace := trace + [e];
      m := R.Step(cfg, m, e);
    }

    /** The file has been seen to hold `size` bytes. */
    method Observe(size: nat)
      requires R.Run(cfg, R.INIT, trace, m) && m.size == seen
      modifies this`seen, this`m, this`trace
      ensures R.Run(cfg, R.INIT, trace, m)
      ensures seen == R.Max(old(seen), size) && m == old(m).(size := seen)
    {
      if seen < size {
        Advance(R.Grow(size - seen));
        seen := size;
      }
    }

    /** A process starts: `openInitial`. */
    method Start(size: nat, unreadable: bool)
      requires Tied() && source == null && seen <= size <= |text|
      modifies this`source, this`seen, this`m, this`trace
      ensures Tied() && source != null && fresh(source) && seen == size
      ensures source.offset == R.Start(cfg, old(m).(size := size), !unreadable)
      ensures m == R.Step(cfg, old(m).(size := size, current := None), R.Open(!unreadable))
    {
      hide R.Run;
      var src := new FileSource(name, maxLine, cfg.fromBeginning, store);
      src.OpenInitial(cfg.inode, size, unreadable);
      Observe(size);
      Advance(R.Open(!unreadable));
      source := src;
    }

    /** One line: the machine consumes exactly the bytes by which the offset advances. */
    method ReadLine(chunks: seq<nat>) returns (line: Option<string>, left: seq<nat>)
      requires Tied() && source != null
      modifies this`seen, this`m, this`trace, source`offset, source`reader
      ensures Tied() && m.saved == old(m.saved) && m.past == old(m.past)
      ensures m.current == Some(R.Range(old(m.current.value.from), source.offset)) && old(source.offset) <= source.offset
      ensures Quiescent(chunks) ==> Quiescent(left)
      ensures Quiescent(chunks) ==>
                var l := LineAt(text, old(source.offset), maxLine);
                line == (if l.NoLine? then None else Some(l.raw)) && (l.GotLine? ==> source.offset == l.next)
    {
      hide R.Run, LineAt, Quiescent;
      line, left := source.ReadLine(text, chunks);
      Consume();
    }

    /** Records that the process has read on. */
    method Consume()
      requires R.Run(cfg, R.INIT, trace, m) && m.size == seen && source != null && m.current.Some?
      requires m.current.value.to <= source.offset <= |text|
      modifies this`seen, this`m, this`trace
      ensures R.Run(cfg, R.INIT, trace, m)
      ensures m.current == Some(R.Range(old(m.current.value.from), source.offset))
      ensures m.size == seen == R.Max(old(seen), source.offset) && m.tmp == old(m.tmp) && m.saved == old(m.saved)
      ensures m.past == old(m.past)
    {
      hide R.Run;
      Observe(source.offset);
      Advance(R.Consume(source.offset - m.current.value.to));
    }

    /** `drain`: everything that has arrived. */
    method Drain(chunks: seq<nat>, parse: Parse) returns (emitted: seq<LogEntry>, ghost raws: seq<string>)
      requires Tied() && source != null
      modifies this`seen, this`m, this`trace, source`offset, source`reader
      ensures Tied() && m.saved == old(m.saved) && m.past == old(m.past)
      ensures m.current == Some(R.Range(old(m.current.value.from), source.offset)) && old(source.offset) <= source.offset
      ensures Pieces(text, old(source.offset), source.offset, maxLine, raws)
      ensures emitted == EmitAll(parse, name, CapAll(raws, maxLine))
      ensures Quiescent(chunks) ==> source.offset == |text|
      ensures Quiescent(chunks) ==> emitted == EmitAll(parse, name, Passed(text, old(source.offset), maxLine))
    {
      hide R.Run, Quiescent, EmitAll, Passed, Pieces, CapAll;
      emitted, raws := source.Drain(text, chunks, parse);
      Consume();
    }

    /** `persistOffset`: the record becomes the current offset with its inode, or stays. */
    method PersistOffset(fails: bool, cleaned: bool)
      requires Tied() && source != null
      modifies this`m, this`trace, store
      ensures Tied()
      ensures store.records == if fails then old(store.records)
                               else old(store.records)[name := Offset(source.offset, cfg.inode)]
      ensures m == if fails then old(m) else old(m).(saved := Offset(source.offset, cfg.inode))
    {
      hide R.Run;
      source.PersistOffset(fails, cleaned);
      Advance(R.BeginSave);
      if fails {
        Advance(R.FailSave);
      } else {
        Advance(R.FinishSave);
      }
    }

    /** `checkRotation` never fires on a file that keeps its inode and only grows. */
    method CheckRotation(size: nat, opens: bool) returns (rotated: bool)
      requires Tied() && source != null && seen <= size <= |text|
      modifies this`seen, this`m, this`trace, source
      ensures Tied() && !rotated && source.offset == old(source.offset) && m == old(m).(size := size)
    {
      ReachedIsGood(cfg, trace, m);
      hide R.Run;
      Observe(size);
      rotated := source.CheckRotation(Present(cfg.inode, size), opens);
    }

    /** The process ends, in whatever way. */
    method Stop()
      requires Tied() && source != null
      modifies this`source, this`m, this`trace
      ensures Tied() && source == null && m == R.Step(cfg, old(m), R.Crash)
    {
      hide R.Run;
      source := null;
      Advance(R.Crash);
    }

    /** What a stat may report after the file has grown. */
    function SizeAfter(n: nat): nat
      reads this
    {
      if seen + n <= |text| then seen + n else |text|
    }

    /** One turn, if it is possible at all. */
    method Take(turn: Turn, parse: Parse) returns (emitted: seq<LogEntry>)
      requires Tied()
      modifies this, store, source
      ensures Tied() && (source == null || source == old(source) || fresh(source))
      ensures TurnEffect(cfg, text, old(m), turn, m)
      ensures TurnEmits(text, maxLine, parse, name, old(m), turn, m, emitted)
    {
      hide R.Run, R.Step, Quiescent, Pieces, EmitAll, CapAll, Passed;
      emitted := [];
      if source == null {
        if turn.Boot? {
          Start(SizeAfter(turn.grown), turn.unreadable);
        }
      } else {
        match turn
        case Boot(_, _) =>
        case Poll(chunks) =>
          ghost var raws;
          emitted, raws := Drain(chunks, parse);
        case Check(grown, opens) =>
          var rotated := CheckRotation(SizeAfter(grown), opens);
        case Persist(fails, cleaned) =>
          PersistOffset(fails, cleaned);
        case Die =>
          Stop();
      }
    }

    /**
     Any number of processes, one after the other. Each turn has its effect, and together: everything from
     where the last start that skipped began up to the furthest offset has been consumed, and everything
     if FromBeginning is set.
     */
    method Live(script: seq<Turn>, parse: Parse)
      returns (emitted: seq<seq<LogEntry>>, ghost states: seq<R.State>)
      requires Tied()
      modifies this, store, source
      ensures Tied()
      ensures |emitted| == |script| && |states| == |script| + 1 && states[0] == old(m) && states[|script|] == m
      ensures forall i :: 0 <= i < |script| ==> TurnEffect(cfg, text, states[i], script[i], states[i + 1])
      ensures forall i :: 0 <= i < |script| ==>
                TurnEmits(text, maxLine, parse, name, states[i], script[i], states[i + 1], emitted[i])
      ensures R.CoveredFrom(m, R.Landing(cfg, R.INIT, trace, 0))
      ensures cfg.fromBeginning ==> R.CoveredFrom(m, 0)
    {
      emitted, states := [], [m];
      for i := 0 to |script|
        invariant Tied() && (source == null || source == old(source) || fresh(source))
        invariant |emitted| == i && |states| == i + 1 && states[0] == old(m) && states[i] == m
        invariant forall j :: 0 <= j < i ==> TurnEffect(cfg, text, states[j], script[j], states[j + 1])
        invariant forall j :: 0 <= j < i ==>
                    TurnEmits(text, maxLine, parse, name, states[j], script[j], states[j + 1], emitted[j])
      {
        hide *;
        var more := Take(script[i], parse);
        emitted, states := emitted + [more], states + [m];
      }
      assert cfg.inode != 0 && R.Run(cfg, R.INIT, trace, m);
      hide *;
      R.RestartsLeaveNoGap(cfg, trace, m);
      if cfg.fromBeginning {
        R.FromBeginningLeavesNoGap(cfg, trace, m);
      }
    }
  }
}
