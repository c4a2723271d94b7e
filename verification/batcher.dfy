/**
 `Batcher.Run` of internal/pipeline/batcher.go over the ring itself. The environment (producers, the
 clock, shutdown) acts as scripted: at the loop head, between a wakeup and the drain, and while the
 Flush callback runs. Every execution is a run of the batching machine.
 */
module BatcherLoop {
  import opened Collections
  import opened Entries
  import opened Ring
  import opened BatcherTurns
  import B = Batching

  lemma {:induction false} RunSnoc(c: B.Config, s: B.State, es: seq<B.Event>, t: B.State, e: B.Event)
    requires B.Sane(c) && B.Run(c, s, es, t) && |t.pending| <= c.batchSize && B.Enabled(t, e)
    ensures B.Run(c, s, es + [e], B.Step(c, t, e))
    decreases |es|
  {
    hide B.Step, B.Enabled;
    if es == [] {
      assert ([e] + [])[1..] == [] && es + [e] == [e] + [];
    } else {
      RunSnoc(c, B.Step(c, s, es[0]), es[1..], t, e);
      assert (es + [e])[1..] == es[1..] + [e];
    }
  }

  /** A drain followed by a flush, as one step of the machine. */
  lemma DrainStep(c: B.Config, s: B.State)
    requires B.Sane(c) && |s.pending| <= c.batchSize && B.Enabled(s, B.Drain)
    ensures var a, r := B.Refill(c, s), B.Step(c, s, B.Drain);
      var last := s.phase == B.Draining(true);
      && r.ring == a.ring && r.token == s.token && r.closed == s.closed && r.drops == s.drops
      && r.cancelled == s.cancelled
      && if (last || |a.pending| >= c.batchSize) && a.pending != []
         then r.pending == [] && r.flushed == s.flushed + [a.pending] && r.phase == B.Flushing(a.pending, last)
         else r.pending == a.pending && r.flushed == s.flushed && r.phase == if last then B.Stopped else B.Selecting
  {
  }

  /** The timer's flush, as one step of the machine. */
  lemma TickStep(c: B.Config, s: B.State, before: seq<Action>, during: seq<Action>)
    requires B.Sane(c) && |s.pending| <= c.batchSize && s.phase.Selecting?
    ensures var r := B.Step(c, s, B.Tick);
      && r.ring == s.ring && r.token == s.token && r.closed == s.closed && r.drops == s.drops
      && r.cancelled == s.cancelled && r.pending == []
      && r.flushed == s.flushed + (if s.pending == [] then [] else [s.pending])
      && r.phase == (if s.pending == [] then B.Selecting else B.Flushing(s.pending, false))
      && Turned(c, s, Select(OnTimer, before, during)) == Returned(c, r, during)
  {
    hide Returned;
  }

  lemma FlushOutcome(c: B.Config, s: B.State)
    requires B.Sane(c) && |s.pending| <= c.batchSize && s.phase.Flushing?
    ensures B.Step(c, s, B.FlushReturns) == s.(phase := if s.phase.last then B.Stopped else B.Selecting)
  {
  }

  class Batcher {
    const ring: RingBuffer
    const batchSize: nat
    var pending: B.Batch
    var flushed: seq<B.Batch>   // what the Flush callback was given
    var cancelled: bool
    ghost var m: B.State
    ghost var trace: seq<B.Event>

    ghost function Cfg(): B.Config {
      B.Config(ring.caps, batchSize)
    }

    /** The fields are those of the machine, and the machine got here by a run. */
    ghost predicate Synced()
      reads this, ring, ring.buf
    {
      && ring.Valid()
      && batchSize >= 1
      && m.ring == ring.contents && m.token == ring.notify && m.closed == ring.closed && m.drops == ring.drops
      && m.pending == pending && m.flushed == flushed && m.cancelled == cancelled
      && B.Sane(Cfg()) && B.Run(Cfg(), B.INIT, trace, m)
    }

    constructor (r: RingBuffer, size: int)
      requires r.Valid() && r.contents == [] && !r.closed && !r.notify && r.drops == 0
      ensures ring == r && batchSize == (if size <= 0 then 100 else size)
      ensures Synced() && m == B.INIT && pending == []
    {
      ring := r;
      batchSize := if size <= 0 then 100 else size;
      pending, flushed, cancelled, m, trace := [], [], false, B.INIT, [];
    }

    /** Records one machine step. */
    ghost method Advance(e: B.Event)
      requires B.Sane(Cfg()) && B.Run(Cfg(), B.INIT, trace, m) && |m.pending| <= batchSize && B.Enabled(m, e)
      modifies this`m, this`trace
      ensures m == B.Step(Cfg(), old(m), e) && B.Run(Cfg(), B.INIT, trace, m)
    {
      RunSnoc(Cfg(), B.INIT, trace, m, e);
      trace := trace + [e];
      m := B.Step(Cfg(), m, e);
    }

    /** The `drain` closure: one PopBatch for the room that is left. */
    method Drain()
      requires Synced() && |pending| <= batchSize
      modifies this`pending, ring`head, ring`size, ring`bytes, ring`contents, ring.buf
      ensures ring.Valid()
      ensures var after := B.Refill(Cfg(), old(m));
        pending == after.pending && ring.contents == after.ring
    {
      hide B.Run, RingBuffer.Valid, B.Mark;
      var more := ring.PopBatch(batchSize - |pending|);
      pending := pending + more;
    }

    /** The `flush` closure up to the callback, whose error is only logged. */
    method Flush() returns (called: bool)
      modifies this`pending, this`flushed
      ensures called <==> old(pending) != []
      ensures old(pending) == [] ==> pending == [] && flushed == old(flushed)
      ensures old(pending) != [] ==> pending == [] && flushed == old(flushed) + [old(pending)]
    {
      if |pending| == 0 { return false; }
      var batch := pending;
      pending := [];
      flushed := flushed + [batch];
      return true;
    }

    /** A drain and the flush that may follow it. */
    method DrainAndFlush(last: bool, during: seq<Action>)
      requires Synced() && |pending| <= batchSize
      requires if last then m.phase == B.Draining(true) else m.phase.Starting? || m.phase == B.Draining(false)
      modifies this, ring, ring.buf
      ensures Synced()
      ensures m == Drained(Cfg(), old(m), during)
      ensures m.phase == if last then B.Stopped else B.Selecting
    {
      hide B.Run, B.Refill, B.Step, RingBuffer.Valid, B.Sane, Acted, Returned;
      DrainStep(Cfg(), m);
      Drain();
      var called := false;
      if last || |pending| >= batchSize {
        called := Flush();
      }
      Advance(B.Drain);
      ReturnedKeeps(Cfg(), m, during);
      AwaitCallback(called, during);
    }

    method OnNotify(before: seq<Action>, during: seq<Action>)
      requires Synced() && m.phase.Selecting? && |pending| <= batchSize && ring.notify
      modifies this, ring, ring.buf
      ensures Synced() && m.phase.Selecting?
      ensures m == Turned(Cfg(), old(m), Select(Choice.OnNotify, before, during))
    {
      hide B.Run, Drained, Acted;
      ring.notify := false;
      Advance(B.Wake);
      Interfere(before);
      DrainAndFlush(false, during);
    }

    method OnShutdown(choice: Choice, before: seq<Action>, during: seq<Action>)
      requires Synced() && m.phase.Selecting? && |pending| <= batchSize
      requires (choice.OnDone? && cancelled) || (choice.OnClosed? && ring.closed)
      modifies this, ring, ring.buf
      ensures Synced() && m.phase.Stopped?
      ensures m == Turned(Cfg(), old(m), Select(choice, before, during))
    {
      hide B.Run, Drained, Acted;
      Advance(B.Shut);
      Interfere(before);
      DrainAndFlush(true, during);
    }

    method OnTick(before: seq<Action>, during: seq<Action>)
      requires Synced() && m.phase.Selecting? && |pending| <= batchSize
      modifies this, ring, ring.buf
      ensures Synced() && m.phase.Selecting?
      ensures m == Turned(Cfg(), old(m), Select(OnTimer, before, during))
      ensures pending == [] && flushed == old(flushed) + if old(pending) == [] then [] else [old(pending)]
    {
      TimerTurn(Cfg(), m, before, during);
      TickStep(Cfg(), m, before, during);
      hide B.Run, B.Step, B.Refill, B.Sane, RingBuffer.Valid, Acted, Turned, Try, Returned;
      var called := FlushOnTick();
      AwaitCallback(called, during);
    }

    method FlushOnTick() returns (called: bool)
      requires Synced() && m.phase.Selecting? && |pending| <= batchSize
      modifies this
      ensures Synced() && m == B.Step(Cfg(), old(m), B.Tick) && called == m.phase.Flushing?
    {
      TickStep(Cfg(), m, [], []);
      hide B.Run, B.Step, B.Refill, RingBuffer.Valid, Turned, Returned;
      called := Flush();
      Advance(B.Tick);
    }

    /** The Flush callback runs, unless there was nothing to flush. */
    method AwaitCallback(called: bool, during: seq<Action>)
      requires Synced() && |pending| <= batchSize && called == m.phase.Flushing?
      modifies this, ring, ring.buf
      ensures Synced() && m == Returned(Cfg(), old(m), during)
    {
      hide B.Run, B.Step, B.Refill, RingBuffer.Valid, B.Sane, Acted;
      if called {
        Interfere(during);
        FlushOutcome(Cfg(), m);
        Advance(B.FlushReturns);
      }
    }

    /** One action of the environment. It may come at any time, also before `Run` is called. */
    method Environment(action: Action)
      requires Synced() && |pending| <= batchSize
      modifies this, ring, ring.buf
      ensures Synced() && m.phase == old(m.phase) && pending == old(pending)
      ensures m == Try(Cfg(), old(m), EventOf(action))
    {
      hide B.Run, B.InOrder, Pushed, DropCount, ApproxBytes;
      match action
      case Produce(e) =>
        var ok := ring.Push(Some(e));
        Advance(B.Push(e));
      case CloseRing =>
        ring.Close();
        Advance(B.Close);
      case CancelContext =>
        cancelled := true;
        Advance(B.Cancel);
    }

    method Interfere(actions: seq<Action>)
      requires Synced() && |pending| <= batchSize
      modifies this, ring, ring.buf
      ensures Synced() && m.phase == old(m.phase) && pending == old(pending)
      ensures m == Acted(Cfg(), old(m), actions)
    {
      NoActions(Cfg(), m);
      assert actions[..0] == [] && actions[..|actions|] == actions;
      hide *;
      for i := 0 to |actions|
        invariant Synced() && m.phase == old(m.phase) && pending == old(pending)
        invariant m == Acted(Cfg(), old(m), actions[..i])
      {
        OneMoreAction(Cfg(), old(m), actions, i);
        Environment(actions[i]);
      }
    }

    /** Whether a select case is ready. The timer may fire at any time. */
    predicate Ready(choice: Choice)
      reads this, ring
    {
      match choice
      case OnDone => cancelled
      case OnClosed => ring.closed
      case OnTimer => true
      case OnNotify => ring.notify
    }

    /** The event loop, until shutdown or the end of the script. */
    method Run(atStart: seq<Action>, script: seq<Turn>) returns (stopped: bool)
      requires Synced() && m.phase.Starting? && |pending| <= batchSize
      modifies this, ring, ring.buf
      ensures Synced()
      ensures m == Played(Cfg(), Drained(Cfg(), old(m), atStart), script)
      ensures stopped <==> m.phase.Stopped?
      ensures stopped <==> exists i :: 0 <= i < |script| && ReturnsAt(Cfg(), Drained(Cfg(), old(m), atStart), script, i)
      ensures stopped ==> pending == []
      ensures |pending| < batchSize
      ensures forall i :: 0 <= i < |flushed| ==> 1 <= |flushed[i]| <= batchSize
      ensures B.Flat(flushed) + pending + ring.contents == B.Kept(m.gone) + ring.contents
      ensures m.pushed == B.All(m.gone) + ring.contents
      ensures ring.drops == |m.gone| - |B.Kept(m.gone)|
    {
      hide B.Run, B.Step, B.Flat, B.Kept, B.All, Turned, Played, Drained, ReturnsAt;
      DrainAndFlush(false, atStart);
      stopped := false;
      var i := 0;
      ghost var s := m;
      NothingPlayed(Cfg(), s);
      B.BatchesInOrder(Cfg(), trace, m);
      assert script[..0] == [];
      while i < |script| && !stopped
        invariant i <= |script| && Synced()
        invariant m.phase == if stopped then B.Stopped else B.Selecting
        invariant m == Played(Cfg(), s, script[..i])
      {
        assert script[..i + 1] == script[..i] + [script[i]];
        PlayOne(Cfg(), s, script[..i], script[i]);
        B.BatchesInOrder(Cfg(), trace, m);
        var turn := script[i];
        i := i + 1;
        if turn.Act? {
          ActTurn(Cfg(), m, turn.action);
          Environment(turn.action);
        } else if Ready(turn.choice) {
          match turn.choice
          case OnTimer =>
            OnTick(turn.before, turn.during);
          case OnNotify =>
            OnNotify(turn.before, turn.during);
          case _ =>
            OnShutdown(turn.choice, turn.before, turn.during);
            stopped := true;
        } else {
          IdleTurn(Cfg(), m, turn);
        }
      }
      PlayedOn(Cfg(), s, script, i);
      ReturnsIff(Cfg(), s, script);
      B.BatchesInOrder(Cfg(), trace, m);
    }
  }

  lemma OneMoreAction(c: B.Config, s: B.State, actions: seq<Action>, i: nat)
    requires i < |actions|
    ensures Acted(c, s, actions[..i + 1]) == Try(c, Acted(c, s, actions[..i]), EventOf(actions[i]))
  {
    assert actions[..i + 1][..i] == actions[..i];
  }

  lemma NothingPlayed(c: B.Config, s: B.State)
    ensures Played(c, s, []) == s
  {
  }

  /** Once the loop has returned, further turns change nothing. */
  lemma {:induction false} PlayedOn(c: B.Config, s: B.State, script: seq<Turn>, i: nat)
    requires i <= |script| && (i == |script| || Played(c, s, script[..i]).phase.Stopped?)
    ensures Played(c, s, script) == Played(c, s, script[..i])
    decreases |script|
  {
    hide Turned;
    if i == |script| {
      assert script[..i] == script;
    } else {
      var n := |script| - 1;
      assert script[..n][..i] == script[..i];
      PlayedOn(c, s, script[..n], i);
    }
  }
}
