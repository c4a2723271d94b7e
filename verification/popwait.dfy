/**
 `PopWait` of internal/pipeline/ring.go with any number of producers: a machine whose events are the
 atomic steps.
 */
module PopWaiting {
  import opened Collections
  import opened Entries
  import opened Ring
  import B = Batching

  /** Where the consumer is. */
  datatype Consumer =
    | Idle                         // PopWait has not been called yet
    | Trying                       // about to TryPop
    | Waiting                      // in the select
    | LastTry                      // woken by closedC, about to TryPop once more
    | Returned(entry: Option<LogEntry>)

  datatype State = State(
    ring: seq<LogEntry>,
    token: bool,
    closed: bool,
    cancelled: bool,
    pc: Consumer,
    pushed: seq<LogEntry>,         // entries accepted by Push, in order
    gone: seq<B.Left>,             // entries no longer in the ring, in push order
    popped: seq<LogEntry>          // entries PopWait returned, in order
  )

  const INIT: State := State([], false, false, false, Idle, [], [], [])

  datatype Event =
    | Push(e: LogEntry)            // any producer
    | Close
    | Cancel                       // the context fires
    | Call                         // the consumer calls PopWait, again
    | TryPop
    | ReceiveToken
    | ReceiveClosed
    | ReceiveDone

  predicate Enabled(s: State, e: Event) {
    match e
    case Push(_) => true
    case Close => true
    case Cancel => true
    case Call => s.pc.Idle? || s.pc.Returned?
    case TryPop => s.pc.Trying? || s.pc.LastTry?
    case ReceiveToken => s.pc.Waiting? && s.token
    case ReceiveClosed => s.pc.Waiting? && s.closed
    case ReceiveDone => s.pc.Waiting? && s.cancelled
  }

  ghost function Step(c: Caps, s: State, e: Event): State
    requires c.maxEntries >= 1 && Enabled(s, e)
  {
    match e
    case Push(x) =>
      if s.closed then s else
        var k := DropCount(c, s.ring, ApproxBytes(x));
        s.(ring := Pushed(c, s.ring, x), token := true, pushed := s.pushed + [x],
           gone := s.gone + B.Mark(s.ring[..k], true))
    case Close => s.(closed := true)
    case Cancel => s.(cancelled := true)
    case Call => s.(pc := Trying)
    case TryPop =>
      if s.ring != [] then
        s.(ring := s.ring[1..], pc := Returned(Some(s.ring[0])), popped := s.popped + [s.ring[0]],
           gone := s.gone + B.Mark(s.ring[..1], false))
      else if s.pc.LastTry? || s.closed then s.(pc := Returned(None))
      else s.(pc := Waiting)
    case ReceiveToken => s.(token := false, pc := Trying)
    case ReceiveClosed => s.(pc := LastTry)
    case ReceiveDone => s.(pc := Returned(None))
  }

  ghost predicate Run(c: Caps, s: State, es: seq<Event>, t: State)
    requires c.maxEntries >= 1
    decreases |es|
  {
    if es == [] then s == t
    else Enabled(s, es[0]) && Run(c, Step(c, s, es[0]), es[1..], t)
  }

  // ---------- invariant ----------

  /** No lost wakeup, and nil only for a reason. */
  ghost predicate Awake(s: State) {
    && (s.pc.Waiting? && s.ring != [] ==> s.token || s.closed)
    && (s.pc.LastTry? ==> s.closed)
    && (s.pc == Returned(None) ==> s.cancelled || (s.closed && s.ring == []))
  }

  /** Entries leave in the order they came: PopWait returned those that are gone and were not dropped. */
  ghost predicate InOrder(s: State) {
    s.pushed == B.All(s.gone) + s.ring && B.Kept(s.gone) == s.popped
  }

  lemma StepKeepsAwake(c: Caps, s: State, e: Event)
    requires c.maxEntries >= 1 && Awake(s) && Enabled(s, e)
    ensures Awake(Step(c, s, e))
  {
    hide Pushed, DropCount, ApproxBytes, B.Mark;
  }

  lemma StepKeepsOrder(c: Caps, s: State, e: Event)
    requires c.maxEntries >= 1 && InOrder(s) && Enabled(s, e)
    ensures InOrder(Step(c, s, e))
  {
    hide B.All, B.Kept, B.Mark, DropCount, ApproxBytes, IsDropCount;
    match e {
      case Push(x) =>
        var k := DropCount(c, s.ring, ApproxBytes(x));
        assert k <= |s.ring| by { B.DropCountBound(c, s.ring, ApproxBytes(x)); }
        B.AppendMarked(s.gone, s.ring[..k], true);
        assert s.ring == s.ring[..k] + s.ring[k..];
        assert s.pushed + [x] == (B.All(s.gone) + s.ring[..k]) + (s.ring[k..] + [x]);
      case TryPop =>
        if s.ring != [] {
          B.AppendMarked(s.gone, s.ring[..1], false);
          assert s.ring == s.ring[..1] + s.ring[1..];
          assert B.All(s.gone) + s.ring[..1] + s.ring[1..] == s.pushed;
          assert s.ring[..1] == [s.ring[0]];
        }
      case _ =>
    }
  }

  lemma {:induction false} RunKeepsInv(c: Caps, s: State, es: seq<Event>, t: State)
    requires c.maxEntries >= 1 && Awake(s) && InOrder(s) && Run(c, s, es, t)
    ensures Awake(t) && InOrder(t)
    decreases |es|
  {
    hide Step, Enabled, Awake, InOrder;
    if es != [] {
      StepKeepsAwake(c, s, es[0]);
      StepKeepsOrder(c, s, es[0]);
      RunKeepsInv(c, Step(c, s, es[0]), es[1..], t);
    }
  }

  /**
   For any number of producers, pushing in any interleaving with one consumer: a waiting consumer
   always has a wakeup pending when there is work, and `PopWait` gives up only when told to.
   */
  lemma NoLostWakeup(c: Caps, es: seq<Event>, t: State)
    requires c.maxEntries >= 1 && Run(c, INIT, es, t)
    ensures t.pc.Waiting? && t.ring != [] ==> Enabled(t, ReceiveToken) || Enabled(t, ReceiveClosed)
    ensures t.pc == Returned(None) ==> t.cancelled || (t.closed && t.ring == [])
  {
    hide Run;
    RunKeepsInv(c, INIT, es, t);
  }

  /** What PopWait has returned, followed by the ring, is what was pushed without what was dropped, in order. */
  lemma PopsInOrder(c: Caps, es: seq<Event>, t: State)
    requires c.maxEntries >= 1 && Run(c, INIT, es, t)
    ensures t.pushed == B.All(t.gone) + t.ring
    ensures t.popped == B.Kept(t.gone)
  {
    hide Run;
    RunKeepsInv(c, INIT, es, t);
  }

  // ---------- single steps ----------

  /** A try takes the oldest entry if there is one; else it gives up on a closed ring, or waits. */
  lemma TryTakesOldest(c: Caps, s: State)
    requires c.maxEntries >= 1 && Enabled(s, TryPop)
    ensures var t := Step(c, s, TryPop);
      && (s.ring != [] ==> t.pc == Returned(Some(s.ring[0])) && [s.ring[0]] + t.ring == s.ring
                           && t.popped == s.popped + [s.ring[0]])
      && (s.ring == [] ==> t.ring == [] && t.popped == s.popped
                           && t.pc == if s.pc.LastTry? || s.closed then Returned(None) else Waiting)
  {
    hide B.Mark;
  }

  lemma {:induction false} RunSnoc(c: Caps, s: State, es: seq<Event>, t: State, e: Event)
    requires c.maxEntries >= 1 && Run(c, s, es, t) && Enabled(t, e)
    ensures Run(c, s, es + [e], Step(c, t, e))
    decreases |es|
  {
    hide Step, Enabled;
    if es == [] {
      assert ([e] + [])[1..] == [] && es + [e] == [e] + [];
    } else {
      RunSnoc(c, Step(c, s, es[0]), es[1..], t, e);
      assert (es + [e])[1..] == es[1..] + [e];
    }
  }
}

/** `PopWait` as code over the ring; every call is a run of the machine. */
module PopWaitLoop {
  import opened Collections
  import opened Entries
  import opened Ring
  import B = Batching
  import P = PopWaiting

  /** What wakes a waiting consumer. */
  datatype Wake = Done | ClosedC | Token

  /**
   While the consumer waits the environment acts, or the select takes a ready case. The environment then
   also acts `before` the next try.
   */
  datatype Moment = Meanwhile(action: Action) | Woken(wake: Wake, before: seq<Action>)

  function EventFor(a: Action): P.Event {
    match a
    case Produce(e) => P.Push(e)
    case CloseRing => P.Close
    case CancelContext => P.Cancel
  }

  /** One machine step, if it is possible. */
  ghost function Attempt(c: Caps, s: P.State, e: P.Event): P.State {
    if c.maxEntries >= 1 && P.Enabled(s, e) then P.Step(c, s, e) else s
  }

  ghost function After(c: Caps, s: P.State, actions: seq<Action>): P.State {
    if actions == [] then s
    else Attempt(c, After(c, s, actions[..|actions| - 1]), EventFor(actions[|actions| - 1]))
  }

  /** What a moment of waiting comes to. A case that is not ready is not taken. */
  ghost function AtMoment(c: Caps, s: P.State, moment: Moment): P.State {
    match moment
    case Meanwhile(a) => Attempt(c, s, EventFor(a))
    case Woken(Done, _) => Attempt(c, s, P.ReceiveDone)
    case Woken(ClosedC, before) =>
      if s.closed then Attempt(c, After(c, Attempt(c, s, P.ReceiveClosed), before), P.TryPop) else s
    case Woken(Token, before) =>
      if s.token then Attempt(c, After(c, Attempt(c, s, P.ReceiveToken), before), P.TryPop) else s
  }

  /** The loop over a script of moments, until it has returned. */
  ghost function Waited(c: Caps, s: P.State, script: seq<Moment>): P.State {
    if script == [] then s
    else
      var t := Waited(c, s, script[..|script| - 1]);
      if t.pc.Waiting? then AtMoment(c, t, script[|script| - 1]) else t
  }

  lemma ActionKeeps(c: Caps, s: P.State, a: Action)
    ensures var t := Attempt(c, s, EventFor(a)); t.pc == s.pc && t.popped == s.popped
  {
    hide Pushed, DropCount, ApproxBytes, B.Mark;
  }

  lemma {:induction false} AfterKeeps(c: Caps, s: P.State, actions: seq<Action>)
    ensures var t := After(c, s, actions); t.pc == s.pc && t.popped == s.popped
    ensures actions == [] ==> After(c, s, actions) == s
  {
    hide Attempt;
    if actions != [] {
      var n := |actions| - 1;
      AfterKeeps(c, s, actions[..n]);
      ActionKeeps(c, After(c, s, actions[..n]), actions[n]);
    }
  }

  /** Woken by a token, the consumer takes it and returns the oldest entry, or waits on. */
  lemma TokenTurn(c: Caps, s: P.State, before: seq<Action>)
    requires c.maxEntries >= 1 && s.pc.Waiting? && s.token
    ensures var d := After(c, s.(token := false, pc := P.Trying), before);
      var t := AtMoment(c, s, Woken(Token, before));
      && t.token == d.token
      && (d.ring != [] ==> t.pc == P.Returned(Some(d.ring[0])) && t.ring == d.ring[1..])
      && (d.ring == [] ==> t.pc == if d.closed then P.Returned(None) else P.Waiting)
  {
    hide After, B.Mark;
    AfterKeeps(c, s.(token := false, pc := P.Trying), before);
  }

  /** Woken by the close, the consumer returns the oldest entry, or nil if there is none. */
  lemma ClosedTurn(c: Caps, s: P.State, before: seq<Action>)
    requires c.maxEntries >= 1 && s.pc.Waiting? && s.closed
    ensures var d := After(c, s.(pc := P.LastTry), before);
      var t := AtMoment(c, s, Woken(ClosedC, before));
      && t.pc == P.Returned(if d.ring == [] then None else Some(d.ring[0]))
      && t.ring == if d.ring == [] then [] else d.ring[1..]
  {
    hide After, B.Mark;
    AfterKeeps(c, s.(pc := P.LastTry), before);
  }

  /** Cancelled, the consumer returns nil and leaves the ring alone. */
  lemma DoneTurn(c: Caps, s: P.State, before: seq<Action>)
    requires c.maxEntries >= 1 && s.pc.Waiting? && s.cancelled
    ensures AtMoment(c, s, Woken(Done, before)) == s.(pc := P.Returned(None))
  {
  }

  lemma OneMoreAction(c: Caps, s: P.State, actions: seq<Action>, i: nat)
    requires i < |actions|
    ensures After(c, s, actions[..i + 1]) == Attempt(c, After(c, s, actions[..i]), EventFor(actions[i]))
  {
    assert actions[..i + 1][..i] == actions[..i];
  }

  lemma OneMoreMoment(c: Caps, s: P.State, script: seq<Moment>, i: nat)
    requires i < |script|
    ensures var t := Waited(c, s, script[..i]);
      Waited(c, s, script[..i + 1]) == if t.pc.Waiting? then AtMoment(c, t, script[i]) else t
  {
    assert script[..i + 1][..i] == script[..i];
  }

  lemma NothingYet(c: Caps, s: P.State)
    ensures After(c, s, []) == s && Waited(c, s, []) == s
  {
  }

  /** Once PopWait has returned, further moments change nothing. */
  lemma {:induction false} NothingAfterwards(c: Caps, s: P.State, script: seq<Moment>, i: nat)
    requires i <= |script| && (i == |script| || !Waited(c, s, script[..i]).pc.Waiting?)
    ensures Waited(c, s, script) == Waited(c, s, script[..i])
  {
    hide AtMoment;
    if i == |script| {
      assert script[..i] == script;
    } else {
      var n := |script| - 1;
      assert script[..n][..i] == script[..i];
      NothingAfterwards(c, s, script[..n], i);
    }
  }

  class Consumer {
    const ring: RingBuffer
    var cancelled: bool
    var popped: seq<LogEntry>   // what PopWait has returned
    ghost var m: P.State
    ghost var trace: seq<P.Event>

    /** The fields are those of the machine, and the machine got here by a run. */
    ghost predicate Synced()
      reads this, ring, ring.buf
    {
      && ring.Valid()
      && m.ring == ring.contents && m.token == ring.notify && m.closed == ring.closed
      && m.cancelled == cancelled && m.popped == popped
      && P.Run(ring.caps, P.INIT, trace, m)
    }

    constructor (r: RingBuffer)
      requires r.Valid() && r.contents == [] && !r.closed && !r.notify
      ensures ring == r && Synced() && m == P.INIT
    {
      ring := r;
      cancelled, popped, m, trace := false, [], P.INIT, [];
    }

    ghost method Advance(e: P.Event)
      requires ring.caps.maxEntries >= 1 && P.Run(ring.caps, P.INIT, trace, m) && P.Enabled(m, e)
      modifies this`m, this`trace
      ensures m == P.Step(ring.caps, old(m), e) && P.Run(ring.caps, P.INIT, trace, m)
    {
      P.RunSnoc(ring.caps, P.INIT, trace, m, e);
      trace := trace + [e];
      m := P.Step(ring.caps, m, e);
    }

    method Environment(action: Action)
      requires Synced()
      modifies this, ring, ring.buf
      ensures Synced() && m == Attempt(ring.caps, old(m), EventFor(action))
    {
      hide P.Run, Pushed, DropCount, ApproxBytes;
      match action
      case Produce(e) =>
        var ok := ring.Push(Some(e));
        Advance(P.Push(e));
      case CloseRing =>
        ring.Close();
        Advance(P.Close);
      case CancelContext =>
        cancelled := true;
        Advance(P.Cancel);
    }

    method Interfere(actions: seq<Action>)
      requires Synced()
      modifies this, ring, ring.buf
      ensures Synced() && m == After(ring.caps, old(m), actions)
    {
      NothingYet(ring.caps, m);
      assert actions[..0] == [] && actions[..|actions|] == actions;
      hide *;
      for i := 0 to |actions|
        invariant Synced() && m == After(ring.caps, old(m), actions[..i])
      {
        OneMoreAction(ring.caps, old(m), actions, i);
        Environment(actions[i]);
      }
    }

    /** One TryPop, and what PopWait makes of it. */
    method Try() returns (entry: Option<LogEntry>, returned: bool)
      requires Synced() && (m.pc.Trying? || m.pc.LastTry?)
      modifies this, ring`head, ring`size, ring`bytes, ring`contents, ring.buf
      ensures Synced() && m == P.Step(ring.caps, old(m), P.TryPop)
      ensures returned <==> entry.Some? || ring.closed
      ensures m.pc == if entry.Some? || ring.closed || old(m.pc).LastTry? then P.Returned(entry) else P.Waiting
    {
      hide P.Run, Bytes, RingBuffer.Slot;
      var drained;
      entry, drained := ring.TryPop();
      if entry.Some? {
        popped := popped + [entry.value];
      }
      Advance(P.TryPop);
      returned := entry.Some? || drained;
    }

    /** The try after a wakeup. The last one returns whatever it finds. */
    method TryAgain(last: bool, before: seq<Action>) returns (entry: Option<LogEntry>, returned: bool)
      requires Synced() && m.pc == if last then P.LastTry else P.Trying
      modifies this, ring, ring.buf
      ensures Synced() && m == Attempt(ring.caps, After(ring.caps, old(m), before), P.TryPop)
      ensures m.pc == if returned then P.Returned(entry) else P.Waiting
    {
      hide P.Run, P.Step, After;
      AfterKeeps(ring.caps, m, before);
      Interfere(before);
      entry, returned := Try();
      returned := returned || last;
    }

    /** `PopWait`, until it returns or the script ends and it still waits. */
    method PopWait(first: seq<Action>, script: seq<Moment>) returns (entry: Option<LogEntry>, returned: bool)
      requires Synced() && (m.pc.Idle? || m.pc.Returned?)
      modifies this, ring, ring.buf
      ensures Synced()
      ensures var s := Attempt(ring.caps, After(ring.caps, Attempt(ring.caps, old(m), P.Call), first), P.TryPop);
        m == Waited(ring.caps, s, script)
      ensures m.pc == if returned then P.Returned(entry) else P.Waiting
    {
      hide P.Run, P.Step, Waited, AtMoment, After;
      CallOutcome(ring.caps, m);
      Advance(P.Call);
      AfterKeeps(ring.caps, m, first);
      Interfere(first);
      entry, returned := Try();
      ghost var s := m;
      NothingYet(ring.caps, s);
      assert script[..0] == [];
      var i := 0;
      while i < |script| && !returned
        invariant i <= |script| && Synced()
        invariant m.pc == if returned then P.Returned(entry) else P.Waiting
        invariant m == Waited(ring.caps, s, script[..i])
      {
        OneMoreMoment(ring.caps, s, script, i);
        entry, returned := Await(script[i]);
        i := i + 1;
      }
      NothingAfterwards(ring.caps, s, script, i);
    }

    /** One moment in the select, and the try that may follow it. */
    method Await(moment: Moment) returns (entry: Option<LogEntry>, returned: bool)
      requires Synced() && m.pc.Waiting?
      modifies this, ring, ring.buf
      ensures Synced() && m == AtMoment(ring.caps, old(m), moment)
      ensures m.pc == if returned then P.Returned(entry) else P.Waiting
    {
      hide P.Run, P.Step, After;
      entry, returned := None, false;
      match moment {
        case Meanwhile(action) =>
          ActionKeeps(ring.caps, m, action);
          Environment(action);
        case Woken(Done, _) =>
          if cancelled {
            WakeOutcome(ring.caps, m);
            Advance(P.ReceiveDone);
            returned := true;
          }
        case Woken(ClosedC, before) =>
          if ring.closed {
            WakeOutcome(ring.caps, m);
            Advance(P.ReceiveClosed);
            entry, returned := TryAgain(true, before);
          }
        case Woken(Token, before) =>
          if ring.notify {
            WakeOutcome(ring.caps, m);
            ring.notify := false;
            Advance(P.ReceiveToken);
            entry, returned := TryAgain(false, before);
          }
      }
    }
  }

  lemma CallOutcome(c: Caps, s: P.State)
    requires c.maxEntries >= 1 && (s.pc.Idle? || s.pc.Returned?)
    ensures P.Step(c, s, P.Call) == s.(pc := P.Trying)
  {
  }

  lemma WakeOutcome(c: Caps, s: P.State)
    requires c.maxEntries >= 1 && s.pc.Waiting?
    ensures s.cancelled ==> P.Step(c, s, P.ReceiveDone) == s.(pc := P.Returned(None))
    ensures s.closed ==> P.Step(c, s, P.ReceiveClosed) == s.(pc := P.LastTry)
    ensures s.token ==> P.Step(c, s, P.ReceiveToken) == s.(token := false, pc := P.Trying)
  {
  }
}
