/**
 What one turn of the event loop of internal/pipeline/batcher.go does, as a function on the states of
 the batching machine, and what that comes to in terms of ring, pending and flushed batches.
 */
module BatcherTurns {
  import opened Entries
  import opened Ring
  import B = Batching

  datatype Choice = OnDone | OnClosed | OnTimer | OnNotify

  /**
   What happens at the loop head: the environment acts, or the select takes a ready case. The
   environment then also acts `before` the drain and `during` the flush.
   */
  datatype Turn =
    | Act(action: Action)
    | Select(choice: Choice, before: seq<Action>, during: seq<Action>)

  function EventOf(a: Action): B.Event {
    match a
    case Produce(e) => B.Push(e)
    case CloseRing => B.Close
    case CancelContext => B.Cancel
  }

  /** One machine step, if it is possible. */
  ghost function Try(c: B.Config, s: B.State, e: B.Event): B.State {
    if B.Sane(c) && |s.pending| <= c.batchSize && B.Enabled(s, e) then B.Step(c, s, e) else s
  }

  ghost function Acted(c: B.Config, s: B.State, actions: seq<Action>): B.State {
    if actions == [] then s
    else Try(c, Acted(c, s, actions[..|actions| - 1]), EventOf(actions[|actions| - 1]))
  }

  /** The Flush callback, if it has been called, and what happens meanwhile. */
  ghost function Returned(c: B.Config, s: B.State, during: seq<Action>): B.State {
    if s.phase.Flushing? then Try(c, Acted(c, s, during), B.FlushReturns) else s
  }

  ghost function Drained(c: B.Config, s: B.State, during: seq<Action>): B.State {
    Returned(c, Try(c, s, B.Drain), during)
  }

  /** Whether a select case is ready. The timer may fire at any time. */
  predicate IsReady(s: B.State, choice: Choice) {
    match choice
    case OnDone => s.cancelled
    case OnClosed => s.closed
    case OnTimer => true
    case OnNotify => s.token
  }

  ghost function Turned(c: B.Config, s: B.State, turn: Turn): B.State {
    match turn
    case Act(a) => Try(c, s, EventOf(a))
    case Select(choice, before, during) =>
      if !IsReady(s, choice) then s
      else match choice
        case OnTimer => Returned(c, Try(c, s, B.Tick), during)
        case OnNotify => Drained(c, Acted(c, Try(c, s, B.Wake), before), during)
        case _ => Drained(c, Acted(c, Try(c, s, B.Shut), before), during)
  }

  /** The loop over a script of turns, until it has returned. */
  ghost function Played(c: B.Config, s: B.State, script: seq<Turn>): B.State {
    if script == [] then s
    else
      var t := Played(c, s, script[..|script| - 1]);
      if t.phase.Stopped? then t else Turned(c, t, script[|script| - 1])
  }

  // ---------- what the environment leaves alone ----------

  lemma ActionKeeps(c: B.Config, s: B.State, a: Action)
    ensures var t := Try(c, s, EventOf(a));
      t.phase == s.phase && t.pending == s.pending && t.flushed == s.flushed
  {
    hide Pushed, DropCount, ApproxBytes, B.Mark;
  }

  lemma {:induction false} ActedKeeps(c: B.Config, s: B.State, actions: seq<Action>)
    ensures var t := Acted(c, s, actions);
      t.phase == s.phase && t.pending == s.pending && t.flushed == s.flushed
  {
    hide Try;
    if actions != [] {
      var n := |actions| - 1;
      ActedKeeps(c, s, actions[..n]);
      ActionKeeps(c, Acted(c, s, actions[..n]), actions[n]);
    }
  }

  /** A push that is not refused queues the entry and a token; a closed ring takes nothing. */
  lemma ProduceTurn(c: B.Config, s: B.State, e: LogEntry)
    requires B.Sane(c) && |s.pending| <= c.batchSize
    ensures var t := Turned(c, s, Act(Produce(e)));
      if s.closed then t == s
      else t.token && t.ring == Pushed(c.caps, s.ring, e) && t.pushed == s.pushed + [e]
  {
    hide Pushed, DropCount, ApproxBytes, B.Mark;
  }

  // ---------- what each select case does ----------

  lemma ReturnedKeeps(c: B.Config, s: B.State, during: seq<Action>)
    requires B.Sane(c) && |s.pending| <= c.batchSize
    ensures var t := Returned(c, s, during);
      && t.pending == s.pending && t.flushed == s.flushed
      && t.phase == (if !s.phase.Flushing? then s.phase else if s.phase.last then B.Stopped else B.Selecting)
      && (during == [] ==> t.ring == s.ring && t.token == s.token)
  {
    hide Acted;
    ActedKeeps(c, s, during);
    assert during == [] ==> Acted(c, s, during) == s by { NoActions(c, s); }
  }

  lemma NoActions(c: B.Config, s: B.State)
    ensures Acted(c, s, []) == s
  {
  }

  lemma TickOutcome(c: B.Config, s: B.State)
    requires B.Sane(c) && |s.pending| <= c.batchSize && s.phase.Selecting?
    ensures var t := Try(c, s, B.Tick);
      && t.pending == [] && t.ring == s.ring && t.token == s.token
      && t.flushed == s.flushed + (if s.pending == [] then [] else [s.pending])
      && (t.phase.Selecting? || (t.phase.Flushing? && !t.phase.last))
  {
  }

  /** The timer hands over everything that is pending, whatever happens meanwhile. */
  lemma TimerTurn(c: B.Config, s: B.State, before: seq<Action>, during: seq<Action>)
    requires B.Sane(c) && |s.pending| <= c.batchSize && s.phase.Selecting?
    ensures var t := Turned(c, s, Select(OnTimer, before, during));
      && t.phase.Selecting? && t.pending == []
      && t.flushed == s.flushed + (if s.pending == [] then [] else [s.pending])
      && (during == [] ==> t.ring == s.ring && t.token == s.token)
  {
    hide Try, Returned;
    TickOutcome(c, s);
    ReturnedKeeps(c, Try(c, s, B.Tick), during);
  }

  /** A drain fills pending as far as there is room and hands it over if it is full, or the last. */
  lemma DrainOutcome(c: B.Config, s: B.State)
    requires B.Sane(c) && |s.pending| <= c.batchSize && B.Enabled(s, B.Drain)
    ensures var t := Try(c, s, B.Drain);
      var last := s.phase == B.Draining(true);
      var n := if |s.pending| + |s.ring| <= c.batchSize then |s.ring| else c.batchSize - |s.pending|;
      var all := s.pending + s.ring[..n];
      && t.ring == s.ring[n..] && t.token == s.token
      && (if all != [] && (last || |all| == c.batchSize)
          then t.pending == [] && t.flushed == s.flushed + [all] && t.phase == B.Flushing(all, last)
          else t.pending == all && t.flushed == s.flushed && t.phase == if last then B.Stopped else B.Selecting)
  {
    hide B.Refill;
    RefillOutcome(c, s);
    assert |s.pending + s.ring[..B.Taken(c, s)]| == |s.pending| + B.Taken(c, s);
  }

  lemma RefillOutcome(c: B.Config, s: B.State)
    requires |s.pending| <= c.batchSize
    ensures var a, n := B.Refill(c, s), B.Taken(c, s);
      && n == (if |s.pending| + |s.ring| <= c.batchSize then |s.ring| else c.batchSize - |s.pending|)
      && a.ring == s.ring[n..] && a.pending == s.pending + s.ring[..n]
      && a.token == s.token && a.flushed == s.flushed && a.phase == s.phase
  {
    hide B.Mark;
  }

  lemma WakeOutcome(c: B.Config, s: B.State)
    requires B.Sane(c) && |s.pending| <= c.batchSize && s.phase.Selecting? && s.token
    ensures Try(c, s, B.Wake) == s.(token := false, phase := B.Draining(false))
  {
  }

  lemma ShutOutcome(c: B.Config, s: B.State)
    requires B.Sane(c) && |s.pending| <= c.batchSize && s.phase.Selecting? && (s.closed || s.cancelled)
    ensures Try(c, s, B.Shut) == s.(phase := B.Draining(true))
  {
  }

  /**
   A notification takes the token and drains: pending grows by what there is room for of the ring `d` the
   drain finds, and is handed over exactly if that fills the batch.
   */
  lemma NotifyTurn(c: B.Config, s: B.State, before: seq<Action>, during: seq<Action>)
    requires B.Sane(c) && |s.pending| <= c.batchSize && s.phase.Selecting? && s.token
    ensures var t := Turned(c, s, Select(OnNotify, before, during));
      var d := Acted(c, s.(token := false, phase := B.Draining(false)), before);
      var n := if |s.pending| + |d.ring| <= c.batchSize then |d.ring| else c.batchSize - |s.pending|;
      var all := s.pending + d.ring[..n];
      && t.phase.Selecting?
      && t.pending == (if |all| == c.batchSize then [] else all)
      && t.flushed == s.flushed + (if |all| == c.batchSize then [all] else [])
      && (during == [] ==> t.ring == d.ring[n..])
      && (before == [] ==> d.ring == s.ring)
      && (before == [] && during == [] ==> !t.token)
  {
    hide Try, Returned, Acted;
    WakeOutcome(c, s);
    var w := Try(c, s, B.Wake);
    ActedKeeps(c, w, before);
    NoActions(c, w);
    DrainOutcome(c, Acted(c, w, before));
    ReturnedKeeps(c, Try(c, Acted(c, w, before), B.Drain), during);
  }

  /** Shutdown hands over pending and at most one batch's room of the ring, and returns. */
  lemma ShutdownTurn(c: B.Config, s: B.State, choice: Choice, before: seq<Action>, during: seq<Action>)
    requires B.Sane(c) && |s.pending| <= c.batchSize && s.phase.Selecting?
    requires (choice.OnDone? && s.cancelled) || (choice.OnClosed? && s.closed)
    ensures var t := Turned(c, s, Select(choice, before, during));
      var d := Acted(c, s.(phase := B.Draining(true)), before);
      var n := if |s.pending| + |d.ring| <= c.batchSize then |d.ring| else c.batchSize - |s.pending|;
      var all := s.pending + d.ring[..n];
      && t.phase.Stopped? && t.pending == []
      && t.flushed == s.flushed + (if all == [] then [] else [all])
      && (during == [] ==> t.ring == d.ring[n..])
      && (before == [] ==> d.ring == s.ring)
  {
    hide Try, Returned, Acted;
    ShutOutcome(c, s);
    var w := Try(c, s, B.Shut);
    ActedKeeps(c, w, before);
    NoActions(c, w);
    DrainOutcome(c, Acted(c, w, before));
    ReturnedKeeps(c, Try(c, Acted(c, w, before), B.Drain), during);
  }

  // ---------- when the loop returns ----------

  /** The turn is a shutdown case that is ready. */
  predicate ShutsDown(s: B.State, turn: Turn) {
    turn.Select? && ((turn.choice.OnDone? && s.cancelled) || (turn.choice.OnClosed? && s.closed))
  }

  lemma TurnStopsIff(c: B.Config, s: B.State, turn: Turn)
    requires B.Sane(c) && |s.pending| <= c.batchSize && s.phase.Selecting?
    ensures var t := Turned(c, s, turn);
      t.phase == (if ShutsDown(s, turn) then B.Stopped else B.Selecting) && |t.pending| <= c.batchSize
  {
    hide Turned, Acted;
    match turn
    case Act(a) =>
      ActionKeeps(c, s, a);
      ActTurn(c, s, a);
    case Select(choice, before, during) =>
      if ShutsDown(s, turn) {
        ShutdownTurn(c, s, choice, before, during);
      } else if choice.OnTimer? {
        TimerTurn(c, s, before, during);
      } else if choice.OnNotify? && s.token {
        NotifyTurn(c, s, before, during);
      } else {
        IdleTurn(c, s, turn);
      }
  }

  lemma ActTurn(c: B.Config, s: B.State, a: Action)
    ensures Turned(c, s, Act(a)) == Try(c, s, EventOf(a))
  {
  }

  /** A case that is not ready is not taken. */
  lemma IdleTurn(c: B.Config, s: B.State, turn: Turn)
    requires turn.Select? && !IsReady(s, turn.choice)
    ensures Turned(c, s, turn) == s
  {
  }

  /** The loop has come to turn `i` and finds a shutdown case ready. */
  ghost predicate ReturnsAt(c: B.Config, s: B.State, script: seq<Turn>, i: nat)
    requires i < |script|
  {
    var t := Played(c, s, script[..i]);
    !t.phase.Stopped? && ShutsDown(t, script[i])
  }

  lemma PlayOne(c: B.Config, s: B.State, script: seq<Turn>, turn: Turn)
    ensures var t := Played(c, s, script);
      Played(c, s, script + [turn]) == if t.phase.Stopped? then t else Turned(c, t, turn)
  {
    assert (script + [turn])[..|script|] == script;
  }

  /** The loop returns if and only if it comes to a shutdown case that is ready. */
  lemma {:induction false} ReturnsIff(c: B.Config, s: B.State, script: seq<Turn>)
    requires B.Sane(c) && |s.pending| <= c.batchSize && s.phase.Selecting?
    ensures var t := Played(c, s, script);
      && t.phase == (if exists i :: 0 <= i < |script| && ReturnsAt(c, s, script, i) then B.Stopped else B.Selecting)
      && |t.pending| <= c.batchSize
  {
    hide Turned, ShutsDown;
    if script != [] {
      var n := |script| - 1;
      var init := script[..n];
      ReturnsIff(c, s, init);
      assert forall i :: 0 <= i < n ==> init[..i] == script[..i];
      assert forall i :: 0 <= i < n ==> (ReturnsAt(c, s, init, i) <==> ReturnsAt(c, s, script, i));
      var t := Played(c, s, init);
      if t.phase.Selecting? {
        TurnStopsIff(c, t, script[n]);
        assert ReturnsAt(c, s, script, n) <==> ShutsDown(t, script[n]);
      } else {
        var i :| 0 <= i < n && ReturnsAt(c, s, init, i);
        assert ReturnsAt(c, s, script, i);
      }
    }
  }
}
