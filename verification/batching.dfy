/**
 The batcher over the ring as an event-driven machine: in what order entries leave, who wakes it, and
 what is left behind. Producers may act between any two of its steps.
 */
module Batching {
  import opened Collections
  import opened Entries
  import opened Ring

  type Batch = seq<LogEntry>

  /** An entry that has left the ring: taken by the batcher, or dropped to make room. */
  datatype Left = Left(entry: LogEntry, dropped: bool)

  datatype Phase =
    | Starting                                // before the first drain
    | Selecting                               // at the loop head
    | Draining(last: bool)                    // woken; `last` on shutdown
    | Flushing(batch: Batch, last: bool)      // inside the Flush callback
    | Stopped

  datatype Config = Config(caps: Caps, batchSize: nat)

  predicate Sane(c: Config) {
    c.caps.maxEntries >= 1 && c.batchSize >= 1
  }

  datatype State = State(
    ring: seq<LogEntry>,
    token: bool,
    closed: bool,
    cancelled: bool,
    drops: nat,
    phase: Phase,
    pending: Batch,
    flushed: seq<Batch>,          // batches handed to Flush, in order
    pushed: seq<LogEntry>,        // entries accepted by Push, in order
    gone: seq<Left>,              // entries no longer in the ring, in push order
    leftover: seq<LogEntry>       // the ring right after the last drain
  )

  const INIT: State := State([], false, false, false, 0, Starting, [], [], [], [], [])

  datatype Event =
    | Push(e: LogEntry)
    | Close
    | Cancel
    | Wake                        // <-ring.Notify()
    | Tick                        // <-timer.C
    | Shut                        // <-ctx.Done() or <-ring.Closed()
    | Drain
    | FlushReturns

  predicate Enabled(s: State, e: Event) {
    match e
    case Wake => s.phase.Selecting? && s.token
    case Tick => s.phase.Selecting?
    case Shut => s.phase.Selecting? && (s.closed || s.cancelled)
    case Drain => s.phase.Starting? || s.phase.Draining?
    case FlushReturns => s.phase.Flushing?
    case _ => true
  }

  function Mark(q: seq<LogEntry>, dropped: bool): (r: seq<Left>)
    ensures |r| == |q| && forall i :: 0 <= i < |q| ==> r[i] == Left(q[i], dropped)
  {
    seq(|q|, i requires 0 <= i < |q| => Left(q[i], dropped))
  }

  /** The `flush` closure: hand over what is pending, if anything. */
  function Flush(s: State, last: bool): State {
    if s.pending == [] then s.(phase := if last then Stopped else Selecting)
    else s.(phase := Flushing(s.pending, last), pending := [], flushed := s.flushed + [s.pending])
  }

  /** The `drain` closure: fill the batch from the ring. */
  function Refill(c: Config, s: State): State
    requires |s.pending| <= c.batchSize
  {
    var n := Taken(c, s);
    s.(ring := s.ring[n..], pending := s.pending + s.ring[..n], gone := s.gone + Mark(s.ring[..n], false),
       leftover := s.ring[n..])
  }

  /** How many entries a drain takes: what there is room for. */
  function Taken(c: Config, s: State): (n: nat)
    requires |s.pending| <= c.batchSize
    ensures n <= |s.ring|
    ensures n == |s.ring| <==> |s.pending| + |s.ring| <= c.batchSize
  {
    var room := c.batchSize - |s.pending|;
    if room < |s.ring| then room else |s.ring|
  }

  ghost function Step(c: Config, s: State, e: Event): State
    requires Sane(c) && |s.pending| <= c.batchSize && Enabled(s, e)
  {
    match e
    case Push(x) =>
      if s.closed then s else
        var k := DropCount(c.caps, s.ring, ApproxBytes(x));
        s.(ring := Pushed(c.caps, s.ring, x), token := true, drops := s.drops + k,
           pushed := s.pushed + [x], gone := s.gone + Mark(s.ring[..k], true))
    case Close => s.(closed := true)
    case Cancel => s.(cancelled := true)
    case Wake => s.(token := false, phase := Draining(false))
    case Tick => Flush(s, false)
    case Shut => s.(phase := Draining(true))
    case Drain =>
      var s' := Refill(c, s);
      var last := s.phase.Draining? && s.phase.last;
      if last || |s'.pending| >= c.batchSize then Flush(s', last)
      else s'.(phase := Selecting)
    case FlushReturns => s.(phase := if s.phase.last then Stopped else Selecting)
  }

  ghost predicate Run(c: Config, s: State, es: seq<Event>, t: State)
    requires Sane(c)
    decreases |es|
  {
    if es == [] then s == t
    else |s.pending| <= c.batchSize && Enabled(s, es[0]) && Run(c, Step(c, s, es[0]), es[1..], t)
  }

  // ---------- order ----------

  function Flat(bs: seq<Batch>): seq<LogEntry> {
    if bs == [] then [] else Flat(bs[..|bs| - 1]) + bs[|bs| - 1]
  }

  /** The entries of `gone`, and those among them that were not dropped. */
  function All(gone: seq<Left>): seq<LogEntry> {
    if gone == [] then [] else All(gone[..|gone| - 1]) + [gone[|gone| - 1].entry]
  }

  function Kept(gone: seq<Left>): seq<LogEntry> {
    if gone == [] then []
    else Kept(gone[..|gone| - 1]) + if gone[|gone| - 1].dropped then [] else [gone[|gone| - 1].entry]
  }

  function Dropped(gone: seq<Left>): seq<LogEntry> {
    if gone == [] then []
    else Dropped(gone[..|gone| - 1]) + if gone[|gone| - 1].dropped then [gone[|gone| - 1].entry] else []
  }

  /** What left the ring was either kept or dropped. */
  lemma {:induction false} KeptOrDropped(gone: seq<Left>)
    ensures multiset(All(gone)) == multiset(Kept(gone)) + multiset(Dropped(gone))
    ensures |gone| == |Kept(gone)| + |Dropped(gone)|
  {
    if gone != [] {
      KeptOrDropped(gone[..|gone| - 1]);
    }
  }

  lemma AppendOne(gone: seq<Left>, x: Left)
    ensures All(gone + [x]) == All(gone) + [x.entry]
    ensures Kept(gone + [x]) == Kept(gone) + if x.dropped then [] else [x.entry]
  {
    assert (gone + [x])[..|gone|] == gone;
  }

  lemma {:induction false} AppendMarked(gone: seq<Left>, q: seq<LogEntry>, dropped: bool)
    ensures All(gone + Mark(q, dropped)) == All(gone) + q
    ensures Kept(gone + Mark(q, dropped)) == Kept(gone) + if dropped then [] else q
    decreases |q|
  {
    hide All, Kept;
    if q == [] {
      assert gone + Mark(q, dropped) == gone;
    } else {
      var q', x := q[..|q| - 1], q[|q| - 1];
      AppendMarked(gone, q', dropped);
      AppendOne(gone + Mark(q', dropped), Left(x, dropped));
      assert gone + Mark(q, dropped) == gone + Mark(q', dropped) + [Left(x, dropped)];
      assert q == q' + [x];
    }
  }

  /**
   Entries leave in the order they came: the ring is the end of what was pushed, and the rest of
   it, dropped entries removed, is what was flushed and then what is pending.
   */
  ghost predicate InOrder(s: State) {
    && s.pushed == All(s.gone) + s.ring
    && Kept(s.gone) == Flat(s.flushed) + s.pending
    && s.drops == |s.gone| - |Kept(s.gone)|
  }

  lemma FlushKeepsOrder(s: State, last: bool)
    requires InOrder(s)
    ensures InOrder(Flush(s, last))
  {
    if s.pending != [] {
      var f := s.flushed + [s.pending];
      assert f[..|f| - 1] == s.flushed;
    }
  }

  lemma RefillKeepsOrder(c: Config, s: State)
    requires InOrder(s) && |s.pending| <= c.batchSize
    ensures InOrder(Refill(c, s))
  {
    hide All, Kept, Flat, Mark;
    var n := Taken(c, s);
    AppendMarked(s.gone, s.ring[..n], false);
    assert s.ring == s.ring[..n] + s.ring[n..];
    assert All(s.gone) + s.ring[..n] + s.ring[n..] == s.pushed;
  }

  lemma PushKeepsOrder(c: Config, s: State, x: LogEntry)
    requires Sane(c) && InOrder(s) && |s.pending| <= c.batchSize
    ensures InOrder(Step(c, s, Push(x)))
  {
    hide All, Kept, Flat, Mark, DropCount, ApproxBytes, IsDropCount;
    var k := DropCount(c.caps, s.ring, ApproxBytes(x));
    assert k <= |s.ring| by { DropCountBound(c.caps, s.ring, ApproxBytes(x)); }
    AppendMarked(s.gone, s.ring[..k], true);
    assert s.ring == s.ring[..k] + s.ring[k..];
    assert s.pushed + [x] == (All(s.gone) + s.ring[..k]) + (s.ring[k..] + [x]);
  }

  lemma DropCountBound(c: Caps, q: seq<LogEntry>, cost: nat)
    requires c.maxEntries >= 1
    ensures DropCount(c, q, cost) <= |q|
  {
  }

  lemma StepKeepsOrder(c: Config, s: State, e: Event)
    requires Sane(c) && InOrder(s) && |s.pending| <= c.batchSize && Enabled(s, e)
    ensures InOrder(Step(c, s, e))
  {
    hide All, Kept, Flat;
    match e {
      case Push(x) => PushKeepsOrder(c, s, x);
      case Tick => FlushKeepsOrder(s, false);
      case Drain => {
        RefillKeepsOrder(c, s);
        FlushKeepsOrder(Refill(c, s), s.phase.Draining? && s.phase.last);
      }
      case _ =>
    }
  }

  /** The timer hands over what is pending: it joins the flushed entries, and the ring stays. */
  lemma TickFlushes(c: Config, s: State)
    requires Sane(c) && |s.pending| <= c.batchSize && s.phase.Selecting?
    ensures var t := Step(c, s, Tick);
      t.pending == [] && t.ring == s.ring && Flat(t.flushed) == Flat(s.flushed) + s.pending
  {
    FlatSnoc(s.flushed, s.pending);
  }

  // ---------- bounds and wakeups ----------

  ghost predicate Bounds(c: Config, s: State) {
    && |s.pending| < c.batchSize
    && (s.phase.Flushing? || s.phase.Stopped? ==> s.pending == [])
    && (s.phase.Flushing? ==> 1 <= |s.phase.batch| <= c.batchSize)
    && (forall i :: 0 <= i < |s.flushed| ==> 1 <= |s.flushed[i]| <= c.batchSize)
    && WithinCaps(c.caps, s.ring)
  }

  /** Without a token the ring holds only what the last drain had no room for. */
  ghost predicate Awake(s: State) {
    && ((s.phase.Selecting? || (s.phase.Flushing? && !s.phase.last)) && !s.token ==> s.ring == s.leftover)
    && (s.phase == Draining(true) ==> s.closed || s.cancelled)
    && ((s.phase.Stopped? || (s.phase.Flushing? && s.phase.last)) && !s.cancelled ==>
          s.closed && s.ring == s.leftover)
  }

  ghost predicate Inv(c: Config, s: State) {
    Bounds(c, s) && Awake(s) && InOrder(s)
  }

  lemma FlushKeepsBounds(c: Config, s: State, last: bool)
    requires |s.pending| <= c.batchSize && (|s.pending| == c.batchSize || last || Bounds(c, s))
    requires Bounds(c, s.(pending := [], phase := Selecting)) && Sane(c)
    ensures Bounds(c, Flush(s, last))
  {
    hide WithinCaps;
  }

  lemma StepKeepsBounds(c: Config, s: State, e: Event)
    requires Sane(c) && Bounds(c, s) && Enabled(s, e)
    ensures Bounds(c, Step(c, s, e))
  {
    hide Mark, WithinCaps, ApproxBytes, DropCount, Pushed;
    match e {
      case Push(x) => PushStaysWithinCaps(c.caps, s.ring, x);
      case Tick => FlushKeepsBounds(c, s, false);
      case Drain => {
        SuffixWithinCaps(c.caps, s.ring, Taken(c, s));
        var s' := Refill(c, s);
        var last := s.phase.Draining? && s.phase.last;
        if last || |s'.pending| >= c.batchSize {
          FlushKeepsBounds(c, s', last);
        }
      }
      case _ =>
    }
  }

  lemma SuffixWithinCaps(c: Caps, q: seq<LogEntry>, n: nat)
    requires WithinCaps(c, q) && n <= |q|
    ensures WithinCaps(c, q[n..])
  {
    assert q == q[..n] + q[n..];
    SumSeqConcat(q[..n], q[n..], Cost());
  }

  lemma RefillLeaves(c: Config, s: State)
    requires |s.pending| <= c.batchSize
    ensures var a := Refill(c, s);
      && a.ring == a.leftover && a.phase == s.phase
      && a.token == s.token && a.closed == s.closed && a.cancelled == s.cancelled
  {
    hide Mark;
  }

  lemma FlushLeaves(s: State, last: bool)
    ensures var t := Flush(s, last);
      && t.ring == s.ring && t.leftover == s.leftover
      && t.token == s.token && t.closed == s.closed && t.cancelled == s.cancelled
      && (t.phase == (if last then Stopped else Selecting) || (t.phase.Flushing? && t.phase.last == last))
  {
  }

  lemma DrainKeepsAwake(c: Config, s: State)
    requires Sane(c) && Bounds(c, s) && Awake(s) && Enabled(s, Drain)
    ensures Awake(Step(c, s, Drain))
  {
    var last := s.phase.Draining? && s.phase.last;
    hide Refill, Flush, Bounds;
    RefillLeaves(c, s);
    FlushLeaves(Refill(c, s), last);
  }

  lemma StepKeepsAwake(c: Config, s: State, e: Event)
    requires Sane(c) && Bounds(c, s) && Awake(s) && Enabled(s, e)
    ensures Awake(Step(c, s, e))
  {
    if e == Drain {
      DrainKeepsAwake(c, s);
    } else {
      hide Mark, Flush, Refill, Bounds, ApproxBytes, DropCount, Pushed;
      FlushLeaves(s, false);
    }
  }

  lemma {:induction false} RunKeepsInv(c: Config, s: State, es: seq<Event>, t: State)
    requires Sane(c) && Inv(c, s) && Run(c, s, es, t)
    ensures Inv(c, t)
    decreases |es|
  {
    hide Step, Enabled, Awake, InOrder, WithinCaps;
    if es != [] {
      StepKeepsBounds(c, s, es[0]);
      StepKeepsAwake(c, s, es[0]);
      StepKeepsOrder(c, s, es[0]);
      RunKeepsInv(c, Step(c, s, es[0]), es[1..], t);
    }
  }

  lemma InitIsGood(c: Config)
    requires Sane(c)
    ensures Inv(c, INIT)
  {
  }

  /** Order and bounds of batching, for every interleaving of producers and batcher. */
  lemma BatchesInOrder(c: Config, es: seq<Event>, t: State)
    requires Sane(c) && Run(c, INIT, es, t)
    ensures |t.pending| < c.batchSize
    ensures forall i :: 0 <= i < |t.flushed| ==> 1 <= |t.flushed[i]| <= c.batchSize
    ensures t.pushed == All(t.gone) + t.ring
    ensures Flat(t.flushed) + t.pending + t.ring == Kept(t.gone) + t.ring
    ensures t.drops == |t.gone| - |Kept(t.gone)|
    ensures t.phase.Stopped? ==> t.pending == []
  {
    hide Run;
    InitIsGood(c);
    RunKeepsInv(c, INIT, es, t);
  }

  // ---------- what a drain leaves behind ----------

  /** The state in which the last drain of a run began. */
  ghost function LastDrain(c: Config, s: State, es: seq<Event>): Option<State>
    requires Sane(c)
    decreases |es|
  {
    if es == [] || |s.pending| > c.batchSize || !Enabled(s, es[0]) then None
    else
      var later := LastDrain(c, Step(c, s, es[0]), es[1..]);
      if later.Some? then later else if es[0] == Drain then Some(s) else None
  }

  /** The drain that began in `d` had no room for the whole ring. */
  predicate Overflows(c: Config, d: State) {
    |d.pending| + |d.ring| > c.batchSize
  }

  /** A drain empties the ring exactly if everything fits the batch. */
  lemma DrainEmptiesIffFits(c: Config, s: State)
    requires Sane(c) && |s.pending| <= c.batchSize && Enabled(s, Drain)
    ensures var t := Step(c, s, Drain);
      t.ring == t.leftover == s.ring[Taken(c, s)..] && (t.ring == [] <==> !Overflows(c, s))
  {
    hide Mark;
  }

  lemma LeftoverStays(c: Config, s: State, e: Event)
    requires Sane(c) && |s.pending| <= c.batchSize && Enabled(s, e) && e != Drain
    ensures Step(c, s, e).leftover == s.leftover && (s.phase.Starting? ==> Step(c, s, e).phase.Starting?)
  {
    hide Mark, Pushed, DropCount, ApproxBytes;
  }

  lemma {:induction false} LeftoverOfLastDrain(c: Config, s: State, es: seq<Event>, t: State)
    requires Sane(c) && Run(c, s, es, t)
    ensures var d := LastDrain(c, s, es);
      if d.None? then t.leftover == s.leftover && (s.phase.Starting? ==> t.phase.Starting?)
      else |d.value.pending| <= c.batchSize && t.leftover == d.value.ring[Taken(c, d.value)..]
    decreases |es|
  {
    if es != [] {
      hide Step, Enabled, Taken;
      LeftoverOfLastDrain(c, Step(c, s, es[0]), es[1..], t);
      if es[0] == Drain {
        DrainEmptiesIffFits(c, s);
      } else {
        LeftoverStays(c, s, es[0]);
      }
    }
  }

  /**
   A waiting batcher with no wakeup queued has left entries in the ring if and only if its last drain
   began with more than a batch between pending and ring; it then holds exactly what did not fit.
   */
  lemma BatcherStrandsIff(c: Config, es: seq<Event>, t: State)
    requires Sane(c) && Run(c, INIT, es, t) && t.phase.Selecting? && !Enabled(t, Wake)
    ensures var d := LastDrain(c, INIT, es);
      && d.Some? && |d.value.pending| <= c.batchSize
      && t.ring == d.value.ring[Taken(c, d.value)..]
      && (t.ring != [] <==> Overflows(c, d.value))
  {
    hide Run, LastDrain;
    InitIsGood(c);
    RunKeepsInv(c, INIT, es, t);
    LeftoverOfLastDrain(c, INIT, es, t);
  }

  // ---------- shutdown ----------

  /** The last drain takes at most one batch's room; everything beyond it stays in the ring. */
  lemma LastDrainTakesOneBatch(c: Config, s: State)
    requires Sane(c) && Inv(c, s) && s.phase == Draining(true)
    ensures var t := Step(c, s, Drain);
      var k := Taken(c, s);
      && t.pending == [] && t.ring == t.leftover == s.ring[k..]
      && Flat(t.flushed) == Flat(s.flushed) + s.pending + s.ring[..k]
  {
    assert |s.pending| <= c.batchSize;
    hide Mark, Bounds, Awake, InOrder, Flat;
    var a := Refill(c, s);
    FlatSnoc(s.flushed, a.pending);
    assert a.flushed == s.flushed;
    Regroup(Flat(s.flushed), s.pending, a.pending[|s.pending|..]);
  }

  lemma FlatSnoc(bs: seq<Batch>, b: Batch)
    ensures Flat(bs + [b]) == Flat(bs) + b
  {
    assert (bs + [b])[..|bs|] == bs;
  }

  /**
   After an orderly close nothing is pending, and the ring keeps entries if and only if the last drain
   began with more than a batch.
   */
  lemma ShutdownLeavesOverflow(c: Config, es: seq<Event>, t: State)
    requires Sane(c) && Run(c, INIT, es, t) && t.phase.Stopped? && !t.cancelled
    ensures t.closed && t.pending == []
    ensures var d := LastDrain(c, INIT, es);
      && d.Some? && |d.value.pending| <= c.batchSize
      && t.ring == d.value.ring[Taken(c, d.value)..]
      && (t.ring != [] <==> Overflows(c, d.value))
  {
    hide Run, LastDrain;
    InitIsGood(c);
    RunKeepsInv(c, INIT, es, t);
    LeftoverOfLastDrain(c, INIT, es, t);
  }

  // ---------- stranding ----------

  predicate Silent(e: Event) {
    !e.Push? && !e.Close? && !e.Cancel?
  }

  lemma {:induction false} SilenceKeepsRing(c: Config, s: State, es: seq<Event>, t: State)
    requires Sane(c) && Bounds(c, s) && Run(c, s, es, t)
    requires s.phase.Selecting? || (s.phase.Flushing? && !s.phase.last)
    requires !s.token && !s.closed && !s.cancelled
    requires forall i :: 0 <= i < |es| ==> Silent(es[i])
    ensures t.ring == s.ring
    decreases |es|
  {
    if es != [] {
      assert Silent(es[0]);
      SilenceKeepsRing(c, Step(c, s, es[0]), es[1..], t);
    }
  }

  /**
   What the last drain had no room for stays put, however often the timer fires, until a push or
   shutdown; and there is such a remainder if and only if that drain began with more than a batch.
   */
  lemma RemainderIsStranded(c: Config, es: seq<Event>, s: State, more: seq<Event>, t: State)
    requires Sane(c) && Run(c, INIT, es, s) && s.phase.Selecting? && !s.token && !s.closed && !s.cancelled
    requires Run(c, s, more, t) && forall i :: 0 <= i < |more| ==> Silent(more[i])
    ensures var d := LastDrain(c, INIT, es);
      && d.Some? && |d.value.pending| <= c.batchSize
      && t.ring == d.value.ring[Taken(c, d.value)..]
      && (t.ring != [] <==> Overflows(c, d.value))
  {
    hide Run, LastDrain, Silent;
    InitIsGood(c);
    RunKeepsInv(c, INIT, es, s);
    BatcherStrandsIff(c, es, s);
    SilenceKeepsRing(c, s, more, t);
  }

  lemma PushIntoRoom(c: Caps, q: seq<LogEntry>, e: LogEntry)
    requires |q| < c.maxEntries && c.maxBytes <= 0
    ensures Pushed(c, q, e) == q + [e] && DropCount(c, q, ApproxBytes(e)) == 0
  {
    assert q[0..] == q;
  }

  /** A pushed entry joins the ring and queues a token. */
  lemma PushOutcome(c: Config, s: State, e: LogEntry)
    requires Sane(c) && |s.pending| <= c.batchSize && !s.closed && |s.ring| < c.caps.maxEntries && c.caps.maxBytes <= 0
    ensures var t := Step(c, s, Push(e));
      t.ring == s.ring + [e] && t.token && t.phase == s.phase && t.pending == s.pending && !t.closed
  {
    hide DropCount, Pushed, Mark;
    PushIntoRoom(c.caps, s.ring, e);
  }

  /** It does happen: two pushes before the batcher wakes, with batches of one. */
  lemma StrandingHappens(e: LogEntry) returns (es: seq<Event>, t: State)
    ensures var c := Config(Caps(2, 0), 1);
      Run(c, INIT, es, t) && t.phase.Selecting? && !t.token && t.ring == [e]
  {
    hide Step, Run;
    var c := Config(Caps(2, 0), 1);
    FirstDrain(c);
    var s1 := Step(c, INIT, Drain);
    PushOutcome(c, s1, e);
    var s2 := Step(c, s1, Push(e));
    PushOutcome(c, s2, e);
    var s3 := Step(c, s2, Push(e));
    WakeAndDrain(c, s3, e);
    var s4 := Step(c, s3, Wake);
    var s5 := Step(c, s4, Drain);
    FlushReturnOutcome(c, s5);
    t := Step(c, s5, FlushReturns);
    es := RunCons(c, s5, FlushReturns, [], t);
    es := RunCons(c, s4, Drain, es, t);
    es := RunCons(c, s3, Wake, es, t);
    es := RunCons(c, s2, Push(e), es, t);
    es := RunCons(c, s1, Push(e), es, t);
    es := RunCons(c, INIT, Drain, es, t);
  }

  lemma FirstDrain(c: Config)
    requires Sane(c)
    ensures var t := Step(c, INIT, Drain);
      t.phase.Selecting? && t.ring == [] && t.pending == [] && !t.closed
  {
    hide Mark;
  }

  lemma FlushReturnOutcome(c: Config, s: State)
    requires Sane(c) && |s.pending| <= c.batchSize && s.phase.Flushing? && !s.phase.last
    ensures Step(c, s, FlushReturns) == s.(phase := Selecting)
  {
  }

  lemma WakeAndDrain(c: Config, s: State, e: LogEntry)
    requires c.batchSize == 1 && Sane(c) && s.phase.Selecting? && s.token && s.ring == [e, e] && s.pending == []
    ensures var s4 := Step(c, s, Wake);
      Enabled(s4, Drain) && s4.pending == []
      && var s5 := Step(c, s4, Drain);
         s5.ring == [e] && !s5.token && s5.phase == Flushing([e], false) && s5.pending == []
  {
    hide Mark;
    assert [e, e][..1] == [e] && [e, e][1..] == [e] && [] + [e] == [e];
  }

  lemma RunCons(c: Config, s: State, e: Event, es: seq<Event>, t: State) returns (r: seq<Event>)
    requires Sane(c) && |s.pending| <= c.batchSize && Enabled(s, e)
    requires Run(c, Step(c, s, e), es, t) || (es == [] && Step(c, s, e) == t)
    ensures r == [e] + es && Run(c, s, r, t)
  {
    r := [e] + es;
    assert r[1..] == es;
  }
}
