/**
 The whole path of an entry: ring, batcher, then serialize-and-publish through the spooled
 publisher, with producers, batcher, live publishes, replay loops, evictions, upstream failures and
 crashes interleaving in any way.
 */
module Delivery {
  import opened Collections
  import opened Entries
  import Names
  import Ring
  import SpoolStore
  import B = Batching
  import S = SpoolProtocol

  type Payload = SpoolStore.Bytes

  /** The batch encoding. Only that decoding undoes it matters. */
  datatype Codec = Codec(encode: B.Batch -> Payload, decode: Payload -> B.Batch)

  ghost predicate RoundTrips(k: Codec) {
    forall b :: k.decode(k.encode(b)) == b
  }

  datatype Config = Config(batching: B.Config, codec: Codec, spoolCap: nat)

  ghost predicate Sane(c: Config) {
    B.Sane(c.batching) && RoundTrips(c.codec)
  }

  /** What became of the entries of earlier processes. */
  datatype Past = Past(
    pushed: seq<LogEntry>,
    dropped: seq<LogEntry>,   // counted in Drops
    flushed: seq<B.Batch>,    // handed to Flush
    lost: seq<LogEntry>,      // in the ring or pending when the process died
    cut: seq<LogEntry>        // being flushed when the process died
  )

  const NO_PAST: Past := Past([], [], [], [], [])

  datatype State = State(
    b: B.State,
    s: S.State,
    publishing: bool,         // the flushed batch has been passed to Publish
    failed: seq<B.Batch>,     // batches whose Flush returned an error
    past: Past
  )

  const INIT: State := State(B.INIT, S.INIT, false, [], NO_PAST)

  datatype Event =
    | Upper(u: B.Event)       // producers and batcher, up to the call of Flush
    | SerializeFails
    | CallPublish
    | Lower(l: S.Event)       // inside Publish, or a replay loop
    | PublishReturns
    | Crash

  predicate Inner(l: S.Event) {
    !l.BeginPublish? && !l.ReturnNil? && !l.ReturnError? && !l.Crash?
  }

  ghost predicate Enabled(c: Config, x: State, e: Event) {
    match e
    case Upper(u) => u != B.FlushReturns && |x.b.pending| <= c.batching.batchSize && B.Enabled(x.b, u)
    case SerializeFails => x.b.phase.Flushing? && !x.publishing
    case CallPublish => x.b.phase.Flushing? && !x.publishing && x.s.work.Unlocked?
    case Lower(l) => Inner(l) && S.Enabled(c.spoolCap, x.s, l)
    case PublishReturns => x.publishing && x.b.phase.Flushing? && (x.s.work.Accepting? || x.s.work.Refusing?)
    case Crash => true
  }

  /** The batch that is being flushed. */
  function BatchInFlush(b: B.State): B.Batch {
    if b.phase.Flushing? then b.phase.batch else []
  }

  /** The process dies: the directory stays, everything in memory goes. */
  function Bury(past: Past, b: B.State): Past {
    Past(past.pushed + b.pushed, past.dropped + B.Dropped(b.gone), past.flushed + b.flushed,
         past.lost + (b.ring + b.pending), past.cut + BatchInFlush(b))
  }

  function AfterFlush(b: B.State): B.State
    requires b.phase.Flushing?
  {
    b.(phase := if b.phase.last then B.Stopped else B.Selecting)
  }

  ghost function Step(c: Config, x: State, e: Event): State
    requires Sane(c) && Enabled(c, x, e)
  {
    match e
    case Upper(u) => x.(b := B.Step(c.batching, x.b, u))
    case SerializeFails => x.(b := AfterFlush(x.b), failed := x.failed + [x.b.phase.batch])
    case CallPublish =>
      x.(publishing := true, s := S.Step(c.spoolCap, x.s, S.BeginPublish(c.codec.encode(x.b.phase.batch))))
    case Lower(l) => x.(s := S.Step(c.spoolCap, x.s, l))
    case PublishReturns =>
      if x.s.work.Accepting? then
        x.(b := AfterFlush(x.b), publishing := false, s := S.Step(c.spoolCap, x.s, S.ReturnNil))
      else
        x.(b := AfterFlush(x.b), publishing := false, s := S.Step(c.spoolCap, x.s, S.ReturnError),
           failed := x.failed + [x.b.phase.batch])
    case Crash => State(B.INIT, S.Step(c.spoolCap, x.s, S.Crash), false, x.failed, Bury(x.past, x.b))
  }

  ghost predicate Run(c: Config, x: State, es: seq<Event>, y: State)
    requires Sane(c)
    decreases |es|
  {
    if es == [] then x == y
    else Enabled(c, x, es[0]) && Run(c, Step(c, x, es[0]), es[1..], y)
  }

  // ---------- accounting for one entry ----------

  /** How often `e` occurs in a payload. */
  ghost function Occurs(k: Codec, e: LogEntry): Payload -> nat {
    (p: Payload) => multiset(k.decode(p))[e]
  }

  ghost function InBatches(bs: seq<B.Batch>, e: LogEntry): nat {
    multiset(B.Flat(bs))[e]
  }

  /** Occurrences in the batch the batcher is flushing. */
  function InFlush(b: B.State, e: LogEntry): nat {
    multiset(BatchInFlush(b))[e]
  }

  lemma BatchesSnoc(bs: seq<B.Batch>, batch: B.Batch, e: LogEntry)
    ensures InBatches(bs + [batch], e) == InBatches(bs, e) + multiset(batch)[e]
  {
    assert (bs + [batch])[..|bs|] == bs;
  }

  /** The payload of a live publish, if one holds the lock. */
  predicate LiveWith(w: S.Work, p: Payload) {
    !w.Unlocked? && !w.Replaying? && !w.Deleting? && w.p == p
  }

  /** The publisher works on exactly the batch that is being flushed. */
  ghost predicate Linked(c: Config, x: State) {
    if x.publishing then x.b.phase.Flushing? && LiveWith(x.s.work, c.codec.encode(x.b.phase.batch))
    else x.s.work.Unlocked? || x.s.work.Replaying? || x.s.work.Deleting?
  }

  /** Every flushed batch was accepted, failed, cut off by a crash, or is being flushed. */
  ghost predicate FlushesSettled(c: Config, x: State, e: LogEntry) {
    InBatches(x.past.flushed, e) + InBatches(x.b.flushed, e)
    == SumSeq(x.s.accepted, Occurs(c.codec, e)) + InBatches(x.failed, e) + multiset(x.past.cut)[e] + InFlush(x.b, e)
  }

  /** What earlier processes accepted was flushed, dropped or lost. */
  ghost predicate PastSettled(past: Past, e: LogEntry) {
    multiset(past.pushed)[e] == multiset(past.lost)[e] + multiset(past.dropped)[e] + InBatches(past.flushed, e)
  }

  ghost predicate Inv(c: Config, x: State, e: LogEntry) {
    && B.Inv(c.batching, x.b) && S.Inv(x.s) && S.Balanced(x.s, Occurs(c.codec, e))
    && Linked(c, x) && FlushesSettled(c, x, e) && PastSettled(x.past, e)
  }

  lemma UpperStepSettles(c: B.Config, b: B.State, u: B.Event, e: LogEntry)
    requires B.Sane(c) && |b.pending| <= c.batchSize && B.Enabled(b, u) && u != B.FlushReturns
    requires b.phase.Flushing? ==> b.pending == []
    ensures var b' := B.Step(c, b, u);
      InBatches(b'.flushed, e) - InFlush(b', e) == InBatches(b.flushed, e) - InFlush(b, e)
      && (b.phase.Flushing? ==> b'.phase == b.phase)
  {
    hide InBatches, B.Mark, B.Refill, Ring.DropCount, Ring.Pushed, Ring.ApproxBytes;
    match u {
      case Tick => FlushSettles(b, false, e);
      case Drain => {
        var a := B.Refill(c, b);
        RefillSettles(c, b);
        FlushSettles(a, b.phase.Draining? && b.phase.last, e);
      }
      case _ =>
    }
  }

  lemma RefillSettles(c: B.Config, b: B.State)
    requires |b.pending| <= c.batchSize
    ensures B.Refill(c, b).flushed == b.flushed && B.Refill(c, b).phase == b.phase
  {
  }

  lemma FlushSettles(b: B.State, last: bool, e: LogEntry)
    requires !b.phase.Flushing?
    ensures var b' := B.Flush(b, last);
      InBatches(b'.flushed, e) - InFlush(b', e) == InBatches(b.flushed, e)
  {
    hide InBatches;
    BatchesSnoc(b.flushed, b.pending, e);
  }

  lemma LowerStepLinks(cap: nat, s: S.State, l: S.Event, p: Payload)
    requires S.Enabled(cap, s, l) && Inner(l)
    ensures S.Step(cap, s, l).accepted == s.accepted
    ensures LiveWith(s.work, p) ==> LiveWith(S.Step(cap, s, l).work, p)
    ensures s.work.Unlocked? || s.work.Replaying? || s.work.Deleting? ==>
              var w := S.Step(cap, s, l).work; w.Unlocked? || w.Replaying? || w.Deleting?
  {
  }

  lemma UpperStepKeepsInv(c: Config, x: State, u: B.Event, e: LogEntry)
    requires Sane(c) && Inv(c, x, e) && Enabled(c, x, Upper(u))
    ensures Inv(c, Step(c, x, Upper(u)), e)
  {
    hide S.Balanced, S.Inv, B.Step, B.Awake, B.InOrder, InBatches, InFlush, SumSeq;
    B.StepKeepsBounds(c.batching, x.b, u);
    B.StepKeepsAwake(c.batching, x.b, u);
    B.StepKeepsOrder(c.batching, x.b, u);
    UpperStepSettles(c.batching, x.b, u, e);
  }

  lemma FlushReturnKeepsInv(c: B.Config, b: B.State)
    requires B.Sane(c) && B.Inv(c, b) && b.phase.Flushing?
    ensures B.Inv(c, AfterFlush(b)) && b.pending == []
  {
    hide B.All, B.Kept, B.Flat, Ring.WithinCaps;
  }

  lemma LowerStepKeepsInv(c: Config, x: State, l: S.Event, e: LogEntry)
    requires Sane(c) && Inv(c, x, e) && Enabled(c, x, Lower(l))
    ensures Inv(c, Step(c, x, Lower(l)), e)
  {
    hide S.Step, S.Enabled, S.Balanced, S.Inv, B.Inv, InBatches, InFlush, SumSeq, Inner;
    S.StepKeepsInv(c.spoolCap, x.s, l);
    S.StepBalances(c.spoolCap, x.s, l, Occurs(c.codec, e));
    LowerStepLinks(c.spoolCap, x.s, l, if x.publishing then c.codec.encode(x.b.phase.batch) else []);
  }

  lemma CallPublishKeepsInv(c: Config, x: State, e: LogEntry)
    requires Sane(c) && Inv(c, x, e) && Enabled(c, x, CallPublish)
    ensures Inv(c, Step(c, x, CallPublish), e)
  {
    hide S.Balanced, S.Inv, B.Inv, InBatches, InFlush, SumSeq;
    var l := S.BeginPublish(c.codec.encode(x.b.phase.batch));
    S.StepKeepsInv(c.spoolCap, x.s, l);
    S.StepBalances(c.spoolCap, x.s, l, Occurs(c.codec, e));
  }

  lemma SerializeFailsKeepsInv(c: Config, x: State, e: LogEntry)
    requires Sane(c) && Inv(c, x, e) && Enabled(c, x, SerializeFails)
    ensures Inv(c, Step(c, x, SerializeFails), e)
  {
    hide S.Balanced, S.Inv, B.Inv, InBatches, SumSeq;
    FlushReturnKeepsInv(c.batching, x.b);
    BatchesSnoc(x.failed, x.b.phase.batch, e);
  }

  lemma PublishReturnKeepsInv(c: Config, x: State, e: LogEntry)
    requires Sane(c) && Inv(c, x, e) && Enabled(c, x, PublishReturns)
    ensures Inv(c, Step(c, x, PublishReturns), e)
  {
    hide S.Balanced, S.Inv, B.Inv, InBatches, SumSeq;
    var batch := x.b.phase.batch;
    var l := if x.s.work.Accepting? then S.ReturnNil else S.ReturnError;
    S.StepKeepsInv(c.spoolCap, x.s, l);
    S.StepBalances(c.spoolCap, x.s, l, Occurs(c.codec, e));
    FlushReturnKeepsInv(c.batching, x.b);
    BatchesSnoc(x.failed, batch, e);
    SumSeqSnoc(x.s.accepted, x.s.work.p, Occurs(c.codec, e));
    assert c.codec.decode(c.codec.encode(batch)) == batch;
  }

  lemma {:induction false} BatchesConcat(bs: seq<B.Batch>, more: seq<B.Batch>, e: LogEntry)
    ensures InBatches(bs + more, e) == InBatches(bs, e) + InBatches(more, e)
    decreases |more|
  {
    if more == [] {
      assert bs + more == bs;
    } else {
      hide InBatches;
      var n := |more| - 1;
      BatchesConcat(bs, more[..n], e);
      BatchesSnoc(bs + more[..n], more[n], e);
      BatchesSnoc(more[..n], more[n], e);
      assert bs + more == (bs + more[..n]) + [more[n]] && more == more[..n] + [more[n]];
    }
  }

  lemma NoBatches(e: LogEntry)
    ensures InBatches([], e) == 0
  {
  }

  /** The books of a process that dies are added to those of the earlier ones. */
  lemma BurySettles(c: B.Config, past: Past, b: B.State, e: LogEntry)
    requires B.Inv(c, b) && PastSettled(past, e)
    ensures var past' := Bury(past, b);
      && PastSettled(past', e)
      && InBatches(past'.flushed, e) == InBatches(past.flushed, e) + InBatches(b.flushed, e)
      && multiset(past'.cut)[e] == multiset(past.cut)[e] + InFlush(b, e)
  {
    hide B.Inv, InBatches, B.Dropped;
    PushedSplits(c, b, e);
    BatchesConcat(past.flushed, b.flushed, e);
  }

  lemma CrashKeepsInv(c: Config, x: State, e: LogEntry)
    requires Sane(c) && Inv(c, x, e) && Enabled(c, x, Crash)
    ensures Inv(c, Step(c, x, Crash), e)
  {
    hide S.Step, S.Balanced, S.Inv, B.Inv, InBatches, SumSeq, PastSettled, Bury;
    S.StepKeepsInv(c.spoolCap, x.s, S.Crash);
    S.StepBalances(c.spoolCap, x.s, S.Crash, Occurs(c.codec, e));
    B.InitIsGood(c.batching);
    BurySettles(c.batching, x.past, x.b, e);
    NoBatches(e);
    CrashUnlocks(c.spoolCap, x.s);
  }

  lemma CrashUnlocks(cap: nat, s: S.State)
    ensures S.Step(cap, s, S.Crash).work.Unlocked? && S.Step(cap, s, S.Crash).accepted == s.accepted
  {
  }

  lemma StepKeepsInv(c: Config, x: State, ev: Event, e: LogEntry)
    requires Sane(c) && Inv(c, x, e) && Enabled(c, x, ev)
    ensures Inv(c, Step(c, x, ev), e)
  {
    hide Inv, Step, Enabled, Sane;
    match ev
    case Upper(u) => UpperStepKeepsInv(c, x, u, e);
    case SerializeFails => SerializeFailsKeepsInv(c, x, e);
    case CallPublish => CallPublishKeepsInv(c, x, e);
    case Lower(l) => LowerStepKeepsInv(c, x, l, e);
    case PublishReturns => PublishReturnKeepsInv(c, x, e);
    case Crash => CrashKeepsInv(c, x, e);
  }

  lemma {:induction false} RunKeepsInv(c: Config, x: State, es: seq<Event>, y: State, e: LogEntry)
    requires Sane(c) && Inv(c, x, e) && Run(c, x, es, y)
    ensures Inv(c, y, e)
    decreases |es|
  {
    hide Inv, Step, Enabled, Sane;
    if es != [] {
      StepKeepsInv(c, x, es[0], e);
      RunKeepsInv(c, Step(c, x, es[0]), es[1..], y, e);
    }
  }

  lemma InitIsGood(c: Config, e: LogEntry)
    requires Sane(c)
    ensures Inv(c, INIT, e)
  {
    S.InitIsGood(Occurs(c.codec, e));
    B.InitIsGood(c.batching);
  }

  // ---------- conservation ----------

  /** Occurrences of `e` in the ring, pending, dropped, being flushed, or in a failed batch. */
  ghost function OnDevice(x: State, e: LogEntry): nat {
    multiset(x.b.ring)[e] + multiset(x.b.pending)[e] + multiset(B.Dropped(x.b.gone))[e]
    + InFlush(x.b, e) + InBatches(x.failed, e)
  }

  /** Entries that went down with a process, or that it had dropped. */
  ghost function Perished(x: State, e: LogEntry): nat {
    multiset(x.past.lost)[e] + multiset(x.past.cut)[e] + multiset(x.past.dropped)[e]
  }

  /** Entries accepted by Push in this process or an earlier one. */
  function AllPushed(x: State): seq<LogEntry> {
    x.past.pushed + x.b.pushed
  }

  /** Occurrences of `e` in payloads delivered, spooled or evicted. */
  ghost function Shipped(c: Config, x: State, e: LogEntry): nat {
    SumSeq(x.s.delivered, Occurs(c.codec, e)) + S.SpooledWeight(x.s.files, Occurs(c.codec, e))
    + SumSeq(x.s.evicted, Occurs(c.codec, e))
  }

  /** Occurrences of `e` that are counted more than once. */
  ghost function Repeated(c: Config, x: State, e: LogEntry): nat {
    SumSeq(S.InFlight(x.s.work), Occurs(c.codec, e)) + SumSeq(x.s.surplus, Occurs(c.codec, e))
  }

  lemma PushedSplits(c: B.Config, b: B.State, e: LogEntry)
    requires B.Inv(c, b)
    ensures multiset(b.pushed)[e]
            == multiset(b.ring)[e] + multiset(b.pending)[e] + multiset(B.Dropped(b.gone))[e] + InBatches(b.flushed, e)
    ensures |B.Dropped(b.gone)| == b.drops
  {
    hide B.All, B.Kept, B.Flat, B.Dropped, B.Bounds, B.Awake;
    B.KeptOrDropped(b.gone);
  }

  /**
   Conservation: in every run, crashes included, the pushes of every entry are exactly accounted for by
   what is still on the device, what went down with a process and what was shipped, apart from what was
   shipped more than once.
   */
  lemma EntriesAreConserved(c: Config, es: seq<Event>, x: State, e: LogEntry)
    requires Sane(c) && Run(c, INIT, es, x)
    ensures multiset(AllPushed(x))[e] + Repeated(c, x, e) == OnDevice(x, e) + Perished(x, e) + Shipped(c, x, e)
    ensures |B.Dropped(x.b.gone)| == x.b.drops
  {
    hide Run, S.Inv, B.Inv, B.Dropped, InBatches, SumSeq, S.SpooledWeight;
    InitIsGood(c, e);
    RunKeepsInv(c, INIT, es, x, e);
    PushedSplits(c.batching, x.b, e);
  }

  /** An entry that was pushed is somewhere: in no interleaving does it vanish uncounted. */
  lemma NoEntryVanishes(c: Config, es: seq<Event>, x: State, e: LogEntry)
    requires Sane(c) && Run(c, INIT, es, x) && e in AllPushed(x)
    ensures || e in x.b.ring || e in x.b.pending || e in B.Dropped(x.b.gone)
            || (x.b.phase.Flushing? && e in x.b.phase.batch)
            || e in B.Flat(x.failed)
            || e in x.past.lost || e in x.past.cut || e in x.past.dropped
            || (exists p :: p in x.s.delivered && e in c.codec.decode(p))
            || (exists n :: n in x.s.files && !n.tmp && e in c.codec.decode(x.s.files[n]))
            || (exists p :: p in x.s.evicted && e in c.codec.decode(p))
  {
    hide Run, Sane, B.Dropped, B.Flat, S.SpooledWeight;
    EntriesAreConserved(c, es, x, e);
    var w := Occurs(c.codec, e);
    assert multiset(AllPushed(x))[e] > 0;
    if SumSeq(x.s.delivered, w) > 0 {
      var p := SumWitness(x.s.delivered, w);
    }
    if SumSeq(x.s.evicted, w) > 0 {
      var p := SumWitness(x.s.evicted, w);
    }
    if S.SpooledWeight(x.s.files, w) > 0 {
      var n := SpooledWitness(x.s.files, w);
    }
  }

  lemma {:induction false} SumWitness(s: seq<Payload>, w: Payload -> nat) returns (p: Payload)
    requires SumSeq(s, w) > 0
    ensures p in s && w(p) > 0
  {
    if w(s[0]) > 0 {
      p := s[0];
    } else {
      p := SumWitness(s[1..], w);
    }
  }

  lemma {:induction false} SpooledWitness(files: map<Names.Name, Payload>, w: Payload -> nat) returns (n: Names.Name)
    requires S.SpooledWeight(files, w) > 0
    ensures n in files && !n.tmp && w(files[n]) > 0
    decreases |files|
  {
    n := PickKey(files);
    if n.tmp || w(files[n]) == 0 {
      S.DropFile(files, n, w);
      n := SpooledWitness(files - {n}, w);
    }
  }

  // ---------- what crashes cost ----------

  function Crashes(es: seq<Event>): nat {
    if es == [] then 0 else (if es[0] == Crash then 1 else 0) + Crashes(es[1..])
  }

  function WentDown(x: State): nat {
    |x.past.lost| + |x.past.cut|
  }

  /** One crash takes down at most a full ring and one batch. */
  lemma CrashCost(c: Config, x: State, e: LogEntry)
    requires Sane(c) && Inv(c, x, e) && Enabled(c, x, Crash)
    ensures WentDown(Step(c, x, Crash)) <= WentDown(x) + c.batching.caps.maxEntries + c.batching.batchSize
  {
    hide S.Balanced, S.Inv, B.Awake, B.InOrder, FlushesSettled, PastSettled, S.Step, B.Dropped;
  }

  lemma PastStays(c: Config, x: State, ev: Event)
    requires Sane(c) && Enabled(c, x, ev) && ev != Crash
    ensures Step(c, x, ev).past == x.past
  {
    hide B.Step, B.Enabled, S.Step, S.Enabled;
  }

  lemma {:induction false} RunCost(c: Config, x: State, es: seq<Event>, y: State, e: LogEntry)
    requires Sane(c) && Inv(c, x, e) && Run(c, x, es, y)
    ensures WentDown(y) <= WentDown(x) + Crashes(es) * (c.batching.caps.maxEntries + c.batching.batchSize)
    decreases |es|
  {
    hide Inv, Step, Enabled, Sane;
    if es != [] {
      StepKeepsInv(c, x, es[0], e);
      if es[0] == Crash {
        CrashCost(c, x, e);
      } else {
        PastStays(c, x, es[0]);
      }
      RunCost(c, Step(c, x, es[0]), es[1..], y, e);
    }
  }

  /** Crashes lose at most a full ring and one batch each; nothing else takes entries down uncounted. */
  lemma CrashesLoseAtMost(c: Config, es: seq<Event>, x: State)
    requires Sane(c) && Run(c, INIT, es, x)
    ensures |x.past.lost| + |x.past.cut| <= Crashes(es) * (c.batching.caps.maxEntries + c.batching.batchSize)
  {
    hide Run, Sane, Inv;
    var e := LogEntry(Zero, Info, 0, "", "", 0, "", "", map[]);
    InitIsGood(c, e);
    RunCost(c, INIT, es, x, e);
  }

  /** Nothing misbehaves: no crash, no failed delete, no delivery reported as a failure. */
  predicate TameEvent(e: Event) {
    e != Crash && (e.Lower? ==> S.Tame(e.l))
  }

  lemma {:induction false} TameRunHasNoSurplus(c: Config, x: State, es: seq<Event>, y: State)
    requires Sane(c) && Run(c, x, es, y) && x.s.surplus == [] && x.past == NO_PAST
    requires forall i :: 0 <= i < |es| ==> TameEvent(es[i])
    ensures y.s.surplus == [] && y.past == NO_PAST
    decreases |es|
  {
    hide B.Step, B.Enabled;
    if es != [] {
      assert TameEvent(es[0]);
      TameRunHasNoSurplus(c, Step(c, x, es[0]), es[1..], y);
    }
  }

  /** Whenever the publisher is idle, a well-behaved run has shipped each entry exactly once or still holds it. */
  lemma EntriesShipOnce(c: Config, es: seq<Event>, x: State, e: LogEntry)
    requires Sane(c) && Run(c, INIT, es, x) && x.s.work.Unlocked?
    requires forall i :: 0 <= i < |es| ==> TameEvent(es[i])
    ensures multiset(x.b.pushed)[e] == OnDevice(x, e) + Shipped(c, x, e)
  {
    hide Run, Sane, OnDevice, Shipped, TameEvent;
    EntriesAreConserved(c, es, x, e);
    TameRunHasNoSurplus(c, INIT, es, x);
  }
}
