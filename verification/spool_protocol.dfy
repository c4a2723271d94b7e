/**
 The store-and-forward protocol of internal/transport/spool.go as a transition system.

 `liveBusy` admits one live publish or one replayed file at a time; `work` says who holds it
 and how far that holder has come. Listing the directory happens outside the lock. Memory
 (`counter`, `drops`, `work`, `passes`) is lost in a crash, `files` is not.
 */
module SpoolProtocol {
  import opened Collections
  import opened Names
  import opened SpoolStore

  // ---------- states ----------

  datatype Work =
    | Unlocked
    | Offering(p: Bytes)                            // live: upstream call outstanding
    | Spooling(p: Bytes)                            // live: upstream failed, Append begins
    | Writing(p: Bytes, tmp: Name)                  // live: temporary file open
    | Placed(p: Bytes)                              // live: renamed, evict reads the directory next
    | Evicting(p: Bytes, todo: seq<Name>, total: int)
    | Accepting(p: Bytes)                           // live: about to return nil
    | Refusing(p: Bytes)                            // live: about to return an error
    | Replaying(loop: nat, name: Name, body: Bytes) // replay: file read, upstream call outstanding
    | Deleting(loop: nat, name: Name, body: Bytes)  // replay: acknowledged, delete next

  datatype State = State(
    files: map<Name, Bytes>,
    counter: nat,
    drops: nat,
    work: Work,
    passes: map<nat, seq<Name>>,  // each running replay pass and the names it still has to visit
    floor: nat,                   // no clock reading since the last start is below it
    high: nat,                    // every clock reading so far is below it
    offered: seq<Bytes>,          // payloads passed to Publish
    accepted: seq<Bytes>,         // payloads whose Publish returned nil
    delivered: seq<Bytes>,        // payloads the broker got, once per delivery
    evicted: seq<Bytes>,          // payloads of evicted final files
    surplus: seq<Bytes>,          // deliveries and files not backed by an acceptance of their own
    replayed: seq<Name>,          // files replay got acknowledged, in order
    restarts: nat
  )

  const INIT: State :=
    State(map[], 0, 0, Unlocked, map[], 0, 0, [], [], [], [], [], [], 0)

  // ---------- events ----------

  datatype Event =
    | BeginPublish(p: Bytes)                     // a live publish takes liveBusy
    | Upstream(acked: bool, arrived: bool)       // the outstanding upstream call returns
    | OpenTmp(now: nat)                          // Append: counter, clock reading, temporary file
    | WriteTmp(n: nat)                           // the temporary file holds the first n bytes
    | AppendFails(cleaned: bool)                 // any failure in Append before the rename is done
    | Rename
    | EvictRead(readable: bool)                  // evict lists, measures and sorts the directory, if it can
    | EvictNext(removed: bool)                   // evict tries to remove the oldest remaining file
    | EvictStop
    | ReturnNil
    | ReturnError
    | StartPass(loop: nat, names: seq<Name>)     // replayOnce: List, outside the locks
    | EndPass(loop: nat)                         // replayOnce: context done, or no file left
    | TakeFile(loop: nat, readable: bool)        // replayOnce: lock liveBusy and read the next file
    | Delete(removed: bool)
    | Crash

  ghost predicate Enabled(cap: nat, s: State, e: Event) {
    match e
    case BeginPublish(_) => s.work.Unlocked?
    case Upstream(acked, arrived) => (s.work.Offering? || s.work.Replaying?) && (acked ==> arrived)
    case OpenTmp(now) => s.work.Spooling? && s.floor <= now
    case WriteTmp(n) => s.work.Writing? && n <= |s.work.p|
    case AppendFails(cleaned) => s.work.Spooling? || s.work.Writing?
    case Rename => s.work.Writing? && s.work.tmp in s.files && s.files[s.work.tmp] == s.work.p
    case EvictRead(_) => s.work.Placed?
    case EvictNext(removed) =>
      s.work.Evicting? && s.work.total > cap && s.work.todo != [] && (removed ==> s.work.todo[0] in s.files)
    case EvictStop => s.work.Evicting? && (s.work.total <= cap || s.work.todo == [])
    case ReturnNil => s.work.Accepting?
    case ReturnError => s.work.Refusing?
    case StartPass(loop, names) => loop !in s.passes && forall n :: n in names ==> !n.tmp
    case EndPass(loop) => loop in s.passes && Holder(s.work) != Some(loop)
    case TakeFile(loop, readable) =>
      s.work.Unlocked? && loop in s.passes && s.passes[loop] != [] && (readable ==> s.passes[loop][0] in s.files)
    case Delete(_) => s.work.Deleting?
    case Crash => true
  }

  /** The replay loop that holds liveBusy. */
  function Holder(w: Work): Option<nat> {
    if w.Replaying? || w.Deleting? then Some(w.loop) else None
  }

  ghost function Step(cap: nat, s: State, e: Event): State
    requires Enabled(cap, s, e)
  {
    match e
    case BeginPublish(p) => s.(work := Offering(p), offered := s.offered + [p])
    case Upstream(acked, arrived) =>
      var p := if s.work.Offering? then s.work.p else s.work.body;
      var s' := if arrived then s.(delivered := s.delivered + [p]) else s;
      if s.work.Offering? then
        if acked then s'.(work := Accepting(p))
        else s'.(work := Spooling(p), surplus := if arrived then s.surplus + [p] else s.surplus)
      else if acked then
        s'.(work := Deleting(s.work.loop, s.work.name, p), replayed := s.replayed + [s.work.name])
      else
        s'.(work := Unlocked, passes := s.passes - {s.work.loop},
            surplus := if arrived then s.surplus + [p] else s.surplus)
    case OpenTmp(now) =>
      var tmp := Name(now, s.counter + 1, true);
      s.(files := s.files[tmp := []], counter := s.counter + 1, work := Writing(s.work.p, tmp),
         high := if now < s.high then s.high else now + 1)
    case WriteTmp(n) => s.(files := s.files[s.work.tmp := s.work.p[..n]])
    case AppendFails(cleaned) =>
      var files := if s.work.Writing? && cleaned then s.files - {s.work.tmp} else s.files;
      s.(files := files, work := Refusing(s.work.p), counter := if s.work.Spooling? then s.counter + 1 else s.counter)
    case Rename =>
      s.(files := (s.files - {s.work.tmp})[s.work.tmp.(tmp := false) := s.work.p], work := Placed(s.work.p))
    case EvictRead(readable) =>
      s.(work := if readable then Evicting(s.work.p, Sorted(s.files.Keys), Total(s.files)) else Accepting(s.work.p))
    case EvictNext(removed) =>
      var n := s.work.todo[0];
      if removed then
        s.(files := s.files - {n}, drops := s.drops + 1,
           evicted := if n.tmp then s.evicted else s.evicted + [s.files[n]],
           work := Evicting(s.work.p, s.work.todo[1..], s.work.total - |s.files[n]|))
      else s.(work := Evicting(s.work.p, s.work.todo[1..], s.work.total))
    case EvictStop => s.(work := Accepting(s.work.p))
    case ReturnNil => s.(work := Unlocked, accepted := s.accepted + [s.work.p])
    case ReturnError => s.(work := Unlocked)
    case StartPass(loop, names) => s.(passes := s.passes[loop := names])
    case EndPass(loop) => s.(passes := s.passes - {loop})
    case TakeFile(loop, readable) =>
      var n := s.passes[loop][0];
      if readable then s.(work := Replaying(loop, n, s.files[n]))
      else s.(passes := s.passes - {loop})
    case Delete(removed) =>
      var s' := s.(work := Unlocked, passes := AdvancePass(s.passes, s.work.loop));
      if removed then s'.(files := s.files - {s.work.name})
      else s'.(surplus := s.surplus + [s.work.body])
    case Crash =>
      s.(counter := 0, drops := 0, work := Unlocked, passes := map[], floor := s.high,
         surplus := s.surplus + InFlight(s.work), restarts := s.restarts + 1)
  }

  function AdvancePass(passes: map<nat, seq<Name>>, loop: nat): map<nat, seq<Name>> {
    if loop in passes && passes[loop] != [] then passes[loop := passes[loop][1..]] else passes
  }

  /** The payload that is already out or on disk although the holder has not finished. */
  function InFlight(w: Work): seq<Bytes> {
    match w
    case Placed(p) => [p]
    case Evicting(p, _, _) => [p]
    case Accepting(p) => [p]
    case Deleting(_, _, body) => [body]
    case _ => []
  }

  /** `es` is a run from `s` to `t`. */
  ghost predicate Run(cap: nat, s: State, es: seq<Event>, t: State)
    decreases |es|
  {
    if es == [] then s == t
    else Enabled(cap, s, es[0]) && Run(cap, Step(cap, s, es[0]), es[1..], t)
  }

  // ---------- structural invariant ----------

  ghost predicate NamesUsed(s: State) {
    && s.floor <= s.high
    && forall n :: n in s.files ==> n.ns < s.high && (n.ns < s.floor || n.counter <= s.counter)
  }

  /** What the holder of liveBusy may rely on. */
  ghost predicate HolderInSync(s: State) {
    match s.work
    case Unlocked => true
    case Writing(p, tmp) => tmp.tmp && tmp in s.files && tmp.(tmp := false) !in s.files && p in s.offered
                            && tmp.counter == s.counter && tmp.ns < s.high
    case Replaying(loop, name, body) => OnDisk(s, name, body) && AtHead(s.passes, loop, name)
    case Deleting(loop, name, body) => OnDisk(s, name, body) && AtHead(s.passes, loop, name) && body in s.delivered
    case _ => s.work.p in s.offered
  }

  ghost predicate OnDisk(s: State, name: Name, body: Bytes) {
    !name.tmp && name in s.files && s.files[name] == body
  }

  ghost predicate AtHead(passes: map<nat, seq<Name>>, loop: nat, name: Name) {
    loop in passes && passes[loop] != [] && passes[loop][0] == name
  }

  /** No torn file under a final name: it holds all of a payload passed to Publish. */
  ghost predicate FilesWhole(s: State) {
    forall n :: n in s.files && !n.tmp ==> s.files[n] in s.offered
  }

  /** The broker is never sent anything but a payload passed to Publish. */
  ghost predicate DeliveriesOffered(s: State) {
    forall p :: p in s.delivered ==> p in s.offered
  }

  ghost predicate PassesFinal(s: State) {
    forall loop, n :: loop in s.passes && n in s.passes[loop] ==> !n.tmp
  }

  ghost predicate Inv(s: State) {
    NamesUsed(s) && HolderInSync(s) && FilesWhole(s) && PassesFinal(s) && DeliveriesOffered(s)
  }

  lemma StepKeepsNames(cap: nat, s: State, e: Event)
    requires Inv(s) && Enabled(cap, s, e)
    ensures NamesUsed(Step(cap, s, e))
  {
    hide FilesWhole, PassesFinal, DeliveriesOffered, Sorted, Total;
  }

  lemma StepKeepsHolder(cap: nat, s: State, e: Event)
    requires Inv(s) && Enabled(cap, s, e)
    ensures HolderInSync(Step(cap, s, e))
  {
    hide FilesWhole, DeliveriesOffered, Sorted, Total;
  }

  lemma StepKeepsFiles(cap: nat, s: State, e: Event)
    requires Inv(s) && Enabled(cap, s, e)
    ensures FilesWhole(Step(cap, s, e))
  {
    hide NamesUsed, PassesFinal, DeliveriesOffered, Sorted, Total;
    match e {
      case Rename =>
      case WriteTmp(_) =>
      case BeginPublish(_) =>
      case _ =>
        assert Step(cap, s, e).offered == s.offered;
    }
  }

  lemma StepKeepsPasses(cap: nat, s: State, e: Event)
    requires Inv(s) && Enabled(cap, s, e)
    ensures PassesFinal(Step(cap, s, e)) && DeliveriesOffered(Step(cap, s, e))
  {
    hide NamesUsed, Sorted, Total;
  }

  lemma StepKeepsInv(cap: nat, s: State, e: Event)
    requires Inv(s) && Enabled(cap, s, e)
    ensures Inv(Step(cap, s, e))
  {
    hide Step, NamesUsed, HolderInSync, FilesWhole, PassesFinal, DeliveriesOffered;
    StepKeepsNames(cap, s, e);
    StepKeepsHolder(cap, s, e);
    StepKeepsFiles(cap, s, e);
    StepKeepsPasses(cap, s, e);
  }

  // ---------- conservation ----------

  ghost function FinalWeight(w: Bytes -> nat): (Name, Bytes) -> nat {
    (n: Name, b: Bytes) => if n.tmp then 0 else w(b)
  }

  /** The weight of everything spooled. */
  ghost function SpooledWeight(files: map<Name, Bytes>, w: Bytes -> nat): nat {
    SumMap(files, FinalWeight(w))
  }

  /**
   The accounting law. Whatever payloads weigh, what was delivered, is spooled or was evicted
   weighs as much as what was accepted, is in flight or is surplus.
   */
  ghost predicate Balanced(s: State, w: Bytes -> nat) {
    SumSeq(s.delivered, w) + SpooledWeight(s.files, w) + SumSeq(s.evicted, w)
    == SumSeq(s.accepted, w) + SumSeq(InFlight(s.work), w) + SumSeq(s.surplus, w)
  }

  lemma SumNone(w: Bytes -> nat)
    ensures SumSeq([], w) == 0
  {
  }

  lemma SumOne(p: Bytes, w: Bytes -> nat)
    ensures SumSeq([p], w) == w(p)
  {
    SumSeqSnoc([], p, w);
    assert [] + [p] == [p];
  }

  lemma AddFile(files: map<Name, Bytes>, n: Name, b: Bytes, w: Bytes -> nat)
    requires n !in files
    ensures SpooledWeight(files[n := b], w) == SpooledWeight(files, w) + if n.tmp then 0 else w(b)
  {
    SumMapInsert(files, FinalWeight(w), n, b);
  }

  lemma DropFile(files: map<Name, Bytes>, n: Name, w: Bytes -> nat)
    requires n in files
    ensures SpooledWeight(files - {n}, w) + (if n.tmp then 0 else w(files[n])) == SpooledWeight(files, w)
  {
    SumMapRemove(files, FinalWeight(w), n);
  }

  /** Temporary files carry no weight. */
  lemma TmpIsWeightless(files: map<Name, Bytes>, n: Name, b: Bytes, w: Bytes -> nat)
    requires n.tmp
    ensures SpooledWeight(files[n := b], w) == SpooledWeight(files, w) == SpooledWeight(files - {n}, w)
  {
    if n in files {
      DropFile(files, n, w);
      assert files[n := b] == (files - {n})[n := b];
    } else {
      assert files - {n} == files;
    }
    AddFile(files - {n}, n, b, w);
  }

  lemma StepBalances(cap: nat, s: State, e: Event, w: Bytes -> nat)
    requires Inv(s) && Enabled(cap, s, e) && Balanced(s, w)
    ensures Balanced(Step(cap, s, e), w)
  {
    hide SpooledWeight, SumSeq, NamesUsed, FilesWhole, PassesFinal, DeliveriesOffered, Sorted, Total;
    SumNone(w);
    match e {
      case Upstream(acked, arrived) => {
        var p := if s.work.Offering? then s.work.p else s.work.body;
        SumOne(p, w);
        SumSeqSnoc(s.delivered, p, w);
        SumSeqSnoc(s.surplus, p, w);
      }
      case OpenTmp(now) => TmpIsWeightless(s.files, Name(now, s.counter + 1, true), [], w);
      case WriteTmp(n) => TmpIsWeightless(s.files, s.work.tmp, s.work.p[..n], w);
      case AppendFails(cleaned) => if s.work.Writing? { TmpIsWeightless(s.files, s.work.tmp, [], w); }
      case Rename => {
        SumOne(s.work.p, w);
        TmpIsWeightless(s.files, s.work.tmp, [], w);
        AddFile(s.files - {s.work.tmp}, s.work.tmp.(tmp := false), s.work.p, w);
      }
      case EvictNext(removed) => if removed {
        DropFile(s.files, s.work.todo[0], w);
        SumSeqSnoc(s.evicted, s.files[s.work.todo[0]], w);
      }
      case ReturnNil => {
        SumOne(s.work.p, w);
        SumSeqSnoc(s.accepted, s.work.p, w);
      }
      case Delete(removed) => {
        SumOne(s.work.body, w);
        SumSeqSnoc(s.surplus, s.work.body, w);
        DropFile(s.files, s.work.name, w);
      }
      case Crash => SumSeqConcat(s.surplus, InFlight(s.work), w);
      case _ =>
    }
  }

  /** Every run, with crashes and failures anywhere, keeps the invariant and the books balanced. */
  lemma {:induction false} RunBalances(cap: nat, s: State, es: seq<Event>, t: State, w: Bytes -> nat)
    requires Inv(s) && Balanced(s, w) && Run(cap, s, es, t)
    ensures Inv(t) && Balanced(t, w)
    decreases |es|
  {
    if es != [] {
      StepKeepsInv(cap, s, es[0]);
      StepBalances(cap, s, es[0], w);
      RunBalances(cap, Step(cap, s, es[0]), es[1..], t, w);
    }
  }

  // ---------- at least once, exactly once ----------

  /** How many final files hold payload `p`. */
  ghost function Copies(files: map<Name, Bytes>, p: Bytes): nat {
    |set n | n in files && !n.tmp && files[n] == p|
  }

  lemma {:induction false} WeightIsCopies(files: map<Name, Bytes>, p: Bytes)
    ensures SpooledWeight(files, Is(p)) == Copies(files, p)
    decreases |files|
  {
    var all := set n | n in files && !n.tmp && files[n] == p;
    if files == map[] {
      assert all == {};
    } else {
      var k := PickKey(files);
      var rest := files - {k};
      WeightIsCopies(rest, p);
      DropFile(files, k, Is(p));
      assert (set n | n in rest && !n.tmp && rest[n] == p) == all - {k};
    }
  }

  /** The accounting law, payload by payload. */
  lemma RunCounts(cap: nat, es: seq<Event>, t: State, p: Bytes)
    requires Run(cap, INIT, es, t)
    ensures Inv(t)
    ensures multiset(t.delivered)[p] + Copies(t.files, p) + multiset(t.evicted)[p]
            == multiset(t.accepted)[p] + multiset(InFlight(t.work))[p] + multiset(t.surplus)[p]
  {
    hide Run, Inv, SpooledWeight, Copies;
    InitIsGood(Is(p));
    RunBalances(cap, INIT, es, t, Is(p));
    WeightIsCopies(t.files, p);
    SumIsCount(t.delivered, p);
    SumIsCount(t.evicted, p);
    SumIsCount(t.accepted, p);
    SumIsCount(InFlight(t.work), p);
    SumIsCount(t.surplus, p);
  }

  lemma InitIsGood(w: Bytes -> nat)
    ensures Inv(INIT) && Balanced(INIT, w)
  {
  }

  /**
   At least once, across crashes after any step: every acceptance of a payload is backed by a
   delivery, a complete spool file or an eviction of its own.
   */
  lemma AtLeastOnce(cap: nat, es: seq<Event>, t: State, p: Bytes)
    requires Run(cap, INIT, es, t)
    ensures multiset(t.accepted)[p] <= multiset(t.delivered)[p] + Copies(t.files, p) + multiset(t.evicted)[p]
    ensures p in t.accepted ==>
              p in t.delivered || p in t.evicted || exists n :: n in t.files && !n.tmp && t.files[n] == p
  {
    hide Run, Inv;
    RunCounts(cap, es, t, p);
    if p in t.accepted && p !in t.delivered && p !in t.evicted {
      assert multiset(t.accepted)[p] > 0;
      assert Copies(t.files, p) > 0;
      var holding := set n | n in t.files && !n.tmp && t.files[n] == p;
      var n :| n in holding;
    }
  }

  /** Nothing misbehaves: no crash, no failed delete, no delivery that is reported as a failure. */
  predicate Tame(e: Event) {
    match e
    case Crash => false
    case Delete(removed) => removed
    case Upstream(acked, arrived) => acked == arrived
    case _ => true
  }

  /** Crashes, failed deletes and deliveries reported as failures. */
  function Misbehaviours(es: seq<Event>): nat {
    if es == [] then 0 else (if Tame(es[0]) then 0 else 1) + Misbehaviours(es[1..])
  }

  lemma StepAddsSurplus(cap: nat, s: State, e: Event)
    requires Enabled(cap, s, e)
    ensures |Step(cap, s, e).surplus| <= |s.surplus| + if Tame(e) then 0 else 1
  {
    hide Sorted, Total;
  }

  lemma {:induction false} SurplusIsMisbehaviour(cap: nat, s: State, es: seq<Event>, t: State)
    requires Run(cap, s, es, t)
    ensures |t.surplus| <= |s.surplus| + Misbehaviours(es)
    decreases |es|
  {
    hide Step, Enabled, Tame;
    if es != [] {
      StepAddsSurplus(cap, s, es[0]);
      SurplusIsMisbehaviour(cap, Step(cap, s, es[0]), es[1..], t);
    }
  }

  lemma {:induction false} TameIsNoMisbehaviour(es: seq<Event>)
    requires forall i :: 0 <= i < |es| ==> Tame(es[i])
    ensures Misbehaviours(es) == 0
  {
    if es != [] {
      TameIsNoMisbehaviour(es[1..]);
    }
  }

  lemma CountAtMostLength<T>(s: seq<T>, x: T)
    ensures multiset(s)[x] <= |s|
  {
    assert multiset(s)[x] <= |multiset(s)|;
  }

  /**
   Duplicates are bounded by misbehaviour: however long the run, the copies of a payload that were
   delivered, spooled or evicted exceed its acceptances by no more than the crashes, failed deletes and
   misreported deliveries, and the one payload in flight.
   */
  lemma DuplicatesAreBounded(cap: nat, es: seq<Event>, t: State, p: Bytes)
    requires Run(cap, INIT, es, t)
    ensures multiset(t.delivered)[p] + Copies(t.files, p) + multiset(t.evicted)[p]
            <= multiset(t.accepted)[p] + multiset(InFlight(t.work))[p] + Misbehaviours(es)
    ensures multiset(InFlight(t.work))[p] <= 1
  {
    hide Run, Inv, Copies;
    RunCounts(cap, es, t, p);
    SurplusIsMisbehaviour(cap, INIT, es, t);
    CountAtMostLength(t.surplus, p);
    CountAtMostLength(InFlight(t.work), p);
  }

  /**
   Exactly once, for any number of replay loops, any listings however stale, and evictions in the
   middle of a pass: acceptances split into deliveries, spooled files and evictions.
   */
  lemma ExactlyOnce(cap: nat, es: seq<Event>, t: State, p: Bytes)
    requires Run(cap, INIT, es, t) && t.work.Unlocked?
    requires forall i :: 0 <= i < |es| ==> Tame(es[i])
    ensures multiset(t.accepted)[p] == multiset(t.delivered)[p] + Copies(t.files, p) + multiset(t.evicted)[p]
  {
    hide Run, Inv, Tame;
    RunCounts(cap, es, t, p);
    SurplusIsMisbehaviour(cap, INIT, es, t);
    TameIsNoMisbehaviour(es);
  }

  /**
   A final file changes only by leaving, and leaves only by eviction or after the broker
   acknowledged exactly its bytes.
   */
  lemma FileLeaves(cap: nat, s: State, e: Event, n: Name)
    requires Inv(s) && Enabled(cap, s, e) && n in s.files && !n.tmp
    ensures var s' := Step(cap, s, e);
      || (n in s'.files && s'.files[n] == s.files[n])
      || (e == EvictNext(true) && s'.evicted == s.evicted + [s.files[n]])
      || (e == Delete(true) && s.work.Deleting? && s.work.name == n && s.files[n] in s.delivered)
  {
    hide FilesWhole, PassesFinal, DeliveriesOffered, Sorted, Total;
  }

  // ---------- eviction ----------

  /** evict's running total is the size of the directory. */
  ghost predicate SizeTracked(s: State) {
    s.work.Evicting? ==> s.work.total == Total(s.files)
  }

  lemma StepTracksSize(cap: nat, s: State, e: Event)
    requires SizeTracked(s) && Enabled(cap, s, e)
    ensures SizeTracked(Step(cap, s, e))
  {
    hide SumMap, Sorted;
    if e == EvictNext(true) {
      SumMapRemove(s.files, FileSize(), s.work.todo[0]);
    }
  }

  lemma {:induction false} RunTracksSize(cap: nat, s: State, es: seq<Event>, t: State)
    requires SizeTracked(s) && Run(cap, s, es, t)
    ensures SizeTracked(t)
    decreases |es|
  {
    hide SizeTracked, Step, Enabled;
    if es != [] {
      StepTracksSize(cap, s, es[0]);
      RunTracksSize(cap, Step(cap, s, es[0]), es[1..], t);
    }
  }

  /** evict goes on exactly while the directory is over the cap and there are files left to try. */
  lemma EvictionStopsAtCap(cap: nat, es: seq<Event>, t: State)
    requires Run(cap, INIT, es, t) && t.work.Evicting?
    ensures Enabled(cap, t, EvictStop) <==> Total(t.files) <= cap || t.work.todo == []
    ensures Enabled(cap, t, EvictNext(false)) <==> Total(t.files) > cap && t.work.todo != []
  {
    hide Run;
    RunTracksSize(cap, INIT, es, t);
  }

  function Evictions(es: seq<Event>): nat {
    if es == [] then 0 else (if es[0] == EvictNext(true) then 1 else 0) + Evictions(es[1..])
  }

  /** Drops counts the evicted files of this process. */
  lemma {:induction false} DropsCountEvictions(cap: nat, s: State, es: seq<Event>, t: State)
    requires Run(cap, s, es, t) && forall i :: 0 <= i < |es| ==> es[i] != Crash
    ensures t.drops == s.drops + Evictions(es)
    decreases |es|
  {
    if es != [] {
      DropsCountEvictions(cap, Step(cap, s, es[0]), es[1..], t);
    }
  }
}
