/**
 Replay order over a whole run of the spool protocol: with a clock that never goes back and
 deletes that succeed, files are replayed oldest first, across passes, replay loops, concurrent
 appends, evictions and restarts.
 */
module SpoolFifo {
  import opened Collections
  import opened Names
  import opened SpoolStore
  import opened SpoolProtocol

  /**
   The clock has not gone back, deletes succeed, and a pass starts from a true listing. Once the counter
   is wider than ten digits the clock must have advanced since the last append.
   */
  ghost predicate Orderly(s: State, e: Event) {
    match e
    case OpenTmp(now) =>
      s.high <= now + 1 && ClockFits(Name(now, s.counter + 1, true)) && (s.counter + 1 < 1_00000_00000 || s.high <= now)
    case Delete(removed) => removed
    case StartPass(_, names) => names == Listing(s.files)
    case _ => true
  }

  ghost predicate OrderlyRun(cap: nat, s: State, es: seq<Event>, t: State)
    decreases |es|
  {
    if es == [] then s == t
    else Enabled(cap, s, es[0]) && Orderly(s, es[0]) && OrderlyRun(cap, Step(cap, s, es[0]), es[1..], t)
  }

  // ---------- invariant ----------

  /** The name was made by an append that has already begun. */
  predicate Known(s: State, n: Name) {
    n.ns < s.high && (n.ns < s.floor || n.counter <= s.counter)
  }

  /** No two files can be misordered: of two made in one nanosecond the newer has a ten-digit counter. */
  ghost predicate FilesFit(files: Directory) {
    && (forall n :: n in files ==> ClockFits(n))
    && (forall n, m :: n in files && m in files && n.ns == m.ns && n.counter < m.counter ==> m.counter < 1_00000_00000)
  }

  ghost predicate PassesKnown(s: State) {
    forall loop, n :: loop in s.passes && n in s.passes[loop] ==> Known(s, n) && !n.tmp
  }

  ghost predicate ReplayedKnown(s: State) {
    forall n :: n in s.replayed ==> Known(s, n) && !n.tmp
  }

  /** A file being written is newer than everything listed, replayed or spooled. */
  ghost predicate PendingIsNewest(s: State) {
    s.work.Writing? ==>
      var final := s.work.tmp.(tmp := false);
      && (forall n :: n in s.files && !n.tmp ==> Older(n, final))
      && (forall loop, n :: loop in s.passes && n in s.passes[loop] ==> Older(n, final))
      && (forall n :: n in s.replayed ==> Older(n, final))
  }

  ghost predicate Chronological(names: seq<Name>) {
    forall i, j :: 0 <= i < j < |names| ==> Older(names[i], names[j])
  }

  /** What a pass still has to visit comes before every file it does not know. */
  ghost predicate PassCovers(names: seq<Name>, files: map<Name, Bytes>) {
    && Chronological(names)
    && forall m, x :: m in files && !m.tmp && m !in names && x in names ==> Older(x, m)
  }

  ghost predicate PassesCover(s: State) {
    forall loop :: loop in s.passes ==> PassCovers(s.passes[loop], s.files)
  }

  /** Whether a replayed file may still be on disk. */
  predicate MayLinger(s: State, n: Name) {
    s.restarts > 0 || (s.work.Deleting? && s.work.name == n)
  }

  ghost predicate ReplayedFirst(s: State) {
    forall k, m :: k in s.replayed && m in s.files && !m.tmp ==> Older(k, m) || (k == m && MayLinger(s, m))
  }

  ghost predicate ReplayedInOrder(s: State) {
    forall i, j :: 0 <= i < j < |s.replayed| ==>
      Older(s.replayed[i], s.replayed[j]) || (s.replayed[i] == s.replayed[j] && s.restarts > 0)
  }

  /** A file is acknowledged once, and once more for each crash that kept its delete from happening. */
  ghost predicate RepeatsCounted(s: State) {
    forall n :: multiset(s.replayed)[n] <= s.restarts + if Outstanding(s, n) then 0 else 1
  }

  /** The file is on disk and not about to be deleted. */
  predicate Outstanding(s: State, n: Name) {
    n in s.files && !n.tmp && !(s.work.Deleting? && s.work.name == n)
  }

  ghost predicate FifoInv(s: State) {
    && FilesFit(s.files) && PassesKnown(s) && ReplayedKnown(s) && PendingIsNewest(s) && PassesCover(s)
    && ReplayedFirst(s) && ReplayedInOrder(s) && RepeatsCounted(s)
  }

  // ---------- steps ----------

  lemma ListingCovers(files: Directory)
    requires FilesFit(files)
    ensures PassCovers(Listing(files), files)
  {
    hide Before, Listing, Sorted, Total, Width, LeadingDigits;
    var names := Listing(files);
    forall i, j | 0 <= i < j < |names| ensures Older(names[i], names[j]) {
      var a, b := names[i], names[j];
      assert a in names && b in names;
      ByteOrderIsChronological(a, b);
      if a.ns == b.ns && b.counter < a.counter {
        TenDigitsSuffice(b, a);
      }
    }
  }

  lemma StepKeepsFit(cap: nat, s: State, e: Event)
    requires Inv(s) && FifoInv(s) && Enabled(cap, s, e) && Orderly(s, e)
    ensures FilesFit(Step(cap, s, e).files)
  {
    hide FilesWhole, DeliveriesOffered, PassesFinal, PassesKnown, ReplayedKnown, PendingIsNewest,
         PassesCover, ReplayedFirst, ReplayedInOrder, RepeatsCounted, Listing, Sorted, Total;
  }

  lemma StillKnown(cap: nat, s: State, e: Event, n: Name)
    requires Enabled(cap, s, e) && Known(s, n)
    ensures Known(Step(cap, s, e), n)
  {
  }

  lemma StepKeepsPassesKnown(cap: nat, s: State, e: Event)
    requires Inv(s) && FifoInv(s) && Enabled(cap, s, e) && Orderly(s, e)
    ensures PassesKnown(Step(cap, s, e))
  {
    hide FilesWhole, DeliveriesOffered, PassesFinal, FilesFit, ReplayedKnown, PendingIsNewest,
         PassesCover, ReplayedFirst, ReplayedInOrder, RepeatsCounted, Listing, Sorted, Total;
    var t := Step(cap, s, e);
    forall loop, n | loop in t.passes && n in t.passes[loop] ensures Known(t, n) && !n.tmp {
      assert Known(s, n) && !n.tmp;
      StillKnown(cap, s, e, n);
    }
  }

  lemma StepKeepsReplayedKnown(cap: nat, s: State, e: Event)
    requires Inv(s) && FifoInv(s) && Enabled(cap, s, e) && Orderly(s, e)
    ensures ReplayedKnown(Step(cap, s, e))
  {
    hide FilesWhole, DeliveriesOffered, PassesFinal, FilesFit, PassesKnown, PendingIsNewest,
         PassesCover, ReplayedFirst, ReplayedInOrder, RepeatsCounted, Listing, Sorted, Total;
    var t := Step(cap, s, e);
    forall n | n in t.replayed ensures Known(t, n) && !n.tmp {
      assert Known(s, n) && !n.tmp;
      StillKnown(cap, s, e, n);
    }
  }

  lemma StepKeepsPending(cap: nat, s: State, e: Event)
    requires Inv(s) && FifoInv(s) && Enabled(cap, s, e) && Orderly(s, e)
    ensures PendingIsNewest(Step(cap, s, e))
  {
    hide FilesWhole, DeliveriesOffered, PassesFinal, FilesFit, PassesCover, ReplayedFirst, ReplayedInOrder, RepeatsCounted, Listing, Sorted, Total;
    match e {
      case OpenTmp(now) =>
      case WriteTmp(_) =>
      case StartPass(_, _) =>
      case EndPass(_) =>
      case _ =>
        assert !Step(cap, s, e).work.Writing?;
    }
  }

  lemma StepKeepsCover(cap: nat, s: State, e: Event)
    requires Inv(s) && FifoInv(s) && Enabled(cap, s, e) && Orderly(s, e)
    ensures PassesCover(Step(cap, s, e))
  {
    hide FilesWhole, DeliveriesOffered, FilesFit, ReplayedFirst, ReplayedInOrder, RepeatsCounted, Listing, Sorted, Total;
    if e.StartPass? {
      ListingCovers(s.files);
    }
  }

  lemma StepKeepsReplayedFirst(cap: nat, s: State, e: Event)
    requires Inv(s) && FifoInv(s) && Enabled(cap, s, e) && Orderly(s, e)
    ensures ReplayedFirst(Step(cap, s, e))
  {
    hide FilesWhole, DeliveriesOffered, FilesFit, ReplayedInOrder, RepeatsCounted, Listing, Sorted, Total;
  }

  lemma StepKeepsReplayOrder(cap: nat, s: State, e: Event)
    requires Inv(s) && FifoInv(s) && Enabled(cap, s, e) && Orderly(s, e)
    ensures ReplayedInOrder(Step(cap, s, e))
  {
    hide FilesWhole, DeliveriesOffered, FilesFit, PassesKnown, ReplayedKnown, PendingIsNewest, PassesCover, RepeatsCounted, Listing, Sorted, Total;
  }

  /** The broker acknowledges the replayed file `n`. */
  predicate Acknowledges(s: State, e: Event, n: Name) {
    e.Upstream? && e.acked && s.work.Replaying? && s.work.name == n
  }

  lemma StepCountsOne(cap: nat, s: State, e: Event, n: Name)
    requires Enabled(cap, s, e)
    ensures var t := Step(cap, s, e);
      && multiset(t.replayed)[n] == multiset(s.replayed)[n] + (if Acknowledges(s, e, n) then 1 else 0)
      && t.restarts == s.restarts + (if e == Crash then 1 else 0)
  {
    hide Sorted, Total;
  }

  /** Only a rename makes a file outstanding, or a crash that comes before its delete. */
  lemma StaysOutstanding(cap: nat, s: State, e: Event, n: Name)
    requires HolderInSync(s) && Enabled(cap, s, e) && Orderly(s, e)
    requires Outstanding(Step(cap, s, e), n) && e != Crash && !(e == Rename && n == s.work.tmp.(tmp := false))
    ensures Outstanding(s, n)
  {
    hide Sorted, Total, Listing;
  }

  lemma AcknowledgedIsOutstanding(cap: nat, s: State, e: Event, n: Name)
    requires HolderInSync(s) && Enabled(cap, s, e) && Acknowledges(s, e, n)
    ensures Outstanding(s, n) && !Outstanding(Step(cap, s, e), n)
  {
  }

  lemma StepCountsRepeats(cap: nat, s: State, e: Event)
    requires Inv(s) && FifoInv(s) && Enabled(cap, s, e) && Orderly(s, e)
    ensures RepeatsCounted(Step(cap, s, e))
  {
    hide Step, FilesWhole, DeliveriesOffered, FilesFit, PassesKnown, PassesCover, ReplayedFirst, ReplayedInOrder,
         NamesUsed, PassesFinal, Orderly, Outstanding, ReplayedKnown;
    var t := Step(cap, s, e);
    forall n ensures multiset(t.replayed)[n] <= t.restarts + if Outstanding(t, n) then 0 else 1 {
      StepCountsOne(cap, s, e, n);
      assert multiset(s.replayed)[n] <= s.restarts + if Outstanding(s, n) then 0 else 1;
      if Acknowledges(s, e, n) {
        AcknowledgedIsOutstanding(cap, s, e, n);
      } else if e == Rename && n == s.work.tmp.(tmp := false) {
        assert n !in s.replayed;
      } else if Outstanding(t, n) && e != Crash {
        StaysOutstanding(cap, s, e, n);
      }
    }
  }

  lemma StepKeepsFifo(cap: nat, s: State, e: Event)
    requires Inv(s) && FifoInv(s) && Enabled(cap, s, e) && Orderly(s, e)
    ensures FifoInv(Step(cap, s, e))
  {
    hide Step, Enabled, Orderly, FilesFit, PassesKnown, ReplayedKnown, PendingIsNewest, PassesCover, ReplayedFirst,
         ReplayedInOrder, RepeatsCounted;
    StepKeepsFit(cap, s, e);
    StepKeepsPassesKnown(cap, s, e);
    StepKeepsReplayedKnown(cap, s, e);
    StepKeepsPending(cap, s, e);
    StepKeepsCover(cap, s, e);
    StepKeepsReplayedFirst(cap, s, e);
    StepKeepsReplayOrder(cap, s, e);
    StepCountsRepeats(cap, s, e);
  }

  lemma {:induction false} OrderlyRunKeepsFifo(cap: nat, s: State, es: seq<Event>, t: State)
    requires Inv(s) && FifoInv(s) && OrderlyRun(cap, s, es, t)
    ensures FifoInv(t)
    decreases |es|
  {
    hide Step, Enabled, Orderly, FifoInv, Inv;
    if es != [] {
      StepKeepsInv(cap, s, es[0]);
      StepKeepsFifo(cap, s, es[0]);
      OrderlyRunKeepsFifo(cap, Step(cap, s, es[0]), es[1..], t);
    }
  }

  /** Whatever interleaves, the names replay gets acknowledged never go back in time. */
  lemma ReplayIsFifo(cap: nat, es: seq<Event>, t: State)
    requires OrderlyRun(cap, INIT, es, t)
    ensures forall i, j :: 0 <= i < j < |t.replayed| ==>
              Older(t.replayed[i], t.replayed[j]) || t.replayed[i] == t.replayed[j]
  {
    hide OrderlyRun;
    InitIsGood(Is([]));
    OrderlyRunKeepsFifo(cap, INIT, es, t);
  }

  function Crashes(es: seq<Event>): nat {
    if es == [] then 0 else (if es[0] == Crash then 1 else 0) + Crashes(es[1..])
  }

  lemma {:induction false} RestartsAreCrashes(cap: nat, s: State, es: seq<Event>, t: State)
    requires OrderlyRun(cap, s, es, t)
    ensures t.restarts == s.restarts + Crashes(es)
    decreases |es|
  {
    if es != [] {
      RestartsAreCrashes(cap, Step(cap, s, es[0]), es[1..], t);
    }
  }

  lemma {:induction false} NoCrashes(es: seq<Event>)
    requires forall i :: 0 <= i < |es| ==> es[i] != Crash
    ensures Crashes(es) == 0
  {
    if es != [] {
      NoCrashes(es[1..]);
    }
  }

  /** A file is acknowledged at most once more for every crash. */
  lemma RepeatsAreCrashes(cap: nat, es: seq<Event>, t: State, n: Name)
    requires OrderlyRun(cap, INIT, es, t)
    ensures multiset(t.replayed)[n] <= 1 + Crashes(es)
  {
    hide OrderlyRun;
    InitIsGood(Is([]));
    OrderlyRunKeepsFifo(cap, INIT, es, t);
    RestartsAreCrashes(cap, INIT, es, t);
  }

  /** Without a crash they strictly increase: no file is acknowledged twice. */
  lemma ReplayIsStrictlyFifo(cap: nat, es: seq<Event>, t: State)
    requires OrderlyRun(cap, INIT, es, t) && forall i :: 0 <= i < |es| ==> es[i] != Crash
    ensures Chronological(t.replayed)
  {
    hide OrderlyRun;
    InitIsGood(Is([]));
    OrderlyRunKeepsFifo(cap, INIT, es, t);
    RestartsAreCrashes(cap, INIT, es, t);
    NoCrashes(es);
  }

  /** The file replay takes is the oldest on disk, even when its listing is stale. */
  lemma ReplayTakesOldest(cap: nat, es: seq<Event>, t: State, m: Name)
    requires OrderlyRun(cap, INIT, es, t) && t.work.Replaying?
    requires m in t.files && !m.tmp && m != t.work.name
    ensures Older(t.work.name, m)
  {
    hide OrderlyRun;
    InitIsGood(Is([]));
    OrderlyRunKeepsFifo(cap, INIT, es, t);
    OrderlyRunKeepsInv(cap, INIT, es, t);
    assert PassCovers(t.passes[t.work.loop], t.files);
  }

  lemma {:induction false} OrderlyRunKeepsInv(cap: nat, s: State, es: seq<Event>, t: State)
    requires Inv(s) && OrderlyRun(cap, s, es, t)
    ensures Inv(t)
    decreases |es|
  {
    hide Step, Enabled, Orderly, Inv;
    if es != [] {
      StepKeepsInv(cap, s, es[0]);
      OrderlyRunKeepsInv(cap, Step(cap, s, es[0]), es[1..], t);
    }
  }
}
