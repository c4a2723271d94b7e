/**
 `SpooledPublisher` of internal/transport/spool.go as code: `Publish` with its spool fallback, and one
 `replayOnce` pass. Each call is shown to be a run of the spool protocol, whose theorems therefore hold
 of it. What the broker and the operating system decide is passed in.
 */
module SpooledPublishing {
  import opened Collections
  import opened Names
  import opened SpoolStore
  import opened P = SpoolProtocol

  // ---------- runs ----------

  lemma {:induction false} RunSnoc(cap: nat, s: State, es: seq<Event>, t: State, e: Event)
    requires Run(cap, s, es, t) && Enabled(cap, t, e)
    ensures Run(cap, s, es + [e], Step(cap, t, e))
    decreases |es|
  {
    hide Step, Enabled;
    if es == [] {
      assert ([e] + [])[1..] == [] && es + [e] == [e] + [];
    } else {
      RunSnoc(cap, Step(cap, s, es[0]), es[1..], t, e);
      assert (es + [e])[1..] == es[1..] + [e];
    }
  }

  lemma {:induction false} RunConcat(cap: nat, s: State, es: seq<Event>, t: State, fs: seq<Event>, u: State)
    requires Run(cap, s, es, t) && Run(cap, t, fs, u)
    ensures Run(cap, s, es + fs, u)
    decreases |es|
  {
    hide Step, Enabled;
    if es == [] {
      assert es + fs == fs;
    } else {
      RunConcat(cap, Step(cap, s, es[0]), es[1..], t, fs, u);
      assert (es + fs)[1..] == es[1..] + fs;
    }
  }

  // ---------- an append is a run ----------

  /** Only the spool and the progress of the lock's holder differ. */
  ghost predicate SpoolOnly(s: State, t: State) {
    t == s.(files := t.files, counter := t.counter, drops := t.drops, work := t.work, high := t.high,
            evicted := t.evicted)
  }

  /** Eviction is about to begin, or has just begun. */
  ghost predicate EvictionBegun(s: State, p: Bytes, names: seq<Name>) {
    s.work == Evicting(p, names, Total(s.files)) && names == Sorted(s.files.Keys)
  }

  /** What the eviction loop has done after `k` files. */
  ghost predicate EvictionAt(s: State, p: Bytes, names: seq<Name>, cap: nat, stuck: set<Name>, k: nat, t: State) {
    && EvictedSoFar(s.files, names, cap, stuck, k, t.files)
    && t.work == Evicting(p, names[k..], Total(t.files))
    && t.drops == s.drops + (|s.files| - |t.files|)
    && t.counter == s.counter && SpoolOnly(s, t)
  }

  lemma EvictOneMore(cap: nat, s: State, p: Bytes, names: seq<Name>, stuck: set<Name>, k: nat, t: State)
    requires EvictionBegun(s, p, names) && k < |names| && EvictionAt(s, p, names, cap, stuck, k, t)
    requires Total(t.files) > cap
    ensures var e := EvictNext(names[k] !in stuck);
      Enabled(cap, t, e) && EvictionAt(s, p, names, cap, stuck, k + 1, Step(cap, t, e))
  {
    hide Sorted, EvictedSoFar, Total, Ascending;
    SortedElements(s.files.Keys);
    EvictionTurn(s.files, names, cap, stuck, k, t.files);
    RemoveOne(t.files, names[k]);
  }

  /** Every prefix of an eviction is a run. */
  lemma {:induction false} EvictionPrefixIsRun(cap: nat, s: State, p: Bytes, names: seq<Name>, stuck: set<Name>, k: nat)
    returns (es: seq<Event>, t: State)
    requires EvictionBegun(s, p, names) && k <= |names| && OverCapBefore(s.files, names, cap, stuck, k)
    ensures Run(cap, s, es, t) && EvictionAt(s, p, names, cap, stuck, k, t)
  {
    hide Step, Enabled, Sorted, Total, WithoutFirst;
    if k == 0 {
      EvictionStart(s.files, names, cap, stuck);
      es, t := [], s;
    } else {
      hide Run;
      es, t := EvictionPrefixIsRun(cap, s, p, names, stuck, k - 1);
      EvictOneMore(cap, s, p, names, stuck, k - 1, t);
      var e := EvictNext(names[k - 1] !in stuck);
      RunSnoc(cap, s, es, t, e);
      es, t := es + [e], Step(cap, t, e);
    }
  }

  lemma EvictionBegins(cap: nat, s: State) returns (t: State)
    requires s.work.Placed?
    ensures Enabled(cap, s, EvictRead(true)) && t == Step(cap, s, EvictRead(true))
    ensures EvictionBegun(t, s.work.p, Sorted(s.files.Keys)) && t == s.(work := t.work)
  {
    hide Sorted, Total;
    t := Step(cap, s, EvictRead(true));
  }

  lemma EvictionEnds(cap: nat, s: State)
    requires s.work.Evicting? && (s.work.total <= cap || s.work.todo == [])
    ensures Enabled(cap, s, EvictStop) && Step(cap, s, EvictStop) == s.(work := Accepting(s.work.p))
  {
  }

  /** From the rename to the end of evict. */
  lemma EvictionIsRun(cap: nat, s: State, stuck: set<Name>, k: nat) returns (es: seq<Event>, t: State)
    requires s.work.Placed? && EvictionPoint(s.files, cap, stuck, k)
    ensures Run(cap, s, es, t) && SpoolOnly(s, t) && t.work == Accepting(s.work.p) && t.counter == s.counter
    ensures t.files == WithoutOldest(s.files, k, stuck) && t.drops == s.drops + (|s.files| - |t.files|)
  {
    hide Run, Sorted, Total, Step, Enabled, OverCapBefore;
    var begun := EvictionBegins(cap, s);
    var mid;
    es, mid := EvictionPrefixIsRun(cap, begun, s.work.p, Sorted(s.files.Keys), stuck, k);
    EvictionEnds(cap, mid);
    RunCons(cap, s, EvictRead(true), es, mid);
    RunSnoc(cap, s, [EvictRead(true)] + es, mid, EvictStop);
    es, t := [EvictRead(true)] + es + [EvictStop], Step(cap, mid, EvictStop);
  }

  lemma RunCons(cap: nat, s: State, e: Event, es: seq<Event>, t: State)
    requires Enabled(cap, s, e) && Run(cap, Step(cap, s, e), es, t)
    ensures Run(cap, s, [e] + es, t)
  {
    assert ([e] + es)[1..] == es;
  }

  /** From the upstream failure to the point where the temporary file holds `n` bytes. */
  lemma WriteIsRun(cap: nat, s: State, now: nat, n: nat) returns (es: seq<Event>, t: State)
    requires s.work.Spooling? && s.floor <= now && n <= |s.work.p|
    ensures Run(cap, s, es, t) && SpoolOnly(s, t) && t.counter == s.counter + 1 && t.drops == s.drops
    ensures var tmp := Name(now, s.counter + 1, true);
      t.work == Writing(s.work.p, tmp) && t.files == s.files[tmp := s.work.p[..n]]
  {
    var mid := Step(cap, s, OpenTmp(now));
    t := Step(cap, mid, WriteTmp(n));
    es := [OpenTmp(now), WriteTmp(n)];
    hide Step;
    assert Run(cap, mid, [WriteTmp(n)], t) by { assert [WriteTmp(n)][1..] == []; }
    assert es[1..] == [WriteTmp(n)];
  }

  /** `t` is where an append that turned the directory into `after` leaves the protocol. */
  ghost predicate AppendEnds(s: State, t: State, ok: bool, after: Directory, evicted: int) {
    && SpoolOnly(s, t) && t.files == after && t.counter == s.counter + 1 && t.drops == s.drops + evicted
    && s.work.Spooling? && t.work == if ok then Accepting(s.work.p) else Refusing(s.work.p)
  }

  lemma FailedAppendIsRun(cap: nat, s: State, now: nat, written: nat, cleaned: bool)
    returns (es: seq<Event>, t: State)
    requires s.work.Spooling? && s.floor <= now
    ensures Run(cap, s, es, t)
    ensures AppendEnds(s, t, false, AfterFault(s.files, Name(now, s.counter + 1, false), s.work.p, written, cleaned), 0)
  {
    hide Run;
    var p := s.work.p;
    var n := if written < |p| then written else |p|;
    assert p[..n] == Cut(p, written);
    var mid;
    es, mid := WriteIsRun(cap, s, now, n);
    RunSnoc(cap, s, es, mid, AppendFails(cleaned));
    es, t := es + [AppendFails(cleaned)], Step(cap, mid, AppendFails(cleaned));
  }

  /** From the upstream failure to the rename. */
  lemma RenameIsRun(cap: nat, s: State, now: nat) returns (es: seq<Event>, t: State)
    requires s.work.Spooling? && s.floor <= now
    ensures Run(cap, s, es, t) && SpoolOnly(s, t) && t.work == Placed(s.work.p)
    ensures t.counter == s.counter + 1 && t.drops == s.drops
    ensures t.files == WithBatch(s.files, Name(now, s.counter + 1, false), s.work.p)
  {
    hide Run;
    var p := s.work.p;
    assert p[..|p|] == p;
    var mid;
    es, mid := WriteIsRun(cap, s, now, |p|);
    RunSnoc(cap, s, es, mid, Rename);
    es, t := es + [Rename], Step(cap, mid, Rename);
  }

  lemma RefusedAppendIsRun(cap: nat, s: State) returns (es: seq<Event>, t: State)
    requires s.work.Spooling?
    ensures Run(cap, s, es, t) && AppendEnds(s, t, false, s.files, 0)
  {
    es, t := [AppendFails(false)], Step(cap, s, AppendFails(false));
    assert es[1..] == [];
  }

  lemma UnreadableAppendIsRun(cap: nat, s: State, now: nat) returns (es: seq<Event>, t: State)
    requires s.work.Spooling? && s.floor <= now
    ensures Run(cap, s, es, t)
    ensures AppendEnds(s, t, true, WithBatch(s.files, Name(now, s.counter + 1, false), s.work.p), 0)
  {
    hide Run;
    var mid;
    es, mid := RenameIsRun(cap, s, now);
    RunSnoc(cap, s, es, mid, EvictRead(false));
    es, t := es + [EvictRead(false)], Step(cap, mid, EvictRead(false));
  }

  lemma EvictingAppendIsRun(cap: nat, s: State, now: nat, stuck: set<Name>, k: nat) returns (es: seq<Event>, t: State)
    requires s.work.Spooling? && s.floor <= now
    requires EvictionPoint(WithBatch(s.files, Name(now, s.counter + 1, false), s.work.p), cap, stuck, k)
    ensures Run(cap, s, es, t)
    ensures var placed := WithBatch(s.files, Name(now, s.counter + 1, false), s.work.p);
      var after := WithoutOldest(placed, k, stuck);
      AppendEnds(s, t, true, after, |placed| - |after|)
  {
    hide Run, Step, Enabled, OverCapBefore, Sorted, Total, WithoutOldest, WithBatch;
    var mid, rest;
    es, mid := RenameIsRun(cap, s, now);
    rest, t := EvictionIsRun(cap, mid, stuck, k);
    RunConcat(cap, s, es, mid, rest, t);
    es := es + rest;
  }

  /** Whatever `Append` does to the directory is a run of the protocol's steps. */
  lemma AppendIsRun(cap: nat, s: State, now: nat, fault: AppendFault, unreadable: bool, stuck: set<Name>,
                    after: Directory, evicted: int) returns (es: seq<Event>, t: State)
    requires s.work.Spooling? && s.floor <= now
    requires Appended(s.files, after, evicted, cap, s.work.p, Name(now, s.counter + 1, false), fault, unreadable, stuck)
    ensures Run(cap, s, es, t) && AppendEnds(s, t, fault == NoFault, after, evicted)
  {
    hide Run, AfterFault, AppendEnds, WithBatch, OverCapBefore, Sorted, Total, WithoutOldest;
    var final := Name(now, s.counter + 1, false);
    match fault {
      case OpenFails =>
        es, t := RefusedAppendIsRun(cap, s);
      case LaterFails(written, cleaned) =>
        es, t := FailedAppendIsRun(cap, s, now, written, cleaned);
      case NoFault =>
        var placed := WithBatch(s.files, final, s.work.p);
        if unreadable {
          es, t := UnreadableAppendIsRun(cap, s, now);
        } else {
          var k :| EvictionPoint(placed, cap, stuck, k) && after == WithoutOldest(placed, k, stuck)
                   && evicted == |placed| - |after|;
          es, t := EvictingAppendIsRun(cap, s, now, stuck, k);
        }
    }
  }

  // ---------- the publisher ----------

  /** How one replayed file fares: whether it can be read, the broker's answer, whether it can be deleted. */
  datatype Reply = Reply(readable: bool, acked: bool, arrived: bool, removed: bool)

  predicate Plausible(r: Reply) {
    r.acked ==> r.arrived
  }

  /** What one pass does: files acknowledged, payloads the broker got, and the directory left. */
  datatype Outcome = Outcome(count: nat, sent: seq<Bytes>, left: Directory)

  /** A pass over listed names. It ends at the first file that cannot be read or is not acknowledged. */
  function Pass(names: seq<Name>, files: Directory, replies: seq<Reply>): Outcome
    decreases |names|
  {
    if names == [] || replies == [] || !replies[0].readable || names[0] !in files then Outcome(0, [], files)
    else if !replies[0].acked then Outcome(0, if replies[0].arrived then [files[names[0]]] else [], files)
    else
      var rest := Pass(names[1..], if replies[0].removed then files - {names[0]} else files, replies[1..]);
      Outcome(1 + rest.count, [files[names[0]]] + rest.sent, rest.left)
  }

  /** The contents of some files, in order. */
  function Bodies(names: seq<Name>, files: Directory): seq<Bytes>
    requires forall n :: n in names ==> n in files
  {
    seq(|names|, i requires 0 <= i < |names| => files[names[i]])
  }

  predicate AllPresent(names: seq<Name>, files: Directory) {
    forall n :: n in names ==> n in files
  }

  lemma TailPresent(names: seq<Name>, files: Directory)
    requires names != [] && Ascending(names) && AllPresent(names, files)
    ensures Ascending(names[1..]) && AllPresent(names[1..], files) && AllPresent(names[1..], files - {names[0]})
    ensures names[0] in files && names[0] !in names[1..]
  {
    hide Before;
    HeadOnce(names);
  }

  /** The directory a pass goes on with after an acknowledged file. */
  function AfterFirst(names: seq<Name>, files: Directory, reply: Reply): Directory
    requires names != []
  {
    if reply.removed then files - {names[0]} else files
  }

  /** One file of a pass. */
  lemma PassUnfolds(names: seq<Name>, files: Directory, replies: seq<Reply>)
    requires names != [] && replies != []
    ensures var reply, out := replies[0], Pass(names, files, replies);
      if names[0] in files && reply.readable && reply.acked then
        var rest := Pass(names[1..], AfterFirst(names, files, reply), replies[1..]);
        out.count == 1 + rest.count && out.sent == [files[names[0]]] + rest.sent && out.left == rest.left
      else
        && out.count == 0 && out.left == files
        && out.sent == if names[0] in files && reply.readable && reply.arrived && !reply.acked
                       then [files[names[0]]] else []
  {
  }

  lemma PassEnds(names: seq<Name>, files: Directory, replies: seq<Reply>)
    requires names == [] || replies == []
    ensures Pass(names, files, replies) == Outcome(0, [], files)
  {
  }

  lemma BodiesCons(names: seq<Name>, files: Directory, files': Directory, k: nat)
    requires names != [] && k <= |names| - 1 && AllPresent(names, files) && AllPresent(names[1..], files')
    requires forall n :: n in names[1..] ==> files'[n] == files[n]
    ensures Bodies(names[..k + 1], files) == [files[names[0]]] + Bodies(names[1..][..k], files')
  {
    var left, right := Bodies(names[..k + 1], files), [files[names[0]]] + Bodies(names[1..][..k], files');
    forall i | 0 <= i < k + 1 ensures left[i] == right[i] {
      if i > 0 {
        assert names[1..][i - 1] == names[i] && names[i] in names[1..];
      }
    }
  }

  /** A pass sends the oldest files first and whole, and at most one more than were acknowledged. */
  lemma {:induction false} PassSendsOldestFirst(names: seq<Name>, files: Directory, replies: seq<Reply>)
    requires Ascending(names) && AllPresent(names, files)
    ensures var out := Pass(names, files, replies);
      && out.count <= |out.sent| <= out.count + 1 && |out.sent| <= |names|
      && out.sent == Bodies(names[..|out.sent|], files)
    decreases |names|
  {
    if names != [] && replies != [] {
      TailPresent(names, files);
      PassUnfolds(names, files, replies);
      hide Ascending, Pass;
      if replies[0].readable && replies[0].acked {
        var files' := AfterFirst(names, files, replies[0]);
        hide Bodies;
        PassSendsOldestFirst(names[1..], files', replies[1..]);
        BodiesCons(names, files, files', |Pass(names[1..], files', replies[1..]).sent|);
      }
    }
  }

  /** A pass deletes only files that were acknowledged, and changes no other. */
  lemma {:induction false} PassDeletesAcknowledged(names: seq<Name>, files: Directory, replies: seq<Reply>)
    ensures var out := Pass(names, files, replies);
      && out.count <= |names|
      && (forall n :: n in out.left ==> n in files && out.left[n] == files[n])
      && (forall n :: n in files && n !in names[..out.count] ==> n in out.left)
    decreases |names|
  {
    if names != [] && replies != [] {
      PassUnfolds(names, files, replies);
      hide Pass;
      if names[0] in files && replies[0].readable && replies[0].acked {
        var files' := AfterFirst(names, files, replies[0]);
        PassDeletesAcknowledged(names[1..], files', replies[1..]);
        var rest := Pass(names[1..], files', replies[1..]);
        assert names[..1 + rest.count] == [names[0]] + names[1..][..rest.count];
      }
    }
  }

  /** The broker is up and the disk works. */
  predicate AllHealthy(rs: seq<Reply>) {
    forall i :: 0 <= i < |rs| ==> rs[i].readable && rs[i].acked && rs[i].removed
  }

  lemma {:induction false} HealthyPassRemoves(names: seq<Name>, files: Directory, replies: seq<Reply>)
    requires Ascending(names) && AllPresent(names, files) && AllHealthy(replies) && |names| <= |replies|
    ensures Pass(names, files, replies).count == |names|
    ensures Pass(names, files, replies).left == files - Elements(names)
    decreases |names|
  {
    if names == [] {
      assert files - Elements(names) == files;
    } else {
      TailPresent(names, files);
      hide Ascending;
      HealthyPassRemoves(names[1..], files - {names[0]}, replies[1..]);
      assert names == [names[0]] + names[1..];
      assert Elements(names) == {names[0]} + Elements(names[1..]);
      assert files - Elements(names) == files - {names[0]} - Elements(names[1..]);
    }
  }

  /** With a healthy broker and disk, one pass empties the spool and delivers all of it in order. */
  lemma HealthyPassDrains(files: Directory, replies: seq<Reply>)
    requires AllHealthy(replies) && |Listing(files)| <= |replies|
    ensures var out := Pass(Listing(files), files, replies);
      out.sent == Bodies(Listing(files), files) && forall n :: n in out.left <==> n in files && n.tmp
  {
    hide Pass, Listing, AllHealthy, Ascending, Bodies;
    var names := Listing(files);
    HealthyPassRemoves(names, files, replies);
    PassSendsOldestFirst(names, files, replies);
    assert names[..|names|] == names;
  }

  class SpooledPublisher {
    const spool: Spool
    var delivered: seq<Bytes>
    ghost var sys: State
    ghost var trace: seq<Event>

    /** The spool is that of the protocol state, which a run has reached. */
    ghost predicate Tied()
      reads this, spool
    {
      && sys.files == spool.files && sys.counter == spool.counter && sys.drops == spool.drops
      && sys.delivered == delivered && sys.floor == 0 && Run(spool.maxBytes, INIT, trace, sys)
    }

    /** No call is in progress. */
    ghost predicate Idle()
      reads this, spool
    {
      Tied() && sys.work.Unlocked? && sys.passes == map[]
    }

    constructor (spool: Spool)
      requires spool.files == map[] && spool.counter == 0 && spool.drops == 0
      ensures this.spool == spool && Idle() && delivered == []
    {
      this.spool := spool;
      delivered, sys, trace := [], INIT, [];
    }

    ghost method Advance(e: Event)
      requires Run(spool.maxBytes, INIT, trace, sys) && Enabled(spool.maxBytes, sys, e)
      modifies this`sys, this`trace
      ensures sys == Step(spool.maxBytes, old(sys), e) && Run(spool.maxBytes, INIT, trace, sys)
    {
      RunSnoc(spool.maxBytes, INIT, trace, sys, e);
      trace := trace + [e];
      sys := Step(spool.maxBytes, sys, e);
    }

    /** `Spool.Append`, under liveBusy. */
    method AppendLive(p: Bytes, now: nat, fault: AppendFault, unreadable: bool, stuck: set<Name>) returns (ok: bool)
      requires Tied() && sys.work == Spooling(p)
      modifies this`sys, this`trace, spool
      ensures Tied() && SpoolOnly(old(sys), sys) && sys.work == if ok then Accepting(p) else Refusing(p)
      ensures ok <==> fault == NoFault
      ensures spool.counter == old(spool.counter) + 1
      ensures Appended(old(spool.files), spool.files, spool.drops - old(spool.drops), spool.maxBytes, p,
                       Name(now, spool.counter, false), fault, unreadable, stuck)
    {
      hide Run, Appended;
      ok := spool.Append(p, now, fault, unreadable, stuck);
      ghost var es, t :=
        AppendIsRun(spool.maxBytes, sys, now, fault, unreadable, stuck, spool.files, spool.drops - old(spool.drops));
      RunConcat(spool.maxBytes, INIT, trace, sys, es, t);
      trace, sys := trace + es, t;
    }

    /** Upstream first, the spool if that fails; an error only if both do. */
    method Publish(p: Bytes, acked: bool, arrived: bool, now: nat, fault: AppendFault, unreadable: bool,
                   stuck: set<Name>) returns (ok: bool)
      requires Idle() && (acked ==> arrived)
      modifies this, spool
      ensures Idle()
      ensures ok <==> acked || fault == NoFault
      ensures sys.accepted == old(sys.accepted) + if ok then [p] else []
      ensures delivered == old(delivered) + if arrived then [p] else []
      ensures acked ==>
                spool.files == old(spool.files) && spool.counter == old(spool.counter) && spool.drops == old(spool.drops)
      ensures acked ==> sys.evicted == old(sys.evicted)
      ensures !acked ==>
                && spool.counter == old(spool.counter) + 1
                && Appended(old(spool.files), spool.files, spool.drops - old(spool.drops), spool.maxBytes, p,
                            Name(now, spool.counter, false), fault, unreadable, stuck)
      ensures sys.surplus == old(sys.surplus) + if arrived && !acked then [p] else []
      ensures sys.offered == old(sys.offered) + [p] && sys.replayed == old(sys.replayed)
      ensures forall q :: q in sys.accepted ==> q in delivered || q in sys.evicted || Spooled(q)
    {
      hide Run, Appended;
      Advance(BeginPublish(p));
      Advance(Upstream(acked, arrived));
      if arrived { delivered := delivered + [p]; }
      if acked {
        ok := true;
      } else {
        ok := AppendLive(p, now, fault, unreadable, stuck);
      }
      if ok {
        Advance(ReturnNil);
      } else {
        Advance(ReturnError);
      }
      NothingLost();
    }

    /** Some final file holds `q`. */
    ghost predicate Spooled(q: Bytes)
      reads this, spool
    {
      exists n :: n in spool.files && !n.tmp && spool.files[n] == q
    }

    /** At any point, every accepted payload is delivered, evicted or spooled. */
    lemma NothingLost()
      requires Tied()
      ensures forall q :: q in sys.accepted ==> q in delivered || q in sys.evicted || Spooled(q)
    {
      hide Run;
      forall q | q in sys.accepted ensures q in delivered || q in sys.evicted || Spooled(q) {
        AtLeastOnce(spool.maxBytes, trace, sys, q);
      }
    }

    /** One file of a pass: read, publish, delete, all under liveBusy. */
    method ReplayFile(names: seq<Name>, reply: Reply) returns (again: bool)
      requires Tied() && sys.work.Unlocked? && sys.passes == map[0 := names] && Plausible(reply) && names != []
      modifies this, spool
      ensures Tied() && sys.work.Unlocked? && sys.accepted == old(sys.accepted)
      ensures again <==> names[0] in old(spool.files) && reply.readable && reply.acked
      ensures sys.passes == if again then map[0 := names[1..]] else map[]
      ensures spool.files == if again && reply.removed then old(spool.files) - {names[0]} else old(spool.files)
      ensures delivered == old(delivered) +
                if names[0] in old(spool.files) && reply.readable && reply.arrived
                then [old(spool.files)[names[0]]] else []
      ensures sys.replayed == old(sys.replayed) + if again then [names[0]] else []
      ensures sys.surplus == old(sys.surplus) +
                if names[0] in old(spool.files) && reply.readable && (if reply.acked then !reply.removed else reply.arrived)
                then [old(spool.files)[names[0]]] else []
      ensures sys.evicted == old(sys.evicted) && sys.offered == old(sys.offered)
      ensures spool.counter == old(spool.counter) && spool.drops == old(spool.drops)
    {
      hide Run;
      var body := spool.Read(names[0], reply.readable);
      Advance(TakeFile(0, body.Some?));
      if body.None? {
        return false;
      }
      Advance(Upstream(reply.acked, reply.arrived));
      if reply.arrived { delivered := delivered + [body.value]; }
      if reply.acked {
        var removed := spool.Delete(names[0], reply.removed);
        Advance(Delete(removed));
      }
      again := reply.acked;
    }

    /** The files of a pass, one after the other, until one fails or the context is done. */
    method ReplayListed(listed: seq<Name>, replies: seq<Reply>) returns (replayed: nat)
      requires Tied() && sys.work.Unlocked? && sys.passes == map[0 := listed]
      requires forall i :: 0 <= i < |replies| ==> Plausible(replies[i])
      modifies this, spool
      ensures Idle() && sys.accepted == old(sys.accepted)
      ensures var out := Pass(listed, old(spool.files), replies);
        replayed == out.count && delivered == old(delivered) + out.sent && spool.files == out.left
      ensures replayed <= |listed| && sys.replayed == old(sys.replayed) + listed[..replayed]
      ensures spool.counter == old(spool.counter) && spool.drops == old(spool.drops) && sys.evicted == old(sys.evicted)
    {
      hide Run, Step, Pass;
      var names, left := listed, replies;
      replayed := 0;
      while names != [] && left != []
        invariant Tied() && sys.work.Unlocked? && sys.passes == map[0 := names] && sys.accepted == old(sys.accepted)
        invariant forall i :: 0 <= i < |left| ==> Plausible(left[i])
        invariant replayed <= |listed| && names == listed[replayed..]
        invariant sys.replayed == old(sys.replayed) + listed[..replayed]
        invariant spool.counter == old(spool.counter) && spool.drops == old(spool.drops) && sys.evicted == old(sys.evicted)
        invariant var out, rest := Pass(listed, old(spool.files), replies), Pass(names, spool.files, left);
          && out.count == replayed + rest.count && out.left == rest.left
          && old(delivered) + out.sent == delivered + rest.sent
        decreases |names|
      {
        PassUnfolds(names, spool.files, left);
        var again := ReplayFile(names, left[0]);
        if !again {
          return;
        }
        assert listed[..replayed + 1] == listed[..replayed] + [names[0]];
        names, left, replayed := names[1..], left[1..], replayed + 1;
      }
      PassEnds(names, spool.files, left);
      EndPassStep(spool.maxBytes, sys);
      Advance(EndPass(0));
    }

    /** One pass over the spool, oldest file first. */
    method ReplayOnce(replies: seq<Reply>) returns (replayed: nat)
      requires Idle() && forall i :: 0 <= i < |replies| ==> Plausible(replies[i])
      modifies this, spool
      ensures Idle() && sys.accepted == old(sys.accepted)
      ensures var out := Pass(Listing(old(spool.files)), old(spool.files), replies);
        replayed == out.count && delivered == old(delivered) + out.sent && spool.files == out.left
      ensures replayed <= |Listing(old(spool.files))|
      ensures sys.replayed == old(sys.replayed) + Listing(old(spool.files))[..replayed]
      ensures spool.counter == old(spool.counter) && spool.drops == old(spool.drops) && sys.evicted == old(sys.evicted)
      ensures forall q :: q in sys.accepted ==> q in delivered || q in sys.evicted || Spooled(q)
    {
      var names := spool.List();
      hide Run, Step, Listing, Pass;
      StartPassStep(spool.maxBytes, sys, names);
      Advance(StartPass(0, names));
      replayed := ReplayListed(names, replies);
      NothingLost();
    }
  }

  lemma StartPassStep(cap: nat, s: State, names: seq<Name>)
    requires s.passes == map[] && forall n :: n in names ==> !n.tmp
    ensures Enabled(cap, s, StartPass(0, names)) && Step(cap, s, StartPass(0, names)) == s.(passes := map[0 := names])
  {
  }

  lemma EndPassStep(cap: nat, s: State)
    requires s.passes.Keys == {0} && s.work.Unlocked?
    ensures Enabled(cap, s, EndPass(0)) && Step(cap, s, EndPass(0)) == s.(passes := map[])
  {
  }
}
