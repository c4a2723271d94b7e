/**
 Successive runs of the tailer on one file that only grows, each of which may crash at any point,
 including in the middle of saving its offset, and each of which may fail to load the saved offset.
 */
module TailerRestarts {
  import opened Collections
  import opened Offsets

  datatype Range = Range(from: nat, to: nat)

  /** A run in progress has read from `from` up to `to`. */
  datatype State = State(
    size: nat,                  // the file
    saved: Offset,              // the offset record, NO_OFFSET if none
    tmp: Option<Offset>,        // the temporary record being written
    current: Option<Range>,
    past: seq<Range>,           // what earlier runs consumed
    furthest: nat               // the furthest offset any run has been at
  )

  const INIT: State := State(0, NO_OFFSET, None, None, [], 0)

  datatype Event =
    | Grow(n: nat)
    | Open(loads: bool)         // openInitial; whether Load succeeds
    | Consume(n: nat)           // readLine advances the offset
    | BeginSave                 // Save: the temporary file is complete
    | FailSave
    | FinishSave                // Save: rename
    | Crash                     // or orderly exit

  datatype Config = Config(inode: nat, fromBeginning: bool)

  predicate Enabled(s: State, e: Event) {
    match e
    case Grow(_) => true
    case Open(_) => s.current.None?
    case Consume(n) => s.current.Some? && s.current.value.to + n <= s.size
    case BeginSave => s.current.Some?
    case FailSave => s.tmp.Some?
    case FinishSave => s.tmp.Some?
    case Crash => s.current.Some?
  }

  /** Where a run that starts now begins to read. */
  function Start(c: Config, s: State, loads: bool): nat {
    StartOffset(c.fromBeginning, if loads then Some(s.saved) else None, c.inode, s.size)
  }

  function Max(a: nat, b: nat): nat {
    if a < b then b else a
  }

  function Step(c: Config, s: State, e: Event): State
    requires Enabled(s, e)
  {
    match e
    case Grow(n) => s.(size := s.size + n)
    case Open(loads) =>
      var start := Start(c, s, loads);
      s.(current := Some(Range(start, start)), tmp := None, furthest := Max(s.furthest, start))
    case Consume(n) =>
      var to := s.current.value.to + n;
      s.(current := Some(Range(s.current.value.from, to)), furthest := Max(s.furthest, to))
    case BeginSave => s.(tmp := Some(Offset(s.current.value.to, c.inode)))
    case FailSave => s.(tmp := None)
    case FinishSave => s.(saved := s.tmp.value, tmp := None)
    case Crash => s.(past := s.past + [s.current.value], current := None, tmp := None)
  }

  ghost predicate Run(c: Config, s: State, es: seq<Event>, t: State)
    decreases |es|
  {
    if es == [] then s == t
    else Enabled(s, es[0]) && Run(c, Step(c, s, es[0]), es[1..], t)
  }

  predicate Within(r: Range, x: nat) {
    r.from <= x < r.to
  }

  /** Some run consumed byte `x`. */
  ghost predicate Consumed(s: State, x: nat) {
    (exists r :: r in s.past && Within(r, x)) || (s.current.Some? && Within(s.current.value, x))
  }

  ghost predicate Inv(c: Config, s: State) {
    && s.furthest <= s.size
    && (s.saved != NO_OFFSET ==> s.saved.inode == c.inode && s.saved.offset <= s.furthest)
    && (s.current.Some? ==> s.current.value.from <= s.current.value.to <= s.furthest)
    && (s.tmp.Some? ==> s.current.Some? && s.tmp.value.inode == c.inode
                        && s.current.value.from <= s.tmp.value.offset <= s.current.value.to)
    && (forall r :: r in s.past ==> r.to <= s.furthest)
  }

  lemma StepKeepsInv(c: Config, s: State, e: Event)
    requires c.inode != 0 && Inv(c, s) && Enabled(s, e)
    ensures Inv(c, Step(c, s, e))
  {
  }

  lemma {:induction false} RunKeepsInv(c: Config, s: State, es: seq<Event>, t: State)
    requires c.inode != 0 && Inv(c, s) && Run(c, s, es, t)
    ensures Inv(c, t)
    decreases |es|
  {
    hide Step, Enabled, Inv;
    if es != [] {
      StepKeepsInv(c, s, es[0]);
      RunKeepsInv(c, Step(c, s, es[0]), es[1..], t);
    }
  }

  lemma StaysConsumed(c: Config, s: State, e: Event, x: nat)
    requires Enabled(s, e) && Consumed(s, x)
    ensures Consumed(Step(c, s, e), x)
  {
    var t := Step(c, s, e);
    if r :| r in s.past && Within(r, x) {
      assert r in t.past;
    } else if e == Crash {
      assert s.current.value in t.past;
    }
  }

  // ---------- gaps ----------

  /** The step is a start that passes over bytes no run has been at. */
  predicate Skips(c: Config, s: State, e: Event) {
    e.Open? && !c.fromBeginning && (!e.loads || s.saved == NO_OFFSET) && s.furthest < s.size
  }

  /** A start is ahead of everything consumed exactly if there is no usable record and the file has grown. */
  lemma StartSkipsIff(c: Config, s: State, loads: bool)
    requires c.inode != 0 && Inv(c, s) && s.current.None?
    ensures Start(c, s, loads) > s.furthest <==> Skips(c, s, Open(loads))
  {
  }

  /** Every byte from `b` up to the furthest offset has been consumed. */
  ghost predicate CoveredFrom(s: State, b: nat) {
    forall x :: b <= x < s.furthest ==> Consumed(s, x)
  }

  /** One step leaves a gap exactly if it is a start that skips. */
  lemma StepCoversIff(c: Config, s: State, e: Event, b: nat)
    requires c.inode != 0 && Inv(c, s) && Enabled(s, e) && b <= s.furthest && CoveredFrom(s, b)
    ensures CoveredFrom(Step(c, s, e), b) <==> !Skips(c, s, e)
  {
    var t := Step(c, s, e);
    if Skips(c, s, e) {
      assert !Consumed(t, s.furthest);
    } else {
      forall x | b <= x < t.furthest ensures Consumed(t, x) {
        if x < s.furthest {
          StaysConsumed(c, s, e, x);
        }
      }
    }
  }

  ghost predicate AlwaysCovered(c: Config, s: State, es: seq<Event>, b: nat)
    decreases |es|
  {
    CoveredFrom(s, b) && (es != [] && Enabled(s, es[0]) ==> AlwaysCovered(c, Step(c, s, es[0]), es[1..], b))
  }

  ghost predicate SkipsSomewhere(c: Config, s: State, es: seq<Event>)
    decreases |es|
  {
    es != [] && Enabled(s, es[0]) && (Skips(c, s, es[0]) || SkipsSomewhere(c, Step(c, s, es[0]), es[1..]))
  }

  /** Over a whole run there is never a gap, if and only if no start skips. */
  lemma {:induction false} NoGapIff(c: Config, s: State, es: seq<Event>, t: State, b: nat)
    requires c.inode != 0 && Inv(c, s) && Run(c, s, es, t) && b <= s.furthest && CoveredFrom(s, b)
    ensures AlwaysCovered(c, s, es, b) <==> !SkipsSomewhere(c, s, es)
    decreases |es|
  {
    hide Step, Enabled, Skips, Inv, CoveredFrom;
    if es != [] {
      var s' := Step(c, s, es[0]);
      StepKeepsInv(c, s, es[0]);
      StepCoversIff(c, s, es[0], b);
      FurthestGrows(c, s, es[0]);
      if Skips(c, s, es[0]) {
        assert !AlwaysCovered(c, s', es[1..], b);
      } else {
        NoGapIff(c, s', es[1..], t, b);
      }
    }
  }

  lemma FurthestGrows(c: Config, s: State, e: Event)
    requires Enabled(s, e)
    ensures s.furthest <= Step(c, s, e).furthest
  {
  }

  /** Where the last start that skipped began to read; `b` if none did. */
  ghost function Landing(c: Config, s: State, es: seq<Event>, b: nat): nat
    decreases |es|
  {
    if es == [] || !Enabled(s, es[0]) then b
    else Landing(c, Step(c, s, es[0]), es[1..], if Skips(c, s, es[0]) then s.size else b)
  }

  lemma {:induction false} CoveredSinceLanding(c: Config, s: State, es: seq<Event>, t: State, b: nat)
    requires c.inode != 0 && Inv(c, s) && Run(c, s, es, t) && b <= s.furthest && CoveredFrom(s, b)
    ensures Inv(c, t) && Landing(c, s, es, b) <= t.furthest && CoveredFrom(t, Landing(c, s, es, b))
    decreases |es|
  {
    if es != [] {
      var s' := Step(c, s, es[0]);
      StepKeepsInv(c, s, es[0]);
      StepCoversIff(c, s, es[0], b);
      FurthestGrows(c, s, es[0]);
      hide Enabled, Inv, CoveredFrom;
      var b' := if Skips(c, s, es[0]) then s.size else b;
      if Skips(c, s, es[0]) {
        SkipLands(c, s, es[0]);
      }
      hide Step;
      CoveredSinceLanding(c, s', es[1..], t, b');
    }
  }

  lemma SkipLands(c: Config, s: State, e: Event)
    requires Enabled(s, e) && Skips(c, s, e)
    ensures Step(c, s, e).furthest == s.size && CoveredFrom(Step(c, s, e), s.size)
  {
  }

  /**
   Restarts leave no gap: in every run, with crashes anywhere, every byte from where the last skipping
   start began up to the furthest offset has been consumed.
   */
  lemma RestartsLeaveNoGap(c: Config, es: seq<Event>, t: State)
    requires c.inode != 0 && Run(c, INIT, es, t)
    ensures CoveredFrom(t, Landing(c, INIT, es, 0))
    ensures t.saved.offset <= t.furthest <= t.size
  {
    CoveredSinceLanding(c, INIT, es, t, 0);
  }

  lemma {:induction false} LandingWithoutSkip(c: Config, s: State, es: seq<Event>, t: State, b: nat)
    requires Run(c, s, es, t) && !SkipsSomewhere(c, s, es)
    ensures Landing(c, s, es, b) == b
    decreases |es|
  {
    if es != [] {
      LandingWithoutSkip(c, Step(c, s, es[0]), es[1..], t, b);
    }
  }

  predicate Loads(e: Event) {
    e.Open? ==> e.loads
  }

  /** Once an offset is saved, no start skips as long as Load succeeds. */
  lemma {:induction false} SavedAndLoadedNeverSkips(c: Config, s: State, es: seq<Event>, t: State)
    requires c.inode != 0 && Inv(c, s) && Run(c, s, es, t)
    requires s.saved != NO_OFFSET && forall i :: 0 <= i < |es| ==> Loads(es[i])
    ensures !SkipsSomewhere(c, s, es)
    decreases |es|
  {
    if es != [] {
      assert Loads(es[0]);
      StepKeepsInv(c, s, es[0]);
      SavedAndLoadedNeverSkips(c, Step(c, s, es[0]), es[1..], t);
    }
  }

  lemma {:induction false} FromBeginningNeverSkips(c: Config, s: State, es: seq<Event>)
    requires c.fromBeginning
    ensures !SkipsSomewhere(c, s, es)
    decreases |es|
  {
    if es != [] && Enabled(s, es[0]) {
      FromBeginningNeverSkips(c, Step(c, s, es[0]), es[1..]);
    }
  }

  /** FromBeginning never leaves a gap: every byte up to the furthest offset has been consumed. */
  lemma FromBeginningLeavesNoGap(c: Config, es: seq<Event>, t: State)
    requires c.inode != 0 && c.fromBeginning && Run(c, INIT, es, t)
    ensures CoveredFrom(t, 0) && AlwaysCovered(c, INIT, es, 0)
  {
    FromBeginningNeverSkips(c, INIT, es);
    LandingWithoutSkip(c, INIT, es, t, 0);
    RestartsLeaveNoGap(c, es, t);
    NoGapIff(c, INIT, es, t, 0);
  }

  // ---------- what is lost for good ----------

  /** A run, now or after a restart, can still come to byte `x`. */
  predicate Ahead(c: Config, s: State, x: nat) {
    || c.fromBeginning
    || (s.saved != NO_OFFSET && s.saved.offset <= x)
    || (s.current.Some? && s.current.value.to <= x)
  }

  lemma StepStaysBehind(c: Config, s: State, e: Event, x: nat)
    requires c.inode != 0 && Inv(c, s) && Enabled(s, e) && x < s.size
    requires !Consumed(s, x) && !Ahead(c, s, x)
    ensures var t := Step(c, s, e); x < t.size && !Consumed(t, x) && !Ahead(c, t, x)
  {
  }

  lemma {:induction false} RunStaysBehind(c: Config, s: State, es: seq<Event>, t: State, x: nat)
    requires c.inode != 0 && Inv(c, s) && Run(c, s, es, t) && x < s.size
    requires !Consumed(s, x) && !Ahead(c, s, x)
    ensures !Consumed(t, x)
    decreases |es|
  {
    hide Step, Enabled, Inv, Consumed, Ahead;
    if es != [] {
      StepKeepsInv(c, s, es[0]);
      StepStaysBehind(c, s, es[0], x);
      RunStaysBehind(c, Step(c, s, es[0]), es[1..], t, x);
    }
  }

  /** The run in progress reads on up to `x`. */
  lemma ReadOn(c: Config, s: State, x: nat) returns (es: seq<Event>, t: State)
    requires s.current.Some? && s.current.value.from <= s.current.value.to <= x < s.size
    ensures Run(c, s, es, t) && Consumed(t, x)
  {
    var e := Consume(x + 1 - s.current.value.to);
    es, t := [e], Step(c, s, e);
    assert es[1..] == [];
  }

  lemma RunCons(c: Config, s: State, e: Event, es: seq<Event>, t: State)
    requires Enabled(s, e) && Run(c, Step(c, s, e), es, t)
    ensures Run(c, s, [e] + es, t)
  {
    assert ([e] + es)[1..] == es;
  }

  /** The next start reads up to `x`. */
  lemma RestartAndRead(c: Config, s: State, x: nat) returns (es: seq<Event>, t: State)
    requires c.inode != 0 && Inv(c, s) && x < s.size && s.current.None?
    requires c.fromBeginning || (s.saved != NO_OFFSET && s.saved.offset <= x)
    ensures Run(c, s, es, t) && Consumed(t, x)
  {
    es, t := ReadOn(c, Step(c, s, Open(true)), x);
    RunCons(c, s, Open(true), es, t);
    es := [Open(true)] + es;
  }

  /** Some continuation of the run consumes byte `x`. */
  ghost predicate Consumable(c: Config, s: State, x: nat) {
    exists es, t :: Run(c, s, es, t) && Consumed(t, x)
  }

  lemma AheadIsConsumable(c: Config, s: State, x: nat)
    requires c.inode != 0 && Inv(c, s) && x < s.size && Ahead(c, s, x)
    ensures Consumable(c, s, x)
  {
    hide Consumed, Run;
    if s.current.Some? && s.current.value.to <= x {
      var es, t := ReadOn(c, s, x);
    } else if s.current.Some? {
      var es, t := RestartAndRead(c, Step(c, s, Crash), x);
      RunCons(c, s, Crash, es, t);
    } else {
      var es, t := RestartAndRead(c, s, x);
    }
  }

  /** A byte can still be consumed, if and only if it has been, or the record or the current run is not past it. */
  lemma ConsumableIff(c: Config, s: State, x: nat)
    requires c.inode != 0 && Inv(c, s) && x < s.size
    ensures Consumable(c, s, x) <==> Consumed(s, x) || Ahead(c, s, x)
  {
    hide Consumed, Ahead, Inv;
    if Consumed(s, x) {
      assert Run(c, s, [], s);
    } else if Ahead(c, s, x) {
      AheadIsConsumable(c, s, x);
    } else {
      forall es, t | Run(c, s, es, t) ensures !Consumed(t, x) {
        RunStaysBehind(c, s, es, t, x);
      }
    }
  }

  // ---------- gaps do happen ----------

  /** Before the first save a crash loses what arrives until the next start, for good. */
  lemma GapBeforeFirstSave() returns (es: seq<Event>, t: State)
    ensures Run(Config(1, false), INIT, es, t) && t.current == Some(Range(1, 1)) && !Consumed(t, 0)
    ensures !Consumable(Config(1, false), t, 0)
  {
    hide Run;
    var c := Config(1, false);
    var s1 := Step(c, INIT, Open(true));
    var s2 := Step(c, s1, Crash);
    var s3 := Step(c, s2, Grow(1));
    t := Step(c, s3, Open(true));
    es := [];
    NoEvents(c, t);
    es := Prefix(c, s3, Open(true), es, t);
    es := Prefix(c, s2, Grow(1), es, t);
    es := Prefix(c, s1, Crash, es, t);
    es := Prefix(c, INIT, Open(true), es, t);
    RunKeepsInv(c, INIT, es, t);
    ConsumableIff(c, t, 0);
  }

  /** A run that reads and saves one byte and crashes. */
  lemma SavedByte() returns (t: State)
    ensures t == State(1, Offset(1, 1), None, None, [Range(0, 1)], 1)
    ensures exists es :: Run(Config(1, false), INIT, es, t)
  {
    hide Run;
    var c := Config(1, false);
    var s1 := Step(c, INIT, Open(true));
    var s2 := Step(c, s1, Grow(1));
    var s3 := Step(c, s2, Consume(1));
    var s4 := Step(c, s3, BeginSave);
    var s5 := Step(c, s4, FinishSave);
    t := Step(c, s5, Crash);
    NoEvents(c, t);
    var es := Prefix(c, s5, Crash, [], t);
    es := Prefix(c, s4, FinishSave, es, t);
    es := Prefix(c, s3, BeginSave, es, t);
    es := Prefix(c, s2, Consume(1), es, t);
    es := Prefix(c, s1, Grow(1), es, t);
    es := Prefix(c, INIT, Open(true), es, t);
  }

  /** A record that cannot be loaded makes a gap after a save as well; a later start may still close it. */
  lemma GapAfterSave() returns (es: seq<Event>, t: State)
    ensures Run(Config(1, false), INIT, es, t) && t.saved == Offset(1, 1)
    ensures t.current == Some(Range(2, 2)) && !Consumed(t, 1) && Consumable(Config(1, false), t, 1)
  {
    hide Run;
    var c := Config(1, false);
    var s := SavedByte();
    var before :| Run(c, INIT, before, s);
    var s' := Step(c, s, Grow(1));
    t := Step(c, s', Open(false));
    RunSnoc(c, INIT, before, s, Grow(1));
    RunSnoc(c, INIT, before + [Grow(1)], s', Open(false));
    es := before + [Grow(1)] + [Open(false)];
    RunKeepsInv(c, INIT, es, t);
    ConsumableIff(c, t, 1);
  }

  lemma NoEvents(c: Config, s: State)
    ensures Run(c, s, [], s)
  {
  }

  lemma Prefix(c: Config, s: State, e: Event, es: seq<Event>, t: State) returns (r: seq<Event>)
    requires Enabled(s, e) && Run(c, Step(c, s, e), es, t)
    ensures r == [e] + es && Run(c, s, r, t)
  {
    RunCons(c, s, e, es, t);
    r := [e] + es;
  }

  lemma {:induction false} RunSnoc(c: Config, s: State, es: seq<Event>, t: State, e: Event)
    requires Run(c, s, es, t) && Enabled(t, e)
    ensures Run(c, s, es + [e], Step(c, t, e))
    decreases |es|
  {
    hide Step, Enabled;
    if es == [] {
      assert ([e] + [])[1..] == [] && es + [e] == [e] + [];
    } else {
      RunSnoc(c, Step(c, s, es[0]), es[1..], t, e);
      assert (es + [e])[1..] == es[1..] + [e];
    }
  }
}
