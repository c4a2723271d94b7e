/**
 The per-source token bucket of internal/pipeline/rate.go, over real arithmetic: times are seconds,
 and the bucket is shown to decide exactly an admission rule stated on call histories.
 */
module RateLimiting {

  // ---------- the admission rule ----------

  datatype Call = Call(at: real, admitted: bool)

  function Max(a: real, b: real): real {
    if a < b then b else a
  }

  /** The latest time seen in a non-empty history: the clock as the bucket sees it. */
  function Clock(h: seq<Call>): real
    requires h != []
  {
    if |h| == 1 then h[0].at else Max(Clock(h[..|h| - 1]), h[|h| - 1].at)
  }

  /** The clock at call `k`. */
  function ClockAt(h: seq<Call>, k: nat): real
    requires k < |h|
  {
    Clock(h[..k + 1])
  }

  /** The clock when a call arrives at time `now`. */
  function ClockNow(h: seq<Call>, now: real): real {
    if h == [] then now else Max(Clock(h), now)
  }

  /** It is the running maximum of the times passed. */
  lemma {:induction false} ClockIsMaximum(h: seq<Call>)
    requires h != []
    ensures forall i :: 0 <= i < |h| ==> h[i].at <= Clock(h)
    ensures exists i :: 0 <= i < |h| && h[i].at == Clock(h)
  {
    if |h| > 1 {
      ClockIsMaximum(h[..|h| - 1]);
      var i :| 0 <= i < |h| - 1 && h[i].at == Clock(h[..|h| - 1]);
      var j := if Clock(h[..|h| - 1]) < h[|h| - 1].at then |h| - 1 else i;
      assert 0 <= j < |h| && h[j].at == Clock(h);
    } else {
      assert h[0].at == Clock(h);
    }
  }

  /** How many of the calls from `k` on were admitted. */
  function Admitted(h: seq<Call>, k: nat): nat
    requires k <= |h|
    decreases |h|
  {
    if k == |h| then 0
    else Admitted(h[..|h| - 1], k) + if h[|h| - 1].admitted then 1 else 0
  }

  lemma {:induction false} AdmittedIsCount(h: seq<Call>, k: nat)
    requires k <= |h|
    ensures Admitted(h, k) == |set i | k <= i < |h| && h[i].admitted|
    decreases |h|
  {
    var all := set i | k <= i < |h| && h[i].admitted;
    if k < |h| {
      var n := |h| - 1;
      AdmittedIsCount(h[..n], k);
      var before := set i | k <= i < |h[..n]| && h[..n][i].admitted;
      assert all == if h[n].admitted then before + {n} else before;
    } else {
      assert all == {};
    }
  }

  datatype Limit = Limit(rate: real, burst: real) {
    /** The tokens that `d` seconds bring. */
    function Earned(d: real): real {
      d * rate
    }
  }

  predicate Sane(l: Limit) {
    l.rate > 0.0 && l.burst >= 1.0
  }

  /** What the window that opened at call `k` still allows at clock `t`. */
  function Allowance(l: Limit, h: seq<Call>, k: nat, t: real): real
    requires k < |h|
  {
    l.burst + l.Earned(t - ClockAt(h, k)) - Admitted(h, k) as real
  }

  /** One more admission keeps every window, including one opening now, within burst + rate * length. */
  predicate Admissible(l: Limit, h: seq<Call>, now: real) {
    l.burst >= 1.0 && forall k :: 0 <= k < |h| ==> Allowance(l, h, k, ClockNow(h, now)) >= 1.0
  }

  /**
   The rule written out: counting this call, no window from an earlier call `k` to now holds more
   admissions than burst + rate * its length.
   */
  ghost predicate FitsEveryWindow(l: Limit, h: seq<Call>, now: real) {
    && 1.0 <= l.burst
    && forall k :: 0 <= k < |h| ==>
         1.0 + Admitted(h, k) as real <= l.burst + l.rate * (ClockNow(h, now) - ClockAt(h, k))
  }

  lemma EarnedIsRateTimesLength(l: Limit, d: real)
    ensures l.Earned(d) == l.rate * d
  {
  }

  lemma AllowanceWrittenOut(l: Limit, h: seq<Call>, k: nat, t: real)
    requires k < |h|
    ensures Allowance(l, h, k, t) >= 1.0 <==> 1.0 + Admitted(h, k) as real <= l.burst + l.rate * (t - ClockAt(h, k))
  {
    hide Limit.Earned;
    EarnedIsRateTimesLength(l, t - ClockAt(h, k));
  }

  lemma AdmissibleIff(l: Limit, h: seq<Call>, now: real)
    ensures Admissible(l, h, now) <==> FitsEveryWindow(l, h, now)
  {
    hide Allowance;
    var t := ClockNow(h, now);
    if Admissible(l, h, now) {
      forall k | 0 <= k < |h| ensures 1.0 + Admitted(h, k) as real <= l.burst + l.rate * (t - ClockAt(h, k)) {
        AllowanceWrittenOut(l, h, k, t);
      }
    }
    if FitsEveryWindow(l, h, now) {
      forall k | 0 <= k < |h| ensures Allowance(l, h, k, t) >= 1.0 {
        AllowanceWrittenOut(l, h, k, t);
      }
    }
  }

  /** A history all of whose decisions follow the rule. */
  predicate Faithful(l: Limit, h: seq<Call>) {
    forall i :: 0 <= i < |h| ==> (h[i].admitted <==> Admissible(l, h[..i], h[i].at))
  }

  // ---------- the bucket computes the rule ----------

  datatype Bucket = Bucket(tokens: real, last: real)

  /** The tokens are the tightest allowance over all windows. */
  ghost predicate Tracks(l: Limit, h: seq<Call>, b: Bucket) {
    && h != []
    && b.last == Clock(h)
    && b.tokens <= l.burst
    && (forall k :: 0 <= k < |h| ==> b.tokens <= Allowance(l, h, k, b.last))
    && (exists k :: 0 <= k < |h| && b.tokens == Allowance(l, h, k, b.last))
  }

  /** The bucket after the refill part of a call. */
  function Refill(l: Limit, b: Bucket, now: real): Bucket {
    if now > b.last then
      var t := b.tokens + l.Earned(now - b.last);
      Bucket(if t > l.burst then l.burst else t, now)
    else b
  }

  lemma EarnedAdds(l: Limit, a: real, b: real)
    ensures l.Earned(a + b) == l.Earned(a) + l.Earned(b)
  {
    assert (a + b) * l.rate == a * l.rate + b * l.rate;
  }

  lemma EarnedZero(l: Limit)
    ensures l.Earned(0.0) == 0.0
  {
  }

  lemma EarnedMonotone(l: Limit, a: real, b: real)
    requires l.rate > 0.0 && a <= b
    ensures l.Earned(a) <= l.Earned(b)
  {
    assert a * l.rate <= b * l.rate;
  }

  lemma AllowanceGrows(l: Limit, h: seq<Call>, k: nat, t: real, t': real)
    requires k < |h|
    ensures Allowance(l, h, k, t') == Allowance(l, h, k, t) + l.Earned(t' - t)
  {
    hide Limit.Earned;
    EarnedAdds(l, t - ClockAt(h, k), t' - t);
  }

  /** After the refill there is a token exactly if the rule admits the call. */
  lemma RefillDecides(l: Limit, h: seq<Call>, b: Bucket, now: real)
    requires Sane(l) && Tracks(l, h, b)
    ensures var b' := Refill(l, b, now);
      && b'.last == ClockNow(h, now) && b'.tokens <= l.burst
      && (forall k :: 0 <= k < |h| ==> b'.tokens <= Allowance(l, h, k, b'.last))
      && (b'.tokens == l.burst || exists k :: 0 <= k < |h| && b'.tokens == Allowance(l, h, k, b'.last))
      && (b'.tokens >= 1.0 <==> Admissible(l, h, now))
  {
    hide Limit.Earned, Allowance;
    var b' := Refill(l, b, now);
    forall k | 0 <= k < |h| ensures b'.tokens <= Allowance(l, h, k, b'.last) {
      AllowanceGrows(l, h, k, b.last, b'.last);
    }
    var k :| 0 <= k < |h| && b.tokens == Allowance(l, h, k, b.last);
    AllowanceGrows(l, h, k, b.last, b'.last);
  }

  lemma AllowanceAfterCall(l: Limit, h: seq<Call>, c: Call, k: nat, t: real)
    requires k < |h|
    ensures Allowance(l, h + [c], k, t) == Allowance(l, h, k, t) - if c.admitted then 1.0 else 0.0
  {
    hide Limit.Earned;
    var g := h + [c];
    assert g[..|g| - 1] == h;
    assert g[..k + 1] == h[..k + 1];
  }

  lemma AllowanceOfNewWindow(l: Limit, h: seq<Call>, c: Call)
    ensures var g := h + [c];
      Clock(g) == ClockNow(h, c.at)
      && Allowance(l, g, |h|, Clock(g)) == l.burst - if c.admitted then 1.0 else 0.0
  {
    hide Limit.Earned;
    var g := h + [c];
    assert g[..|g| - 1] == h;
    assert g[..|h| + 1] == g;
    assert Admitted(g[..|g| - 1], |h|) == 0;
    assert Admitted(g, |h|) == if c.admitted then 1 else 0;
    assert ClockAt(g, |h|) == Clock(g);
    EarnedZero(l);
  }

  /** Taking (or not taking) a token keeps the bucket in step with the history. */
  lemma TakeTracks(l: Limit, h: seq<Call>, b: Bucket, now: real)
    requires Sane(l) && (h != [] ==> Tracks(l, h, b)) && (h == [] ==> b == Bucket(l.burst, now))
    ensures var b' := Refill(l, b, now);
      var ok := b'.tokens >= 1.0;
      && (ok <==> Admissible(l, h, now))
      && Tracks(l, h + [Call(now, ok)], if ok then b'.(tokens := b'.tokens - 1.0) else b')
  {
    hide Limit.Earned, Allowance, Clock;
    var b' := Refill(l, b, now);
    var ok := b'.tokens >= 1.0;
    var c := Call(now, ok);
    var g := h + [c];
    if h != [] {
      RefillDecides(l, h, b, now);
    }
    AllowanceOfNewWindow(l, h, c);
    forall k | 0 <= k < |h| ensures Allowance(l, g, k, b'.last) == Allowance(l, h, k, b'.last) - if ok then 1.0 else 0.0 {
      AllowanceAfterCall(l, h, c, k, b'.last);
    }
    if b'.tokens == l.burst {
      assert 0 <= |h| < |g|;
    }
  }

  // ---------- the limiter ----------

  class RateLimiter {
    const limit: Limit
    var buckets: map<string, Bucket>
    ghost var history: map<string, seq<Call>>   // every call so far, per source

    ghost predicate Valid()
      reads this
    {
      && Sane(limit)
      && buckets.Keys == history.Keys
      && forall s :: s in history ==>
           history[s] != [] && Tracks(limit, history[s], buckets[s]) && Faithful(limit, history[s])
    }

    constructor (linesPerSec: int, burst: int)
      ensures Valid() && history == map[]
      ensures limit.rate == (if linesPerSec <= 0 then 10000.0 else linesPerSec as real)
      ensures limit.burst == if burst <= 0 then limit.rate else burst as real
    {
      var rate := if linesPerSec <= 0 then 10_000 else linesPerSec;
      limit := Limit(rate as real, (if burst <= 0 then rate else burst) as real);
      buckets, history := map[], map[];
    }

    ghost function HistoryOf(source: string): seq<Call>
      reads this
    {
      if source in history then history[source] else []
    }

    /** Admits the call exactly if the rule for this source's own history does. */
    method Allow(source: string, now: real) returns (ok: bool)
      requires Valid()
      modifies this
      ensures Valid()
      ensures ok <==> FitsEveryWindow(limit, old(HistoryOf(source)), now)
      ensures history == old(history)[source := old(HistoryOf(source)) + [Call(now, ok)]]
      ensures forall s :: s in old(buckets) && s != source ==> s in buckets && buckets[s] == old(buckets)[s]
    {
      hide Limit.Earned, Tracks, Faithful, Admissible, FitsEveryWindow, Refill;
      FaithfulEmpty(limit);
      ghost var h := HistoryOf(source);
      var b := if source in buckets then buckets[source] else Bucket(limit.burst, now);
      TakeTracks(limit, h, b, now);
      b := Refill(limit, b, now);
      ok := b.tokens >= 1.0;
      AdmissibleIff(limit, h, now);
      FaithfulSnoc(limit, h, Call(now, ok));
      if ok {
        b := b.(tokens := b.tokens - 1.0);
      }
      buckets := buckets[source := b];
      history := history[source := h + [Call(now, ok)]];
    }
  }

  lemma FaithfulEmpty(l: Limit)
    ensures Faithful(l, [])
  {
  }

  lemma FaithfulSnoc(l: Limit, h: seq<Call>, c: Call)
    requires Faithful(l, h) && (c.admitted <==> Admissible(l, h, c.at))
    ensures Faithful(l, h + [c])
  {
    hide Admissible;
    var g := h + [c];
    assert g[..|h|] == h;
    assert forall i :: 0 <= i < |h| ==> g[..i] == h[..i];
  }

  // ---------- consequences of the rule ----------

  lemma {:induction false} ClockMonotone(h: seq<Call>, j: nat, k: nat)
    requires j <= k < |h|
    ensures ClockAt(h, j) <= ClockAt(h, k)
    decreases k
  {
    if j < k {
      ClockMonotone(h, j, k - 1);
      assert h[..k + 1][..k] == h[..k];
    }
  }

  lemma AdmittedSnoc(h: seq<Call>, k: nat, n: nat)
    requires k <= n < |h|
    ensures Admitted(h[..n + 1], k) == Admitted(h[..n], k) + if h[n].admitted then 1 else 0
  {
    assert h[..n + 1][..n] == h[..n];
  }

  lemma ClockNowAt(h: seq<Call>, n: nat)
    requires n < |h|
    ensures ClockNow(h[..n], h[n].at) == ClockAt(h, n)
  {
    assert h[..n + 1][..n] == h[..n];
  }

  /** The prefix of a history has the windows of the history. */
  lemma AllowanceOfPrefix(l: Limit, h: seq<Call>, k: nat, n: nat, t: real)
    requires k < n <= |h|
    ensures Allowance(l, h[..n], k, t) == l.burst + l.Earned(t - ClockAt(h, k)) - Admitted(h[..n], k) as real
  {
    hide Limit.Earned;
    assert h[..n][..k + 1] == h[..k + 1];
  }

  /** No window, from any call to any later one, admits more than burst + rate * its length. */
  lemma WindowBound(l: Limit, h: seq<Call>, k: nat, n: nat)
    requires Sane(l) && Faithful(l, h) && k <= n < |h|
    ensures Admitted(h[..n + 1], k) as real <= l.burst + l.rate * (ClockAt(h, n) - ClockAt(h, k))
  {
    hide *;
    WindowEarns(l, h, k, n);
    EarnedIsRateTimesLength(l, ClockAt(h, n) - ClockAt(h, k));
  }

  lemma {:induction false} WindowEarns(l: Limit, h: seq<Call>, k: nat, n: nat)
    requires Sane(l) && Faithful(l, h) && k <= n < |h|
    ensures Admitted(h[..n + 1], k) as real <= l.burst + l.Earned(ClockAt(h, n) - ClockAt(h, k))
    decreases n
  {
    hide Limit.Earned, Allowance, Admitted, ClockAt;
    AdmittedSnoc(h, k, n);
    ClockMonotone(h, k, n);
    if k == n {
      assert Admitted(h[..n], n) == 0 by { AdmittedAtMost(h[..n], n); }
      EarnedZero(l);
    } else if h[n].admitted {
      ClockNowAt(h, n);
      assert Admissible(l, h[..n], h[n].at);
      assert Allowance(l, h[..n], k, ClockAt(h, n)) >= 1.0;
      AllowanceOfPrefix(l, h, k, n, ClockAt(h, n));
    } else {
      WindowEarns(l, h, k, n - 1);
      ClockMonotone(h, n - 1, n);
      EarnedMonotone(l, ClockAt(h, n - 1) - ClockAt(h, k), ClockAt(h, n) - ClockAt(h, k));
    }
  }

  /** Calls at least 1/rate apart are never refused. */
  lemma SpacedCallsPass(l: Limit, h: seq<Call>, n: nat)
    requires Sane(l) && Faithful(l, h) && n < |h|
    requires forall i :: 0 <= i < n ==> l.rate * (h[i + 1].at - h[i].at) >= 1.0
    ensures h[n].admitted
  {
    hide *;
    forall i | 0 <= i < n ensures l.Earned(h[i + 1].at - h[i].at) >= 1.0 {
      EarnedIsRateTimesLength(l, h[i + 1].at - h[i].at);
    }
    EarningCallsPass(l, h, n);
  }

  lemma EarningCallsPass(l: Limit, h: seq<Call>, n: nat)
    requires Sane(l) && Faithful(l, h) && n < |h|
    requires forall i :: 0 <= i < n ==> l.Earned(h[i + 1].at - h[i].at) >= 1.0
    ensures h[n].admitted
  {
    hide Limit.Earned, Allowance, Admitted, ClockAt;
    ClockNowAt(h, n);
    forall k | 0 <= k < n ensures Allowance(l, h[..n], k, ClockAt(h, n)) >= 1.0 {
      SpacedClock(l, h, k, n);
      EarnedAllowance(l, h, k, n);
    }
  }

  lemma EarnedAllowance(l: Limit, h: seq<Call>, k: nat, n: nat)
    requires Sane(l) && k < n < |h|
    requires l.Earned(ClockAt(h, n) - ClockAt(h, k)) >= (n - k) as real
    ensures Allowance(l, h[..n], k, ClockAt(h, n)) >= 1.0
  {
    hide Limit.Earned;
    AllowanceOfPrefix(l, h, k, n, ClockAt(h, n));
    AdmittedAtMost(h[..n], k);
  }

  lemma {:induction false} AdmittedAtMost(h: seq<Call>, k: nat)
    requires k <= |h|
    ensures Admitted(h, k) <= |h| - k
    decreases |h|
  {
    if k < |h| {
      AdmittedAtMost(h[..|h| - 1], k);
    }
  }

  lemma {:induction false} SpacedClock(l: Limit, h: seq<Call>, k: nat, n: nat)
    requires l.rate > 0.0 && k <= n < |h|
    requires forall i :: 0 <= i < n ==> l.Earned(h[i + 1].at - h[i].at) >= 1.0
    ensures ClockAt(h, n) == h[n].at
    ensures l.Earned(ClockAt(h, n) - ClockAt(h, k)) >= (n - k) as real
    decreases n
  {
    hide Limit.Earned;
    EarnedZero(l);
    if n > 0 {
      assert h[..n + 1][..n] == h[..n];
      var d := h[n].at - h[n - 1].at;
      assert l.Earned(d) >= 1.0;
      if d <= 0.0 {
        EarnedMonotone(l, d, 0.0);
      }
      SpacedClock(l, h, if k < n then k else n - 1, n - 1);
      if k < n {
        EarnedAdds(l, ClockAt(h, n - 1) - ClockAt(h, k), d);
        assert ClockAt(h, n) - ClockAt(h, k) == ClockAt(h, n - 1) - ClockAt(h, k) + d;
      }
    }
  }
}
