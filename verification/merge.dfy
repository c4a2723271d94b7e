/**
 The k-way merge of internal/oneshot/oneshot.go: stable sort per source, a binary heap of cursors
 kept by sift-down and sift-up, one line written per turn.
 */
module HeapMerge {
  import opened Collections
  import opened Entries

  // ---------- cursors and the heap order ----------

  /** A source's entries and the position in them; `src` is the source's place in the argument list. */
  datatype Cursor = Cursor(src: nat, entries: seq<LogEntry>, idx: nat)

  datatype Line = Line(src: nat, entry: LogEntry)

  type Heap = seq<Cursor>

  predicate Live(c: Cursor) {
    c.idx < |c.entries|
  }

  predicate AllLive(h: Heap, n: nat)
    requires n <= |h|
  {
    forall i :: 0 <= i < n ==> Live(h[i])
  }

  function Stamp(e: LogEntry): int {
    e.timestamp.Instant()
  }

  /** The timestamp a cursor stands at. An exhausted cursor has none. */
  function Key(c: Cursor): int
    requires Live(c)
  {
    Stamp(c.entries[c.idx])
  }

  function Parent(j: nat): nat
    requires j > 0
  {
    (j - 1) / 2
  }

  function Swap(h: Heap, i: nat, j: nat): (r: Heap)
    requires i < |h| && j < |h|
    ensures |r| == |h|
  {
    h[i := h[j]][j := h[i]]
  }

  /** The child a sift-down compares with: the right one only if it is strictly earlier. */
  function MinChild(h: Heap, i: nat, n: nat): (j: nat)
    requires n <= |h| && AllLive(h, n) && 2 * i + 1 < n
    ensures 0 < j < n && Parent(j) == i
    ensures Key(h[j]) <= Key(h[2 * i + 1]) && (2 * i + 2 < n ==> Key(h[j]) <= Key(h[2 * i + 2]))
  {
    if 2 * i + 2 < n && Key(h[2 * i + 2]) < Key(h[2 * i + 1]) then 2 * i + 2 else 2 * i + 1
  }

  /** `down` of container/heap on the first `n` cursors. */
  function SiftDown(h: Heap, i: nat, n: nat): (r: Heap)
    requires n <= |h| && AllLive(h, n) && i < n
    ensures |r| == |h| && AllLive(r, n) && forall k :: n <= k < |h| ==> r[k] == h[k]
    decreases n - i
  {
    if 2 * i + 1 >= n then h
    else
      var j := MinChild(h, i, n);
      if Key(h[j]) < Key(h[i]) then SiftDown(Swap(h, i, j), j, n) else h
  }

  /** The heap order, below position `lo`, except for the children of `hole`. */
  ghost predicate OrderedExcept(h: Heap, n: nat, lo: nat, hole: nat)
    requires n <= |h| && AllLive(h, n)
  {
    && (forall j :: 0 < j < n && Parent(j) >= lo && Parent(j) != hole ==> Key(h[Parent(j)]) <= Key(h[j]))
    && (forall j :: 0 < j < n && Parent(j) == hole && 0 < hole < n && Parent(hole) >= lo ==>
          Key(h[Parent(hole)]) <= Key(h[j]))
  }

  ghost predicate OrderedFrom(h: Heap, n: nat, lo: nat)
    requires n <= |h| && AllLive(h, n)
  {
    forall j :: 0 < j < n && Parent(j) >= lo ==> Key(h[Parent(j)]) <= Key(h[j])
  }

  lemma SwapKeepsOrder(h: Heap, n: nat, lo: nat, i: nat)
    requires n <= |h| && AllLive(h, n) && OrderedExcept(h, n, lo, i) && lo <= i && 2 * i + 1 < n
    requires Key(h[MinChild(h, i, n)]) < Key(h[i])
    ensures AllLive(Swap(h, i, MinChild(h, i, n)), n)
    ensures OrderedExcept(Swap(h, i, MinChild(h, i, n)), n, lo, MinChild(h, i, n))
  {
    hide Stamp;
    var c := MinChild(h, i, n);
    hide MinChild;
    var r := Swap(h, i, c);
    forall j | 0 < j < n && Parent(j) >= lo && Parent(j) != c ensures Key(r[Parent(j)]) <= Key(r[j]) {
      if Parent(j) == i {
        assert j == 2 * i + 1 || j == 2 * i + 2;
      } else if j == i {
        assert Key(h[Parent(i)]) <= Key(h[c]);
      }
    }
    forall j | 0 < j < n && Parent(j) == c ensures Key(r[i]) <= Key(r[j]) {
      assert Key(h[Parent(j)]) <= Key(h[j]);
    }
  }

  /** Sifting down mends the one place where the order may be broken. */
  lemma {:induction false} SiftDownMends(h: Heap, i: nat, n: nat, lo: nat)
    requires n <= |h| && AllLive(h, n) && lo <= i < n && OrderedExcept(h, n, lo, i)
    ensures OrderedFrom(SiftDown(h, i, n), n, lo)
    decreases n - i
  {
    if 2 * i + 1 < n {
      var j := MinChild(h, i, n);
      if Key(h[j]) < Key(h[i]) {
        SwapKeepsOrder(h, n, lo, i);
        SiftDownMends(Swap(h, i, j), j, n, lo);
      }
    }
  }

  lemma {:induction false} RootIsLeast(h: Heap, j: nat)
    requires AllLive(h, |h|) && OrderedFrom(h, |h|, 0) && j < |h|
    ensures Key(h[0]) <= Key(h[j])
  {
    if j > 0 {
      RootIsLeast(h, Parent(j));
    }
  }

  // ---------- heap.Init, heap.Fix, heap.Pop ----------

  /** `heap.Init` from position `i - 1` down to the root. */
  function Heapify(h: Heap, i: nat): (r: Heap)
    requires AllLive(h, |h|) && i <= |h|
    ensures |r| == |h| && AllLive(r, |r|)
    decreases i
  {
    if i == 0 then h else Heapify(SiftDown(h, i - 1, |h|), i - 1)
  }

  lemma {:induction false} HeapifyOrders(h: Heap, i: nat)
    requires AllLive(h, |h|) && i <= |h| && OrderedFrom(h, |h|, i)
    ensures OrderedFrom(Heapify(h, i), |h|, 0)
    decreases i
  {
    if i > 0 {
      SiftDownMends(h, i - 1, |h|, i - 1);
      HeapifyOrders(SiftDown(h, i - 1, |h|), i - 1);
    }
  }

  predicate IsHeap(h: Heap) {
    AllLive(h, |h|) && forall j :: 0 < j < |h| ==> Key(h[Parent(j)]) <= Key(h[j])
  }

  function Next(c: Cursor): Cursor {
    c.(idx := c.idx + 1)
  }

  /** `heap.Pop` of a root that is already exhausted: it is moved to the end before any comparison. */
  function PopRoot(h: Heap): (r: Heap)
    requires h != [] && forall i :: 0 < i < |h| ==> Live(h[i])
    ensures AllLive(r, |r|)
  {
    var n := |h| - 1;
    var swapped := Swap(h, 0, n);
    if n == 0 then [] else SiftDown(swapped, 0, n)[..n]
  }

  /** The heap after the root's line is written: Fix the moved cursor, or Pop the exhausted one. */
  function Advance(h: Heap): (r: Heap)
    requires h != [] && AllLive(h, |h|)
    ensures AllLive(r, |r|)
  {
    var moved := h[0 := Next(h[0])];
    if Live(Next(h[0])) then SiftDown(moved, 0, |h|) else PopRoot(moved)
  }

  lemma AdvanceKeepsHeap(h: Heap)
    requires h != [] && IsHeap(h)
    ensures IsHeap(Advance(h))
  {
    var moved := h[0 := Next(h[0])];
    if Live(Next(h[0])) {
      SiftDownMends(moved, 0, |h|, 0);
    } else if |h| > 1 {
      SiftDownMends(Swap(moved, 0, |h| - 1), 0, |h| - 1, 0);
    }
  }

  // ---------- sums survive the reordering ----------

  lemma {:induction false} SumUpdate<T>(s: seq<T>, i: nat, x: T, w: T -> nat)
    requires i < |s|
    ensures SumSeq(s[i := x], w) + w(s[i]) == SumSeq(s, w) + w(x)
  {
    hide SumSeq;
    var a, b := s[..i], s[i + 1..];
    assert s == a + ([s[i]] + b) && s[i := x] == a + ([x] + b);
    SumSeqConcat(a, [s[i]] + b, w);
    SumSeqConcat(a, [x] + b, w);
    SumCons(s[i], b, w);
    SumCons(x, b, w);
  }

  lemma SumCons<T>(x: T, s: seq<T>, w: T -> nat)
    ensures SumSeq([x] + s, w) == w(x) + SumSeq(s, w)
  {
    assert ([x] + s)[1..] == s;
  }

  lemma SwapSum(h: Heap, i: nat, j: nat, w: Cursor -> nat)
    requires i < |h| && j < |h|
    ensures SumSeq(Swap(h, i, j), w) == SumSeq(h, w)
  {
    hide SumSeq;
    SumUpdate(h, i, h[j], w);
    SumUpdate(h[i := h[j]], j, h[i], w);
  }

  lemma {:induction false} SiftDownSum(h: Heap, i: nat, n: nat, w: Cursor -> nat)
    requires n <= |h| && AllLive(h, n) && i < n
    ensures SumSeq(SiftDown(h, i, n), w) == SumSeq(h, w)
    decreases n - i
  {
    hide SumSeq, Swap;
    if 2 * i + 1 < n {
      var j := MinChild(h, i, n);
      if Key(h[j]) < Key(h[i]) {
        SwapSum(h, i, j, w);
        SwapStaysLive(h, i, j, n);
        SiftDownSum(Swap(h, i, j), j, n, w);
      }
    }
  }

  lemma SwapStaysLive(h: Heap, i: nat, j: nat, n: nat)
    requires n <= |h| && AllLive(h, n) && i < n && j < n
    ensures AllLive(Swap(h, i, j), n)
  {
  }

  lemma {:induction false} HeapifySum(h: Heap, i: nat, w: Cursor -> nat)
    requires AllLive(h, |h|) && i <= |h|
    ensures SumSeq(Heapify(h, i), w) == SumSeq(h, w)
    decreases i
  {
    hide SumSeq, SiftDown;
    if i > 0 {
      SiftDownSum(h, i - 1, |h|, w);
      HeapifySum(SiftDown(h, i - 1, |h|), i - 1, w);
    }
  }

  lemma PopRootSum(h: Heap, w: Cursor -> nat)
    requires h != [] && forall i :: 0 < i < |h| ==> Live(h[i])
    ensures SumSeq(PopRoot(h), w) + w(h[0]) == SumSeq(h, w)
  {
    var n := |h| - 1;
    if n == 0 {
      assert h == [h[0]] + [];
      SumCons(h[0], [], w);
    } else {
      SwapSum(h, 0, n, w);
      DropLastSum(Swap(h, 0, n), n, w);
    }
  }

  lemma DropLastSum(h: Heap, n: nat, w: Cursor -> nat)
    requires 0 < n == |h| - 1 && AllLive(h, n)
    ensures SumSeq(SiftDown(h, 0, n)[..n], w) + w(h[n]) == SumSeq(h, w)
  {
    hide SumSeq, SiftDown;
    SiftDownSum(h, 0, n, w);
    var sifted := SiftDown(h, 0, n);
    assert sifted == sifted[..n] + [sifted[n]];
    SumSeqSnoc(sifted[..n], sifted[n], w);
  }

  /** What a turn changes, in any additive measure: the root becomes its successor, or leaves. */
  lemma AdvanceSum(h: Heap, w: Cursor -> nat)
    requires h != [] && AllLive(h, |h|)
    ensures SumSeq(Advance(h), w) + w(h[0]) == SumSeq(h, w) + if Live(Next(h[0])) then w(Next(h[0])) else 0
  {
    hide SumSeq, SiftDown, PopRoot;
    var moved := h[0 := Next(h[0])];
    SumUpdate(h, 0, Next(h[0]), w);
    if Live(Next(h[0])) {
      SiftDownSum(moved, 0, |h|, w);
    } else {
      PopRootSum(moved, w);
    }
  }

  lemma {:induction false} MemberByCount<T>(s: seq<T>, x: T)
    ensures x in s <==> SumSeq(s, Is(x)) > 0
  {
    SumIsCount(s, x);
    assert x in s <==> x in multiset(s);
  }

  /** Where the cursors of the next heap come from. */
  lemma AdvanceMembers(h: Heap, c: Cursor)
    requires h != [] && AllLive(h, |h|)
    ensures c in Advance(h) <==> c in h[1..] || (c == Next(h[0]) && Live(c))
  {
    hide Advance;
    AdvanceSum(h, Is(c));
    MemberByCount(Advance(h), c);
    MemberByCount(h[1..], c);
  }

  // ---------- the merge ----------

  ghost function Rest(): Cursor -> nat {
    (c: Cursor) => if Live(c) then |c.entries| - c.idx else 0
  }

  /** Lines not yet written. */
  ghost function Remaining(h: Heap): nat {
    SumSeq(h, Rest())
  }

  lemma AdvanceShrinks(h: Heap)
    requires h != [] && AllLive(h, |h|)
    ensures Remaining(Advance(h)) + 1 == Remaining(h)
  {
    AdvanceSum(h, Rest());
  }

  /** Everything the merge writes from heap `h` on. */
  ghost function Lines(h: Heap): seq<Line>
    requires AllLive(h, |h|)
    decreases Remaining(h)
  {
    if h == [] then [] else
      AdvanceShrinks(h);
      [Line(h[0].src, h[0].entries[h[0].idx])] + Lines(Advance(h))
  }

  ghost predicate Nondecreasing(ls: seq<Line>) {
    forall i, j :: 0 <= i < j < |ls| ==> Stamp(ls[i].entry) <= Stamp(ls[j].entry)
  }

  predicate SortedEntries(es: seq<LogEntry>) {
    forall i, j :: 0 <= i < j < |es| ==> Stamp(es[i]) <= Stamp(es[j])
  }

  ghost predicate SourcesSorted(h: Heap) {
    forall i :: 0 <= i < |h| ==> SortedEntries(h[i].entries)
  }

  lemma AdvanceKeepsSorted(h: Heap)
    requires h != [] && IsHeap(h) && SourcesSorted(h)
    ensures SourcesSorted(Advance(h))
    ensures forall j :: 0 <= j < |Advance(h)| ==> Key(h[0]) <= Key(Advance(h)[j])
  {
    hide Advance;
    var r := Advance(h);
    forall j | 0 <= j < |r| ensures SortedEntries(r[j].entries) && Key(h[0]) <= Key(r[j]) {
      AdvanceMembers(h, r[j]);
      if r[j] in h[1..] {
        var k :| 0 <= k < |h| && h[k] == r[j];
        RootIsLeast(h, k);
      }
    }
  }

  lemma UnfoldLines(h: Heap)
    requires h != [] && AllLive(h, |h|)
    ensures Lines(h) == [Line(h[0].src, h[0].entries[h[0].idx])] + Lines(Advance(h))
    ensures Remaining(Advance(h)) + 1 == Remaining(h)
  {
    AdvanceShrinks(h);
  }

  /** The output never goes back in time. */
  lemma {:induction false} LinesNondecreasing(h: Heap)
    requires IsHeap(h) && SourcesSorted(h)
    ensures Nondecreasing(Lines(h))
    ensures forall k :: 0 <= k < |Lines(h)| ==> h != [] && Key(h[0]) <= Stamp(Lines(h)[k].entry)
    decreases Remaining(h)
  {
    if h != [] {
      hide Lines, Advance, SourcesSorted, Remaining;
      UnfoldLines(h);
      AdvanceKeepsHeap(h);
      AdvanceKeepsSorted(h);
      LinesNondecreasing(Advance(h));
    }
  }

  // ---------- what comes from each source ----------

  /** The entries among the lines that source `src` contributed. */
  function From(ls: seq<Line>, src: nat): seq<LogEntry> {
    if ls == [] then [] else (if ls[0].src == src then [ls[0].entry] else []) + From(ls[1..], src)
  }

  ghost function HasSource(src: nat): Cursor -> nat {
    (c: Cursor) => if c.src == src then 1 else 0
  }

  ghost predicate OneCursorEach(h: Heap) {
    forall src :: SumSeq(h, HasSource(src)) <= 1
  }

  lemma {:induction false} SumZeroMeansNone(h: Heap, w: Cursor -> nat, c: Cursor)
    requires c in h && w(c) > 0
    ensures SumSeq(h, w) > 0
  {
    if h[0] != c {
      SumZeroMeansNone(h[1..], w, c);
    }
  }

  lemma AdvanceKeepsOneCursor(h: Heap)
    requires h != [] && AllLive(h, |h|) && OneCursorEach(h)
    ensures OneCursorEach(Advance(h))
  {
    hide Advance;
    forall src ensures SumSeq(Advance(h), HasSource(src)) <= 1 {
      AdvanceSum(h, HasSource(src));
    }
  }

  lemma FromCons(l: Line, ls: seq<Line>, src: nat)
    ensures From([l] + ls, src) == (if l.src == src then [l.entry] else []) + From(ls, src)
  {
    assert ([l] + ls)[1..] == ls;
  }

  lemma {:induction false} AbsentSourceWritesNothing(h: Heap, src: nat)
    requires AllLive(h, |h|) && SumSeq(h, HasSource(src)) == 0
    ensures From(Lines(h), src) == []
    decreases Remaining(h)
  {
    if h != [] {
      hide Lines, Advance, Remaining, From;
      UnfoldLines(h);
      AdvanceSum(h, HasSource(src));
      assert h[0].src != src;
      AbsentSourceWritesNothing(Advance(h), src);
      FromCons(Line(h[0].src, h[0].entries[h[0].idx]), Lines(Advance(h)), src);
    }
  }

  /** A cursor's entries are all written, in their order. */
  lemma {:induction false} CursorIsWritten(h: Heap, c: Cursor)
    requires AllLive(h, |h|) && OneCursorEach(h) && c in h
    ensures From(Lines(h), c.src) == c.entries[c.idx..]
    decreases Remaining(h)
  {
    hide Lines, Advance, Remaining, From, OneCursorEach;
    var r := Advance(h);
    UnfoldLines(h);
    AdvanceKeepsOneCursor(h);
    FromCons(Line(h[0].src, h[0].entries[h[0].idx]), Lines(r), c.src);
    if c == h[0] {
      if Live(Next(c)) {
        AdvanceMembers(h, Next(c));
        CursorIsWritten(r, Next(c));
      } else {
        LastCursorLeaves(h);
        AbsentSourceWritesNothing(r, c.src);
      }
      assert c.entries[c.idx..] == [c.entries[c.idx]] + c.entries[c.idx + 1..];
    } else {
      TwoCursors(h, c);
      AdvanceMembers(h, c);
      assert c in h[1..];
      CursorIsWritten(r, c);
    }
  }

  lemma LastCursorLeaves(h: Heap)
    requires h != [] && AllLive(h, |h|) && OneCursorEach(h) && !Live(Next(h[0]))
    ensures SumSeq(Advance(h), HasSource(h[0].src)) == 0
  {
    hide Advance, SumSeq;
    AdvanceSum(h, HasSource(h[0].src));
  }

  lemma TwoCursors(h: Heap, c: Cursor)
    requires c in h && c != h[0] && OneCursorEach(h)
    ensures c.src != h[0].src
  {
    if c.src == h[0].src {
      SumZeroMeansNone(h[1..], HasSource(c.src), c);
    }
  }

  // ---------- permutation ----------

  ghost function CountIn(e: LogEntry): Cursor -> nat {
    (c: Cursor) => if c.idx <= |c.entries| then SumSeq(c.entries[c.idx..], Is(e)) else 0
  }

  function Written(ls: seq<Line>): seq<LogEntry> {
    if ls == [] then [] else [ls[0].entry] + Written(ls[1..])
  }

  /** Every entry is written as often as it was read. */
  lemma {:induction false} LinesPermute(h: Heap, e: LogEntry)
    requires AllLive(h, |h|)
    ensures SumSeq(Written(Lines(h)), Is(e)) == SumSeq(h, CountIn(e))
    ensures |Lines(h)| == Remaining(h)
    decreases Remaining(h)
  {
    if h != [] {
      hide Lines, Advance, Remaining, Written, SumSeq;
      var c := h[0];
      UnfoldLines(h);
      AdvanceSum(h, CountIn(e));
      LinesPermute(Advance(h), e);
      WrittenCons(Line(c.src, c.entries[c.idx]), Lines(Advance(h)));
      SumCons(c.entries[c.idx], Written(Lines(Advance(h))), Is(e));
      assert c.entries[c.idx..] == [c.entries[c.idx]] + c.entries[c.idx + 1..];
      SumCons(c.entries[c.idx], c.entries[c.idx + 1..], Is(e));
      SumNothing(Is(e));
    }
  }

  lemma SumNothing<T>(w: T -> nat)
    ensures SumSeq([], w) == 0
  {
  }

  lemma WrittenCons(l: Line, ls: seq<Line>)
    ensures Written([l] + ls) == [l.entry] + Written(ls)
  {
    assert ([l] + ls)[1..] == ls;
  }
}
