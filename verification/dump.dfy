/** `Merge` of internal/oneshot/oneshot.go: reading, sorting and writing, over the heap of cursors. */
module DumpMerge {
  import opened Collections
  import opened Entries
  import opened HeapMerge

  // ---------- sort.SliceStable ----------

  /** Puts `x` behind everything not later than it. */
  function InsertStable(s: seq<LogEntry>, x: LogEntry): seq<LogEntry> {
    if s == [] || Stamp(s[|s| - 1]) <= Stamp(x) then s + [x]
    else InsertStable(s[..|s| - 1], x) + [s[|s| - 1]]
  }

  function StableSort(s: seq<LogEntry>): seq<LogEntry> {
    if s == [] then [] else InsertStable(StableSort(s[..|s| - 1]), s[|s| - 1])
  }

  /** The entries of one timestamp, in order. */
  function AtStamp(s: seq<LogEntry>, t: int): seq<LogEntry> {
    if s == [] then []
    else AtStamp(s[..|s| - 1], t) + if Stamp(s[|s| - 1]) == t then [s[|s| - 1]] else []
  }

  lemma AtStampSnoc(s: seq<LogEntry>, x: LogEntry, t: int)
    ensures AtStamp(s + [x], t) == AtStamp(s, t) + if Stamp(x) == t then [x] else []
  {
    assert (s + [x])[..|s|] == s;
  }

  lemma {:induction false} InsertIsStable(s: seq<LogEntry>, x: LogEntry, t: int)
    requires SortedEntries(s)
    ensures AtStamp(InsertStable(s, x), t) == AtStamp(s, t) + if Stamp(x) == t then [x] else []
  {
    AtStampSnoc(s, x, t);
    if s != [] && Stamp(s[|s| - 1]) > Stamp(x) {
      var init := s[..|s| - 1];
      InsertIsStable(init, x, t);
      AtStampSnoc(InsertStable(init, x), s[|s| - 1], t);
      if Stamp(x) == t {
        assert AtStamp(s, t) == AtStamp(init, t) + [];
      }
    }
  }

  lemma {:induction false} InsertSorts(s: seq<LogEntry>, x: LogEntry)
    requires SortedEntries(s)
    ensures var r := InsertStable(s, x);
      SortedEntries(r) && |r| == |s| + 1 && forall i :: 0 <= i < |r| ==> r[i] == x || r[i] in s
  {
    if s != [] && Stamp(s[|s| - 1]) > Stamp(x) {
      InsertSorts(s[..|s| - 1], x);
    }
  }

  lemma {:induction false} InsertCounts(s: seq<LogEntry>, x: LogEntry, w: LogEntry -> nat)
    ensures SumSeq(InsertStable(s, x), w) == SumSeq(s, w) + w(x)
  {
    SumSeqSnoc(s, x, w);
    if s != [] && Stamp(s[|s| - 1]) > Stamp(x) {
      var init, last := s[..|s| - 1], s[|s| - 1];
      InsertCounts(init, x, w);
      SumSeqSnoc(InsertStable(init, x), last, w);
      SumSeqSnoc(init, last, w);
      assert s == init + [last];
    }
  }

  lemma StampOrder(a: LogEntry, b: LogEntry)
    ensures Stamp(a) <= Stamp(b) <==> NotAfter(a.timestamp, b.timestamp)
  {
  }

  /** The sort puts earlier timestamps first. */
  lemma StableSortIsChronological(s: seq<LogEntry>, i: nat, j: nat)
    requires i < j < |StableSort(s)|
    ensures NotAfter(StableSort(s)[i].timestamp, StableSort(s)[j].timestamp)
  {
    hide StableSort, Stamp;
    StableSortIsStable(s, 0);
    StampOrder(StableSort(s)[i], StableSort(s)[j]);
  }

  /** Sorted, the same entries, and entries of equal timestamp in their old order. */
  lemma {:induction false} StableSortIsStable(s: seq<LogEntry>, t: int)
    ensures SortedEntries(StableSort(s)) && |StableSort(s)| == |s|
    ensures AtStamp(StableSort(s), t) == AtStamp(s, t)
  {
    if s != [] {
      var init := s[..|s| - 1];
      StableSortIsStable(init, t);
      InsertSorts(StableSort(init), s[|s| - 1]);
      InsertIsStable(StableSort(init), s[|s| - 1], t);
    }
  }

  lemma {:induction false} StableSortCounts(s: seq<LogEntry>, w: LogEntry -> nat)
    ensures SumSeq(StableSort(s), w) == SumSeq(s, w)
  {
    if s != [] {
      var init := s[..|s| - 1];
      StableSortCounts(init, w);
      InsertCounts(StableSort(init), s[|s| - 1], w);
      SumSeqSnoc(init, s[|s| - 1], w);
      assert s == init + [s[|s| - 1]];
    }
  }

  /** Those two properties leave no choice: there is only one stable sort. */
  lemma {:induction false} StableSortIsUnique(a: seq<LogEntry>, b: seq<LogEntry>)
    requires SortedEntries(a) && SortedEntries(b) && forall t :: AtStamp(a, t) == AtStamp(b, t)
    ensures a == b
  {
    if a == [] || b == [] {
      LastAtStamp(a);
      LastAtStamp(b);
    } else {
      var x, y := a[|a| - 1], b[|b| - 1];
      LastAtStamp(a);
      LastAtStamp(b);
      StampsPresent(a, Stamp(y));
      StampsPresent(b, Stamp(x));
      assert Stamp(x) == Stamp(y);
      assert x == y;
      var a', b' := a[..|a| - 1], b[..|b| - 1];
      forall t ensures AtStamp(a', t) == AtStamp(b', t) {
        DropLastAtStamp(a, t);
        DropLastAtStamp(b, t);
      }
      StableSortIsUnique(a', b');
      assert a == a' + [x] && b == b' + [y];
    }
  }

  lemma LastAtStamp(s: seq<LogEntry>)
    ensures s != [] ==> var g := AtStamp(s, Stamp(s[|s| - 1])); g != [] && g[|g| - 1] == s[|s| - 1]
  {
  }

  lemma DropLastAtStamp(s: seq<LogEntry>, t: int)
    requires s != []
    ensures var g := AtStamp(s, t);
      AtStamp(s[..|s| - 1], t) == if Stamp(s[|s| - 1]) == t && g != [] then g[..|g| - 1] else g
  {
  }

  lemma {:induction false} StampsPresent(s: seq<LogEntry>, t: int)
    requires SortedEntries(s) && AtStamp(s, t) != []
    ensures s != [] && t <= Stamp(s[|s| - 1])
  {
    if Stamp(s[|s| - 1]) != t {
      StampsPresent(s[..|s| - 1], t);
    }
  }

  // ---------- the cursors a dump starts with ----------

  /** What each source's Read returned; None is an error. */
  type Reads = seq<Option<seq<LogEntry>>>

  function CursorOf(src: nat, read: Option<seq<LogEntry>>): Heap {
    if read.Some? && read.value != [] then [Cursor(src, StableSort(read.value), 0)] else []
  }

  function Cursors(inputs: Reads): Heap {
    if inputs == [] then [] else Cursors(inputs[..|inputs| - 1]) + CursorOf(|inputs| - 1, inputs[|inputs| - 1])
  }

  /** All entries read, source after source. */
  function AllRead(inputs: Reads): seq<LogEntry> {
    if inputs == [] then []
    else AllRead(inputs[..|inputs| - 1]) + if inputs[|inputs| - 1].Some? then inputs[|inputs| - 1].value else []
  }

  lemma CursorOfIsGood(src: nat, read: Option<seq<LogEntry>>)
    ensures forall i :: 0 <= i < |CursorOf(src, read)| ==>
              Live(CursorOf(src, read)[i]) && SortedEntries(CursorOf(src, read)[i].entries)
  {
    hide StableSort, SortedEntries;
    if read.Some? {
      StableSortIsStable(read.value, 0);
    }
  }

  lemma {:induction false} CursorsAreGood(inputs: Reads)
    ensures AllLive(Cursors(inputs), |Cursors(inputs)|) && SourcesSorted(Cursors(inputs))
  {
    hide CursorOf, SortedEntries, Live;
    if inputs != [] {
      CursorsAreGood(inputs[..|inputs| - 1]);
      CursorOfIsGood(|inputs| - 1, inputs[|inputs| - 1]);
    }
  }

  lemma {:induction false} CursorsBySource(inputs: Reads, src: nat)
    ensures SumSeq(Cursors(inputs), HasSource(src))
            == if src < |inputs| && inputs[src].Some? && inputs[src].value != [] then 1 else 0
    ensures src < |inputs| ==> forall c :: c in CursorOf(src, inputs[src]) ==> c in Cursors(inputs)
  {
    if inputs != [] {
      var init, n := inputs[..|inputs| - 1], |inputs| - 1;
      CursorsBySource(init, src);
      SumSeqConcat(Cursors(init), CursorOf(n, inputs[n]), HasSource(src));
      if CursorOf(n, inputs[n]) != [] {
        var c := CursorOf(n, inputs[n])[0];
        assert CursorOf(n, inputs[n]) == [c] + [];
        SumCons(c, [], HasSource(src));
      }
    }
  }

  lemma CursorOfCount(src: nat, read: Option<seq<LogEntry>>, e: LogEntry)
    ensures SumSeq(CursorOf(src, read), CountIn(e)) == SumSeq(if read.Some? then read.value else [], Is(e))
  {
    hide StableSort;
    if read.Some? && read.value != [] {
      var c := Cursor(src, StableSort(read.value), 0);
      assert CursorOf(src, read) == [c] + [];
      SumCons(c, [], CountIn(e));
      assert c.entries[0..] == c.entries;
      StableSortCounts(read.value, Is(e));
    }
  }

  lemma {:induction false} CursorsCount(inputs: Reads, e: LogEntry)
    ensures SumSeq(Cursors(inputs), CountIn(e)) == SumSeq(AllRead(inputs), Is(e))
  {
    if inputs != [] {
      hide SumSeq, CursorOf;
      var init, n := inputs[..|inputs| - 1], |inputs| - 1;
      CursorsCount(init, e);
      CursorOfCount(n, inputs[n], e);
      SumSeqConcat(Cursors(init), CursorOf(n, inputs[n]), CountIn(e));
      SumSeqConcat(AllRead(init), if inputs[n].Some? then inputs[n].value else [], Is(e));
    }
  }

  /** The heap the merge loop starts from. */
  function Start(inputs: Reads): (h: Heap)
    ensures AllLive(h, |h|)
  {
    CursorsAreGood(inputs);
    Heapify(Cursors(inputs), |Cursors(inputs)| / 2)
  }

  lemma StartIsGood(inputs: Reads)
    ensures IsHeap(Start(inputs)) && SourcesSorted(Start(inputs)) && OneCursorEach(Start(inputs))
  {
    var cs := Cursors(inputs);
    CursorsAreGood(inputs);
    assert OrderedFrom(cs, |cs|, |cs| / 2);
    HeapifyOrders(cs, |cs| / 2);
    var h := Start(inputs);
    forall j | 0 <= j < |h| ensures SortedEntries(h[j].entries) {
      HeapifyMembers(cs, |cs| / 2, h[j]);
      assert h[j] in h;
    }
    forall src ensures SumSeq(h, HasSource(src)) <= 1 {
      HeapifySum(cs, |cs| / 2, HasSource(src));
      CursorsBySource(inputs, src);
    }
  }

  lemma HeapifyMembers(h: Heap, i: nat, c: Cursor)
    requires AllLive(h, |h|) && i <= |h|
    ensures c in Heapify(h, i) <==> c in h
  {
    hide Heapify, SumSeq;
    HeapifySum(h, i, Is(c));
    MemberByCount(Heapify(h, i), c);
    MemberByCount(h, c);
  }

  // ---------- the dump as a whole ----------

  /** Everything an uncapped dump writes. */
  ghost function Dump(inputs: Reads): seq<Line> {
    Lines(Start(inputs))
  }

  /** No line has a later timestamp than a line after it. */
  ghost predicate Chronological(ls: seq<Line>) {
    forall i, j :: 0 <= i < j < |ls| ==> NotAfter(ls[i].entry.timestamp, ls[j].entry.timestamp)
  }

  lemma DumpIsSorted(inputs: Reads)
    ensures Chronological(Dump(inputs))
    ensures var ls := Dump(inputs);
      forall i, j :: 0 <= i < j < |ls| && ls[i].entry.timestamp.At? && ls[j].entry.timestamp.At? ==>
        ls[i].entry.timestamp.ns <= ls[j].entry.timestamp.ns
  {
    hide Start, Stamp;
    StartIsGood(inputs);
    LinesNondecreasing(Start(inputs));
    var ls := Dump(inputs);
    forall i, j | 0 <= i < j < |ls| ensures NotAfter(ls[i].entry.timestamp, ls[j].entry.timestamp) {
      StampOrder(ls[i].entry, ls[j].entry);
    }
  }

  /** Each source contributes exactly its entries, stably sorted; a failed one contributes nothing. */
  lemma DumpKeepsSources(inputs: Reads, src: nat)
    requires src < |inputs|
    ensures From(Dump(inputs), src) == if inputs[src].Some? then StableSort(inputs[src].value) else []
  {
    hide Lines, Heapify, From;
    var cs := Cursors(inputs);
    CursorsAreGood(inputs);
    StartIsGood(inputs);
    CursorsBySource(inputs, src);
    if CursorOf(src, inputs[src]) != [] {
      var c := Cursor(src, StableSort(inputs[src].value), 0);
      HeapifyMembers(cs, |cs| / 2, c);
      CursorIsWritten(Start(inputs), c);
      assert c.entries[0..] == c.entries;
    } else {
      HeapifySum(cs, |cs| / 2, HasSource(src));
      AbsentSourceWritesNothing(Start(inputs), src);
    }
  }

  lemma DumpIsPermutation(inputs: Reads)
    ensures multiset(Written(Dump(inputs))) == multiset(AllRead(inputs))
  {
    hide Lines, Heapify, Written, AllRead, Cursors;
    var cs := Cursors(inputs);
    CursorsAreGood(inputs);
    forall e ensures multiset(Written(Dump(inputs)))[e] == multiset(AllRead(inputs))[e] {
      LinesPermute(Start(inputs), e);
      HeapifySum(cs, |cs| / 2, CountIn(e));
      CursorsCount(inputs, e);
      SumIsCount(Written(Dump(inputs)), e);
      SumIsCount(AllRead(inputs), e);
    }
  }

  // ---------- the code ----------

  lemma UnfoldSift(h: Heap, i: nat, n: nat)
    requires n <= |h| && AllLive(h, n) && i < n
    ensures 2 * i + 1 >= n ==> SiftDown(h, i, n) == h
    ensures 2 * i + 1 < n ==>
              var j := MinChild(h, i, n);
              if Key(h[j]) < Key(h[i])
              then AllLive(Swap(h, i, j), n) && SiftDown(h, i, n) == SiftDown(Swap(h, i, j), j, n)
              else SiftDown(h, i, n) == h
  {
  }

  /** `down` of container/heap. */
  method Down(start: Heap, i0: nat, n: nat) returns (h: Heap, moved: bool)
    requires n <= |start| && AllLive(start, n) && i0 < n
    ensures h == SiftDown(start, i0, n)
    ensures !moved ==> h == start
  {
    hide SiftDown, Swap, Stamp;
    h := start;
    var i := i0;
    while true
      invariant i0 <= i < n && |h| == |start| && AllLive(h, n)
      invariant SiftDown(h, i, n) == SiftDown(start, i0, n)
      invariant i == i0 ==> h == start
      decreases n - i
    {
      UnfoldSift(h, i, n);
      var j := 2 * i + 1;
      if j >= n { break; }
      if j + 1 < n && Key(h[j + 1]) < Key(h[j]) { j := j + 1; }
      assert j == MinChild(h, i, n);
      if !(Key(h[j]) < Key(h[i])) { break; }
      h := Swap(h, i, j);
      i := j;
    }
    moved := i > i0;
  }

  /** The heap order holds except between `j` and its parent. */
  ghost predicate OrderedAbove(h: Heap, j: nat) {
    && AllLive(h, |h|)
    && (forall k :: 0 < k < |h| && k != j ==> Key(h[Parent(k)]) <= Key(h[k]))
    && (forall k :: 0 < k < |h| && Parent(k) == j && 0 < j < |h| ==> Key(h[Parent(j)]) <= Key(h[k]))
  }

  lemma SwapUp(h: Heap, j: nat)
    requires 0 < j < |h| && OrderedAbove(h, j) && Key(h[j]) < Key(h[Parent(j)])
    ensures OrderedAbove(Swap(h, Parent(j), j), Parent(j))
  {
    hide Stamp;
    var p := Parent(j);
    var r := Swap(h, p, j);
    forall k | 0 < k < |r| && k != p ensures Key(r[Parent(k)]) <= Key(r[k]) {
      assert k != j ==> Key(h[Parent(k)]) <= Key(h[k]);
    }
    forall k | 0 < k < |r| && Parent(k) == p && 0 < p ensures Key(r[Parent(p)]) <= Key(r[k]) {
      assert Key(h[Parent(p)]) <= Key(h[p]);
      assert k != j ==> Key(h[p]) <= Key(h[k]);
    }
  }

  /** `up` of container/heap, which Fix calls on a cursor that did not move down. */
  method Up(start: Heap, j0: nat) returns (h: Heap)
    requires j0 < |start| && OrderedAbove(start, j0)
    ensures IsHeap(h) && |h| == |start|
    ensures j0 == 0 ==> h == start
  {
    hide Stamp, Swap;
    h := start;
    var j := j0;
    while j > 0 && Key(h[j]) < Key(h[Parent(j)])
      invariant 0 <= j < |h| == |start| && OrderedAbove(h, j)
      invariant j0 == 0 ==> h == start && j == 0
      decreases j
    {
      SwapUp(h, j);
      h := Swap(h, Parent(j), j);
      j := Parent(j);
    }
  }

  method InitHeap(start: Heap) returns (h: Heap)
    requires AllLive(start, |start|)
    ensures h == Heapify(start, |start| / 2)
  {
    h := start;
    hide SiftDown;
    var i: nat := |start| / 2;
    while i > 0
      invariant i <= |h| == |start| && AllLive(h, |h|)
      invariant Heapify(h, i) == Heapify(start, |start| / 2)
    {
      var moved;
      i := i - 1;
      h, moved := Down(h, i, |h|);
    }
  }

  /** heap.Fix or heap.Pop after the root's line has been written. */
  method NextTurn(start: Heap) returns (h: Heap)
    requires start != [] && IsHeap(start)
    ensures h == Advance(start)
  {
    h := start[0 := Next(start[0])];
    var moved;
    if h[0].idx >= |h[0].entries| {
      var n := |h| - 1;
      h := Swap(h, 0, n);
      if n > 0 {
        h, moved := Down(h, 0, n);
      }
      h := h[..n];
    } else {
      ghost var fixed := h;
      h, moved := Down(h, 0, |h|);
      if !moved {
        AdvanceKeepsHeap(start);
        h := Up(h, 0);
      }
    }
  }

  /** Reads and sorts every source; one that fails is skipped. */
  method Collect(inputs: Reads) returns (pq: Heap)
    ensures pq == Cursors(inputs)
  {
    pq := [];
    for i := 0 to |inputs|
      invariant pq == Cursors(inputs[..i])
    {
      assert inputs[..i + 1][..i] == inputs[..i];
      if inputs[i].Some? {
        var entries := StableSort(inputs[i].value);
        StableSortIsStable(inputs[i].value, 0);
        if |entries| > 0 {
          pq := pq + [Cursor(i, entries, 0)];
        }
      }
    }
    assert inputs[..|inputs|] == inputs;
  }

  /** The loop of `Merge`: one line a turn, until the cap, a failing writer or the end. */
  method WriteLines(start: Heap, maxLines: int, failAt: Option<nat>) returns (out: seq<Line>, written: nat, ok: bool)
    requires IsHeap(start)
    ensures var all := Lines(start);
      var goal := if 0 < maxLines < |all| then maxLines else |all|;
      && written == |out| <= goal && out == all[..written]
      && (ok ==> written == goal) && (!ok ==> failAt == Some(written))
  {
    hide Lines, Advance, SiftDown, Key;
    var pq := start;
    out, written := [], 0;
    while |pq| > 0 && !(maxLines > 0 && written >= maxLines)
      invariant IsHeap(pq) && written == |out| && (maxLines > 0 ==> written <= maxLines)
      invariant out + Lines(pq) == Lines(start)
      decreases Remaining(pq)
    {
      if failAt == Some(written) {
        return out, written, false;
      }
      var head := pq[0];
      UnfoldLines(pq);
      AdvanceKeepsHeap(pq);
      out := out + [Line(head.src, head.entries[head.idx])];
      written := written + 1;
      pq := NextTurn(pq);
    }
    NoLines(pq);
    return out, written, true;
  }

  /**
   The dump: a prefix of the uncapped merge, cut short only by the line cap or by a failing writer.
   `failAt` is the line whose encoding fails, if any.
   */
  method Merge(inputs: Reads, maxLines: int, failAt: Option<nat>) returns (out: seq<Line>, written: nat, ok: bool)
    ensures var all := Dump(inputs);
      var goal := if 0 < maxLines < |all| then maxLines else |all|;
      && written == |out| <= goal && out == all[..written]
      && (ok ==> written == goal) && (!ok ==> failAt == Some(written))
    ensures Chronological(out)
  {
    hide Lines, Heapify, Cursors, Chronological;
    var pq := Collect(inputs);
    CursorsAreGood(inputs);
    pq := InitHeap(pq);
    StartIsGood(inputs);
    out, written, ok := WriteLines(pq, maxLines, failAt);
    PrefixIsChronological(inputs, out);
  }

  lemma PrefixIsChronological(inputs: Reads, out: seq<Line>)
    requires |out| <= |Dump(inputs)| && out == Dump(inputs)[..|out|]
    ensures Chronological(out)
  {
    hide Dump, NotAfter;
    DumpIsSorted(inputs);
  }

  lemma NoLines(h: Heap)
    requires AllLive(h, |h|)
    ensures h == [] <==> Lines(h) == []
  {
  }
}
