/**
 The bounded ring of internal/pipeline/ring.go: a circular array with an entry cap, a byte cap
 and drop-oldest, shown to behave as a plain sequence.
 */
module Ring {
  import opened Collections
  import opened Entries

  // ---------- sizes ----------

  ghost function FieldBytes(): (string, string) -> nat {
    (k: string, v: string) => |k| + |v| + 8
  }

  /** The approximate footprint of an entry. */
  ghost function ApproxBytes(e: LogEntry): nat {
    64 + |e.message| + |e.hostname| + |e.process| + |e.source| + SumMap(e.fields, FieldBytes())
  }

  /** Go visits a map in any order; the estimate does not depend on it. */
  method ComputeApproxBytes(e: LogEntry) returns (n: nat)
    ensures n == ApproxBytes(e)
  {
    n := 64 + |e.message| + |e.hostname| + |e.process| + |e.source|;
    var left := e.fields;
    while left != map[]
      invariant left.Keys <= e.fields.Keys && forall k :: k in left ==> left[k] == e.fields[k]
      invariant n + SumMap(left, FieldBytes()) == ApproxBytes(e)
      decreases |left|
    {
      var k :| k in left;
      SumMapRemove(left, FieldBytes(), k);
      n := n + |k| + |left[k]| + 8;
      ghost var before := left;
      left := left - {k};
      assert before == left[k := before[k]];
    }
  }

  /** An entry without text and fields costs 64. */
  lemma EstimateOfBareEntry(e: LogEntry)
    requires e.message == e.hostname == e.process == e.source == "" && e.fields == map[]
    ensures ApproxBytes(e) == 64
  {
  }

  /** Every character of a text counts one; the other parts of an entry do not matter. */
  lemma EstimateOfTexts(e: LogEntry, message: string, hostname: string, process: string, source: string)
    ensures var bare := e.(message := "", hostname := "", process := "", source := "");
      ApproxBytes(e.(message := message, hostname := hostname, process := process, source := source))
      == ApproxBytes(bare) + |message| + |hostname| + |process| + |source|
  {
  }

  lemma EstimateIgnores(e: LogEntry, timestamp: Time, level: Level, facility: int, pid: int)
    ensures ApproxBytes(e.(timestamp := timestamp, level := level, facility := facility, pid := pid)) == ApproxBytes(e)
  {
  }

  /** A new field counts its key, its value and eight more. */
  lemma EstimateOfField(e: LogEntry, k: string, v: string)
    requires k !in e.fields
    ensures ApproxBytes(e.(fields := e.fields[k := v])) == ApproxBytes(e) + |k| + |v| + 8
  {
    SumMapInsert(e.fields, FieldBytes(), k, v);
  }

  ghost function Cost(): LogEntry -> nat {
    (e: LogEntry) => ApproxBytes(e)
  }

  ghost function Bytes(q: seq<LogEntry>): nat {
    SumSeq(q, Cost())
  }

  // ---------- the sequence a ring stands for ----------

  /** `maxEntries` is at least 1; a byte cap of 0 or less means none. */
  datatype Caps = Caps(maxEntries: nat, maxBytes: int)

  /** Whether an entry of size `cost` can go behind `q`. An empty queue always takes one. */
  ghost predicate HasRoom(c: Caps, q: seq<LogEntry>, cost: nat) {
    |q| + 1 <= c.maxEntries && (c.maxBytes <= 0 || q == [] || Bytes(q) + cost <= c.maxBytes)
  }

  /** How many oldest entries a push drops: the fewest that make room. */
  ghost predicate IsDropCount(c: Caps, q: seq<LogEntry>, cost: nat, k: nat) {
    k <= |q| && HasRoom(c, q[k..], cost) && forall j :: 0 <= j < k ==> !HasRoom(c, q[j..], cost)
  }

  ghost function DropCount(c: Caps, q: seq<LogEntry>, cost: nat): (k: nat)
    requires c.maxEntries >= 1
    ensures IsDropCount(c, q, cost, k)
  {
    if HasRoom(c, q, cost) then assert q[0..] == q; 0
    else
      var k := DropCount(c, q[1..], cost);
      assert forall j :: 1 <= j <= |q| ==> q[j..] == q[1..][j - 1..];
      assert q[0..] == q;
      1 + k
  }

  lemma DropCountIsUnique(c: Caps, q: seq<LogEntry>, cost: nat, k: nat)
    requires c.maxEntries >= 1 && IsDropCount(c, q, cost, k)
    ensures k == DropCount(c, q, cost)
  {
  }

  /** The contents after pushing `e`. */
  ghost function Pushed(c: Caps, q: seq<LogEntry>, e: LogEntry): seq<LogEntry>
    requires c.maxEntries >= 1
  {
    q[DropCount(c, q, ApproxBytes(e))..] + [e]
  }

  /** The bounds every reachable ring respects. One oversized entry may stand alone. */
  ghost predicate WithinCaps(c: Caps, q: seq<LogEntry>) {
    |q| <= c.maxEntries && (c.maxBytes <= 0 || |q| <= 1 || Bytes(q) <= c.maxBytes)
  }

  lemma PushStaysWithinCaps(c: Caps, q: seq<LogEntry>, e: LogEntry)
    requires c.maxEntries >= 1
    ensures WithinCaps(c, Pushed(c, q, e))
    ensures var after := Pushed(c, q, e);
      |after| <= c.maxEntries && (c.maxBytes <= 0 || after == [e] || SumSeq(after, Cost()) <= c.maxBytes)
  {
    SumSeqSnoc(q[DropCount(c, q, ApproxBytes(e))..], e, Cost());
  }

  /** A longer suffix never fits where a shorter one does not: dropping is monotone. */
  lemma RoomIsMonotone(c: Caps, q: seq<LogEntry>, cost: nat, j: nat)
    requires j <= |q| && HasRoom(c, q, cost)
    ensures HasRoom(c, q[j..], cost)
  {
    assert q == q[..j] + q[j..];
    SumSeqConcat(q[..j], q[j..], Cost());
  }

  /**
   The kept part of a push is the longest suffix that leaves room: what is left after dropping `j` entries
   and the new entry are within both caps, or the new entry stands alone, exactly if `j` is at least the
   number dropped.
   */
  lemma PushKeepsLongestSuffix(c: Caps, q: seq<LogEntry>, e: LogEntry, j: nat)
    requires c.maxEntries >= 1 && j <= |q|
    ensures j >= DropCount(c, q, ApproxBytes(e))
            <==> (|q| - j + 1 <= c.maxEntries
                  && (c.maxBytes <= 0 || j == |q| || SumSeq(q[j..], Cost()) + ApproxBytes(e) <= c.maxBytes))
  {
    DropCountSplits(c, q, ApproxBytes(e), j);
  }

  lemma DropCountSplits(c: Caps, q: seq<LogEntry>, cost: nat, j: nat)
    requires c.maxEntries >= 1 && j <= |q|
    ensures HasRoom(c, q[j..], cost) <==> j >= DropCount(c, q, cost)
  {
    hide HasRoom, DropCount;
    var k := DropCount(c, q, cost);
    if j >= k {
      RoomIsMonotone(c, q[k..], cost, j - k);
      assert q[k..][j - k..] == q[j..];
    }
  }

  ghost function MessageLength(): LogEntry -> nat {
    (e: LogEntry) => |e.message|
  }

  lemma {:induction false} BytesCoverMessages(q: seq<LogEntry>)
    ensures SumSeq(q, MessageLength()) + 64 * |q| <= Bytes(q)
  {
    if q != [] {
      BytesCoverMessages(q[1..]);
    }
  }

  /** The byte cap bounds memory: the messages and 64 bytes an entry fit it, unless one entry stands alone. */
  lemma ByteCapBoundsMessages(c: Caps, q: seq<LogEntry>)
    requires WithinCaps(c, q) && c.maxBytes > 0 && |q| > 1
    ensures SumSeq(q, MessageLength()) + 64 * |q| <= c.maxBytes
  {
    BytesCoverMessages(q);
  }

  /** Taking the oldest entry keeps the bounds. */
  lemma PopStaysWithinCaps(c: Caps, q: seq<LogEntry>)
    requires q != [] && WithinCaps(c, q)
    ensures WithinCaps(c, q[1..]) && Bytes(q) == ApproxBytes(q[0]) + Bytes(q[1..])
  {
  }

  lemma Wrap(a: nat, n: nat)
    requires 0 < n && a < 2 * n
    ensures a % n == if a < n then a else a - n
  {
  }

  // ---------- the ring ----------

  /** What producers and the owner of the context do. */
  datatype Action = Produce(e: LogEntry) | CloseRing | CancelContext

  class RingBuffer {
    const caps: Caps
    const buf: array<Option<LogEntry>>
    var head: nat
    var size: nat
    var bytes: int
    var closed: bool
    var notify: bool              // the one-slot notify channel holds a token
    var drops: nat
    ghost var contents: seq<LogEntry>  // the entries, oldest first

    /** The slot of the i-th oldest entry. */
    ghost function Slot(i: nat): nat
      reads this`head
    {
      if head + i < buf.Length then head + i else head + i - buf.Length
    }

    /** The occupied slots are the `size` ones from `head` on, wrapping around; all others are nil. */
    ghost predicate Shape()
      reads this`head, this`size, this`bytes, this`contents, buf
    {
      && 1 <= caps.maxEntries == buf.Length
      && head < buf.Length
      && size == |contents| <= buf.Length
      && (forall i :: 0 <= i < size ==> buf[Slot(i)] == Some(contents[i]))
      && (forall i :: size <= i < buf.Length ==> buf[Slot(i)] == None)
      && bytes == Bytes(contents)
    }

    ghost predicate Valid()
      reads this`head, this`size, this`bytes, this`contents, buf
    {
      Shape() && WithinCaps(caps, contents)
    }

    constructor (maxEntries: int, maxBytes: int)
      ensures caps == Caps(if maxEntries <= 0 then 10000 else maxEntries, maxBytes)
      ensures Valid() && fresh(buf) && contents == []
      ensures !closed && !notify && drops == 0
    {
      var n := if maxEntries <= 0 then 10_000 else maxEntries;
      caps := Caps(n, maxBytes);
      buf := new Option<LogEntry>[n](_ => None);
      head, size, bytes, closed, notify, drops := 0, 0, 0, false, false, 0;
      contents := [];
    }

    /** Removes the oldest entry: the step shared by Push, TryPop and PopBatch. */
    method RemoveOldest() returns (e: LogEntry)
      requires Shape() && size > 0
      modifies this`head, this`size, this`bytes, this`contents, buf
      ensures Shape()
      ensures e == old(contents)[0] && contents == old(contents)[1..]
    {
      e := buf[head].value;
      assert Slot(0) == head && e == contents[0];
      buf[head] := None;
      Wrap(head + 1, caps.maxEntries);
      head := (head + 1) % caps.maxEntries;
      size := size - 1;
      var cost := ComputeApproxBytes(e);
      bytes := bytes - cost;
      contents := contents[1..];
      assert forall i :: 0 <= i < buf.Length - 1 ==> Slot(i) == old(Slot(i + 1));
      assert Slot(buf.Length - 1) == old(Slot(0));
    }

    /** Drops the fewest oldest entries that make room for one of size `cost`. */
    method MakeRoom(cost: nat)
      requires Shape()
      modifies this`head, this`size, this`bytes, this`contents, this`drops, buf
      ensures Shape()
      ensures var k := DropCount(caps, old(contents), cost);
        contents == old(contents)[k..] && drops == old(drops) + k
    {
      ghost var q, k := contents, 0;
      assert q[0..] == q;
      while size + 1 > caps.maxEntries || (caps.maxBytes > 0 && bytes + cost > caps.maxBytes && size > 0)
        invariant Shape()
        invariant k <= |q| && contents == q[k..] && drops == old(drops) + k
        invariant forall j :: 0 <= j < k ==> !HasRoom(caps, q[j..], cost)
        decreases size
      {
        hide Slot, Bytes, ApproxBytes;
        assert !HasRoom(caps, q[k..], cost);
        var oldest := RemoveOldest();
        drops := drops + 1;
        k := k + 1;
        assert contents == q[k..];
      }
      DropCountIsUnique(caps, q, cost, k);
    }

    /** Writes `e` behind the newest entry. */
    method PutNewest(e: LogEntry, cost: nat)
      requires Shape() && size < caps.maxEntries && cost == ApproxBytes(e)
      modifies this`size, this`bytes, this`contents, buf
      ensures Shape() && contents == old(contents) + [e]
    {
      Wrap(head + size, caps.maxEntries);
      var tail := (head + size) % caps.maxEntries;
      assert tail == Slot(size);
      buf[tail] := Some(e);
      SumSeqSnoc(contents, e, Cost());
      size := size + 1;
      bytes := bytes + cost;
      contents := contents + [e];
    }

    /** Enqueues `e`, dropping and counting the fewest oldest entries that make room. */
    method Push(e: Option<LogEntry>) returns (ok: bool)
      requires Valid()
      modifies this, buf
      ensures Valid() && closed == old(closed)
      ensures ok <==> e.None? || !closed
      ensures e.None? || closed ==>
                contents == old(contents) && drops == old(drops) && notify == old(notify)
      ensures e.Some? && !closed ==>
                && contents == Pushed(caps, old(contents), e.value)
                && drops == old(drops) + DropCount(caps, old(contents), ApproxBytes(e.value))
                && notify
      ensures caps.maxBytes > 0 && |contents| > 1 ==>
                SumSeq(contents, MessageLength()) + 64 * |contents| <= caps.maxBytes
    {
      hide Bytes, ApproxBytes, Slot, SumSeq;
      if caps.maxBytes > 0 && |contents| > 1 {
        ByteCapBoundsMessages(caps, contents);
      }
      if e.None? { return true; }
      var cost := ComputeApproxBytes(e.value);
      if closed { return false; }
      MakeRoom(cost);
      PutNewest(e.value, cost);
      notify := true;
      PushStaysWithinCaps(caps, old(contents), e.value);
      if caps.maxBytes > 0 && |contents| > 1 {
        ByteCapBoundsMessages(caps, contents);
      }
      return true;
    }

    /** The oldest entry, if any; `drained` says that the ring is closed and empty. */
    method TryPop() returns (entry: Option<LogEntry>, drained: bool)
      requires Valid()
      modifies this`head, this`size, this`bytes, this`contents, buf
      ensures Valid()
      ensures old(contents) == [] ==> entry == None && drained == closed && contents == []
      ensures old(contents) != [] ==>
                entry == Some(old(contents)[0]) && !drained && contents == old(contents)[1..]
    {
      if size == 0 { return None, closed; }
      var e := RemoveOldestValid();
      return Some(e), false;
    }

    /** Up to `maxN` oldest entries, in order. */
    method PopBatch(maxN: int) returns (out: seq<LogEntry>)
      requires Valid()
      modifies this`head, this`size, this`bytes, this`contents, buf
      ensures Valid()
      ensures var n := if maxN <= 0 then 0 else if maxN < |old(contents)| then maxN else |old(contents)|;
        out == old(contents)[..n] && contents == old(contents)[n..]
    {
      out := [];
      if maxN <= 0 { return; }
      ghost var q := contents;
      assert q[..0] == [] && q[0..] == q;
      while |out| < maxN && size > 0
        invariant Valid() && |out| <= maxN && |out| <= |q|
        invariant out == q[..|out|] && contents == q[|out|..]
        decreases size
      {
        hide Bytes, Slot;
        var e;
        e := RemoveOldestValid();
        out := out + [e];
      }
    }

    method RemoveOldestValid() returns (e: LogEntry)
      requires Valid() && size > 0
      modifies this`head, this`size, this`bytes, this`contents, buf
      ensures Valid()
      ensures e == old(contents)[0] && contents == old(contents)[1..]
    {
      PopStaysWithinCaps(caps, contents);
      e := RemoveOldest();
    }

    method Close()
      modifies this`closed
      ensures closed
    {
      closed := true;
    }
  }
}
