/**
 `bufio.Reader.ReadSlice` over a file that only grows, and the line reading of
 internal/source/file.go built on it.

 `text` is everything the file will ever hold. A read returns some bytes of it or reports the end of
 the file; `chunks` lists the outcomes of the coming reads, 0 standing for "nothing there yet". When
 the list runs out a read returns whatever fits. A file is quiescent when no read reports an end too
 early, that is, when no chunk is 0.
 */
module LineReading {

  predicate Quiescent(chunks: seq<nat>) {
    forall i :: 0 <= i < |chunks| ==> chunks[i] > 0
  }

  function Min(a: nat, b: nat): nat {
    if a < b then a else b
  }

  /** The first newline at or after `from`, or the end. */
  function NewlineFrom(text: string, from: nat): (i: nat)
    requires from <= |text|
    ensures from <= i <= |text|
    ensures forall k :: from <= k < i ==> text[k] != '\n'
    ensures i < |text| ==> text[i] == '\n'
    decreases |text| - from
  {
    if from == |text| || text[from] == '\n' then from else NewlineFrom(text, from + 1)
  }

  lemma NewlineIs(text: string, from: nat, i: nat)
    requires from <= i <= |text|
    requires forall k :: from <= k < i ==> text[k] != '\n'
    requires i < |text| ==> text[i] == '\n'
    ensures NewlineFrom(text, from) == i
  {
  }

  // ---------- ReadSlice ----------

  /** How a ReadSlice call ends. */
  datatype Status = Found | Full | Eof

  /** The reader has consumed up to `pos` and buffered up to `fetched`. */
  datatype Reader = Reader(pos: nat, fetched: nat)

  predicate Fits(text: string, size: nat, r: Reader) {
    r.pos <= r.fetched <= |text| && r.fetched - r.pos <= size
  }

  /** What a slice ending at `end` with this status says about the text. */
  ghost predicate Describes(text: string, size: nat, from: nat, end: nat, st: Status)
    requires from <= end <= |text|
  {
    match st
    case Found => end > from && NewlineFrom(text, from) == end - 1 && end - 1 < |text| && end - from <= size
    case Full => end - from == size && NewlineFrom(text, from) >= end
    case Eof => end - from < size && NewlineFrom(text, from) >= end
  }

  method ReadSlice(text: string, size: nat, r: Reader, chunks: seq<nat>)
    returns (st: Status, r': Reader, left: seq<nat>)
    requires size > 0 && Fits(text, size, r)
    ensures r.pos <= r'.pos && Fits(text, size, r')
    ensures Describes(text, size, r.pos, r'.pos, st)
    ensures Quiescent(chunks) ==> Quiescent(left) && (st == Eof ==> r'.pos == |text|)
  {
    var fetched, scanned, eof := r.fetched, r.pos, false;
    left := chunks;
    while true
      invariant r.pos <= scanned <= fetched <= |text| && fetched - r.pos <= size
      invariant forall k :: r.pos <= k < scanned ==> text[k] != '\n'
      invariant eof ==> fetched - r.pos < size
      invariant Quiescent(chunks) ==> Quiescent(left) && (eof ==> fetched == |text|)
      decreases |text| - fetched, !eof, fetched - scanned
    {
      if scanned < fetched {
        if text[scanned] == '\n' {
          NewlineIs(text, r.pos, scanned);
          return Found, Reader(scanned + 1, fetched), left;
        }
        scanned := scanned + 1;
      } else if eof {
        return Eof, Reader(fetched, fetched), left;
      } else if fetched - r.pos == size {
        return Full, Reader(fetched, fetched), left;
      } else {
        var offer := if left == [] then size else left[0];
        left := if left == [] then [] else left[1..];
        var n := Min(offer, Min(size - (fetched - r.pos), |text| - fetched));
        if n == 0 { eof := true; } else { fetched := fetched + n; }
      }
    }
  }

  // ---------- lines ----------

  const MAX_DISCARD: nat := 16 * 1024 * 1024

  /** The buffer bufio gives a reader for this line cap. */
  function BufferSize(maxLine: nat): nat {
    if maxLine < 16 then 16 else maxLine
  }

  /** Just past the line that goes on at `from`. */
  function LineEnd(text: string, from: nat): (e: nat)
    requires from <= |text|
    ensures from <= e <= |text| && (from < |text| ==> from < e)
  {
    var nl := NewlineFrom(text, from);
    if nl < |text| then nl + 1 else nl
  }

  /** The least multiple of `size` that is at least `x`. */
  function RoundUp(x: int, size: nat): (m: nat)
    requires size > 0
    ensures x <= m && (x > 0 ==> m < x + size)
    decreases x
  {
    if x <= 0 then 0 else size + RoundUp(x - size, size)
  }

  /** How far the rest of an oversized line is skipped: to its end, unless that is too far. */
  function SkipTo(text: string, from: nat, size: nat): (e: nat)
    requires from <= |text| && size > 0
    ensures from <= e <= |text| && e - from < MAX_DISCARD + size
  {
    from + Min(LineEnd(text, from) - from, RoundUp(MAX_DISCARD, size))
  }

  /** The skipping loop after `n` bytes: no newline so far, and only whole buffers read. */
  ghost predicate Skipping(text: string, size: nat, from: nat, n: nat) {
    && size > 0 && from + n <= |text| && n < MAX_DISCARD + size
    && NewlineFrom(text, from) >= from + n
    && n + RoundUp(MAX_DISCARD - n, size) == RoundUp(MAX_DISCARD, size)
  }

  lemma SkipMore(text: string, size: nat, from: nat, n: nat, end: nat, st: Status)
    requires Skipping(text, size, from, n) && n < MAX_DISCARD && from + n <= end <= |text|
    requires Describes(text, size, from + n, end, st)
    ensures end - from < MAX_DISCARD + size
    ensures st == Full ==> Skipping(text, size, from, end - from)
    ensures st == Found || (st == Eof && end == |text|) ==> end == SkipTo(text, from, size)
  {
    hide NewlineFrom;
    NewlineIs(text, from + n, NewlineFrom(text, from));
  }

  lemma SkipEnough(text: string, size: nat, from: nat, n: nat)
    requires Skipping(text, size, from, n) && n >= MAX_DISCARD
    ensures from + n == SkipTo(text, from, size)
  {
    hide NewlineFrom;
  }

  /** Skips the rest of an oversized line, up to the discard limit. */
  method SkipLine(text: string, size: nat, r: Reader, chunks: seq<nat>) returns (n: nat, r': Reader, left: seq<nat>)
    requires size > 0 && Fits(text, size, r)
    ensures Fits(text, size, r') && r'.pos == r.pos + n && n < MAX_DISCARD + size
    ensures Quiescent(chunks) ==> Quiescent(left) && r'.pos == SkipTo(text, r.pos, size)
  {
    n, r', left := 0, r, chunks;
    assert Skipping(text, size, r.pos, 0);
    hide Skipping, Describes, SkipTo, Quiescent;
    while n < MAX_DISCARD
      invariant Fits(text, size, r') && r'.pos == r.pos + n
      invariant Skipping(text, size, r.pos, n)
      invariant Quiescent(chunks) ==> Quiescent(left)
      decreases MAX_DISCARD + size - n
    {
      var st, next, rest := ReadSlice(text, size, r', left);
      SkipMore(text, size, r.pos, n, next.pos, st);
      n := n + (next.pos - r'.pos);
      if st != Full { return n, next, rest; }
      FullAdvances(text, size, r'.pos, next.pos);
      r', left := next, rest;
    }
    SkipEnough(text, size, r.pos, n);
  }

  lemma FullAdvances(text: string, size: nat, from: nat, end: nat)
    requires from <= end <= |text| && Describes(text, size, from, end, Full)
    ensures end == from + size
  {
  }

  datatype Line = NoLine | GotLine(raw: string, next: nat)

  /** What `readLine` returns at `from` of a quiescent file, and where it leaves the reader. */
  function LineAt(text: string, from: nat, maxLine: nat): (l: Line)
    requires from <= |text|
    ensures l.GotLine? ==> from < l.next <= |text|
    ensures l.NoLine? <==> from == |text|
  {
    var size := BufferSize(maxLine);
    var nl := NewlineFrom(text, from);
    if from == |text| then NoLine
    else if nl < |text| && nl + 1 - from <= size then GotLine(text[from..nl + 1], nl + 1)
    else if |text| - from >= size then GotLine(text[from..from + size] + "\n", SkipTo(text, from + size, size))
    else GotLine(text[from..], |text|)
  }

  /** The `consumeLine` cut: what the parser gets, and whether the entry is flagged. */
  function Capped(raw: string, maxLine: nat): (string, bool) {
    if |raw| > maxLine then (raw[..maxLine], true) else (raw, false)
  }

  /**
   The line cap: a newline-terminated line of length `len` (newline included) reaches the parser whole
   and unflagged exactly if it fits; otherwise its first `maxLine` bytes do, flagged. The next read
   starts at the next line exactly if the part beyond the buffer is within the discard limit.
   */
  lemma LineCap(text: string, from: nat, maxLine: nat)
    requires from <= |text| && NewlineFrom(text, from) < |text| && maxLine >= 1
    ensures LineAt(text, from, maxLine).GotLine?
    ensures var len := NewlineFrom(text, from) + 1 - from;
      var l := LineAt(text, from, maxLine);
      var (passed, flagged) := Capped(l.raw, maxLine);
      var size := BufferSize(maxLine);
      && (flagged <==> len > maxLine)
      && passed == text[from..from + Min(len, maxLine)]
      && (l.next == from + len <==> len <= size || len - size <= RoundUp(MAX_DISCARD, size))
  {
    hide NewlineFrom, RoundUp;
    var size := BufferSize(maxLine);
    var nl := NewlineFrom(text, from);
    if nl + 1 - from > size {
      NewlineIs(text, from + size, nl);
      CutBuffer(text, from, size, maxLine);
    }
  }

  /**
   A last line without a newline: it is flagged exactly if it is longer than the cap, or fills a buffer
   of exactly the cap's size, which `readLine` cannot tell from an oversized line.
   */
  lemma UnterminatedLineCap(text: string, from: nat, maxLine: nat)
    requires from < |text| && NewlineFrom(text, from) == |text| && maxLine >= 1
    ensures LineAt(text, from, maxLine).GotLine?
    ensures var len := |text| - from;
      var (passed, flagged) := Capped(LineAt(text, from, maxLine).raw, maxLine);
      && (flagged <==> len > maxLine || (len == maxLine && maxLine >= 16))
      && passed == text[from..from + Min(len, maxLine)]
  {
    hide NewlineFrom, RoundUp;
    var size := BufferSize(maxLine);
    if |text| - from >= size {
      CutBuffer(text, from, size, maxLine);
    }
  }

  lemma CutBuffer(text: string, from: nat, size: nat, maxLine: nat)
    requires from + size <= |text| && maxLine <= size
    ensures (text[from..from + size] + "\n")[..maxLine] == text[from..from + maxLine]
  {
  }

  /** Any line whose remainder is at most 16 MiB is skipped to its end. */
  lemma NormalLinesResync(text: string, from: nat, maxLine: nat)
    requires from <= |text| && NewlineFrom(text, from) < |text| && maxLine >= 1
    requires NewlineFrom(text, from) + 1 - from <= BufferSize(maxLine) + MAX_DISCARD
    ensures LineAt(text, from, maxLine).GotLine?
    ensures LineAt(text, from, maxLine).next == NewlineFrom(text, from) + 1
  {
    LineCap(text, from, maxLine);
  }

  // ---------- a whole file ----------

  /** What the parser gets from `from` to the end of a quiescent file. */
  function Passed(text: string, from: nat, maxLine: nat): seq<(string, bool)>
    requires from <= |text|
    decreases |text| - from
  {
    match LineAt(text, from, maxLine)
    case NoLine => []
    case GotLine(raw, next) => [Capped(raw, maxLine)] + Passed(text, next, maxLine)
  }

  function Joined(ps: seq<(string, bool)>): string {
    if ps == [] then "" else ps[0].0 + Joined(ps[1..])
  }

  /** No line from `from` on is longer than the cap. */
  ghost predicate ShortLines(text: string, from: nat, maxLine: nat)
    requires from <= |text|
    decreases |text| - from
  {
    from == |text| || (LineEnd(text, from) - from <= maxLine && ShortLines(text, LineEnd(text, from), maxLine))
  }

  /** The last line has no newline and exactly as many bytes as the buffer, which is the cap. */
  predicate LastFillsBuffer(text: string, from: nat, maxLine: nat)
    requires from <= |text|
  {
    && 16 <= maxLine <= |text| - from
    && NewlineFrom(text, |text| - maxLine) == |text|
    && (from == |text| - maxLine || text[|text| - maxLine - 1] == '\n')
  }

  /** Entries are flagged only at the end, and there only if the last line fills the buffer. */
  predicate FlagsOnlyLast(ps: seq<(string, bool)>, last: bool) {
    forall i :: 0 <= i < |ps| ==> (ps[i].1 <==> i == |ps| - 1 && last)
  }

  /**
   If no line exceeds the cap, not a byte is lost, added or reordered, and nothing is flagged except an
   unterminated last line that fills the buffer.
   */
  lemma {:induction false} ShortLinesPassIntact(text: string, from: nat, maxLine: nat)
    requires from <= |text| && ShortLines(text, from, maxLine)
    ensures Joined(Passed(text, from, maxLine)) == text[from..]
    ensures FlagsOnlyLast(Passed(text, from, maxLine), LastFillsBuffer(text, from, maxLine))
    decreases |text| - from
  {
    hide LineAt, Capped, LineEnd, LastFillsBuffer;
    if from == |text| {
      AtTheEnd(text, maxLine);
    } else {
      ShortLine(text, from, maxLine);
      var l := LineAt(text, from, maxLine);
      var rest := Passed(text, l.next, maxLine);
      ShortLinesPassIntact(text, l.next, maxLine);
      JoinedCons(Capped(l.raw, maxLine), rest);
      assert text[from..] == text[from..l.next] + text[l.next..];
      ShortLineFlag(text, from, maxLine);
      if l.next == |text| {
        AtTheEnd(text, maxLine);
      } else {
        assert rest != [];
        LastOfRest(text, from, maxLine);
      }
    }
  }

  /** A short line is flagged exactly if it is the last one and fills the buffer. */
  lemma ShortLineFlag(text: string, from: nat, maxLine: nat)
    requires from < |text| && LineEnd(text, from) - from <= maxLine
    ensures LineAt(text, from, maxLine).GotLine?
    ensures Capped(LineAt(text, from, maxLine).raw, maxLine).1
            <==> LineEnd(text, from) == |text| && LastFillsBuffer(text, from, maxLine)
  {
    hide RoundUp;
    if NewlineFrom(text, from) == |text| {
      UnterminatedLineCap(text, from, maxLine);
    } else {
      LineCap(text, from, maxLine);
    }
  }

  /** Whether the last line fills the buffer does not depend on the lines before it. */
  lemma LastOfRest(text: string, from: nat, maxLine: nat)
    requires from < |text| && LineEnd(text, from) < |text|
    ensures LastFillsBuffer(text, from, maxLine) <==> LastFillsBuffer(text, LineEnd(text, from), maxLine)
  {
    var nl := NewlineFrom(text, from);
    assert text[nl] == '\n';
  }

  lemma AtTheEnd(text: string, maxLine: nat)
    ensures Passed(text, |text|, maxLine) == [] && Joined([]) == "" == text[|text|..]
  {
  }

  lemma JoinedCons(p: (string, bool), ps: seq<(string, bool)>)
    ensures Joined([p] + ps) == p.0 + Joined(ps)
  {
    assert ([p] + ps)[1..] == ps;
  }

  lemma ShortLine(text: string, from: nat, maxLine: nat)
    requires from < |text| && LineEnd(text, from) - from <= maxLine
    ensures var l := LineAt(text, from, maxLine);
      l.GotLine? && l.next == LineEnd(text, from) && Capped(l.raw, maxLine).0 == text[from..l.next]
  {
    var size := BufferSize(maxLine);
    if NewlineFrom(text, from) == |text| && |text| - from == size {
      assert LineEnd(text, from + size) == from + size;
      assert (text[from..from + size] + "\n")[..maxLine] == text[from..];
    }
  }
}
