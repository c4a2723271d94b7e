/** Finite sums over sequences and maps, used to account for bytes, payloads and entries. */
module Collections {

  datatype Option<+T> = None | Some(value: T) {
    function GetOr(default: T): T {
      if Some? then value else default
    }
  }

  /** The sum of `w` over a sequence. */
  ghost function SumSeq<T>(s: seq<T>, w: T -> nat): nat {
    if s == [] then 0 else w(s[0]) + SumSeq(s[1..], w)
  }

  lemma {:induction false} SumSeqConcat<T>(s: seq<T>, t: seq<T>, w: T -> nat)
    ensures SumSeq(s + t, w) == SumSeq(s, w) + SumSeq(t, w)
  {
    if s == [] {
      assert s + t == t;
    } else {
      assert (s + t)[1..] == s[1..] + t;
      SumSeqConcat(s[1..], t, w);
    }
  }

  lemma Regroup<T>(a: seq<T>, b: seq<T>, c: seq<T>)
    ensures a + (b + c) == (a + b) + c
  {
  }

  lemma SumSeqSnoc<T>(s: seq<T>, x: T, w: T -> nat)
    ensures SumSeq(s + [x], w) == SumSeq(s, w) + w(x)
  {
    SumSeqConcat(s, [x], w);
    assert [x][1..] == [];
  }

  /** An arbitrary but fixed key of a non-empty map. */
  ghost function PickKey<K, V>(m: map<K, V>): K
    requires m != map[]
  {
    var k :| k in m; k
  }

  /** The sum of `f` over the items of a map. */
  ghost function SumMap<K, V>(m: map<K, V>, f: (K, V) -> nat): nat
    decreases |m|
  {
    if m == map[] then 0 else
      var k := PickKey(m);
      f(k, m[k]) + SumMap(m - {k}, f)
  }

  /** The sum does not depend on the order in which the items are visited. */
  lemma {:induction false} SumMapRemove<K, V>(m: map<K, V>, f: (K, V) -> nat, k: K)
    requires k in m
    ensures SumMap(m, f) == f(k, m[k]) + SumMap(m - {k}, f)
    decreases |m|
  {
    var x := PickKey(m);
    if x != k {
      SumMapRemove(m - {x}, f, k);
      SumMapRemove(m - {k}, f, x);
      assert m - {x} - {k} == m - {k} - {x};
    }
  }

  lemma SumMapInsert<K, V>(m: map<K, V>, f: (K, V) -> nat, k: K, v: V)
    requires k !in m
    ensures SumMap(m[k := v], f) == f(k, v) + SumMap(m, f)
  {
    SumMapRemove(m[k := v], f, k);
    assert m[k := v] - {k} == m;
  }

  /** The indicator of `x`: summing it counts occurrences. */
  ghost function Is<T>(x: T): T -> nat {
    (y: T) => if y == x then 1 else 0
  }

  lemma {:induction false} SumIsCount<T>(s: seq<T>, x: T)
    ensures SumSeq(s, Is(x)) == multiset(s)[x]
  {
    if s != [] {
      SumIsCount(s[1..], x);
      assert s == [s[0]] + s[1..];
    }
  }

  /** A sequence with one element taken out. */
  function Without<T>(s: seq<T>, i: nat): seq<T>
    requires i < |s|
  {
    s[..i] + s[i + 1..]
  }

  lemma BagWithout<T>(s: seq<T>, i: nat)
    requires i < |s|
    ensures multiset(s) == multiset(Without(s, i)) + multiset{s[i]}
  {
    assert s == s[..i] + [s[i]] + s[i + 1..];
  }

  lemma SumWithout<T>(s: seq<T>, i: nat, w: T -> nat)
    requires i < |s|
    ensures SumSeq(s, w) == SumSeq(Without(s, i), w) + w(s[i])
  {
    hide SumSeq;
    assert s == s[..i] + [s[i]] + s[i + 1..];
    SumSeqConcat(s[..i] + [s[i]], s[i + 1..], w);
    SumSeqSnoc(s[..i], s[i], w);
    SumSeqConcat(s[..i], s[i + 1..], w);
  }

  lemma BagOfSnoc<T>(s: seq<T>, x: T)
    ensures multiset(s + [x]) == multiset(s) + multiset{x}
  {
  }

  lemma CancelOne<T>(x: multiset<T>, y: multiset<T>, e: T)
    requires x + multiset{e} == y + multiset{e}
    ensures x == y
  {
    forall z ensures x[z] == y[z] {
      assert (x + multiset{e})[z] == (y + multiset{e})[z];
    }
  }

  /** Reordering does not change a sum. */
  lemma {:induction false} SumOfPermutation<T>(a: seq<T>, b: seq<T>, w: T -> nat)
    requires multiset(a) == multiset(b)
    ensures SumSeq(a, w) == SumSeq(b, w)
    decreases |a|
  {
    if a == [] {
      assert |multiset(b)| == |b|;
    } else {
      hide SumSeq, Without;
      assert a[0] in multiset(b);
      var i :| 0 <= i < |b| && b[i] == a[0];
      BagWithout(a, 0);
      BagWithout(b, i);
      SumWithout(a, 0, w);
      SumWithout(b, i, w);
      WithoutIsShorter(a, 0);
      CancelOne(multiset(Without(a, 0)), multiset(Without(b, i)), a[0]);
      SumOfPermutation(Without(a, 0), Without(b, i), w);
    }
  }

  lemma WithoutIsShorter<T>(s: seq<T>, i: nat)
    requires i < |s|
    ensures |Without(s, i)| == |s| - 1
  {
  }
}
