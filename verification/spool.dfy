/**
 The on-disk spool of internal/transport/spool.go: one file per batch, written to a
 temporary name and renamed, listed in name order, evicted oldest first.

 The directory is a map from file name to content, and holds names that `Append` made. What the
 operating system decides (the clock, which call fails, which file cannot be removed) is a parameter.
 */
module SpoolStore {
  import opened Collections
  import opened Names

  type Byte = b: int | 0 <= b < 256
  type Bytes = seq<Byte>
  type Directory = map<Name, Bytes>

  // ---------- sorted listings ----------

  predicate Ascending(s: seq<Name>) {
    forall i, j :: 0 <= i < j < |s| ==> Before(s[i], s[j])
  }

  ghost function Elements(s: seq<Name>): set<Name> {
    set x | x in s
  }

  predicate IsLeast(m: Name, s: set<Name>) {
    m in s && forall x :: x in s && x != m ==> Before(m, x)
  }

  lemma {:induction false} LeastExists(s: set<Name>)
    requires s != {}
    ensures exists m :: IsLeast(m, s)
    ensures forall m, m' :: IsLeast(m, s) && IsLeast(m', s) ==> m == m'
    decreases |s|
  {
    var x :| x in s;
    if s == {x} {
      assert IsLeast(x, s);
    } else {
      LeastExists(s - {x});
      var m :| IsLeast(m, s - {x});
      BeforeTotal(x, m);
      if Before(x, m) {
        forall y | y in s && y != x ensures Before(x, y) {
          if y != m {
            BeforeTransitive(x, m, y);
          }
        }
        assert IsLeast(x, s);
      } else {
        assert IsLeast(m, s);
      }
    }
    forall m, m' | IsLeast(m, s) && IsLeast(m', s) ensures m == m' {
      if m != m' {
        BeforeTransitive(m, m', m);
        BeforeIrreflexive(m);
      }
    }
  }

  /** `sort.Strings` of a set of distinct names. */
  function Sorted(s: set<Name>): (r: seq<Name>)
    ensures Ascending(r)
    ensures forall x :: x in r <==> x in s
    decreases |s|
  {
    if s == {} then [] else
      LeastExists(s);
      var m :| IsLeast(m, s);
      var rest := Sorted(s - {m});
      LeastFirst(s, m, rest);
      [m] + rest
  }

  lemma LeastFirst(s: set<Name>, m: Name, rest: seq<Name>)
    requires IsLeast(m, s) && Ascending(rest) && forall x :: x in rest <==> x in s - {m}
    ensures Ascending([m] + rest) && forall x :: x in [m] + rest <==> x in s
  {
    hide Before;
    assert forall i :: 0 <= i < |rest| ==> rest[i] in s - {m};
  }

  lemma SortedElements(s: set<Name>)
    ensures Elements(Sorted(s)) == s
  {
  }

  lemma {:induction false} SortedIsUnique(a: seq<Name>, b: seq<Name>)
    requires Ascending(a) && Ascending(b)
    requires forall x :: x in a <==> x in b
    ensures a == b
  {
    assert Elements(a) == Elements(b);
    NoElements(a);
    NoElements(b);
    if a != [] {
      HeadIsLeast(a);
      HeadIsLeast(b);
      LeastExists(Elements(a));
      assert a[0] == b[0];
      HeadOnce(a);
      HeadOnce(b);
      SortedIsUnique(a[1..], b[1..]);
      assert a == [a[0]] + a[1..] && b == [b[0]] + b[1..];
    }
  }

  lemma NoElements(a: seq<Name>)
    ensures a == [] <==> Elements(a) == {}
  {
    if a != [] {
      assert a[0] in Elements(a);
    }
  }

  lemma HeadIsLeast(a: seq<Name>)
    requires a != [] && Ascending(a)
    ensures IsLeast(a[0], Elements(a))
  {
  }

  lemma HeadOnce(a: seq<Name>)
    requires a != [] && Ascending(a)
    ensures Ascending(a[1..])
    ensures forall x :: x in a[1..] <==> x in a && x != a[0]
  {
    BeforeIrreflexive(a[0]);
    assert a == [a[0]] + a[1..];
    assert forall i :: 0 <= i < |a[1..]| ==> Before(a[0], a[1..][i]);
  }

  /** The part of a listing that `List` returns. */
  function OnlySpoolFiles(s: seq<Name>): seq<Name> {
    if s == [] then []
    else Kept(s[0]) + OnlySpoolFiles(s[1..])
  }

  function Kept(n: Name): seq<Name> {
    if IsSpoolFile(Render(n)) then [n] else []
  }

  lemma OnlySpoolFilesCons(s: seq<Name>)
    requires s != []
    ensures OnlySpoolFiles(s) == Kept(s[0]) + OnlySpoolFiles(s[1..])
  {
  }

  lemma {:induction false} OnlyFinalNames(s: seq<Name>)
    ensures forall x :: x in OnlySpoolFiles(s) <==> x in s && !x.tmp
  {
    if s != [] {
      hide IsSpoolFile, Render;
      RenderedKind(s[0]);
      OnlyFinalNames(s[1..]);
      assert s == [s[0]] + s[1..];
    }
  }

  lemma {:induction false} OnlySpoolFilesAscending(s: seq<Name>)
    requires Ascending(s)
    ensures Ascending(OnlySpoolFiles(s))
  {
    if s != [] {
      hide IsSpoolFile, Render, Before;
      OnlyFinalNames(s[1..]);
      OnlySpoolFilesAscending(s[1..]);
      assert forall x :: x in s[1..] ==> Before(s[0], x);
    }
  }

  lemma {:induction false} OnlySpoolFilesConcat(s: seq<Name>, t: seq<Name>)
    ensures OnlySpoolFiles(s + t) == OnlySpoolFiles(s) + OnlySpoolFiles(t)
  {
    hide Kept;
    if s == [] {
      assert s + t == t;
    } else {
      hide OnlySpoolFiles;
      assert (s + t)[1..] == s[1..] + t;
      OnlySpoolFilesCons(s);
      OnlySpoolFilesCons(s + t);
      OnlySpoolFilesConcat(s[1..], t);
    }
  }

  /** What `List` returns for a directory. */
  function Listing(d: Directory): (r: seq<Name>)
    ensures Ascending(r)
    ensures forall x :: x in r <==> x in d && !x.tmp
  {
    OnlySpoolFilesAscending(Sorted(d.Keys));
    OnlyFinalNames(Sorted(d.Keys));
    OnlySpoolFiles(Sorted(d.Keys))
  }

  // ---------- sizes and eviction ----------

  ghost function FileSize(): (Name, Bytes) -> nat {
    (n: Name, b: Bytes) => |b|
  }

  /** The size of all regular files, temporaries included. */
  ghost function Total(d: Directory): nat {
    SumMap(d, FileSize())
  }

  /** Every file counts its length, temporary or final. */
  lemma TotalCounts(d: Directory, n: Name, b: Bytes)
    requires n !in d
    ensures Total(map[]) == 0 && Total(d[n := b]) == Total(d) + |b|
  {
    SumMapInsert(d, FileSize(), n, b);
  }

  /** The directory after the removable ones among the `k` oldest files are gone. */
  ghost function WithoutFirst(d: Directory, names: seq<Name>, k: nat, stuck: set<Name>): Directory
    requires k <= |names|
  {
    d - (Elements(names[..k]) - stuck)
  }

  ghost function WithoutOldest(d: Directory, k: nat, stuck: set<Name>): Directory
    requires k <= |Sorted(d.Keys)|
  {
    WithoutFirst(d, Sorted(d.Keys), k, stuck)
  }

  ghost predicate OverCapBefore(d: Directory, names: seq<Name>, cap: nat, stuck: set<Name>, k: nat)
    requires k <= |names|
  {
    forall j :: 0 <= j < k ==> Total(WithoutFirst(d, names, j, stuck)) > cap
  }

  /** `k` is where the eviction loop stops: the cap is met there and at no earlier point. */
  ghost predicate EvictionPoint(d: Directory, cap: nat, stuck: set<Name>, k: nat) {
    && k <= |Sorted(d.Keys)|
    && (Total(WithoutOldest(d, k, stuck)) <= cap || k == |Sorted(d.Keys)|)
    && OverCapBefore(d, Sorted(d.Keys), cap, stuck, k)
  }

  /** The state of the eviction loop after `k` files. */
  ghost predicate EvictedSoFar(d: Directory, names: seq<Name>, cap: nat, stuck: set<Name>, k: nat, left: Directory) {
    k <= |names| && left == WithoutFirst(d, names, k, stuck) && OverCapBefore(d, names, cap, stuck, k)
  }

  lemma EvictionStart(d: Directory, names: seq<Name>, cap: nat, stuck: set<Name>)
    ensures EvictedSoFar(d, names, cap, stuck, 0, d)
  {
    assert WithoutFirst(d, names, 0, stuck) == d;
  }

  /** One more turn of the eviction loop. */
  lemma EvictionTurn(d: Directory, names: seq<Name>, cap: nat, stuck: set<Name>, k: nat, left: Directory)
    requires Ascending(names) && Elements(names) == d.Keys
    requires k < |names| && EvictedSoFar(d, names, cap, stuck, k, left) && Total(left) > cap
    ensures names[k] in left
    ensures EvictedSoFar(d, names, cap, stuck, k + 1, if names[k] in stuck then left else left - {names[k]})
  {
    hide Before, SumMap;
    assert names[k] in Elements(names);
    assert names[k] !in names[..k] by { BeforeIrreflexive(names[k]); }
    assert names[..k + 1] == names[..k] + [names[k]];
    assert Elements(names[..k + 1]) == Elements(names[..k]) + {names[k]};
  }

  lemma FrontOfRest(names: seq<Name>, i: nat)
    requires Ascending(names) && i < |names|
    ensures names[i] in Elements(names[i..])
    ensures Elements(names[i + 1..]) == Elements(names[i..]) - {names[i]}
  {
    BeforeIrreflexive(names[i]);
    var rest := names[i + 1..];
    assert names[i..] == [names[i]] + rest;
    assert forall j :: 0 <= j < |rest| ==> Before(names[i], rest[j]);
  }

  lemma RemoveOne(d: Directory, n: Name)
    requires n in d
    ensures Total(d) == |d[n]| + Total(d - {n}) && |d| == |d - {n}| + 1
  {
    SumMapRemove(d, FileSize(), n);
    assert d == (d - {n})[n := d[n]];
  }

  lemma EvictionPointIsUnique(d: Directory, cap: nat, stuck: set<Name>, k: nat, k': nat)
    requires EvictionPoint(d, cap, stuck, k) && EvictionPoint(d, cap, stuck, k')
    ensures k == k'
  {
  }

  /** If every removal succeeds the cap is met. */
  lemma EvictionMeetsCap(d: Directory, cap: nat, k: nat)
    requires EvictionPoint(d, cap, {}, k)
    ensures Total(WithoutOldest(d, k, {})) <= cap
  {
    var names := Sorted(d.Keys);
    if k == |names| {
      assert names[..k] == names;
      assert WithoutOldest(d, k, {}) == map[];
    }
  }

  lemma KeptFiles(d: Directory, names: seq<Name>, k: nat)
    requires Ascending(names) && Elements(names) == d.Keys && k <= |names|
    ensures Ascending(names[k..])
    ensures forall x :: x in names[k..] <==> x in WithoutFirst(d, names, k, {})
  {
    hide Before;
    var rest := names[k..];
    assert names == names[..k] + rest;
    forall x | x in names[..k] ensures x !in rest { BeforeIrreflexive(x); }
    assert forall x :: x in Elements(names) <==> x in names[..k] || x in rest;
  }

  /** Eviction takes files off the front of `List`: both agree on which file is oldest. */
  lemma EvictionTrimsListing(d: Directory, k: nat)
    requires k <= |Sorted(d.Keys)|
    ensures var before, after := Listing(d), Listing(WithoutOldest(d, k, {}));
      |after| <= |before| && after == before[|before| - |after|..]
  {
    hide Sorted, Before, OnlySpoolFiles, Ascending, WithoutFirst, Elements;
    var names, left := Sorted(d.Keys), WithoutOldest(d, k, {});
    SortedElements(d.Keys);
    KeptFiles(d, names, k);
    SortedIsUnique(Sorted(left.Keys), names[k..]);
    assert names == names[..k] + names[k..];
    OnlySpoolFilesConcat(names[..k], names[k..]);
  }

  /** Only the newest file is left when all the others are gone. */
  lemma OnlyNewestLeft(d: Directory, names: seq<Name>, newest: Name)
    requires Ascending(names) && Elements(names) == d.Keys
    requires newest in d && forall x :: x in d && x != newest ==> Before(x, newest)
    ensures |names| > 0 && newest !in names[..|names| - 1]
    ensures WithoutFirst(d, names, |names| - 1, {}) == map[newest := d[newest]]
  {
    hide Before;
    assert newest in Elements(names);
    var n := |names| - 1;
    LastIsNewest(names, newest);
    var older := names[..n];
    assert names == older + [newest];
    forall x | x in older ensures x != newest { BeforeIrreflexive(x); }
    assert Elements(names) == Elements(older) + {newest};
    assert Elements(older) - {} == d.Keys - {newest};
  }

  lemma SingleTotal(n: Name, b: Bytes)
    ensures Total(map[n := b]) == |b|
  {
    SumMapRemove(map[n := b], FileSize(), n);
    assert map[n := b] - {n} == map[];
  }

  lemma TotalCovers(d: Directory, n: Name)
    requires n in d
    ensures |d[n]| <= Total(d)
  {
    SumMapRemove(d, FileSize(), n);
  }

  /** A batch larger than the whole cap evicts itself; any other newest batch survives. */
  lemma NewestSurvivesIffItFits(d: Directory, cap: nat, newest: Name, k: nat)
    requires newest in d && forall x :: x in d && x != newest ==> Before(x, newest)
    requires EvictionPoint(d, cap, {}, k)
    ensures newest in WithoutOldest(d, k, {}) <==> |d[newest]| <= cap
  {
    var names := Sorted(d.Keys);
    assert Elements(names) == d.Keys;
    OnlyNewestLeft(d, names, newest);
    SingleTotal(newest, d[newest]);
    if k == |names| {
      assert Total(WithoutFirst(d, names, k - 1, {})) > cap;
      assert newest in names[..k];
    } else {
      assert forall x :: x in names[..k] ==> x in names[..|names| - 1];
      EvictionMeetsCap(d, cap, k);
      TotalCovers(WithoutOldest(d, k, {}), newest);
    }
  }

  lemma LastIsNewest(names: seq<Name>, newest: Name)
    requires Ascending(names) && newest in names
    requires forall x :: x in names && x != newest ==> Before(x, newest)
    ensures names[|names| - 1] == newest
  {
    var last := names[|names| - 1];
    if last != newest {
      BeforeTransitive(newest, last, newest);
      BeforeIrreflexive(newest);
    }
  }

  // ---------- the store ----------

  /** Where `Append` fails, if it does. */
  datatype AppendFault = NoFault | OpenFails | LaterFails(written: nat, cleaned: bool)

  /** The first `n` bytes of a payload, or all of it. */
  function Cut(payload: Bytes, n: nat): Bytes {
    if n < |payload| then payload[..n] else payload
  }

  /** The name under which a batch is written before it gets its final name. */
  function Temporary(final: Name): Name {
    final.(tmp := true)
  }

  /** The directory once a batch has been renamed to its final name. */
  function WithBatch(d: Directory, final: Name, payload: Bytes): Directory {
    (d - {Temporary(final)})[final := payload]
  }

  /** The directory after a write that fails behind the open, with or without cleaning up. */
  function AfterFault(d: Directory, final: Name, payload: Bytes, written: nat, cleaned: bool): (after: Directory)
    ensures after - {Temporary(final)} == d - {Temporary(final)} && (cleaned ==> Temporary(final) !in after)
  {
    var torn := d[Temporary(final) := Cut(payload, written)];
    if cleaned then torn - {Temporary(final)} else torn
  }

  /** How a directory may look after `Append`: never a torn final file, and the cap enforced. */
  ghost predicate Appended(before: Directory, after: Directory, evicted: int, cap: nat, payload: Bytes,
                           final: Name, fault: AppendFault, unreadable: bool, stuck: set<Name>)
  {
    var placed := WithBatch(before, final, payload);
    match fault
    case OpenFails => after == before && evicted == 0
    case LaterFails(written, cleaned) => after == AfterFault(before, final, payload, written, cleaned) && evicted == 0
    case NoFault =>
      if unreadable then after == placed && evicted == 0
      else exists k :: EvictionPoint(placed, cap, stuck, k)
                       && after == WithoutOldest(placed, k, stuck) && evicted == |placed| - |after|
  }

  lemma KeepOneMore(all: seq<Name>, i: nat)
    requires i < |all|
    ensures OnlySpoolFiles(all[..i + 1])
            == if IsSpoolFile(Render(all[i])) then OnlySpoolFiles(all[..i]) + [all[i]] else OnlySpoolFiles(all[..i])
  {
    hide IsSpoolFile, Render;
    assert all[..i + 1] == all[..i] + [all[i]];
    OnlySpoolFilesConcat(all[..i], [all[i]]);
    OnlySpoolFilesCons([all[i]]);
    assert [all[i]][1..] == [];
  }

  /** The loop of `List`: the sorted directory without temporaries. */
  method ListFiles(d: Directory) returns (names: seq<Name>)
    ensures names == Listing(d)
  {
    hide Sorted, OnlySpoolFiles, Ascending;
    names := KeepSpoolFiles(Sorted(d.Keys));
  }

  method KeepSpoolFiles(all: seq<Name>) returns (names: seq<Name>)
    ensures names == OnlySpoolFiles(all)
  {
    names := [];
    assert all[..0] == [] && all[..|all|] == all && OnlySpoolFiles([]) == [];
    hide *;
    for i := 0 to |all|
      invariant names == OnlySpoolFiles(all[..i])
    {
      KeepOneMore(all, i);
      if IsSpoolFile(Render(all[i])) {
        names := names + [all[i]];
      }
    }
  }

  /** Adds up the directory's files. */
  method MeasureFiles(d: Directory, names: seq<Name>) returns (total: nat)
    requires Ascending(names) && Elements(names) == d.Keys
    ensures total == Total(d)
  {
    total := 0;
    ghost var left := d;
    for i := 0 to |names|
      invariant left.Keys == Elements(names[i..])
      invariant forall x :: x in left ==> x in d && left[x] == d[x]
      invariant total + Total(left) == Total(d)
    {
      FrontOfRest(names, i);
      RemoveOne(left, names[i]);
      left := left - {names[i]};
      total := total + |d[names[i]]|;
    }
    assert left == map[];
  }

  /** Removes oldest files until the cap holds, skipping the ones that cannot be removed. */
  method EvictOldest(d: Directory, cap: nat, stuck: set<Name>)
    returns (left: Directory, removed: nat, scanned: nat)
    ensures EvictionPoint(d, cap, stuck, scanned)
    ensures left == WithoutOldest(d, scanned, stuck)
    ensures removed == |d| - |left|
  {
    var names := Sorted(d.Keys);
    assert Elements(names) == d.Keys;
    left, removed, scanned := EvictInOrder(d, names, cap, stuck);
  }

  method EvictInOrder(d: Directory, names: seq<Name>, cap: nat, stuck: set<Name>)
    returns (left: Directory, removed: nat, scanned: nat)
    requires Ascending(names) && Elements(names) == d.Keys
    ensures EvictedSoFar(d, names, cap, stuck, scanned, left)
    ensures Total(left) <= cap || scanned == |names|
    ensures removed == |d| - |left|
  {
    hide *;
    var total := MeasureFiles(d, names);
    left, removed, scanned := d, 0, 0;
    EvictionStart(d, names, cap, stuck);
    while scanned < |names| && total > cap
      invariant scanned <= |names|
      invariant EvictedSoFar(d, names, cap, stuck, scanned, left)
      invariant total == Total(left)
      invariant removed == |d| - |left|
    {
      var n := names[scanned];
      EvictionTurn(d, names, cap, stuck, scanned, left);
      if n !in stuck {
        RemoveOne(left, n);
        total := total - |left[n]|;
        left := left - {n};
        removed := removed + 1;
      }
      scanned := scanned + 1;
    }
  }

  /** One batch written under a given name: temporary file, rename, eviction. */
  method PlaceBatch(d: Directory, cap: nat, payload: Bytes, final: Name,
                    fault: AppendFault, unreadable: bool, stuck: set<Name>)
    returns (ok: bool, after: Directory, evicted: nat)
    ensures ok <==> fault == NoFault
    ensures Appended(d, after, evicted, cap, payload, final, fault, unreadable, stuck)
  {
    hide EvictionPoint, WithoutOldest, AfterFault;
    var tmp := Temporary(final);
    ok, after, evicted := false, d, 0;
    match fault {
      case OpenFails =>
      case LaterFails(written, cleaned) =>
        after := AfterFault(d, final, payload, written, cleaned);
      case NoFault =>
        ok := true;
        after := d[tmp := []];
        after := after[tmp := payload];
        after := (after - {tmp})[final := after[tmp]];
        assert after == WithBatch(d, final, payload);
        if !unreadable {
          ghost var scanned;
          after, evicted, scanned := EvictOldest(after, cap, stuck);
        }
    }
  }

  class Spool {
    const maxBytes: nat
    var files: Directory
    var counter: nat
    var drops: nat

    constructor (limit: int)
      ensures maxBytes == if limit <= 0 then 104857600 else limit
      ensures files == map[] && counter == 0 && drops == 0
    {
      maxBytes := if limit <= 0 then 100 * 1024 * 1024 else limit;
      files, counter, drops := map[], 0, 0;
    }

    method List() returns (names: seq<Name>)
      ensures names == Listing(files)
    {
      names := ListFiles(files);
    }

    method Read(name: Name, readable: bool) returns (body: Option<Bytes>)
      ensures body == if name in files && readable then Some(files[name]) else None
    {
      body := if name in files && readable then Some(files[name]) else None;
    }

    method Delete(name: Name, removable: bool) returns (ok: bool)
      modifies this`files
      ensures ok <==> name in old(files) && removable
      ensures files == if ok then old(files) - {name} else old(files)
    {
      ok := name in files && removable;
      if ok { files := files - {name}; }
    }

    method Evict(stuck: set<Name>)
      modifies this`files, this`drops
      ensures exists k :: EvictionPoint(old(files), maxBytes, stuck, k) && files == WithoutOldest(old(files), k, stuck)
      ensures drops == old(drops) + (|old(files)| - |files|)
    {
      var left, removed, scanned := EvictOldest(files, maxBytes, stuck);
      files, drops := left, drops + removed;
    }

    /** Writes one batch: temporary file, rename, then eviction (unless the directory is unreadable). */
    method Append(payload: Bytes, now: nat, fault: AppendFault, unreadable: bool, stuck: set<Name>)
      returns (ok: bool)
      modifies this
      ensures counter == old(counter) + 1
      ensures ok <==> fault == NoFault
      ensures Appended(old(files), files, drops - old(drops), maxBytes, payload,
                       Name(now, counter, false), fault, unreadable, stuck)
    {
      hide *;
      counter := counter + 1;
      var after, evicted;
      ok, after, evicted := PlaceBatch(files, maxBytes, payload, Name(now, counter, false), fault, unreadable, stuck);
      files, drops := after, drops + evicted;
    }
  }
}
