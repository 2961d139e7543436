/** The ordered key-value store of a module and its iterators, and the theory of index scans:
    when walking an index and looking each entry up equals filtering the primary records. */
module Scan {
  import opened ByteStrings

  datatype Option<+T> = None | Some(value: T)

  // ---------- maps and sets ----------

  lemma SameMap<K(!new), V(!new)>(m: map<K, V>, n: map<K, V>)
    requires forall k :: k in m <==> k in n
    requires forall k :: k in m ==> m[k] == n[k]
    ensures m == n
  {}

  lemma MinusNothing<K(!new), V(!new)>(m: map<K, V>)
    ensures m - {} == m
    ensures m - m.Keys == map[]
  {}

  lemma MinusOneLess<K(!new), V(!new)>(m: map<K, V>, s: set<K>, k: K)
    requires k in m && k in s
    ensures (m - s)[k := m[k]] == m - (s - {k})
  {}

  lemma HasMember(s: set<int>)
    ensures s == {} || exists x: int :: x in s
  {
    if forall x: int :: x !in s {
      assert s == {};
    }
  }

  function Repeat<T>(x: T, k: nat): (r: seq<T>)
    ensures |r| == k
  {
    if k == 0 then [] else [x] + Repeat(x, k - 1)
  }

  // ---------- ordered enumeration of a key set ----------

  predicate Ascending(xs: seq<Bytes>) {
    forall i, j :: 0 <= i < j < |xs| ==> Less(xs[i], xs[j])
  }

  predicate IsLeast(m: Bytes, s: set<Bytes>) {
    m in s && forall k :: k in s ==> !Less(k, m)
  }

  lemma {:induction false} LeastExists(s: set<Bytes>)
    requires s != {}
    ensures exists m :: IsLeast(m, s)
  {
    var x :| x in s;
    if s == {x} {
      LessIrreflexive(x);
      assert IsLeast(x, s);
    } else {
      LeastExists(s - {x});
      var m :| IsLeast(m, s - {x});
      if Less(x, m) {
        forall k | k in s
          ensures !Less(k, x)
        {
          LessIrreflexive(x);
          if k != x && Less(k, x) {
            LessTransitive(k, x, m);
          }
        }
        assert IsLeast(x, s);
      } else {
        assert IsLeast(m, s);
      }
    }
  }

  lemma LeastUnique(s: set<Bytes>)
    ensures forall m, n :: IsLeast(m, s) && IsLeast(n, s) ==> m == n
  {
    forall m, n | IsLeast(m, s) && IsLeast(n, s)
      ensures m == n
    {
      LessTotal(m, n);
    }
  }

  /** The keys of s in the order in which the store iterates them. */
  function SortedKeys(s: set<Bytes>): (r: seq<Bytes>)
    ensures Ascending(r)
    ensures forall x :: x in r <==> x in s
    ensures |r| == |s|
  {
    if s == {} then [] else
      LeastExists(s);
      LeastUnique(s);
      var m :| IsLeast(m, s);
      var rest := SortedKeys(s - {m});
      assert forall x :: x in rest ==> Less(m, x) by {
        forall x | x in rest
          ensures Less(m, x)
        {
          LessTotal(m, x);
        }
      }
      [m] + rest
  }

  /** An ascending enumeration of a set is unique. */
  lemma {:induction false} AscendingUnique(xs: seq<Bytes>, ys: seq<Bytes>)
    requires Ascending(xs) && Ascending(ys)
    requires forall x :: x in xs <==> x in ys
    ensures xs == ys
  {
    assert ys != [] ==> ys[0] in xs;
    if xs != [] {
      assert xs[0] in ys;
      var x, y := xs[0], ys[0];
      assert x == y by {
        assert y in xs;
        if x != y {
          LessAsymmetric(x, y);
        }
      }
      TailMembers(xs);
      TailMembers(ys);
      AscendingUnique(xs[1..], ys[1..]);
      assert xs == [x] + xs[1..] && ys == [y] + ys[1..];
    }
  }

  lemma TailMembers(xs: seq<Bytes>)
    requires xs != [] && Ascending(xs)
    ensures forall x :: x in xs[1..] <==> x in xs && x != xs[0]
  {
    LessIrreflexive(xs[0]);
    assert xs == [xs[0]] + xs[1..];
  }

  // ---------- filters and look-ups over a scan ----------

  function Filter<T(!new)>(xs: seq<T>, p: T -> bool): (r: seq<T>)
    ensures forall x :: x in r <==> x in xs && p(x)
    ensures |r| <= |xs|
  {
    if xs == [] then []
    else
      var n := |xs| - 1;
      assert xs == xs[..n] + [xs[n]];
      if p(xs[n]) then Filter(xs[..n], p) + [xs[n]] else Filter(xs[..n], p)
  }

  /** What a query loop gathers: each key is looked up and the found values are appended. */
  function Collect<T(!new)>(keys: seq<Bytes>, lookup: Bytes -> Option<T>): (r: seq<T>) {
    if keys == [] then []
    else
      var n := |keys| - 1;
      var found := lookup(keys[n]);
      if found.Some? then Collect(keys[..n], lookup) + [found.value] else Collect(keys[..n], lookup)
  }

  lemma {:induction false} FilterAscending(xs: seq<Bytes>, p: Bytes -> bool)
    requires Ascending(xs)
    ensures Ascending(Filter(xs, p))
  {
    if xs != [] {
      var n := |xs| - 1;
      FilterAscending(xs[..n], p);
      assert forall x :: x in xs[..n] ==> Less(x, xs[n]);
      assert forall i :: 0 <= i < |Filter(xs[..n], p)| ==> Filter(xs[..n], p)[i] in xs[..n];
    }
  }

  lemma {:induction false} FilterSortedKeys(s: set<Bytes>, p: Bytes -> bool, kept: set<Bytes>)
    requires forall x :: x in kept <==> x in s && p(x)
    ensures Filter(SortedKeys(s), p) == SortedKeys(kept)
  {
    FilterAscending(SortedKeys(s), p);
    AscendingUnique(Filter(SortedKeys(s), p), SortedKeys(kept));
  }

  lemma {:induction false} CollectExtensional<T(!new)>(keys: seq<Bytes>, f: Bytes -> Option<T>, g: Bytes -> Option<T>)
    requires forall k :: k in keys ==> f(k) == g(k)
    ensures Collect(keys, f) == Collect(keys, g)
  {
    if keys != [] {
      CollectExtensional(keys[..|keys| - 1], f, g);
    }
  }

  lemma {:induction false} CollectSkipsMissing<T(!new)>(keys: seq<Bytes>, f: Bytes -> Option<T>, p: Bytes -> bool)
    requires forall k :: p(k) <==> f(k).Some?
    ensures Collect(keys, f) == Collect(Filter(keys, p), f)
  {
    if keys != [] {
      var n := |keys| - 1;
      CollectSkipsMissing(keys[..n], f, p);
      var r := Filter(keys[..n], p) + [keys[n]];
      assert r[..|r| - 1] == Filter(keys[..n], p);
    }
  }

  lemma {:induction false} CollectAllFound<T(!new)>(keys: seq<Bytes>, f: Bytes -> Option<T>)
    requires forall k :: k in keys ==> f(k).Some?
    ensures |Collect(keys, f)| == |keys|
    ensures forall i :: 0 <= i < |keys| ==> f(keys[i]) == Some(Collect(keys, f)[i])
  {
    if keys != [] {
      CollectAllFound(keys[..|keys| - 1], f);
    }
  }

  /** One turn of a query loop. */
  lemma CollectStep<T(!new)>(keys: seq<Bytes>, f: Bytes -> Option<T>, i: nat)
    requires i < |keys|
    ensures Collect(keys[..i + 1], f) == Collect(keys[..i], f) + if f(keys[i]).Some? then [f(keys[i]).value] else []
  {
    assert keys[..i + 1][..i] == keys[..i];
  }

  lemma {:induction false} CollectContains<T(!new)>(keys: seq<Bytes>, f: Bytes -> Option<T>, k: Bytes)
    requires k in keys && f(k).Some?
    ensures f(k).value in Collect(keys, f)
  {
    var n := |keys| - 1;
    assert keys == keys[..n] + [keys[n]];
    if k in keys[..n] {
      CollectContains(keys[..n], f, k);
    }
  }

  lemma {:induction false} FilterOfCollect<T(!new)>(keys: seq<Bytes>, f: Bytes -> Option<T>, p: T -> bool,
      q: Bytes -> bool)
    requires forall k :: k in keys ==> f(k).Some?
    requires forall k :: q(k) <==> f(k).Some? && p(f(k).value)
    ensures Filter(Collect(keys, f), p) == Collect(Filter(keys, q), f)
  {
    if keys != [] {
      var n := |keys| - 1;
      FilterOfCollect(keys[..n], f, p, q);
      var all := Collect(keys[..n], f) + [f(keys[n]).value];
      assert all[..|all| - 1] == Collect(keys[..n], f);
      var r := Filter(keys[..n], q) + [keys[n]];
      assert r[..|r| - 1] == Filter(keys[..n], q);
    }
  }

  /** A scan of a key set gathers the found entries in ascending key order. */
  lemma CollectSorted<T(!new)>(s: set<Bytes>, f: Bytes -> Option<T>, found: set<Bytes>)
    requires forall x :: x in found <==> x in s && f(x).Some?
    ensures Collect(SortedKeys(s), f) == Collect(SortedKeys(found), f)
    ensures |Collect(SortedKeys(s), f)| == |found|
  {
    var p := (k: Bytes) => f(k).Some?;
    CollectSkipsMissing(SortedKeys(s), f, p);
    FilterSortedKeys(s, p, found);
    CollectAllFound(SortedKeys(found), f);
  }

  lemma FilteredPrimary<T(!new)>(s: set<Bytes>, f: Bytes -> Option<T>, p: T -> bool, own: set<Bytes>)
    requires forall x :: x in s ==> f(x).Some?
    requires forall x :: x in own <==> x in s && f(x).Some? && p(f(x).value)
    ensures Filter(Collect(SortedKeys(s), f), p) == Collect(SortedKeys(own), f)
    ensures |Filter(Collect(SortedKeys(s), f), p)| == |own|
  {
    var q := (k: Bytes) => f(k).Some? && p(f(k).value);
    var keys := SortedKeys(s);
    assert Filter(keys, q) == SortedKeys(own) by {
      FilterSortedKeys(s, q, own);
    }
    assert Filter(Collect(keys, f), p) == Collect(Filter(keys, q), f) by {
      FilterOfCollect(keys, f, p, q);
    }
    CollectAllFound(SortedKeys(own), f);
  }

  /** Every entry that the index scan resolves is the primary record of the same key, and satisfies p. */
  ghost predicate ScanIsSound<T(!new)>(prim: set<Bytes>, primary: Bytes -> Option<T>,
                                 index: set<Bytes>, lookup: Bytes -> Option<T>, p: T -> bool)
  {
    forall x :: x in index && lookup(x).Some? ==>
      x in prim && primary(x) == lookup(x) && p(lookup(x).value)
  }

  /** Every primary record satisfying p has its own entry in the index. */
  ghost predicate ScanIsComplete<T(!new)>(prim: set<Bytes>, primary: Bytes -> Option<T>,
                                    index: set<Bytes>, lookup: Bytes -> Option<T>, p: T -> bool)
  {
    forall x :: x in prim && primary(x).Some? && p(primary(x).value) ==>
      x in index && lookup(x) == primary(x)
  }

  /** The index-scan theorem: for a complete index, the scan equals the filter over the
      primary records, in the same order, exactly when it resolves no foreign entry. */
  lemma ScanExactIff<T(!new)>(prim: set<Bytes>, primary: Bytes -> Option<T>,
                        index: set<Bytes>, lookup: Bytes -> Option<T>, p: T -> bool)
    requires forall x :: x in prim ==> primary(x).Some?
    requires ScanIsComplete(prim, primary, index, lookup, p)
    ensures Collect(SortedKeys(index), lookup) == Filter(Collect(SortedKeys(prim), primary), p)
       <==> ScanIsSound(prim, primary, index, lookup, p)
  {
    var resolved := set x | x in index && lookup(x).Some?;
    var own := set x | x in prim && primary(x).Some? && p(primary(x).value);
    assert own <= resolved;
    assert Collect(SortedKeys(index), lookup) == Collect(SortedKeys(resolved), lookup)
        && |Collect(SortedKeys(index), lookup)| == |resolved| by {
      CollectSorted(index, lookup, resolved);
    }
    assert Filter(Collect(SortedKeys(prim), primary), p) == Collect(SortedKeys(own), primary)
        && |Filter(Collect(SortedKeys(prim), primary), p)| == |own| by {
      FilteredPrimary(prim, primary, p, own);
    }
    SoundMeansOwn(prim, primary, index, lookup, p, resolved, own);
    if resolved == own {
      CollectExtensional(SortedKeys(own), lookup, primary);
    } else if |resolved| == |own| {
      SubsetOfEqualSize(own, resolved);
    }
  }

  lemma SoundMeansOwn<T(!new)>(prim: set<Bytes>, primary: Bytes -> Option<T>,
                               index: set<Bytes>, lookup: Bytes -> Option<T>, p: T -> bool,
                               resolved: set<Bytes>, own: set<Bytes>)
    requires ScanIsComplete(prim, primary, index, lookup, p)
    requires forall x :: x in resolved <==> x in index && lookup(x).Some?
    requires forall x :: x in own <==> x in prim && primary(x).Some? && p(primary(x).value)
    ensures ScanIsSound(prim, primary, index, lookup, p) <==> resolved == own
  {
    if resolved == own {
      forall x | x in index && lookup(x).Some?
        ensures x in prim && primary(x) == lookup(x) && p(lookup(x).value)
      {
        assert x in resolved && x in own;
      }
    }
  }

  lemma {:induction false} SubsetOfEqualSize(a: set<Bytes>, b: set<Bytes>)
    requires a <= b && |a| == |b|
    ensures a == b
  {
    if a != {} {
      var x :| x in a;
      SubsetOfEqualSize(a - {x}, b - {x});
    } else {
      assert b == {};
    }
  }

  // ---------- tables, exported as lists and rebuilt from them ----------

  function MapLookup<T(!new)>(m: map<Bytes, T>): Bytes -> Option<T> {
    x => if x in m then Some(m[x]) else None
  }

  /** The rows of a table in the order of their keys. */
  function Values<T(!new)>(m: map<Bytes, T>): seq<T> {
    Collect(SortedKeys(m.Keys), MapLookup(m))
  }

  /** The first i rows. */
  ghost function ValuesUpTo<T(!new)>(m: map<Bytes, T>, i: nat): seq<T> {
    if i <= |SortedKeys(m.Keys)| then Collect(SortedKeys(m.Keys)[..i], MapLookup(m)) else []
  }

  lemma ValuesEnds<T(!new)>(m: map<Bytes, T>)
    ensures ValuesUpTo(m, 0) == [] && ValuesUpTo(m, |SortedKeys(m.Keys)|) == Values(m)
  {
    assert SortedKeys(m.Keys)[..|SortedKeys(m.Keys)|] == SortedKeys(m.Keys);
  }

  /** Storing rows one after another under their own keys. */
  function Rebuild<T(!new)>(xs: seq<T>, key: T -> Bytes): map<Bytes, T> {
    if xs == [] then map[] else Rebuild(xs[..|xs| - 1], key)[key(xs[|xs| - 1]) := xs[|xs| - 1]]
  }

  ghost predicate DistinctKeys<T(!new)>(xs: seq<T>, key: T -> Bytes) {
    forall i, j :: 0 <= i < j < |xs| ==> key(xs[i]) != key(xs[j])
  }

  lemma {:induction false} RebuildHasRows<T(!new)>(xs: seq<T>, key: T -> Bytes)
    ensures forall x :: x in Rebuild(xs, key) <==> exists i :: 0 <= i < |xs| && key(xs[i]) == x
    ensures DistinctKeys(xs, key) ==> forall i :: 0 <= i < |xs| ==> Rebuild(xs, key)[key(xs[i])] == xs[i]
  {
    if xs != [] {
      var n := |xs| - 1;
      RebuildHasRows(xs[..n], key);
      assert forall i :: 0 <= i < n ==> xs[..n][i] == xs[i];
    }
  }

  lemma {:induction false} RebuildPrefix<T(!new)>(keys: seq<Bytes>, m: map<Bytes, T>, key: T -> Bytes)
    requires forall x :: x in keys ==> x in m && key(m[x]) == x
    ensures Rebuild(Collect(keys, MapLookup(m)), key) == map x | x in keys :: m[x]
  {
    if keys != [] {
      var n := |keys| - 1;
      RebuildPrefix(keys[..n], m, key);
      assert keys == keys[..n] + [keys[n]];
      var prev := Collect(keys[..n], MapLookup(m));
      var all := Collect(keys, MapLookup(m));
      assert all == prev + [m[keys[n]]] && all[..|all| - 1] == prev;
    }
  }

  /** Rebuilding a table from its exported rows gives the table. */
  lemma RebuildValues<T(!new)>(m: map<Bytes, T>, key: T -> Bytes)
    requires forall x :: x in m ==> key(m[x]) == x
    ensures Rebuild(Values(m), key) == m
  {
    RebuildPrefix(SortedKeys(m.Keys), m, key);
  }

  lemma ValuesAre<T(!new)>(m: map<Bytes, T>)
    ensures |Values(m)| == |SortedKeys(m.Keys)|
    ensures forall i :: 0 <= i < |Values(m)| ==> SortedKeys(m.Keys)[i] in m && Values(m)[i] == m[SortedKeys(m.Keys)[i]]
  {
    var keys := SortedKeys(m.Keys);
    CollectAllFound(keys, MapLookup(m));
    forall i | 0 <= i < |keys|
      ensures keys[i] in m && Values(m)[i] == m[keys[i]]
    {
      assert keys[i] in keys;
    }
  }

  lemma RowOf<T(!new)>(m: map<Bytes, T>, x: Bytes) returns (i: nat)
    requires x in m
    ensures i < |Values(m)| && i < |SortedKeys(m.Keys)| && SortedKeys(m.Keys)[i] == x && Values(m)[i] == m[x]
  {
    ValuesAre(m);
    assert x in SortedKeys(m.Keys);
    i :| 0 <= i < |SortedKeys(m.Keys)| && SortedKeys(m.Keys)[i] == x;
  }

  lemma ValuesDistinct<T(!new)>(m: map<Bytes, T>, key: T -> Bytes)
    requires forall x :: x in m ==> key(m[x]) == x
    ensures DistinctKeys(Values(m), key)
  {
    var keys := SortedKeys(m.Keys);
    ValuesAre(m);
    forall i, j | 0 <= i < j < |keys|
      ensures key(Values(m)[i]) != key(Values(m)[j])
    {
      LessAsymmetric(keys[i], keys[j]);
    }
  }

  // ---------- the store and its iterators ----------

  /** What follows the prefix p in the keys of the store: the keys of prefix.NewStore(store, p). */
  function Suffixes<V>(store: map<Bytes, V>, p: Bytes): (r: set<Bytes>)
    ensures forall x :: x in r <==> p + x in store
  {
    var r := set k | k in store && p <= k :: k[|p|..];
    assert forall x :: x in r <==> p + x in store by {
      forall x | x in r
        ensures p + x in store
      {
        var k :| k in store && p <= k && k[|p|..] == x;
        PrefixSplits(p, k);
      }
      forall x | p + x in store
        ensures x in r
      {
        assert p <= p + x && (p + x)[|p|..] == x;
      }
    }
    r
  }

  /** The keys with lo <= key < hi in ascending order: store.Iterator(lo, hi). */
  function RangeKeys<V>(store: map<Bytes, V>, lo: Bytes, hi: Bytes): seq<Bytes> {
    SortedKeys(Window(store.Keys, lo, hi))
  }

  function Window(s: set<Bytes>, lo: Bytes, hi: Bytes): set<Bytes> {
    set k | k in s && !Less(k, lo) && Less(k, hi)
  }

  /** The keys with prefix p in ascending order: KVStorePrefixIterator(store, p). */
  function PrefixKeys<V>(store: map<Bytes, V>, p: Bytes): seq<Bytes> {
    SortedKeys(set k | k in store && p <= k)
  }

  function Prepend(p: Bytes, xs: seq<Bytes>): (r: seq<Bytes>)
    ensures |r| == |xs|
    ensures forall i :: 0 <= i < |xs| ==> r[i] == p + xs[i]
  {
    seq(|xs|, i requires 0 <= i < |xs| => p + xs[i])
  }

  lemma {:induction false} SortedPrepend(p: Bytes, s: set<Bytes>, full: set<Bytes>)
    requires forall k :: k in full <==> p <= k && k[|p|..] in s
    ensures SortedKeys(full) == Prepend(p, SortedKeys(s))
  {
    var xs := SortedKeys(s);
    var ys := Prepend(p, xs);
    forall i, j | 0 <= i < j < |ys|
      ensures Less(ys[i], ys[j])
    {
      LessPrepend(p, xs[i], xs[j]);
    }
    forall k | k in full
      ensures k in ys
    {
      PrefixSplits(p, k);
      var i :| 0 <= i < |xs| && xs[i] == k[|p|..];
      assert ys[i] == k;
    }
    forall k | k in ys
      ensures k in full
    {
      var i :| 0 <= i < |ys| && ys[i] == k;
      assert xs[i] in s && k[|p|..] == xs[i];
    }
    AscendingUnique(SortedKeys(full), ys);
  }

  /** A prefix iterator walks the suffixes in their own order. */
  lemma PrefixKeysAre<V>(store: map<Bytes, V>, p: Bytes)
    ensures PrefixKeys(store, p) == Prepend(p, SortedKeys(Suffixes(store, p)))
  {
    var full := set k | k in store && p <= k;
    forall k | p <= k
      ensures k in full <==> k[|p|..] in Suffixes(store, p)
    {
      PrefixSplits(p, k);
    }
    SortedPrepend(p, Suffixes(store, p), full);
  }

  /** A range iterator whose bounds share the prefix p stays under p. */
  lemma RangeKeysAre<V>(store: map<Bytes, V>, p: Bytes, lo: Bytes, hi: Bytes)
    ensures RangeKeys(store, p + lo, p + hi)
         == Prepend(p, SortedKeys(Window(Suffixes(store, p), lo, hi)))
  {
    var full := Window(store.Keys, p + lo, p + hi);
    var s := Window(Suffixes(store, p), lo, hi);
    forall k | k in full
      ensures p <= k && k[|p|..] in s
    {
      BetweenSharesPrefix(p, lo, hi, k);
      PrefixSplits(p, k);
      LessPrepend(p, k[|p|..], lo);
      LessPrepend(p, k[|p|..], hi);
    }
    forall k | p <= k && k[|p|..] in s
      ensures k in full
    {
      PrefixSplits(p, k);
      LessPrepend(p, k[|p|..], lo);
      LessPrepend(p, k[|p|..], hi);
    }
    SortedPrepend(p, s, full);
  }

  // ---------- a byte store that represents typed tables ----------

  /** The store holds exactly the pairs that `at` describes, and nothing else. */
  ghost predicate Encodes<V(!new)>(store: map<Bytes, V>, at: Bytes -> Option<V>) {
    forall k :: (k in store <==> at(k).Some?) && (k in store ==> at(k) == Some(store[k]))
  }

  lemma EncodesSet<V(!new)>(store: map<Bytes, V>, at: Bytes -> Option<V>, key: Bytes, v: V, at': Bytes -> Option<V>)
    requires Encodes(store, at)
    requires forall k :: at'(k) == if k == key then Some(v) else at(k)
    ensures Encodes(store[key := v], at')
  {}

  lemma EncodesDelete<V(!new)>(store: map<Bytes, V>, at: Bytes -> Option<V>, key: Bytes, at': Bytes -> Option<V>)
    requires Encodes(store, at)
    requires forall k :: at'(k) == if k == key then None else at(k)
    ensures Encodes(store - {key}, at')
  {}

  /** Two stores that represent the same tables are the same store. */
  lemma EncodesUnique<V(!new)>(s1: map<Bytes, V>, s2: map<Bytes, V>, at: Bytes -> Option<V>)
    requires Encodes(s1, at) && Encodes(s2, at)
    ensures s1 == s2
  {
    assert forall k :: k in s1 <==> k in s2;
  }

  /** A key made of a table's first byte and the rest. */
  lemma TaggedKey(tag: byte, rest: Bytes, k: Bytes)
    ensures k == [tag] + rest <==> k != [] && k[0] == tag && k[1..] == rest
  {
    if k != [] {
      assert k == [k[0]] + k[1..];
    }
  }

  // ---------- index entries name | 0x00 | id ----------

  function IndexEntry(name: Bytes, id: Bytes): Bytes {
    name + [0x00] + id
  }

  /** Entries of the index that the prefix name | 0x00 selects, without that prefix. */
  function EntriesUnder(index: set<Bytes>, name: Bytes): (r: set<Bytes>)
    ensures forall y :: y in r <==> IndexEntry(name, y) in index
  {
    var p := name + [0x00];
    var r := set k | k in index && p <= k :: k[|p|..];
    assert forall y :: y in r <==> IndexEntry(name, y) in index by {
      forall y | y in r
        ensures IndexEntry(name, y) in index
      {
        var k :| k in index && p <= k && k[|p|..] == y;
        PrefixSplits(p, k);
      }
      forall y | IndexEntry(name, y) in index
        ensures y in r
      {
        var k := IndexEntry(name, y);
        assert p <= k && k[|p|..] == y;
      }
    }
    r
  }

  lemma SameLengthSameName(n: Bytes, x: Bytes, name: Bytes, y: Bytes)
    requires IndexEntry(n, x) == IndexEntry(name, y) && (|x| == |y| || |n| == |name|)
    ensures n == name && x == y
  {
    ConcatInjective(n + [0x00], x, name + [0x00], y);
    ConcatInjective(n, [0x00], name, [0x00]);
  }

  /** NUL-free names are read off an entry up to its first NUL. */
  lemma FirstNul(n: Bytes, x: Bytes, name: Bytes, y: Bytes)
    requires NulFree(n) && NulFree(name) && IndexEntry(n, x) == IndexEntry(name, y)
    ensures n == name
  {
    var k := IndexEntry(n, x);
    assert k[|n|] == 0 && k[|name|] == 0;
    assert forall i :: 0 <= i < |n| ==> k[i] == n[i];
    assert forall i :: 0 <= i < |name| ==> k[i] == name[i];
    SameLengthSameName(n, x, name, y);
  }
}
