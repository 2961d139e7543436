/** The tree of a batch, for any way of combining two digests: level by level, top-down,
    and as sibling paths. */
module MerkleTree {
  import opened ByteStrings

  type Combine = (Bytes, Bytes) -> Bytes

  ghost predicate Commutative(pair: Combine) {
    forall a, b :: pair(a, b) == pair(b, a)
  }

  // ---------- the root, level by level ----------

  function SiblingIndex(n: nat, i: nat): (j: nat)
    requires i < n
    ensures j < n
  {
    if i % 2 == 1 then i - 1 else if i + 1 < n then i + 1 else i
  }

  function NextLevel(pair: Combine, level: seq<Bytes>): (r: seq<Bytes>)
    ensures |r| == (|level| + 1) / 2
  {
    seq((|level| + 1) / 2, i requires 0 <= i < (|level| + 1) / 2 =>
      pair(level[2 * i], level[SiblingIndex(|level|, 2 * i)]))
  }

  lemma LevelEntry(pair: Combine, level: seq<Bytes>, j: nat)
    requires j < (|level| + 1) / 2
    ensures 2 * j < |level|
    ensures 2 * j + 1 < |level| ==> NextLevel(pair, level)[j] == pair(level[2 * j], level[2 * j + 1])
    ensures 2 * j + 1 == |level| ==> NextLevel(pair, level)[j] == pair(level[2 * j], level[2 * j])
  {
    assert SiblingIndex(|level|, 2 * j) == if 2 * j + 1 < |level| then 2 * j + 1 else 2 * j;
  }

  /** Every node and its sibling have one common parent. */
  lemma ParentOf(pair: Combine, level: seq<Bytes>, i: nat)
    requires i < |level| && Commutative(pair)
    ensures i / 2 < |NextLevel(pair, level)|
    ensures NextLevel(pair, level)[i / 2] == pair(level[i], level[SiblingIndex(|level|, i)])
    ensures level[i] == level[2 * (i / 2)] || level[i] == level[SiblingIndex(|level|, 2 * (i / 2))]
  {
    var j := i / 2;
    if i % 2 == 0 {
      assert 2 * j == i;
    } else {
      assert 2 * j == i - 1 && SiblingIndex(|level|, i - 1) == i && SiblingIndex(|level|, i) == i - 1;
      assert pair(level[i - 1], level[i]) == pair(level[i], level[i - 1]);
    }
  }

  function MerkleRoot(pair: Combine, leaves: seq<Bytes>): Bytes
    requires leaves != []
    decreases |leaves|
  {
    if |leaves| == 1 then leaves[0] else MerkleRoot(pair, NextLevel(pair, leaves))
  }

  function Depth(n: nat): nat
    requires n > 0
  {
    if n == 1 then 0 else 1 + Depth((n + 1) / 2)
  }

  function Pow2(d: nat): (r: nat)
    ensures r > 0
  {
    if d == 0 then 1 else 2 * Pow2(d - 1)
  }

  /** The depth is the base-2 logarithm of the number of leaves, rounded up. */
  lemma {:induction false} DepthIsCeilLog2(n: nat)
    requires n > 0
    ensures n <= Pow2(Depth(n))
    ensures n > 1 ==> Pow2(Depth(n) - 1) < n
  {
    if n > 1 {
      var m := (n + 1) / 2;
      DepthIsCeilLog2(m);
      if m > 1 {
        assert Pow2(Depth(n) - 1) == 2 * Pow2(Depth(m) - 1);
      }
    }
  }

  /** The recursion needs a leaf: an empty level is its own next level. */
  lemma EmptyLevelStaysEmpty(pair: Combine)
    ensures NextLevel(pair, []) == []
  {}

  // ---------- the root as a top-down tree ----------

  /** The tree of depth d over the leaves: it splits at 2^(d-1), and a part that fits in one
      half is paired with itself until it has the depth of the other half. */
  function Tree(pair: Combine, leaves: seq<Bytes>, d: nat): Bytes
    requires 0 < |leaves| <= Pow2(d)
    decreases d
  {
    if d == 0 then leaves[0]
    else if |leaves| <= Pow2(d - 1) then
      var half := Tree(pair, leaves, d - 1); pair(half, half)
    else
      pair(Tree(pair, leaves[..Pow2(d - 1)], d - 1), Tree(pair, leaves[Pow2(d - 1)..], d - 1))
  }

  lemma NextLevelSplits(pair: Combine, a: seq<Bytes>, b: seq<Bytes>)
    requires |a| % 2 == 0
    ensures NextLevel(pair, a + b) == NextLevel(pair, a) + NextLevel(pair, b)
  {
    var h := |a| / 2;
    var l, na, nb := NextLevel(pair, a + b), NextLevel(pair, a), NextLevel(pair, b);
    assert |a| == 2 * h && |na| == h && |l| == h + |nb|;
    forall i | 0 <= i < h
      ensures l[i] == na[i]
    {
      LevelEntry(pair, a + b, i);
      LevelEntry(pair, a, i);
    }
    forall j | 0 <= j < |nb|
      ensures l[h + j] == nb[j]
    {
      LevelEntry(pair, a + b, h + j);
      LevelEntry(pair, b, j);
    }
    assert l == na + nb;
  }

  lemma TreeOfHalves(pair: Combine, a: seq<Bytes>, b: seq<Bytes>, d: nat)
    requires |a| == Pow2(d) && 0 < |b| <= Pow2(d)
    ensures Tree(pair, a + b, d + 1) == pair(Tree(pair, a, d), Tree(pair, b, d))
  {
    assert (a + b)[..Pow2(d)] == a && (a + b)[Pow2(d)..] == b;
  }

  lemma TreeOfShort(pair: Combine, leaves: seq<Bytes>, d: nat)
    requires 0 < |leaves| <= Pow2(d)
    ensures Tree(pair, leaves, d + 1) == pair(Tree(pair, leaves, d), Tree(pair, leaves, d))
  {}

  lemma TreeOfNextHalves(pair: Combine, a: seq<Bytes>, b: seq<Bytes>, d: nat)
    requires d > 0 && |a| == Pow2(d) && 0 < |b| <= Pow2(d) && |NextLevel(pair, a)| == Pow2(d - 1)
    requires 0 < |NextLevel(pair, b)| <= Pow2(d - 1)
    requires Tree(pair, a, d) == Tree(pair, NextLevel(pair, a), d - 1)
    requires Tree(pair, b, d) == Tree(pair, NextLevel(pair, b), d - 1)
    ensures |NextLevel(pair, a + b)| <= Pow2(d) && Tree(pair, a + b, d + 1) == Tree(pair, NextLevel(pair, a + b), d)
  {
    assert Pow2(d) == 2 * Pow2(d - 1);
    hide NextLevel, Tree, Pow2;
    TreeOfHalves(pair, a, b, d);
    NextLevelSplits(pair, a, b);
    TreeOfHalves(pair, NextLevel(pair, a), NextLevel(pair, b), d - 1);
  }

  lemma {:induction false} TreeOfNextLevel(pair: Combine, leaves: seq<Bytes>, d: nat)
    requires 0 < |leaves| <= Pow2(d + 1)
    ensures 0 < |NextLevel(pair, leaves)| <= Pow2(d)
    ensures Tree(pair, leaves, d + 1) == Tree(pair, NextLevel(pair, leaves), d)
    decreases d
  {
    if d == 0 {
      LevelEntry(pair, leaves, 0);
    } else {
      hide NextLevel, Tree;
      if |leaves| <= Pow2(d) {
        TreeOfShort(pair, leaves, d);
        TreeOfNextLevel(pair, leaves, d - 1);
        TreeOfShort(pair, NextLevel(pair, leaves), d - 1);
      } else {
        var a, b := leaves[..Pow2(d)], leaves[Pow2(d)..];
        assert leaves == a + b;
        TreeOfNextLevel(pair, a, d - 1);
        TreeOfNextLevel(pair, b, d - 1);
        TreeOfNextHalves(pair, a, b, d);
      }
    }
  }

  /** Level by level and top-down give the same root for every number of leaves. */
  lemma {:induction false} RootIsTree(pair: Combine, leaves: seq<Bytes>)
    requires leaves != []
    ensures |leaves| <= Pow2(Depth(|leaves|))
    ensures MerkleRoot(pair, leaves) == Tree(pair, leaves, Depth(|leaves|))
    decreases |leaves|
  {
    DepthIsCeilLog2(|leaves|);
    if |leaves| > 1 {
      RootIsTree(pair, NextLevel(pair, leaves));
      TreeOfNextLevel(pair, leaves, Depth(|leaves|) - 1);
    }
  }

  lemma RepeatedLastLevel(pair: Combine, a: seq<Bytes>, last: Bytes)
    requires |a| % 2 == 0
    ensures NextLevel(pair, a + [last, last]) == NextLevel(pair, a + [last])
  {
    NextLevelSplits(pair, a, [last]);
    NextLevelSplits(pair, a, [last, last]);
    LevelEntry(pair, [last], 0);
    LevelEntry(pair, [last, last], 0);
    assert NextLevel(pair, [last]) == NextLevel(pair, [last, last]);
  }

  /** Repeating the last of an odd number of leaves, three or more, leaves the root unchanged. */
  lemma {:induction false} RepeatedLastLeaf(pair: Combine, a: seq<Bytes>, last: Bytes)
    requires |a| >= 2 && |a| % 2 == 0
    ensures MerkleRoot(pair, a + [last, last]) == MerkleRoot(pair, a + [last])
  {
    var l1, l2 := a + [last], a + [last, last];
    RepeatedLastLevel(pair, a, last);
    assert MerkleRoot(pair, l1) == MerkleRoot(pair, NextLevel(pair, l1));
    assert MerkleRoot(pair, l2) == MerkleRoot(pair, NextLevel(pair, l2));
  }

  lemma SharedRoot(pair: Combine, x: Bytes, z: Bytes)
    requires Commutative(pair)
    ensures MerkleRoot(pair, [x, x, z]) == MerkleRoot(pair, [z, z, x])
  {
    var p, q := pair(x, x), pair(z, z);
    LevelEntry(pair, [x, x, z], 0);
    LevelEntry(pair, [x, x, z], 1);
    LevelEntry(pair, [z, z, x], 0);
    LevelEntry(pair, [z, z, x], 1);
    LevelEntry(pair, [p, q], 0);
    LevelEntry(pair, [q, p], 0);
    assert pair(x, x) == p && NextLevel(pair, [x, x, z]) == [p, pair(z, z)] &&
      NextLevel(pair, [z, z, x]) == [q, pair(x, x)];
    assert NextLevel(pair, [p, q]) == [pair(p, q)] && NextLevel(pair, [q, p]) == [pair(q, p)];
  }

  // ---------- sibling paths ----------

  function SiblingPath(pair: Combine, leaves: seq<Bytes>, i: nat): (path: seq<Bytes>)
    requires i < |leaves|
    decreases |leaves|
  {
    if |leaves| == 1 then []
    else [leaves[SiblingIndex(|leaves|, i)]] + SiblingPath(pair, NextLevel(pair, leaves), i / 2)
  }

  /** Hashing a digest with each entry of a path in turn, in no particular child order. */
  function FoldPath(pair: Combine, digest: Bytes, path: seq<Bytes>): Bytes
    decreases |path|
  {
    if path == [] then digest else FoldPath(pair, pair(digest, path[0]), path[1..])
  }

  /** Every leaf has a path of the tree's depth that leads to the root. */
  lemma {:induction false} EveryLeafHasPath(pair: Combine, leaves: seq<Bytes>, i: nat)
    requires i < |leaves| && Commutative(pair)
    ensures |SiblingPath(pair, leaves, i)| == Depth(|leaves|)
    ensures FoldPath(pair, leaves[i], SiblingPath(pair, leaves, i)) == MerkleRoot(pair, leaves)
    decreases |leaves|
  {
    if |leaves| > 1 {
      var next := NextLevel(pair, leaves);
      var s := leaves[SiblingIndex(|leaves|, i)];
      EveryLeafHasPath(pair, next, i / 2);
      ParentOf(pair, leaves, i);
      var path := SiblingPath(pair, leaves, i);
      assert path[1..] == SiblingPath(pair, next, i / 2);
    }
  }

  // ---------- what the root determines ----------

  /** The pairs combined on the way from a level to the root. */
  function PairsAbove(pair: Combine, level: seq<Bytes>): set<(Bytes, Bytes)>
    requires level != []
    decreases |level|
  {
    if |level| == 1 then {} else LevelPairs(level) + PairsAbove(pair, NextLevel(pair, level))
  }

  function LevelPairs(level: seq<Bytes>): set<(Bytes, Bytes)> {
    set j | 0 <= j < (|level| + 1) / 2 :: (level[2 * j], level[SiblingIndex(|level|, 2 * j)])
  }

  /** The pairs combined while a path is folded. */
  function PairsOnPath(pair: Combine, digest: Bytes, path: seq<Bytes>): set<(Bytes, Bytes)>
    decreases |path|
  {
    if path == [] then {} else {(digest, path[0])} + PairsOnPath(pair, pair(digest, path[0]), path[1..])
  }

  /** Among the pairs of s, equal combinations come from equal unordered pairs. */
  ghost predicate Separates(pair: Combine, s: set<(Bytes, Bytes)>) {
    forall p, q :: p in s && q in s && pair(p.0, p.1) == pair(q.0, q.1) ==> p == q || p == (q.1, q.0)
  }

  /** One step down: a parent found on the other tree's level brings its children along. */
  lemma ChildrenOfSharedParent(pair: Combine, a: Bytes, b: Bytes, level: seq<Bytes>, s: set<(Bytes, Bytes)>)
    requires Separates(pair, s) && (a, b) in s && LevelPairs(level) <= s
    requires pair(a, b) in NextLevel(pair, level)
    ensures a in level && b in level
  {
    var next := NextLevel(pair, level);
    var m :| 0 <= m < |next| && next[m] == pair(a, b);
    var q := (level[2 * m], level[SiblingIndex(|level|, 2 * m)]);
    assert q in LevelPairs(level);
    assert (a, b) == q || (a, b) == (q.1, q.0);
  }

  lemma LevelWithin(pair: Combine, l1: seq<Bytes>, l2: seq<Bytes>, s: set<(Bytes, Bytes)>)
    requires Commutative(pair) && Separates(pair, s)
    requires LevelPairs(l1) <= s && LevelPairs(l2) <= s
    requires forall x :: x in NextLevel(pair, l1) ==> x in NextLevel(pair, l2)
    ensures forall x :: x in l1 ==> x in l2
  {
    forall i | 0 <= i < |l1|
      ensures l1[i] in l2
    {
      ParentOf(pair, l1, i);
      var j := i / 2;
      var p := (l1[2 * j], l1[SiblingIndex(|l1|, 2 * j)]);
      assert p in LevelPairs(l1);
      assert NextLevel(pair, l1)[j] == pair(p.0, p.1);
      ChildrenOfSharedParent(pair, p.0, p.1, l2, s);
    }
  }

  /** Trees of equal depth with the same root have the same set of leaves. */
  lemma {:induction false} BindingOfLevels(pair: Combine, l1: seq<Bytes>, l2: seq<Bytes>, s: set<(Bytes, Bytes)>)
    requires Commutative(pair) && Separates(pair, s)
    requires l1 != [] && l2 != [] && Depth(|l1|) == Depth(|l2|)
    requires PairsAbove(pair, l1) <= s && PairsAbove(pair, l2) <= s
    requires MerkleRoot(pair, l1) == MerkleRoot(pair, l2)
    ensures forall x :: x in l1 <==> x in l2
    decreases |l1|
  {
    if |l1| > 1 {
      BindingOfLevels(pair, NextLevel(pair, l1), NextLevel(pair, l2), s);
      LevelWithin(pair, l1, l2, s);
      LevelWithin(pair, l2, l1, s);
    }
  }

  /** A path of the tree's depth that leads to the root starts at a leaf. */
  lemma {:induction false} PathStartsAtLeaf(pair: Combine, leaves: seq<Bytes>, digest: Bytes, path: seq<Bytes>,
      s: set<(Bytes, Bytes)>)
    requires Separates(pair, s)
    requires leaves != [] && |path| == Depth(|leaves|)
    requires PairsAbove(pair, leaves) <= s && PairsOnPath(pair, digest, path) <= s
    requires FoldPath(pair, digest, path) == MerkleRoot(pair, leaves)
    ensures digest in leaves
    decreases |leaves|
  {
    if |leaves| > 1 {
      PathStartsAtLeaf(pair, NextLevel(pair, leaves), pair(digest, path[0]), path[1..], s);
      ChildrenOfSharedParent(pair, digest, path[0], leaves, s);
    }
  }
}

/** The Merkle commitment of a batch: pair hashing by hexadecimal order, root verification,
    and what an accepted root says about the data hashes of the batch.
    The hash function is a parameter: any total function on byte strings. */
module Merkle {
  import opened ByteStrings
  import opened MerkleTree

  type Hash = Bytes -> Bytes

  datatype BatchItem = BatchItem(dataHash: Bytes, metadata: Bytes)

  datatype Verdict = Accepted | NoItems | RootMismatch

  // ---------- lower-case hexadecimal ----------

  function HexDigit(n: int): (r: byte)
    requires 0 <= n < 16
  {
    if n < 10 then 48 + n else 87 + n
  }

  predicate IsHexDigit(c: byte) {
    48 <= c < 58 || 97 <= c < 103
  }

  function Hex(b: Bytes): (r: Bytes)
    ensures |r| == 2 * |b|
    ensures forall i :: 0 <= i < |r| ==> IsHexDigit(r[i])
  {
    if b == [] then [] else [HexDigit(b[0] / 16), HexDigit(b[0] % 16)] + Hex(b[1..])
  }

  /** Comparing hexadecimal forms is comparing the byte strings, whatever their lengths. */
  lemma {:induction false} HexOrder(a: Bytes, b: Bytes)
    ensures Less(Hex(a), Hex(b)) <==> Less(a, b)
    ensures Hex(a) == Hex(b) <==> a == b
  {
    if a != [] && b != [] {
      var x, y := [HexDigit(a[0] / 16), HexDigit(a[0] % 16)], [HexDigit(b[0] / 16), HexDigit(b[0] % 16)];
      HexOrder(a[1..], b[1..]);
      LessConcat(x, Hex(a[1..]), y, Hex(b[1..]));
      assert x[1..] == [x[1]] && y[1..] == [y[1]];
      assert a == [a[0]] + a[1..] && b == [b[0]] + b[1..];
      if Hex(a) == Hex(b) {
        ConcatInjective(x, Hex(a[1..]), y, Hex(b[1..]));
      }
    }
  }

  // ---------- hashing a pair ----------

  /** The string that is hashed for two children: the one with the smaller hexadecimal form first. */
  function PairInput(a: Bytes, b: Bytes): Bytes {
    if !Less(Hex(b), Hex(a)) then a + b else b + a
  }

  function HashPair(keccak: Hash, a: Bytes, b: Bytes): Bytes {
    keccak(PairInput(a, b))
  }

  /** Pair hashing as a way of combining digests. */
  function Pairing(keccak: Hash): Combine {
    (a, b) => HashPair(keccak, a, b)
  }

  lemma PairingCommutes(keccak: Hash)
    ensures Commutative(Pairing(keccak))
  {
    forall a, b
      ensures Pairing(keccak)(a, b) == Pairing(keccak)(b, a)
    {
      HashPairCommutes(keccak, a, b);
    }
  }

  /** The order of the two children does not matter, and the test is byte order. */
  lemma {:induction false} HashPairCommutes(keccak: Hash, a: Bytes, b: Bytes)
    ensures HashPair(keccak, a, b) == HashPair(keccak, b, a)
    ensures PairInput(a, b) == if Less(b, a) then b + a else a + b
  {
    HexOrder(a, b);
    HexOrder(b, a);
    LessTotal(a, b);
    if Less(a, b) {
      LessAsymmetric(a, b);
    }
  }

  /** Two pairs of digests of one length that hash the same string are the same unordered pair. */
  lemma PairInputInjective(a: Bytes, b: Bytes, c: Bytes, d: Bytes)
    requires |a| == |b| == |c| == |d|
    requires PairInput(a, b) == PairInput(c, d)
    ensures (a == c && b == d) || (a == d && b == c)
  {
    var x, y := if !Less(Hex(b), Hex(a)) then (a, b) else (b, a), if !Less(Hex(d), Hex(c)) then (c, d) else (d, c);
    ConcatInjective(x.0, x.1, y.0, y.1);
  }

  /** The node that one turn of the loop over a level appends. */
  lemma NextNode(keccak: Hash, leaves: seq<Bytes>, k: nat)
    requires 2 * k < |leaves|
    ensures k < |NextLevel(Pairing(keccak), leaves)|
    ensures NextLevel(Pairing(keccak), leaves)[k] ==
      HashPair(keccak, leaves[2 * k], if 2 * k + 1 < |leaves| then leaves[2 * k + 1] else leaves[2 * k])
  {
    LevelEntry(Pairing(keccak), leaves, k);
    hide NextLevel, HashPair;
  }

  /** The loop over one level. */
  method HashLevel(keccak: Hash, leaves: seq<Bytes>) returns (next: seq<Bytes>)
    ensures next == NextLevel(Pairing(keccak), leaves)
  {
    ghost var level := NextLevel(Pairing(keccak), leaves);
    hide NextLevel, HashPair, Pairing;
    next := [];
    var i := 0;
    while i < |leaves|
      invariant i == 2 * |next| && |next| <= |level|
      invariant forall j :: 0 <= j < |next| ==> next[j] == level[j]
    {
      NextNode(keccak, leaves, |next|);
      if i + 1 < |leaves| {
        next := next + [HashPair(keccak, leaves[i], leaves[i + 1])];
      } else {
        next := next + [HashPair(keccak, leaves[i], leaves[i])];
      }
      i := i + 2;
    }
    assert next == level;
  }

  method ComputeMerkleRoot(keccak: Hash, leaves: seq<Bytes>) returns (root: Bytes)
    requires leaves != []
    ensures root == MerkleRoot(Pairing(keccak), leaves)
    decreases |leaves|
  {
    if |leaves| == 1 {
      return leaves[0];
    }
    hide NextLevel, HashPair, Pairing;
    var next := HashLevel(keccak, leaves);
    root := ComputeMerkleRoot(keccak, next);
  }

  // ---------- verifying a declared root ----------

  function LeafHashes(keccak: Hash, hashes: seq<Bytes>): (r: seq<Bytes>)
    ensures |r| == |hashes|
    ensures forall i :: 0 <= i < |r| ==> r[i] == keccak(hashes[i])
  {
    seq(|hashes|, i requires 0 <= i < |hashes| => keccak(hashes[i]))
  }

  function DataHashes(items: seq<BatchItem>): (r: seq<Bytes>)
    ensures |r| == |items|
    ensures forall i :: 0 <= i < |r| ==> r[i] == items[i].dataHash
  {
    seq(|items|, i requires 0 <= i < |items| => items[i].dataHash)
  }

  function LowerByte(c: byte): byte {
    if 65 <= c < 91 then c + 32 else c
  }

  function ToLower(s: Bytes): (r: Bytes)
    ensures |r| == |s|
    ensures forall i :: 0 <= i < |s| ==> r[i] == LowerByte(s[i])
  {
    seq(|s|, i requires 0 <= i < |s| => LowerByte(s[i]))
  }

  const ZERO_X: Bytes := [48, 120]

  /** strings.TrimPrefix(strings.ToLower(declared), "0x"): one prefix is dropped, in either case. */
  function Normalize(declared: Bytes): Bytes {
    var s := ToLower(declared);
    if ZERO_X <= s then s[2..] else s
  }

  function RootOf(keccak: Hash, hashes: seq<Bytes>): Bytes
    requires hashes != []
  {
    MerkleRoot(Pairing(keccak), LeafHashes(keccak, hashes))
  }

  predicate Accepts(keccak: Hash, hashes: seq<Bytes>, declared: Bytes) {
    hashes != [] && Hex(RootOf(keccak, hashes)) == Normalize(declared)
  }

  method VerifyMerkleRoot(keccak: Hash, items: seq<BatchItem>, declared: Bytes) returns (v: Verdict)
    ensures v.NoItems? <==> items == []
    ensures v.Accepted? <==> Accepts(keccak, DataHashes(items), declared)
  {
    if |items| == 0 {
      return NoItems;
    }
    var leaves := new Bytes[|items|];
    for i := 0 to |items|
      invariant forall j :: 0 <= j < i ==> leaves[j] == keccak(items[j].dataHash)
    {
      leaves[i] := keccak(items[i].dataHash);
    }
    assert leaves[..] == LeafHashes(keccak, DataHashes(items));
    var root := ComputeMerkleRoot(keccak, leaves[..]);
    v := if Hex(root) == Normalize(declared) then Accepted else RootMismatch;
  }

  /** Lower-casing gives a hexadecimal string exactly for that string with some letters a-f in upper case. */
  lemma LowerSpells(s: Bytes, hex: Bytes)
    requires forall i :: 0 <= i < |hex| ==> IsHexDigit(hex[i])
    ensures ToLower(s) == hex <==>
      |s| == |hex| &&
      forall i :: 0 <= i < |hex| ==> s[i] == hex[i] || (97 <= hex[i] <= 102 && s[i] == hex[i] - 32)
  {
    var l := ToLower(s);
    if |s| == |hex| {
      assert forall i :: 0 <= i < |hex| ==>
        (l[i] == hex[i] <==> s[i] == hex[i] || (97 <= hex[i] <= 102 && s[i] == hex[i] - 32));
    }
  }

  lemma NormalizedIs(declared: Bytes, hex: Bytes)
    requires forall i :: 0 <= i < |hex| ==> IsHexDigit(hex[i])
    ensures Normalize(declared) == hex <==>
      || ToLower(declared) == hex
      || (|declared| == |hex| + 2 && declared[0] == 48 && declared[1] in {88, 120} && ToLower(declared[2..]) == hex)
  {
    var s := ToLower(declared);
    assert |declared| >= 2 ==> s[2..] == ToLower(declared[2..]);
    assert |hex| > 1 ==> hex[1] != 120;
  }

  /** Accepted are exactly the true root in hexadecimal, bare or after 0x or 0X, where each letter may
      be in lower or upper case. */
  lemma AcceptedSpellings(keccak: Hash, hashes: seq<Bytes>, declared: Bytes)
    requires hashes != []
    ensures var hex := Hex(RootOf(keccak, hashes));
      Accepts(keccak, hashes, declared) <==>
        || (|declared| == |hex| &&
            forall i :: 0 <= i < |hex| ==>
              declared[i] == hex[i] || (97 <= hex[i] <= 102 && declared[i] == hex[i] - 32))
        || (|declared| == |hex| + 2 && declared[0] == 48 && declared[1] in {88, 120} &&
            forall i :: 0 <= i < |hex| ==>
              declared[i + 2] == hex[i] || (97 <= hex[i] <= 102 && declared[i + 2] == hex[i] - 32))
  {
    var hex := Hex(RootOf(keccak, hashes));
    hide RootOf, ToLower, Normalize, Hex;
    NormalizedIs(declared, hex);
    LowerSpells(declared, hex);
    if |declared| == |hex| + 2 {
      LowerSpells(declared[2..], hex);
      assert forall i :: 0 <= i < |hex| ==> declared[2..][i] == declared[i + 2];
    }
  }

  // ---------- binding ----------

  ghost predicate DigestsHave32Bytes(keccak: Hash) {
    forall x :: |keccak(x)| == 32
  }

  ghost predicate CollisionFreeOn(keccak: Hash, s: set<Bytes>) {
    forall x, y :: x in s && y in s && keccak(x) == keccak(y) ==> x == y
  }

  predicate All32(level: seq<Bytes>) {
    forall x :: x in level ==> |x| == 32
  }

  function Inputs(pairs: set<(Bytes, Bytes)>): (r: set<Bytes>)
    ensures forall p :: p in pairs ==> PairInput(p.0, p.1) in r
  {
    set p | p in pairs :: PairInput(p.0, p.1)
  }

  /** Every string hashed while the root of a batch is computed: the data hashes themselves and
      the concatenated children. */
  function HashedFor(keccak: Hash, hashes: seq<Bytes>): set<Bytes>
    requires hashes != []
  {
    (set h | h in hashes) + Inputs(PairsAbove(Pairing(keccak), LeafHashes(keccak, hashes)))
  }

  ghost predicate Pairs32(s: set<(Bytes, Bytes)>) {
    forall p :: p in s ==> |p.0| == |p.1| == 32
  }

  lemma CollisionFreeSeparates(keccak: Hash, s: set<(Bytes, Bytes)>)
    requires Pairs32(s) && CollisionFreeOn(keccak, Inputs(s))
    ensures Separates(Pairing(keccak), s)
  {
    forall p, q | p in s && q in s && Pairing(keccak)(p.0, p.1) == Pairing(keccak)(q.0, q.1)
      ensures p == q || p == (q.1, q.0)
    {
      assert PairInput(p.0, p.1) in Inputs(s) && PairInput(q.0, q.1) in Inputs(s);
      PairInputInjective(p.0, p.1, q.0, q.1);
    }
  }

  lemma {:induction false} PairsAbove32(keccak: Hash, level: seq<Bytes>)
    requires DigestsHave32Bytes(keccak) && level != [] && All32(level)
    ensures Pairs32(PairsAbove(Pairing(keccak), level))
    decreases |level|
  {
    if |level| > 1 {
      var next := NextLevel(Pairing(keccak), level);
      forall x | x in next
        ensures |x| == 32
      {
        var j :| 0 <= j < |next| && next[j] == x;
        assert x == HashPair(keccak, level[2 * j], level[SiblingIndex(|level|, 2 * j)]);
      }
      PairsAbove32(keccak, next);
    }
  }

  lemma {:induction false} PairsOnPath32(keccak: Hash, digest: Bytes, path: seq<Bytes>)
    requires DigestsHave32Bytes(keccak) && |digest| == 32 && All32(path)
    ensures Pairs32(PairsOnPath(Pairing(keccak), digest, path))
    decreases |path|
  {
    if path != [] {
      PairsOnPath32(keccak, HashPair(keccak, digest, path[0]), path[1..]);
    }
  }

  lemma SameLeaves(keccak: Hash, l1: seq<Bytes>, l2: seq<Bytes>)
    requires l1 != [] && l2 != [] && All32(l1) && All32(l2) && DigestsHave32Bytes(keccak)
    requires Depth(|l1|) == Depth(|l2|)
    requires MerkleRoot(Pairing(keccak), l1) == MerkleRoot(Pairing(keccak), l2)
    requires CollisionFreeOn(keccak, Inputs(PairsAbove(Pairing(keccak), l1)) + Inputs(PairsAbove(Pairing(keccak), l2)))
    ensures forall x :: x in l1 <==> x in l2
  {
    var s1, s2 := PairsAbove(Pairing(keccak), l1), PairsAbove(Pairing(keccak), l2);
    PairsAbove32(keccak, l1);
    PairsAbove32(keccak, l2);
    SeparatesTogether(keccak, s1, s2);
    PairingCommutes(keccak);
    BindingOfLevels(Pairing(keccak), l1, l2, s1 + s2);
  }

  /** Binding: if no two of the strings hashed for the two batches collide, batches of equal
      depth with the same root commit to the same set of data hashes. */
  lemma MerkleBinding(keccak: Hash, h1: seq<Bytes>, h2: seq<Bytes>)
    requires h1 != [] && h2 != [] && DigestsHave32Bytes(keccak)
    requires CollisionFreeOn(keccak, HashedFor(keccak, h1) + HashedFor(keccak, h2))
    requires Depth(|h1|) == Depth(|h2|)
    requires RootOf(keccak, h1) == RootOf(keccak, h2)
    ensures forall h :: h in h1 <==> h in h2
  {
    SameLeaves(keccak, LeafHashes(keccak, h1), LeafHashes(keccak, h2));
    SameDigestsSameHashes(keccak, h1, h2);
    SameDigestsSameHashes(keccak, h2, h1);
  }

  lemma SameDigestsSameHashes(keccak: Hash, h1: seq<Bytes>, h2: seq<Bytes>)
    requires CollisionFreeOn(keccak, (set h | h in h1) + (set h | h in h2))
    requires forall x :: x in LeafHashes(keccak, h1) ==> x in LeafHashes(keccak, h2)
    ensures forall h :: h in h1 ==> h in h2
  {
    var l1, l2 := LeafHashes(keccak, h1), LeafHashes(keccak, h2);
    forall i | 0 <= i < |h1|
      ensures h1[i] in h2
    {
      assert l1[i] in l2;
      var j :| 0 <= j < |l2| && l2[j] == l1[i];
      assert h2[j] in h2 && h1[i] in h1;
    }
  }

  /** Leaves and inner nodes are hashed alike: a batch of two has the root of the batch whose one data
      hash is their concatenated digests, 64 bytes long. So equal depth is needed above. */
  lemma NodeReadsAsLeaf(keccak: Hash, a: Bytes, b: Bytes)
    ensures RootOf(keccak, [a, b]) == RootOf(keccak, [PairInput(keccak(a), keccak(b))])
    ensures Depth(2) != Depth(1)
  {
    var leaves, p := LeafHashes(keccak, [a, b]), PairInput(keccak(a), keccak(b));
    assert leaves == [keccak(a), keccak(b)];
    LevelEntry(Pairing(keccak), leaves, 0);
    assert NextLevel(Pairing(keccak), leaves) == [keccak(p)];
    assert LeafHashes(keccak, [p]) == [keccak(p)];
  }

  /** Every node of an inner level is the digest of 64 bytes that were hashed. */
  lemma InnerNode(keccak: Hash, level: seq<Bytes>, x: Bytes) returns (p: (Bytes, Bytes))
    requires |level| > 1 && x in NextLevel(Pairing(keccak), level)
    ensures p in PairsAbove(Pairing(keccak), level) && x == keccak(PairInput(p.0, p.1))
  {
    var next := NextLevel(Pairing(keccak), level);
    var j :| 0 <= j < |next| && next[j] == x;
    p := (level[2 * j], level[SiblingIndex(|level|, 2 * j)]);
    assert p in LevelPairs(level);
  }

  /** The 64-byte strings hashed for the inner nodes of a batch's tree. */
  function NodeInputs(keccak: Hash, hashes: seq<Bytes>): set<Bytes>
    requires hashes != []
  {
    Inputs(PairsAbove(Pairing(keccak), LeafHashes(keccak, hashes)))
  }

  /** No data hash of the one batch is hashed for an inner node of the other. */
  ghost predicate NoLeafIsNode(keccak: Hash, h1: seq<Bytes>, h2: seq<Bytes>)
    requires h2 != []
  {
    forall h :: h in h1 ==> h !in NodeInputs(keccak, h2)
  }

  lemma LeafIsNoNode(keccak: Hash, h: Bytes, p: (Bytes, Bytes), hashed: set<Bytes>, t: set<(Bytes, Bytes)>)
    requires h in hashed && p in t && Inputs(t) <= hashed && CollisionFreeOn(keccak, hashed) && h !in Inputs(t)
    ensures keccak(h) != keccak(PairInput(p.0, p.1))
  {
    assert PairInput(p.0, p.1) in Inputs(t);
  }

  /** The leaves of one tree and an inner level of another never give the same root. */
  lemma {:induction false} DeeperDiffers(keccak: Hash, hashes: seq<Bytes>, level: seq<Bytes>, hashed: set<Bytes>,
                                         s: set<(Bytes, Bytes)>, t: set<(Bytes, Bytes)>)
    requires hashes != [] && level != [] && Separates(Pairing(keccak), s) && CollisionFreeOn(keccak, hashed)
    requires (forall h :: h in hashes ==> h in hashed && h !in Inputs(t)) && Inputs(t) <= hashed && t <= s
    requires PairsAbove(Pairing(keccak), LeafHashes(keccak, hashes)) <= s && PairsAbove(Pairing(keccak), level) <= t
    requires Depth(|hashes|) < Depth(|level|)
    ensures RootOf(keccak, hashes) != MerkleRoot(Pairing(keccak), level)
    decreases |level|
  {
    hide CollisionFreeOn, Separates, Pairing;
    var leaves, next := LeafHashes(keccak, hashes), NextLevel(Pairing(keccak), level);
    if Depth(|next|) > Depth(|hashes|) {
      DeeperDiffers(keccak, hashes, next, hashed, s, t);
    } else if RootOf(keccak, hashes) == MerkleRoot(Pairing(keccak), level) {
      PairingCommutes(keccak);
      BindingOfLevels(Pairing(keccak), leaves, next, s);
      assert leaves[0] in leaves && leaves[0] == keccak(hashes[0]);
      var p := InnerNode(keccak, level, leaves[0]);
      LeafIsNoNode(keccak, hashes[0], p, hashed, t);
      assert false;
    }
  }

  lemma TwoTrees(keccak: Hash, h1: seq<Bytes>, h2: seq<Bytes>)
    requires h1 != [] && h2 != [] && DigestsHave32Bytes(keccak)
    requires CollisionFreeOn(keccak, HashedFor(keccak, h1) + HashedFor(keccak, h2))
    requires NoLeafIsNode(keccak, h1, h2) && Depth(|h1|) < Depth(|h2|)
    ensures RootOf(keccak, h1) != RootOf(keccak, h2)
  {
    var l1, l2 := LeafHashes(keccak, h1), LeafHashes(keccak, h2);
    var s1, s2 := PairsAbove(Pairing(keccak), l1), PairsAbove(Pairing(keccak), l2);
    PairsAbove32(keccak, l1);
    PairsAbove32(keccak, l2);
    hide Pairing, PairsAbove, Separates;
    assert Inputs(s1) <= HashedFor(keccak, h1) && Inputs(s2) <= HashedFor(keccak, h2);
    SeparatesTogether(keccak, s1, s2);
    hide CollisionFreeOn, Pairs32, DigestsHave32Bytes;
    DeeperDiffers(keccak, h1, l2, HashedFor(keccak, h1) + HashedFor(keccak, h2), s1 + s2, s2);
  }

  /** Binding without the depth: if, besides, no data hash of the one batch is hashed for an inner node
      of the other, an equal root means equal depth and equal sets. */
  lemma MerkleBindingAnyDepth(keccak: Hash, h1: seq<Bytes>, h2: seq<Bytes>)
    requires h1 != [] && h2 != [] && DigestsHave32Bytes(keccak)
    requires NoLeafIsNode(keccak, h1, h2) && NoLeafIsNode(keccak, h2, h1)
    requires CollisionFreeOn(keccak, HashedFor(keccak, h1) + HashedFor(keccak, h2))
    requires RootOf(keccak, h1) == RootOf(keccak, h2)
    ensures Depth(|h1|) == Depth(|h2|) && forall h :: h in h1 <==> h in h2
  {
    hide RootOf, HashedFor, NoLeafIsNode, Depth;
    if Depth(|h1|) < Depth(|h2|) {
      TwoTrees(keccak, h1, h2);
    } else if Depth(|h2|) < Depth(|h1|) {
      assert HashedFor(keccak, h2) + HashedFor(keccak, h1) == HashedFor(keccak, h1) + HashedFor(keccak, h2);
      TwoTrees(keccak, h2, h1);
    } else {
      MerkleBinding(keccak, h1, h2);
    }
  }

  /** Inner nodes hash 64 bytes, so data hashes of any other length are never hashed for one. */
  lemma {:induction false} OtherLengthIsNoNode(keccak: Hash, h1: seq<Bytes>, h2: seq<Bytes>)
    requires h2 != [] && DigestsHave32Bytes(keccak) && forall h :: h in h1 ==> |h| != 64
    ensures NoLeafIsNode(keccak, h1, h2)
  {
    var s := PairsAbove(Pairing(keccak), LeafHashes(keccak, h2));
    PairsAbove32(keccak, LeafHashes(keccak, h2));
    forall x | x in Inputs(s)
      ensures |x| == 64
    {
      var p :| p in s && x == PairInput(p.0, p.1);
    }
  }

  /** The set cannot be strengthened to a multiset: these two batches always share a root. */
  lemma BindingIsSharp(keccak: Hash, a: Bytes, c: Bytes)
    requires a != c
    ensures RootOf(keccak, [a, a, c]) == RootOf(keccak, [c, c, a])
    ensures multiset([a, a, c]) != multiset([c, c, a])
  {
    PairingCommutes(keccak);
    assert LeafHashes(keccak, [a, a, c]) == [keccak(a), keccak(a), keccak(c)];
    assert LeafHashes(keccak, [c, c, a]) == [keccak(c), keccak(c), keccak(a)];
    SharedRoot(Pairing(keccak), keccak(a), keccak(c));
    assert multiset([a, a, c])[a] == 2 && multiset([c, c, a])[a] == 1;
  }

  lemma PathLeadsFromLeaf(keccak: Hash, leaves: seq<Bytes>, digest: Bytes, path: seq<Bytes>)
    requires DigestsHave32Bytes(keccak) && leaves != [] && All32(leaves) && |digest| == 32 && All32(path)
    requires |path| == Depth(|leaves|)
    requires FoldPath(Pairing(keccak), digest, path) == MerkleRoot(Pairing(keccak), leaves)
    requires CollisionFreeOn(keccak,
      Inputs(PairsAbove(Pairing(keccak), leaves)) + Inputs(PairsOnPath(Pairing(keccak), digest, path)))
    ensures digest in leaves
  {
    var above, along := PairsAbove(Pairing(keccak), leaves), PairsOnPath(Pairing(keccak), digest, path);
    PairsAbove32(keccak, leaves);
    PairsOnPath32(keccak, digest, path);
    SeparatesTogether(keccak, above, along);
    PathStartsAtLeaf(Pairing(keccak), leaves, digest, path, above + along);
  }

  /** A path of 32-byte digests with the tree's depth that leads from a data hash to the root
      starts at a data hash of the batch, unless two of the hashed strings collide. */
  lemma PathProvesMembership(keccak: Hash, hashes: seq<Bytes>, hash: Bytes, path: seq<Bytes>, hashed: set<Bytes>)
    requires hashes != [] && DigestsHave32Bytes(keccak) && All32(path)
    requires |path| == Depth(|hashes|)
    requires CollisionFreeOn(keccak, hashed) && hash in hashed && HashedFor(keccak, hashes) <= hashed
    requires Inputs(PairsOnPath(Pairing(keccak), keccak(hash), path)) <= hashed
    requires FoldPath(Pairing(keccak), keccak(hash), path) == RootOf(keccak, hashes)
    ensures hash in hashes
  {
    var leaves := LeafHashes(keccak, hashes);
    assert keccak(hash) in leaves by {
      PathLeadsFromLeaf(keccak, leaves, keccak(hash), path);
    }
    var j :| 0 <= j < |leaves| && leaves[j] == keccak(hash);
    assert hashes[j] in HashedFor(keccak, hashes);
  }

  lemma SeparatesTogether(keccak: Hash, s: set<(Bytes, Bytes)>, t: set<(Bytes, Bytes)>)
    requires Pairs32(s) && Pairs32(t) && CollisionFreeOn(keccak, Inputs(s) + Inputs(t))
    ensures Separates(Pairing(keccak), s + t)
  {
    assert Inputs(s + t) == Inputs(s) + Inputs(t);
    CollisionFreeSeparates(keccak, s + t);
  }
}
