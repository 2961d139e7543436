/** Byte strings in the order the key-value store iterates them, and the encodings that
    the key builders use: big-endian integers, NUL separators and decimal printing.
    Strings of the modelled program are byte sequences. */
module ByteStrings {
  const TWO_32: int := 0x1_0000_0000
  const TWO_63: int := 0x8000_0000_0000_0000
  const TWO_64: int := 0x1_0000_0000_0000_0000

  type byte = x: int | 0 <= x < 256
  type uint32 = x: int | 0 <= x < TWO_32
  type uint64 = x: int | 0 <= x < TWO_64
  type int64 = x: int | -TWO_63 <= x < TWO_63
  type Bytes = seq<byte>

  // ---------- two's complement ----------

  /** The conversion uint64(t) of a signed 64-bit integer. */
  function ToUint64(t: int64): uint64 {
    if t < 0 then t + TWO_64 else t
  }

  /** Signed 64-bit arithmetic: the representative of x modulo 2^64. */
  function WrapInt64(x: int): int64 {
    var m := x % TWO_64;
    if m < TWO_63 then m else m - TWO_64
  }

  /** A range query on time keys compares unsigned, from the key of `from` up to the key of `to` + 1. */
  predicate InWindow(t: int64, from: int64, to: int64) {
    ToUint64(from) <= ToUint64(t) < ToUint64(WrapInt64(to + 1))
  }

  /** On non-negative times the window is the interval [from, to] exactly for these bounds; among
      them every 0 <= from <= to, including to = 2^63 - 1 where to + 1 wraps. */
  lemma WindowIsIntervalIff(from: int64, to: int64)
    ensures (forall t: int64 :: 0 <= t ==> (InWindow(t, from, to) <==> from <= t <= to))
       <==> (from >= 0 ==> to >= -1) && (from < 0 ==> to < 0)
  {
    if from >= 0 && to < -1 {
      assert InWindow(from, from, to);
    }
    if from < 0 && to >= 0 {
      assert !InWindow(0, from, to);
    }
  }

  /** The conversion uint32(n) of a length. */
  function Truncate32(n: nat): (r: uint32)
    ensures n < TWO_32 ==> r == n
  {
    n % TWO_32
  }

  // ---------- lexicographic order ----------

  predicate Less(a: Bytes, b: Bytes) {
    b != [] && (a == [] || a[0] < b[0] || (a[0] == b[0] && Less(a[1..], b[1..])))
  }

  lemma {:induction false} LessIrreflexive(a: Bytes)
    ensures !Less(a, a)
  {
    if a != [] {
      LessIrreflexive(a[1..]);
    }
  }

  lemma {:induction false} LessTransitive(a: Bytes, b: Bytes, c: Bytes)
    requires Less(a, b) && Less(b, c)
    ensures Less(a, c)
  {
    if a != [] && a[0] == b[0] == c[0] {
      LessTransitive(a[1..], b[1..], c[1..]);
    }
  }

  lemma {:induction false} LessTotal(a: Bytes, b: Bytes)
    ensures a == b || Less(a, b) || Less(b, a)
  {
    if a != [] && b != [] && a[0] == b[0] {
      LessTotal(a[1..], b[1..]);
      assert a == [a[0]] + a[1..] && b == [b[0]] + b[1..];
    }
  }

  lemma LessAsymmetric(a: Bytes, b: Bytes)
    requires Less(a, b)
    ensures !Less(b, a) && a != b
  {
    LessIrreflexive(a);
    if Less(b, a) {
      LessTransitive(a, b, a);
    }
  }

  /** Comparing two concatenations whose left parts have equal length. */
  lemma {:induction false} LessConcat(a: Bytes, b: Bytes, c: Bytes, d: Bytes)
    requires |a| == |c|
    ensures Less(a + b, c + d) <==> Less(a, c) || (a == c && Less(b, d))
  {
    if a == [] {
      assert a + b == b && c + d == d;
    } else {
      assert (a + b)[1..] == a[1..] + b && (c + d)[1..] == c[1..] + d;
      assert a == [a[0]] + a[1..] && c == [c[0]] + c[1..];
      LessConcat(a[1..], b, c[1..], d);
      LessIrreflexive(a);
    }
  }

  lemma LessPrepend(p: Bytes, a: Bytes, b: Bytes)
    ensures Less(p + a, p + b) <==> Less(a, b)
  {
    LessConcat(p, a, p, b);
    LessIrreflexive(p);
  }

  function Zeros(n: nat): (r: Bytes)
    ensures |r| == n && forall i :: 0 <= i < n ==> r[i] == 0
  {
    seq(n, i => 0)
  }

  lemma {:induction false} ZerosAreLeast(w: Bytes)
    ensures !Less(w, Zeros(|w|))
  {
    if w != [] {
      assert Zeros(|w|)[1..] == Zeros(|w| - 1);
      ZerosAreLeast(w[1..]);
    }
  }

  /** A shorter string is below w exactly when, filled up with zeros, it is not above w. */
  lemma {:induction false} LessPadded(r: Bytes, w: Bytes)
    requires |r| < |w|
    ensures Less(r, w) <==> !Less(w, r + Zeros(|w| - |r|))
  {
    if r == [] {
      assert r + Zeros(|w|) == Zeros(|w|);
      ZerosAreLeast(w);
    } else {
      LessPadded(r[1..], w[1..]);
      assert (r + Zeros(|w| - |r|))[1..] == r[1..] + Zeros(|w| - |r|);
    }
  }

  /** A longer string is below w exactly when its part of w's length is. */
  lemma LessByStart(r: Bytes, w: Bytes)
    requires |r| >= |w|
    ensures Less(r, w) <==> Less(r[..|w|], w)
  {
    assert r == r[..|w|] + r[|w|..] && w == w + [];
    LessConcat(r[..|w|], r[|w|..], w, []);
  }

  /** A key between two keys that share a prefix has that prefix. */
  lemma {:induction false} BetweenSharesPrefix(p: Bytes, a: Bytes, b: Bytes, k: Bytes)
    requires !Less(k, p + a) && Less(k, p + b)
    ensures p <= k
  {
    if p != [] {
      assert (p + a)[1..] == p[1..] + a && (p + b)[1..] == p[1..] + b;
      assert k[0] == p[0];
      BetweenSharesPrefix(p[1..], a, b, k[1..]);
      assert p == [p[0]] + p[1..] && k == [k[0]] + k[1..];
    }
  }

  lemma PrefixSplits(p: Bytes, k: Bytes)
    requires p <= k
    ensures k == p + k[|p|..]
  {}

  lemma ConcatInjective(a: Bytes, b: Bytes, c: Bytes, d: Bytes)
    requires a + b == c + d
    requires |a| == |c| || |b| == |d|
    ensures a == c && b == d
  {
    assert |a + b| == |c + d|;
    assert a == (a + b)[..|a|] && c == (c + d)[..|c|];
    assert b == (a + b)[|a|..] && d == (c + d)[|c|..];
  }

  // ---------- big-endian integers ----------

  function BigEndian(v: nat, width: nat): (r: Bytes)
    ensures |r| == width
  {
    if width == 0 then [] else BigEndian(v / 256, width - 1) + [v % 256]
  }

  function FromBigEndian(b: Bytes): (v: nat) {
    if b == [] then 0 else FromBigEndian(b[..|b| - 1]) * 256 + b[|b| - 1]
  }

  function Pow256(width: nat): (r: nat)
    ensures r > 0
  {
    if width == 0 then 1 else 256 * Pow256(width - 1)
  }

  lemma {:induction false} BigEndianRoundTrip(v: nat, width: nat)
    requires v < Pow256(width)
    ensures FromBigEndian(BigEndian(v, width)) == v
  {
    if width > 0 {
      BigEndianRoundTrip(v / 256, width - 1);
      var r := BigEndian(v, width);
      assert r[..|r| - 1] == BigEndian(v / 256, width - 1);
    }
  }

  lemma {:induction false} FromBigEndianRoundTrip(b: Bytes)
    ensures FromBigEndian(b) < Pow256(|b|)
    ensures BigEndian(FromBigEndian(b), |b|) == b
  {
    if b != [] {
      FromBigEndianRoundTrip(b[..|b| - 1]);
      assert b == b[..|b| - 1] + [b[|b| - 1]];
      var hi := FromBigEndian(b[..|b| - 1]);
      assert (hi * 256 + b[|b| - 1]) / 256 == hi;
    }
  }

  lemma {:induction false} BigEndianOrder(v: nat, w: nat, width: nat)
    requires v < Pow256(width) && w < Pow256(width)
    ensures Less(BigEndian(v, width), BigEndian(w, width)) <==> v < w
  {
    if width > 0 {
      BigEndianOrder(v / 256, w / 256, width - 1);
      LessConcat(BigEndian(v / 256, width - 1), [v % 256], BigEndian(w / 256, width - 1), [w % 256]);
      if BigEndian(v / 256, width - 1) == BigEndian(w / 256, width - 1) {
        BigEndianRoundTrip(v / 256, width - 1);
        BigEndianRoundTrip(w / 256, width - 1);
      }
    }
  }

  lemma Pow256Of8()
    ensures Pow256(8) == TWO_64
  {
    assert Pow256(4) == TWO_32;
  }

  /** The eight-byte key form of an unsigned 64-bit integer. */
  function BE8(v: uint64): (r: Bytes)
    ensures |r| == 8
  {
    BigEndian(v, 8)
  }

  /** The decoder of an eight-byte key; a longer slice is read by its first eight bytes. */
  function FromBE8(b: Bytes): (v: uint64)
    requires |b| >= 8
  {
    FromBigEndianRoundTrip(b[..8]);
    Pow256Of8();
    FromBigEndian(b[..8])
  }

  lemma BE8RoundTrip(v: uint64)
    ensures FromBE8(BE8(v)) == v
  {
    Pow256Of8();
    BigEndianRoundTrip(v, 8);
    assert BE8(v)[..8] == BE8(v);
  }

  lemma FromBE8RoundTrip(b: Bytes)
    requires |b| == 8
    ensures BE8(FromBE8(b)) == b
  {
    FromBigEndianRoundTrip(b);
    assert b[..8] == b;
  }

  /** Byte order of the eight-byte keys is integer order. */
  lemma BE8Order(v: uint64, w: uint64)
    ensures Less(BE8(v), BE8(w)) <==> v < w
    ensures BE8(v) == BE8(w) <==> v == w
  {
    Pow256Of8();
    BigEndianOrder(v, w, 8);
    BE8RoundTrip(v);
    BE8RoundTrip(w);
  }

  // ---------- NUL separators ----------

  predicate NulFree(s: Bytes) {
    0 !in s
  }

  /** The part of an index entry name | 0x00 | id is fixed by the last NUL when ids are NUL-free. */
  lemma SeparatorUnique(n1: Bytes, x1: Bytes, n2: Bytes, x2: Bytes)
    requires NulFree(x1) && NulFree(x2)
    requires n1 + [0] + x1 == n2 + [0] + x2
    ensures n1 == n2 && x1 == x2
  {
    LastNul(n1, x1, |n2|);
    LastNul(n2, x2, |n1|);
    ConcatInjective(n1 + [0], x1, n2 + [0], x2);
    ConcatInjective(n1, [0], n2, [0]);
  }

  lemma LastNul(n: Bytes, x: Bytes, i: nat)
    requires NulFree(x)
    requires i <= |n + x| && (n + [0] + x)[i] == 0
    ensures i <= |n|
  {
    assert forall j :: |n| < j <= |n + x| ==> (n + [0] + x)[j] == x[j - |n| - 1];
  }

  // ---------- decimal printing ----------

  function Decimal(n: nat): (r: Bytes)
    ensures r != [] && forall i :: 0 <= i < |r| ==> 48 <= r[i] < 58
  {
    if n < 10 then [48 + n] else Decimal(n / 10) + [48 + n % 10]
  }

  function ParseDecimal(s: Bytes): int {
    if s == [] then 0 else var digit: int := s[|s| - 1]; ParseDecimal(s[..|s| - 1]) * 10 + digit - 48
  }

  lemma {:induction false} DecimalRoundTrip(n: nat)
    ensures ParseDecimal(Decimal(n)) == n
  {
    var r := Decimal(n);
    if n < 10 {
      assert r[..0] == [];
    } else {
      DecimalRoundTrip(n / 10);
      assert r[..|r| - 1] == Decimal(n / 10);
    }
  }

  /** Among numbers with equally many digits, the byte order of the decimal forms is integer order. */
  lemma {:induction false} DecimalOrder(m: nat, n: nat)
    requires |Decimal(m)| == |Decimal(n)|
    ensures Less(Decimal(m), Decimal(n)) <==> m < n
    ensures Decimal(m) == Decimal(n) <==> m == n
  {
    if m >= 10 && n >= 10 {
      DecimalOrder(m / 10, n / 10);
      LessConcat(Decimal(m / 10), [48 + m % 10], Decimal(n / 10), [48 + n % 10]);
      DecimalRoundTrip(m);
      DecimalRoundTrip(n);
    }
  }
}
