/** Node identifiers and the XOR metric.

    An identifier is twenty bytes. Everything the node decides about distance it decides
    by walking those bytes; this module proves that the walks compute arithmetic on the
    160-bit number the bytes spell, most significant byte first. */
module Metric {

  const KEY_LEN: nat := 20
  const KEY_BITLEN: nat := 160

  type Byte = x: int | 0 <= x < 256
  type Bytes = seq<Byte>
  type NodeId = s: Bytes | |s| == KEY_LEN witness seq(KEY_LEN, _ => 0)

  /** An unsigned 32-bit word, and a 16-bit one. */
  type Word = x: int | 0 <= x < 0x1_0000_0000
  type HalfWord = x: int | 0 <= x < 0x1_0000

  /** An IPv4 endpoint, both fields as the socket structure holds them. */
  datatype Addr = Addr(ip: Word, port: HalfWord)

  /** An identifier together with the endpoint it was heard from. */
  datatype PeerId = PeerId(id: NodeId, addr: Addr)

  const ZERO_ADDR := Addr(0, 0)

  // ---------------------------------------------------------------- numbers

  function Pow2(e: nat): (p: nat)
    ensures p >= 1
  {
    if e == 0 then 1 else 2 * Pow2(e - 1)
  }

  /** The number a byte string spells, big-endian. */
  function Value(s: Bytes): nat
  {
    if s == [] then 0 else Value(s[..|s| - 1]) * 256 + s[|s| - 1]
  }

  function FloorLog2(v: nat): (e: nat)
    requires v > 0
  {
    if v == 1 then 0 else 1 + FloorLog2(v / 2)
  }

  /** The bucket a distance belongs to; distance zero shares bucket 0 with distance one. */
  function BucketOf(v: nat): nat
  {
    if v == 0 then 0 else FloorLog2(v)
  }

  lemma {:induction false} FloorLog2Bounds(v: nat)
    requires v > 0
    ensures Pow2(FloorLog2(v)) <= v < Pow2(FloorLog2(v) + 1)
  {
    if v == 1 {
    } else {
      FloorLog2Bounds(v / 2);
    }
  }

  lemma {:induction false} Pow2Monotonic(a: nat, b: nat)
    requires a <= b
    ensures Pow2(a) <= Pow2(b)
    decreases b
  {
    if a == b {
    } else {
      Pow2Monotonic(a, b - 1);
    }
  }

  lemma FloorLog2Unique(v: nat, e: nat)
    requires Pow2(e) <= v < Pow2(e + 1)
    ensures FloorLog2(v) == e
  {
    var f := FloorLog2(v);
    FloorLog2Bounds(v);
    if f < e {
      Pow2Monotonic(f + 1, e);
    } else if e < f {
      Pow2Monotonic(e + 1, f);
    }
  }

  lemma Pow2Add8(e: nat)
    ensures Pow2(e + 8) == 256 * Pow2(e)
  {
    assert Pow2(e + 8) == 2 * Pow2(e + 7);
    assert Pow2(e + 7) == 2 * Pow2(e + 6);
    assert Pow2(e + 6) == 2 * Pow2(e + 5);
    assert Pow2(e + 5) == 2 * Pow2(e + 4);
    assert Pow2(e + 4) == 2 * Pow2(e + 3);
    assert Pow2(e + 3) == 2 * Pow2(e + 2);
    assert Pow2(e + 2) == 2 * Pow2(e + 1);
  }

  lemma {:induction false} ValueBound(s: Bytes)
    ensures Value(s) < Pow2(8 * |s|)
  {
    if s == [] {
    } else {
      ValueBound(s[..|s| - 1]);
      Pow2Add8(8 * (|s| - 1));
    }
  }

  /** A byte string that is smaller on a prefix is smaller, whatever follows. */
  lemma {:induction false} PrefixDecides(a: Bytes, b: Bytes, k: nat)
    requires |a| == |b| && k <= |a|
    requires Value(a[..k]) < Value(b[..k])
    ensures Value(a) < Value(b)
    decreases |a|
  {
    if k == |a| {
      assert a[..k] == a && b[..k] == b;
    } else {
      var n := |a| - 1;
      assert a[..n][..k] == a[..k] && b[..n][..k] == b[..k];
      PrefixDecides(a[..n], b[..n], k);
    }
  }

  lemma {:induction false} ValueInjective(a: Bytes, b: Bytes)
    requires |a| == |b| && Value(a) == Value(b)
    ensures a == b
  {
    if a == [] {
    } else {
      var n := |a| - 1;
      ValueInjective(a[..n], b[..n]);
      assert a == a[..n] + [a[n]] && b == b[..n] + [b[n]];
    }
  }

  // ---------------------------------------------------------------- comparison of ids

  /** The byte loop behind operator< on identifiers orders the numbers they spell. */
  method Less(a: Bytes, b: Bytes) returns (r: bool)
    requires |a| == KEY_LEN && |b| == KEY_LEN
    ensures r <==> Value(a) < Value(b)
  {
    for i := 0 to KEY_LEN
      invariant a[..i] == b[..i]
    {
      assert a[..i + 1][..i] == a[..i] && b[..i + 1][..i] == b[..i];
      if a[i] < b[i] {
        PrefixDecides(a, b, i + 1);
        return true;
      } else if a[i] > b[i] {
        PrefixDecides(b, a, i + 1);
        return false;
      }
    }
    assert a == b;
    return false;
  }

  /** The byte loop behind operator== on identifiers. */
  method Equal(a: Bytes, b: Bytes) returns (r: bool)
    requires |a| == KEY_LEN && |b| == KEY_LEN
    ensures r <==> a == b
  {
    for i := 0 to KEY_LEN
      invariant a[..i] == b[..i]
    {
      if a[i] < b[i] {
        return false;
      } else if a[i] > b[i] {
        return false;
      }
    }
    return true;
  }

  // ---------------------------------------------------------------- the XOR metric

  /** Exclusive or of the k low bits of two numbers. */
  function XorBits(x: nat, y: nat, k: nat): (z: nat)
    ensures z < Pow2(k)
  {
    if k == 0 then 0 else 2 * XorBits(x / 2, y / 2, k - 1) + (x + y) % 2
  }

  function XorByte(x: Byte, y: Byte): (z: Byte)
  {
    Pow2Table();
    XorBits(x, y, 8)
  }

  function Xor(a: Bytes, b: Bytes): (r: Bytes)
    requires |a| == |b|
    ensures |r| == |a|
  {
    seq(|a|, i requires 0 <= i < |a| => XorByte(a[i], b[i]))
  }

  /** The distance between two identifiers, as the number its bytes spell. */
  function Dist(a: NodeId, b: NodeId): nat
  {
    Value(Xor(a, b))
  }

  /** Fills r with the distance; r may be one of the inputs. */
  method Distance(a: array<Byte>, b: array<Byte>, r: array<Byte>)
    requires a.Length == KEY_LEN && b.Length == KEY_LEN && r.Length == KEY_LEN
    modifies r
    ensures r[..] == Xor(old(a[..]), old(b[..]))
  {
    for i := 0 to KEY_LEN
      invariant forall k :: 0 <= k < i ==> r[k] == XorByte(old(a[k]), old(b[k]))
      invariant forall k :: i <= k < KEY_LEN ==> a[k] == old(a[k]) && b[k] == old(b[k])
    {
      r[i] := XorByte(a[i], b[i]);
    }
  }

  lemma XorPrefix(a: Bytes, b: Bytes, k: nat)
    requires |a| == |b| && k <= |a|
    ensures Xor(a, b)[..k] == Xor(a[..k], b[..k])
  {
  }

  lemma {:induction false} XorSelf(a: Bytes)
    ensures Value(Xor(a, a)) == 0
  {
    if a == [] {
    } else {
      XorSelf(a[..|a| - 1]);
      XorPrefix(a, a, |a| - 1);
      XorByteGroup(a[|a| - 1], a[|a| - 1], 0);
    }
  }

  lemma XorBitsHalf(x: nat, y: nat, k: nat)
    requires k > 0
    ensures XorBits(x, y, k) / 2 == XorBits(x / 2, y / 2, k - 1)
    ensures XorBits(x, y, k) % 2 == (x + y) % 2
  {
  }

  lemma {:induction false} XorBitsSymmetric(x: nat, y: nat, k: nat)
    ensures XorBits(x, x, k) == 0
    ensures XorBits(x, y, k) == XorBits(y, x, k)
  {
    if k == 0 {
    } else {
      XorBitsSymmetric(x / 2, y / 2, k - 1);
    }
  }

  lemma {:induction false} XorBitsCompose(x: nat, y: nat, z: nat, k: nat)
    ensures XorBits(XorBits(x, y, k), XorBits(y, z, k), k) == XorBits(x, z, k)
  {
    if k == 0 {
    } else {
      XorBitsCompose(x / 2, y / 2, z / 2, k - 1);
      var p, q := XorBits(x, y, k), XorBits(y, z, k);
      XorBitsHalf(x, y, k);
      XorBitsHalf(y, z, k);
      ComposeStep(x, y, z, p, q, k);
    }
  }

  lemma ComposeStep(x: nat, y: nat, z: nat, p: nat, q: nat, k: nat)
    requires k > 0 && XorBits(p / 2, q / 2, k - 1) == XorBits(x / 2, z / 2, k - 1)
    requires p % 2 == (x + y) % 2 && q % 2 == (y + z) % 2
    ensures XorBits(p, q, k) == XorBits(x, z, k)
  {
    ParityCompose(x, y, z, p, q);
    XorBitsEqual(p, q, x, z, k);
  }

  lemma XorBitsEqual(a: nat, b: nat, c: nat, d: nat, k: nat)
    requires k > 0 && XorBits(a / 2, b / 2, k - 1) == XorBits(c / 2, d / 2, k - 1) && (a + b) % 2 == (c + d) % 2
    ensures XorBits(a, b, k) == XorBits(c, d, k)
  {
  }

  lemma ParityCompose(x: nat, y: nat, z: nat, p: nat, q: nat)
    requires p % 2 == (x + y) % 2 && q % 2 == (y + z) % 2
    ensures (p + q) % 2 == (x + z) % 2
  {
  }

  lemma {:induction false} XorBitsCancel(x: nat, y: nat, z: nat, k: nat)
    requires y < Pow2(k) && z < Pow2(k) && XorBits(x, y, k) == XorBits(x, z, k)
    ensures y == z
  {
    if k == 0 {
    } else {
      XorBitsHalf(x, y, k);
      XorBitsHalf(x, z, k);
      XorBitsCancel(x / 2, y / 2, z / 2, k - 1);
      SameParity(x, y, z);
    }
  }

  lemma SameParity(x: nat, y: nat, z: nat)
    requires (x + y) % 2 == (x + z) % 2 && y / 2 == z / 2
    ensures y == z
  {
  }

  lemma {:induction false} XorBitsSum(x: nat, y: nat, k: nat)
    ensures XorBits(x, y, k) <= x + y
  {
    if k == 0 {
    } else {
      XorBitsSum(x / 2, y / 2, k - 1);
      XorBitsHalf(x, y, k);
      HalfSum(XorBits(x, y, k), x, y);
    }
  }

  lemma HalfSum(r: nat, x: nat, y: nat)
    requires r / 2 <= x / 2 + y / 2 && r % 2 == (x + y) % 2
    ensures r <= x + y
  {
    assert (x + y) % 2 <= x % 2 + y % 2;
  }

  lemma {:induction false} XorBitsBelow(x: nat, y: nat, e: nat, k: nat)
    requires x < Pow2(e) && y < Pow2(e)
    ensures XorBits(x, y, k) < Pow2(e)
  {
    if k > 0 && e > 0 {
      XorBitsBelow(x / 2, y / 2, e - 1, k - 1);
    } else if k > 0 {
      XorBitsSymmetric(0, 0, k);
    }
  }

  lemma XorByteGroup(x: Byte, y: Byte, z: Byte)
    ensures XorByte(XorByte(x, y), XorByte(y, z)) == XorByte(x, z)
    ensures XorByte(x, y) == XorByte(x, z) <==> y == z
    ensures XorByte(x, y) == XorByte(y, x)
    ensures XorByte(x, y) == 0 <==> x == y
  {
    Pow2Table();
    XorBitsSymmetric(x, y, 8);
    XorBitsCompose(x, y, z, 8);
    if XorByte(x, y) == XorByte(x, z) {
      XorBitsCancel(x, y, z, 8);
    }
    if XorByte(x, y) == 0 {
      XorBitsCancel(x, x, y, 8);
    }
  }

  lemma XorCompose(a: Bytes, b: Bytes, c: Bytes)
    requires |a| == |b| == |c|
    ensures Xor(a, c) == Xor(Xor(a, b), Xor(b, c))
  {
    forall i | 0 <= i < |a| ensures Xor(a, c)[i] == Xor(Xor(a, b), Xor(b, c))[i] {
      XorByteGroup(a[i], b[i], c[i]);
    }
  }

  lemma {:induction false} XorSum(x: Bytes, y: Bytes)
    requires |x| == |y|
    ensures Value(Xor(x, y)) <= Value(x) + Value(y)
  {
    if x == [] {
    } else {
      var n := |x| - 1;
      XorSum(x[..n], y[..n]);
      XorPrefix(x, y, n);
      XorBitsSum(x[n], y[n], 8);
    }
  }

  lemma XorCommutes(a: Bytes, b: Bytes)
    requires |a| == |b|
    ensures Xor(a, b) == Xor(b, a)
  {
    forall i | 0 <= i < |a| ensures Xor(a, b)[i] == Xor(b, a)[i] {
      XorByteGroup(a[i], b[i], b[i]);
    }
  }

  lemma XorCancels(t: Bytes, a: Bytes, b: Bytes)
    requires |t| == |a| == |b| && Value(Xor(t, a)) == Value(Xor(t, b))
    ensures a == b
  {
    ValueInjective(Xor(t, a), Xor(t, b));
    forall i | 0 <= i < |t| ensures a[i] == b[i] {
      assert Xor(t, a)[i] == Xor(t, b)[i];
      XorByteGroup(t[i], a[i], b[i]);
    }
  }

  /** Zero exactly on equal ids, symmetric, and one point per distance from any centre. */
  lemma DistIdentity(t: NodeId, a: NodeId, b: NodeId)
    ensures Dist(a, b) == 0 <==> a == b
    ensures Dist(a, b) == Dist(b, a)
    ensures Dist(t, a) == Dist(t, b) ==> a == b
  {
    XorSelf(a);
    XorCommutes(a, b);
    if Dist(t, a) == Dist(t, b) {
      XorCancels(t, a, b);
    }
    if Dist(a, b) == 0 {
      XorCancels(a, a, b);
    }
  }

  lemma DistTriangle(a: NodeId, b: NodeId, c: NodeId)
    ensures Dist(a, c) <= Dist(a, b) + Dist(b, c)
  {
    XorCompose(a, b, c);
    XorSum(Xor(a, b), Xor(b, c));
  }

  // ---------------------------------------------------------------- buckets

  /** Bit k of a number: what masking with 1 << k tests. */
  function Bit(x: nat, k: nat): (b: nat)
    ensures b < 2
  {
    if k == 0 then x % 2 else Bit(x / 2, k - 1)
  }

  lemma DoubledBit(z: nat, c: nat, k: nat)
    requires c < 2
    ensures Bit(2 * z + c, k) == if k == 0 then c else Bit(z, k - 1)
  {
  }

  lemma {:induction false} ZeroBit(k: nat)
    ensures Bit(0, k) == 0
  {
    if k == 0 {
    } else {
      ZeroBit(k - 1);
    }
  }

  lemma LowBits(x: nat, y: nat)
    ensures (x + y) % 2 == 1 <==> x % 2 != y % 2
  {
  }

  /** Bit by bit the exclusive or says where the two differ. */
  lemma {:induction false} XorBit(x: nat, y: nat, k: nat, n: nat)
    ensures Bit(XorBits(x, y, n), k) == 1 <==> k < n && Bit(x, k) != Bit(y, k)
  {
    if n == 0 {
      ZeroBit(k);
    } else {
      var z, c := XorBits(x / 2, y / 2, n - 1), (x + y) % 2;
      DoubledBit(z, c, k);
      LowBits(x, y);
      if k > 0 {
        XorBit(x / 2, y / 2, k - 1, n - 1);
      }
    }
  }

  /** The distance is the number spelled by bytes whose bits say where the bytes of the two ids
      differ, and its bucket is the place of its highest bit, 0 for distance zero. */
  lemma DistanceBits(a: NodeId, b: NodeId, i: nat, k: nat)
    requires i < KEY_LEN && k < 8
    ensures Dist(a, b) == Value(Xor(a, b)) && (Bit(Xor(a, b)[i], k) == 1 <==> Bit(a[i], k) != Bit(b[i], k))
    ensures var d := Dist(a, b);
            if d == 0 then BucketOf(d) == 0 else Pow2(BucketOf(d)) <= d < Pow2(BucketOf(d) + 1)
  {
    XorBit(a[i], b[i], k, 8);
    if Dist(a, b) > 0 {
      FloorLog2Bounds(Dist(a, b));
    }
  }

  lemma {:induction false} TopBit(x: nat, k: nat)
    requires x < Pow2(k + 1)
    ensures Bit(x, k) == 0 <==> x < Pow2(k)
  {
    if k == 0 {
    } else {
      TopBit(x / 2, k - 1);
    }
  }

  lemma Pow2Table()
    ensures Pow2(0) == 1 && Pow2(1) == 2 && Pow2(2) == 4 && Pow2(3) == 8 && Pow2(4) == 16
    ensures Pow2(5) == 32 && Pow2(6) == 64 && Pow2(7) == 128 && Pow2(8) == 256
  {
    assert Pow2(2) == 4;
    assert Pow2(4) == 16;
    assert Pow2(6) == 64;
    assert Pow2(8) == 256;
  }

  lemma LogByte(v: nat, b: Byte, e: nat)
    requires Pow2(e) <= v < Pow2(e + 1)
    ensures Pow2(e + 8) <= v * 256 + b < Pow2(e + 9)
  {
    Pow2Add8(e);
    Pow2Add8(e + 1);
  }

  lemma {:induction false} ExtendLog(m: Bytes, j: nat, e: nat)
    requires j <= |m| && Pow2(e) <= Value(m[..j]) < Pow2(e + 1)
    ensures Pow2(e + 8 * (|m| - j)) <= Value(m) < Pow2(e + 8 * (|m| - j) + 1)
    decreases |m|
  {
    if j == |m| {
      assert m[..j] == m;
    } else {
      var n := |m| - 1;
      assert m[..n][..j] == m[..j];
      ExtendLog(m[..n], j, e);
      var f := e + 8 * (n - j);
      LogByte(Value(m[..n]), m[n], f);
      assert e + 8 * (|m| - j) == f + 8;
    }
  }

  /** The first bit that is set is that of the logarithm. */
  lemma BitFound(m: Bytes, byte: nat, bbit: nat)
    requires byte < |m| && bbit < 8 && Value(m[..byte]) == 0 && m[byte] < Pow2(bbit + 1) && Bit(m[byte], bbit) != 0
    ensures BucketOf(Value(m)) == bbit + 8 * (|m| - byte - 1)
  {
    TopBit(m[byte], bbit);
    assert m[..byte + 1][..byte] == m[..byte];
    ExtendLog(m, byte + 1, bbit);
    FloorLog2Unique(Value(m), bbit + 8 * (|m| - byte - 1));
  }

  lemma BitMissing(m: Bytes, byte: nat, bbit: nat)
    requires byte < |m| && bbit < 8 && Value(m[..byte]) == 0 && m[byte] < Pow2(bbit + 1) && Bit(m[byte], bbit) == 0
    ensures m[byte] < Pow2(bbit) && (bbit == 0 ==> Value(m[..byte + 1]) == 0)
  {
    TopBit(m[byte], bbit);
    assert m[..byte + 1][..byte] == m[..byte];
  }

  /** Scans the distance bit by bit from the top: floor(log2) of the number, 0 for zero. */
  method BucketDistance(m: Bytes) returns (r: nat)
    requires |m| == KEY_LEN
    ensures r == BucketOf(Value(m)) && r < KEY_BITLEN
  {
    Pow2Table();
    for i := 0 to KEY_BITLEN
      invariant Value(m[..i / 8]) == 0
      invariant i < KEY_BITLEN ==> m[i / 8] < Pow2(8 - i % 8)
      invariant i == KEY_BITLEN ==> Value(m) == 0
    {
      var bit := KEY_BITLEN - i - 1;
      var byte := i / 8;
      var bbit := 7 - i % 8;
      if Bit(m[byte], bbit) != 0 {
        BitFound(m, byte, bbit);
        return bit;
      }
      BitMissing(m, byte, bbit);
      assert (i + 1) / 8 == if i % 8 == 7 then byte + 1 else byte;
      assert m[..KEY_LEN] == m;
    }
    return 0;
  }

  lemma BelowStep(z: Bytes, e: nat)
    requires z != [] && e >= 8
    ensures Value(z) < Pow2(e) <==> Value(z[..|z| - 1]) < Pow2(e - 8)
  {
    Pow2Add8(e - 8);
  }

  lemma BelowByte(z: Bytes, e: nat)
    requires z != [] && e < 8
    ensures Value(z) < Pow2(e) <==> Value(z[..|z| - 1]) == 0 && z[|z| - 1] < Pow2(e)
  {
    Pow2Table();
    Pow2Monotonic(e, 8);
  }

  lemma {:induction false} XorBelow(x: Bytes, y: Bytes, e: nat)
    requires |x| == |y| && Value(x) < Pow2(e) && Value(y) < Pow2(e)
    ensures Value(Xor(x, y)) < Pow2(e)
  {
    if x == [] {
    } else {
      var n := |x| - 1;
      XorPrefix(x, y, n);
      if e >= 8 {
        BelowStep(x, e);
        BelowStep(y, e);
        XorBelow(x[..n], y[..n], e - 8);
        BelowStep(Xor(x, y), e);
      } else {
        BelowByte(x, e);
        BelowByte(y, e);
        XorBelow(x[..n], y[..n], 0);
        XorBitsBelow(x[n], y[n], e, 8);
        BelowByte(Xor(x, y), e);
      }
    }
  }

  lemma BucketOfBelow(v: nat, e: nat)
    ensures v < Pow2(e + 1) <==> BucketOf(v) <= e
  {
    if v > 0 {
      FloorLog2Bounds(v);
      if FloorLog2(v) <= e {
        Pow2Monotonic(FloorLog2(v) + 1, e + 1);
      } else {
        Pow2Monotonic(e + 1, FloorLog2(v));
      }
    }
  }

  /** Buckets are an ultrametric: the two nearer peers of a third share a close bucket. */
  lemma BucketUltrametric(a: NodeId, b: NodeId, c: NodeId)
    ensures BucketOf(Dist(a, c)) <= BucketOf(Dist(a, b)) || BucketOf(Dist(a, c)) <= BucketOf(Dist(b, c))
  {
    var p, q := BucketOf(Dist(a, b)), BucketOf(Dist(b, c));
    var e := if p < q then q else p;
    BucketOfBelow(Dist(a, b), e);
    BucketOfBelow(Dist(b, c), e);
    XorCompose(a, b, c);
    XorBelow(Xor(a, b), Xor(b, c), e + 1);
    BucketOfBelow(Dist(a, c), e);
  }

  lemma BucketInRange(a: NodeId, b: NodeId)
    ensures BucketOf(Dist(a, b)) < KEY_BITLEN
  {
    ValueBound(Xor(a, b));
    BucketOfBelow(Dist(a, b), KEY_BITLEN - 1);
  }

  // ---------------------------------------------------------------- mid ids

  /** How many leading bytes two identifiers share. */
  function CommonPrefix(a: Bytes, b: Bytes): (n: nat)
    requires |a| == |b|
    ensures n <= |a| && a[..n] == b[..n]
    ensures n < |a| ==> a[n] != b[n]
  {
    if a == [] || a[0] != b[0] then 0 else 1 + CommonPrefix(a[1..], b[1..])
  }

  /** The id a disguised query names instead of its target: the target's bytes through the
      first byte in which the queried peer differs, random filler after that. */
  function MidId(target: NodeId, other: NodeId, filler: NodeId): NodeId
  {
    var n := CommonPrefix(target, other);
    if n == KEY_LEN then target else target[..n + 1] + filler[n + 1..]
  }

  lemma PrefixStep(a: Bytes, b: Bytes, i: nat)
    requires |a| == |b| && i < |a| && i <= CommonPrefix(a, b)
    ensures Xor(a, b)[i] == 0 <==> i < CommonPrefix(a, b)
  {
    XorByteGroup(a[i], b[i], 0);
    assert i < CommonPrefix(a, b) ==> a[..CommonPrefix(a, b)][i] == b[..CommonPrefix(a, b)][i];
  }

  lemma MidGrows(t: NodeId, filler: NodeId, mid: NodeId, i: nat)
    requires i < KEY_LEN && mid == t[..i] + filler[i..]
    ensures mid[i := t[i]] == t[..i + 1] + filler[i + 1..]
  {
  }

  lemma MidIdIs(t: NodeId, o: NodeId, filler: NodeId, k: nat)
    requires k <= KEY_LEN && if CommonPrefix(t, o) == KEY_LEN then k == KEY_LEN else k == CommonPrefix(t, o) + 1
    ensures MidId(t, o, filler) == t[..k] + filler[k..]
  {
  }

  method RandomMidId(target: array<Byte>, other: array<Byte>, filler: NodeId, mid: array<Byte>)
    requires target.Length == KEY_LEN && other.Length == KEY_LEN && mid.Length == KEY_LEN
    requires mid != target && mid != other
    modifies mid
    ensures mid[..] == MidId(target[..], other[..], filler)
  {
    ghost var t, o := target[..], other[..];
    var dist := new Byte[KEY_LEN];
    Distance(target, other, dist);
    forall i | 0 <= i < KEY_LEN {
      mid[i] := filler[i];
    }
    for i := 0 to KEY_LEN
      invariant i <= CommonPrefix(t, o)
      invariant target[..] == t && other[..] == o && dist[..] == Xor(t, o)
      invariant mid[..] == t[..i] + filler[i..]
    {
      PrefixStep(t, o, i);
      MidGrows(t, filler, mid[..], i);
      assert dist[i] == dist[..][i] && target[i] == t[i];
      mid[i] := target[i];
      if dist[i] != 0 {
        MidIdIs(t, o, filler, i + 1);
        break;
      }
    }
    if CommonPrefix(t, o) == KEY_LEN {
      MidIdIs(t, o, filler, KEY_LEN);
    }
  }

  /** The announced id is strictly nearer the target than the peer that is asked, and shares
      at least one more leading byte with it. */
  lemma MidIdNearer(target: NodeId, other: NodeId, filler: NodeId)
    requires other != target
    ensures Dist(target, MidId(target, other, filler)) < Dist(target, other)
    ensures CommonPrefix(target, MidId(target, other, filler)) > CommonPrefix(target, other)
  {
    var n := CommonPrefix(target, other);
    var mid := MidId(target, other, filler);
    var x, y := Xor(target, mid), Xor(target, other);
    XorSelf(target[..n + 1]);
    assert mid[..n + 1] == target[..n + 1];
    XorPrefix(target, mid, n + 1);
    XorByteGroup(target[n], other[n], 0);
    PrefixDecides(x, y, n + 1);
  }

  /** ids[k + 1] is a mid id between the target and ids[k]. */
  ghost predicate MidChain(target: NodeId, ids: seq<NodeId>, fillers: seq<NodeId>)
  {
    && |ids| == |fillers| + 1
    && forall k :: 0 <= k < |fillers| ==> ids[k + 1] == MidId(target, ids[k], fillers[k])
  }

  lemma MidChainStep(target: NodeId, ids: seq<NodeId>, fillers: seq<NodeId>, k: nat)
    requires MidChain(target, ids, fillers) && k < |fillers|
    ensures if ids[k] == target then ids[k + 1] == target
            else CommonPrefix(target, ids[k + 1]) > CommonPrefix(target, ids[k])
  {
    if ids[k] == target {
      PrefixAll(target, target);
    } else {
      MidIdNearer(target, ids[k], fillers[k]);
    }
  }

  lemma PrefixAll(a: Bytes, b: Bytes)
    requires |a| == |b|
    ensures CommonPrefix(a, b) == |a| <==> a == b
  {
    assert a[..|a|] == a && b[..|b|] == b;
  }

  /** Whatever the random fillers are, twenty steps reach the target, and it is kept. */
  lemma {:induction false} MidChainReaches(target: NodeId, ids: seq<NodeId>, fillers: seq<NodeId>, k: nat)
    requires MidChain(target, ids, fillers) && k < |ids|
    ensures CommonPrefix(target, ids[k]) >= if k < KEY_LEN then k else KEY_LEN
    ensures k >= KEY_LEN ==> ids[k] == target
  {
    if k > 0 {
      MidChainReaches(target, ids, fillers, k - 1);
      MidChainStep(target, ids, fillers, k - 1);
    }
    PrefixAll(target, ids[k]);
  }
}
