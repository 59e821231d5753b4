/** The peer record the routing table and the queries share, its flags, and the constants
    of the standard DHT. */
module Peers {
  import opened Metric

  /** Bitwise and, or, on the k low bits. */
  function AndBits(x: nat, y: nat, k: nat): (z: nat)
    ensures z <= x && z <= y
  {
    if k == 0 then 0 else 2 * AndBits(x / 2, y / 2, k - 1) + if x % 2 == 1 && y % 2 == 1 then 1 else 0
  }

  function OrBits(x: nat, y: nat, k: nat): (z: nat)
    ensures z < Pow2(k)
  {
    if k == 0 then 0 else 2 * OrBits(x / 2, y / 2, k - 1) + if x % 2 == 0 then y % 2 else 1
  }

  function And(x: Word, y: Word): Word {
    AndBits(x, y, 32)
  }

  function Or(x: Word, y: Word): Word {
    Pow2Of32();
    OrBits(x, y, 32)
  }

  lemma Pow2Of32()
    ensures Pow2(32) == 0x1_0000_0000
  {
    assert Pow2(8) == 256 by { Pow2Table(); }
    Pow2Add8(8);
    Pow2Add8(16);
    Pow2Add8(24);
  }

  /** Setting more flags never lowers the word. */
  lemma {:induction false} OrBitsGrows(x: nat, y: nat, k: nat)
    requires x < Pow2(k)
    ensures OrBits(x, y, k) >= x
  {
    if k == 0 {
    } else {
      OrBitsGrows(x / 2, y / 2, k - 1);
    }
  }

  lemma OrGrows(x: Word, y: Word)
    ensures Or(x, y) >= x
  {
    Pow2Of32();
    OrBitsGrows(x, y, 32);
  }

  /** Bit by bit: and, or, and the test of one flag. */
  lemma {:induction false} AndBit(x: nat, y: nat, k: nat, n: nat)
    ensures Bit(AndBits(x, y, n), k) == 1 <==> k < n && Bit(x, k) == 1 && Bit(y, k) == 1
  {
    if n == 0 {
      ZeroBit(k);
    } else {
      DoubledBit(AndBits(x / 2, y / 2, n - 1), if x % 2 == 1 && y % 2 == 1 then 1 else 0, k);
      if k > 0 {
        AndBit(x / 2, y / 2, k - 1, n - 1);
      }
    }
  }

  lemma {:induction false} OrBit(x: nat, y: nat, k: nat, n: nat)
    ensures Bit(OrBits(x, y, n), k) == 1 <==> k < n && (Bit(x, k) == 1 || Bit(y, k) == 1)
  {
    if n == 0 {
      ZeroBit(k);
    } else {
      DoubledBit(OrBits(x / 2, y / 2, n - 1), if x % 2 == 0 then y % 2 else 1, k);
      if k > 0 {
        OrBit(x / 2, y / 2, k - 1, n - 1);
      }
    }
  }

  /** The words have a bit in common. */
  ghost predicate Shares(x: nat, y: nat, n: nat)
  {
    exists k: nat :: k < n && Bit(x, k) == 1 && Bit(y, k) == 1
  }

  lemma SharesHalf(x: nat, y: nat, n: nat)
    requires n > 0
    ensures Shares(x, y, n) <==> (x % 2 == 1 && y % 2 == 1) || Shares(x / 2, y / 2, n - 1)
  {
    if x % 2 == 1 && y % 2 == 1 {
      assert Bit(x, 0) == 1 && Bit(y, 0) == 1;
    }
    if Shares(x / 2, y / 2, n - 1) {
      var k: nat :| k < n - 1 && Bit(x / 2, k) == 1 && Bit(y / 2, k) == 1;
      assert Bit(x, k + 1) == 1 && Bit(y, k + 1) == 1;
    }
    if Shares(x, y, n) {
      var k: nat :| k < n && Bit(x, k) == 1 && Bit(y, k) == 1;
      if k > 0 {
        assert Bit(x / 2, k - 1) == 1 && Bit(y / 2, k - 1) == 1;
      }
    }
  }

  lemma {:induction false} AndShares(x: nat, y: nat, n: nat)
    ensures AndBits(x, y, n) != 0 <==> Shares(x, y, n)
  {
    if n == 0 {
    } else {
      AndShares(x / 2, y / 2, n - 1);
      SharesHalf(x, y, n);
    }
  }

  lemma {:induction false} AndZero(x: nat, n: nat)
    ensures AndBits(x, 0, n) == 0
  {
    if n == 0 {
    } else {
      AndZero(x / 2, n - 1);
    }
  }

  lemma {:induction false} AndMask(x: nat, k: nat, n: nat)
    ensures AndBits(x, Pow2(k), n) == if k < n && Bit(x, k) == 1 then Pow2(k) else 0
  {
    if n == 0 {
    } else if k == 0 {
      AndZero(x / 2, n - 1);
    } else {
      AndMask(x / 2, k - 1, n - 1);
    }
  }

  /** What the flag tests of this program look at. */
  lemma FlagTests(w: Word)
    ensures And(w, RECV_NODES) != 0 <==> Bit(w, 1) == 1
    ensures And(w, DHT_APPL) == (if Bit(w, 9) == 1 then DHT_APPL else 0)
    ensures And(w, 1) != 0 <==> Bit(w, 0) == 1
  {
    assert Pow2(9) == DHT_APPL by { Pow2Table(); }
    AndMask(w, 0, 32);
    AndMask(w, 1, 32);
    AndMask(w, 9, 32);
  }

  const NODES_PER_BUCKET: nat := 10
  const NUM_BUCKETS: nat := KEY_BITLEN

  const RECV_NODES: Word := 0x2
  const DHT_APPL: Word := 0x200

  /** Times are seconds; zero means never. */
  datatype Peer = Peer(id: PeerId, flags: Word, lastSend: int, lastRecv: int, found: int)

  datatype Option<+T> = None | Some(value: T)
}
