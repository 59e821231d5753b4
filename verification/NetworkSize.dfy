/** The network-size estimate. The routing table walks its buckets once, carrying a sum, a
    count and two switches; this module says in closed form what that walk computes, and
    proves that its 64-bit arithmetic never wraps. */
module NetworkSize {
  import opened Metric
  import opened Peers

  const ULL: nat := 0x1_0000_0000_0000_0000
  /** Buckets below this index stand for nets too big to average: 64 - 5 - 1 bits of shift. */
  const FIRST_SMALL: nat := 102

  ghost predicate Bounded(sizes: seq<nat>)
  {
    |sizes| == NUM_BUCKETS && forall i :: 0 <= i < |sizes| ==> sizes[i] <= NODES_PER_BUCKET
  }

  // ---------------------------------------------------------------- the closed form

  /** The last empty bucket before n, or -1. */
  function LastEmpty(sizes: seq<nat>, n: nat): (l: int)
    requires n <= |sizes|
    ensures -1 <= l < n
    ensures l >= 0 ==> sizes[l] == 0
    ensures forall i :: l < i < n ==> sizes[i] != 0
  {
    if n == 0 then -1 else if sizes[n - 1] == 0 then n - 1 else LastEmpty(sizes, n - 1)
  }

  /** The first full bucket among the averaged ones before n, or n. */
  function FirstFull(sizes: seq<nat>, n: nat): (f: nat)
    requires n <= |sizes|
    ensures f <= n
    ensures f < n ==> f >= FIRST_SMALL && sizes[f] == NODES_PER_BUCKET
    ensures forall i :: FIRST_SMALL <= i < f ==> sizes[i] != NODES_PER_BUCKET
  {
    if n <= FIRST_SMALL then n
    else
      var f := FirstFull(sizes, n - 1);
      if f < n - 1 then f else if sizes[n - 1] == NODES_PER_BUCKET then n - 1 else n
  }

  /** The first bucket that is averaged, and the one after the last. */
  function Low(sizes: seq<nat>, n: nat): (lo: nat)
    requires n <= |sizes|
    ensures lo >= FIRST_SMALL
  {
    if LastEmpty(sizes, n) + 1 > FIRST_SMALL then LastEmpty(sizes, n) + 1 else FIRST_SMALL
  }

  function High(sizes: seq<nat>, n: nat): (hi: nat)
    requires n <= |sizes|
    ensures hi <= n
  {
    if FirstFull(sizes, n) < n then FirstFull(sizes, n) + 1 else n
  }

  /** The sum over lo..hi of each bucket's population scaled to the whole id space. */
  function Scaled(sizes: seq<nat>, lo: nat, hi: nat): nat
    requires hi <= |sizes| == NUM_BUCKETS
  {
    if hi <= lo then 0 else Scaled(sizes, lo, hi - 1) + Pow2(KEY_BITLEN - (hi - 1)) * sizes[hi - 1]
  }

  /** The average over the unbroken run of occupied buckets that ends at the first full one,
      as a 32-bit number; 0 if that run is empty. */
  function Estimate(sizes: seq<nat>): nat
    requires |sizes| == NUM_BUCKETS
  {
    var lo, hi := Low(sizes, NUM_BUCKETS), High(sizes, NUM_BUCKETS);
    if hi <= lo then 0 else Scaled(sizes, lo, hi) / (hi - lo) % 0x1_0000_0000
  }

  /** The populations from lo on, each times the number of nets its bucket stands for. */
  function Weighted(sizes: seq<nat>, lo: nat, hi: nat): nat
    requires hi <= |sizes| == 160
    decreases hi - lo
  {
    if hi <= lo then 0 else Pow2(160 - lo) * sizes[lo] + Weighted(sizes, lo + 1, hi)
  }

  lemma {:induction false} WeightedLast(sizes: seq<nat>, lo: nat, hi: nat)
    requires lo < hi <= |sizes| == 160
    ensures Weighted(sizes, lo, hi) == Weighted(sizes, lo, hi - 1) + Pow2(160 - (hi - 1)) * sizes[hi - 1]
    decreases hi - lo
  {
    if lo == hi - 1 {
    } else {
      WeightedLast(sizes, lo + 1, hi);
    }
  }

  lemma {:induction false} ScaledIs(sizes: seq<nat>, lo: nat, hi: nat)
    requires hi <= |sizes| == 160
    ensures Scaled(sizes, lo, hi) == Weighted(sizes, lo, hi)
    decreases hi
  {
    if hi <= lo {
    } else {
      ScaledIs(sizes, lo, hi - 1);
      WeightedLast(sizes, lo, hi);
    }
  }

  /** The estimate is the average over the buckets from lo to before hi: lo follows the last empty
      bucket, or is 102; hi follows the first bucket of ten from 102 on, or is the end. */
  lemma EstimateMeans(sizes: seq<nat>, lo: nat, hi: nat)
    requires |sizes| == 160 && 102 <= lo <= 160 && hi <= 160
    requires (forall i :: lo <= i < 160 ==> sizes[i] != 0) && (lo == 102 || sizes[lo - 1] == 0)
    requires forall i :: 102 <= i < hi - 1 ==> sizes[i] != 10
    requires if hi < 160 then hi > 102 && sizes[hi - 1] == 10 else true
    ensures Estimate(sizes) == if hi <= lo then 0 else Weighted(sizes, lo, hi) / (hi - lo) % 0x1_0000_0000
  {
    assert Low(sizes, 160) == lo;
    HighIs(sizes, hi);
    ScaledIs(sizes, lo, hi);
  }

  lemma HighIs(sizes: seq<nat>, hi: nat)
    requires |sizes| == 160 && hi <= 160 && forall i :: 102 <= i < hi - 1 ==> sizes[i] != 10
    requires if hi < 160 then hi > 102 && sizes[hi - 1] == 10 else true
    ensures High(sizes, 160) == hi
  {
  }

  // ---------------------------------------------------------------- bounds

  lemma Pow2Of58()
    ensures Pow2(58) == 0x400_0000_0000_0000 && Pow2(59) == 0x800_0000_0000_0000
  {
    Pow2Of32();
    Pow2Add8(32);
    Pow2Add8(40);
    Pow2Add8(48);
    assert Pow2(58) == 2 * Pow2(57);
  }

  lemma ProductBound(p: nat, s: nat)
    requires s <= NODES_PER_BUCKET
    ensures p * s <= p * NODES_PER_BUCKET
  {
  }

  lemma {:induction false} ScaledBound(sizes: seq<nat>, lo: nat, hi: nat)
    requires Bounded(sizes) && lo <= hi <= NUM_BUCKETS
    ensures Scaled(sizes, lo, hi) + NODES_PER_BUCKET * Pow2(KEY_BITLEN + 1 - hi)
         <= NODES_PER_BUCKET * Pow2(KEY_BITLEN + 1 - lo)
    decreases hi
  {
    if lo == hi {
    } else {
      ScaledBound(sizes, lo, hi - 1);
      var p := Pow2(KEY_BITLEN - (hi - 1));
      ProductBound(p, sizes[hi - 1]);
      assert Pow2(KEY_BITLEN + 1 - (hi - 1)) == 2 * p;
    }
  }

  /** Neither a bucket's product nor the sum reaches 2^64. */
  lemma NoOverflow(sizes: seq<nat>, lo: nat, hi: nat)
    requires Bounded(sizes) && FIRST_SMALL <= lo <= hi <= NUM_BUCKETS
    ensures Scaled(sizes, lo, hi) < ULL
    ensures forall i :: FIRST_SMALL <= i < NUM_BUCKETS ==> Pow2(KEY_BITLEN - i) * sizes[i] < ULL
  {
    Pow2Of58();
    ScaledBound(sizes, lo, hi);
    Pow2Monotonic(KEY_BITLEN + 1 - lo, 59);
    forall i | FIRST_SMALL <= i < NUM_BUCKETS ensures Pow2(KEY_BITLEN - i) * sizes[i] < ULL {
      Pow2Monotonic(KEY_BITLEN - i, 58);
      ProductBound(Pow2(KEY_BITLEN - i), sizes[i]);
    }
  }

  // ---------------------------------------------------------------- the walk

  /** What the walk carries from bucket to bucket. */
  datatype Walk = Walk(sum: nat, noPeers: nat, count: nat, doPrint: bool, doAvg: bool)

  ghost predicate Occupied(sizes: seq<nat>, n: nat)
    requires n <= |sizes|
  {
    exists i :: 0 <= i < n && sizes[i] != 0
  }

  ghost predicate Tracks(sizes: seq<nat>, n: nat, w: Walk)
    requires n <= |sizes| == NUM_BUCKETS
  {
    && w.sum == Scaled(sizes, Low(sizes, n), High(sizes, n))
    && w.count == (if Low(sizes, n) < High(sizes, n) then High(sizes, n) - Low(sizes, n) else 0)
    && (w.doPrint <==> Occupied(sizes, n))
    && (w.doAvg <==> Occupied(sizes, n) && FirstFull(sizes, n) == n)
  }

  /** One bucket of the walk, as both estimators perform it. */
  method Visit(i: nat, size: nat, w: Walk) returns (r: Walk)
    requires i < NUM_BUCKETS
    ensures r == Visited(i, size, w)
  {
    var sum, noPeers, count, doPrint, doAvg := w.sum, w.noPeers, w.count, w.doPrint, w.doAvg;
    var shift := KEY_BITLEN - i;
    var toBig := false;
    if shift > 64 - 5 - 1 {
      toBig := true;
      shift := 64 - 5 - 1;
    }
    var noNets := Pow2(shift);
    if size != 0 && !doAvg && !doPrint {
      doAvg := true;
    }
    if size != 0 && !doPrint {
      doPrint := true;
    }
    if size == 0 {
      sum, noPeers, count := 0, 0, 0;
    }
    if !toBig {
      noPeers := noNets * size % ULL;
    }
    if doPrint && doAvg && !toBig {
      if size == NODES_PER_BUCKET {
        doAvg := false;
      }
      if noPeers != 0 {
        sum := (sum + noPeers) % ULL;
        count := (count + 1) % 0x1_0000_0000;
      }
    }
    r := Walk(sum, noPeers, count, doPrint, doAvg);
  }

  /** A bucket's population times the number of nets it stands for, on 64 bits. */
  function Product(i: nat, size: nat): nat
    requires i <= KEY_BITLEN
  {
    Pow2(KEY_BITLEN - i) * size % ULL
  }

  function Visited(i: nat, size: nat, w: Walk): Walk
    requires i < NUM_BUCKETS
  {
    var reset := if size == 0 then w.(sum := 0, noPeers := 0, count := 0) else w;
    var doAvg := w.doAvg || (size != 0 && !w.doPrint);
    var doPrint := w.doPrint || size != 0;
    if i < FIRST_SMALL then reset.(doPrint := doPrint, doAvg := doAvg)
    else
      var product := Product(i, size);
      if doPrint && doAvg && product != 0 then
        Walk((reset.sum + product) % ULL, product, (reset.count + 1) % 0x1_0000_0000, true, size != NODES_PER_BUCKET)
      else
        reset.(noPeers := product, doPrint := doPrint, doAvg := doAvg && (size != NODES_PER_BUCKET || !doPrint))
  }

  lemma {:induction false} UnoccupiedForms(sizes: seq<nat>, n: nat)
    requires n <= |sizes| && !Occupied(sizes, n)
    ensures LastEmpty(sizes, n) == n - 1 && FirstFull(sizes, n) == n
  {
  }

  lemma VisitTracks(sizes: seq<nat>, n: nat, w: Walk)
    requires Bounded(sizes) && n < NUM_BUCKETS && Tracks(sizes, n, w)
    ensures Tracks(sizes, n + 1, Visited(n, sizes[n], w))
  {
    assert Occupied(sizes, n + 1) <==> Occupied(sizes, n) || sizes[n] != 0 by {
      if sizes[n] != 0 {}
    }
    if !Occupied(sizes, n) {
      UnoccupiedForms(sizes, n);
    }
    if n < FIRST_SMALL {
    } else if sizes[n] == 0 {
      assert Low(sizes, n + 1) == n + 1;
      assert Pow2(KEY_BITLEN - n) * sizes[n] == 0;
    } else {
      VisitOccupied(sizes, n, w);
    }
  }

  /** The closed form, one occupied bucket further. */
  lemma NextOccupied(sizes: seq<nat>, n: nat)
    requires |sizes| == NUM_BUCKETS && FIRST_SMALL <= n < NUM_BUCKETS && sizes[n] != 0
    ensures Low(sizes, n + 1) == Low(sizes, n) <= n
    ensures FirstFull(sizes, n) < n ==>
              FirstFull(sizes, n + 1) == FirstFull(sizes, n) && High(sizes, n + 1) == High(sizes, n)
    ensures FirstFull(sizes, n) == n ==> High(sizes, n) == n && High(sizes, n + 1) == n + 1
    ensures FirstFull(sizes, n) == n ==> (FirstFull(sizes, n + 1) == n + 1 <==> sizes[n] != NODES_PER_BUCKET)
    ensures Scaled(sizes, Low(sizes, n), n + 1) == Scaled(sizes, Low(sizes, n), n) + Pow2(KEY_BITLEN - n) * sizes[n]
  {
  }

  /** A bucket's product is positive, and neither it nor the sum with it wraps. */
  lemma ProductFits(sizes: seq<nat>, n: nat)
    requires Bounded(sizes) && FIRST_SMALL <= n < NUM_BUCKETS && sizes[n] != 0
    ensures 0 < Pow2(KEY_BITLEN - n) * sizes[n] < ULL
    ensures FirstFull(sizes, n) == n ==> Scaled(sizes, Low(sizes, n), n) + Pow2(KEY_BITLEN - n) * sizes[n] < ULL
  {
    NextOccupied(sizes, n);
    NoOverflow(sizes, Low(sizes, n), n + 1);
    Positive(Pow2(KEY_BITLEN - n), sizes[n]);
  }

  lemma VisitOccupied(sizes: seq<nat>, n: nat, w: Walk)
    requires Bounded(sizes) && FIRST_SMALL <= n < NUM_BUCKETS && Tracks(sizes, n, w) && sizes[n] != 0
    ensures Tracks(sizes, n + 1, Visited(n, sizes[n], w))
  {
    assert Occupied(sizes, n + 1);
    if !Occupied(sizes, n) {
      UnoccupiedForms(sizes, n);
    }
    NextOccupied(sizes, n);
    ProductFits(sizes, n);
    VisitedOccupied(n, sizes[n], w, Pow2(KEY_BITLEN - n) * sizes[n]);
  }

  lemma VisitedOccupied(n: nat, size: nat, w: Walk, product: nat)
    requires FIRST_SMALL <= n < NUM_BUCKETS && size != 0 && product == Pow2(KEY_BITLEN - n) * size
    requires 0 < product < ULL && w.count < NUM_BUCKETS
    ensures var avg, r := w.doAvg || !w.doPrint, Visited(n, size, w);
            && r.doPrint && (r.doAvg <==> avg && size != NODES_PER_BUCKET)
            && (avg && w.sum + product < ULL ==> r.sum == w.sum + product && r.count == w.count + 1)
            && (!avg ==> r.sum == w.sum && r.count == w.count)
  {
    Small(product, ULL);
    if w.sum + product < ULL {
      Small(w.sum + product, ULL);
    }
    Small(w.count + 1, 0x1_0000_0000);
    VisitedBy(n, size, w, product);
  }

  lemma Small(x: nat, m: nat)
    requires x < m
    ensures x % m == x
  {
  }

  lemma VisitedBy(n: nat, size: nat, w: Walk, product: nat)
    requires FIRST_SMALL <= n < NUM_BUCKETS && size != 0 && product == Product(n, size) > 0
    ensures var avg, r := w.doAvg || !w.doPrint, Visited(n, size, w);
            && r.doPrint && (r.doAvg <==> avg && size != NODES_PER_BUCKET)
            && (avg ==> r.sum == (w.sum + product) % ULL && r.count == (w.count + 1) % 0x1_0000_0000)
            && (!avg ==> r.sum == w.sum && r.count == w.count)
  {
  }

  lemma Positive(p: nat, s: nat)
    requires p > 0 && s > 0
    ensures p * s > 0
  {
  }

  lemma TracksStart(sizes: seq<nat>)
    requires |sizes| == NUM_BUCKETS
    ensures Tracks(sizes, 0, Walk(0, 0, 0, false, false))
  {
  }
}
