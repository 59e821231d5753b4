/** The routing table: one bucket of at most ten peers for each bucket distance from the own
    id, kept in the order in which the peers were last heard. */
module Space {
  import opened Metric
  import opened Multimap
  import opened Peers
  import opened NetworkSize

  const MAX_SEND_PERIOD := 600
  const MAX_RECV_PERIOD := 1500

  type Bucket = seq<Peer>
  type Table = seq<Bucket>
  type NodeMap = seq<Entry<PeerId>>

  // ---------------------------------------------------------------- adding a peer

  /** The first entry for the peer, or |b|. */
  function IndexOf(b: Bucket, id: PeerId): (n: nat)
    ensures n <= |b|
    ensures n < |b| ==> b[n].id == id
    ensures forall i :: 0 <= i < n ==> b[i].id != id
  {
    if b == [] || b[0].id == id then 0 else 1 + IndexOf(b[1..], id)
  }

  /** The first entry that carries exactly these flags, or |b|. */
  function FirstWithFlags(b: Bucket, f: Word): (n: nat)
    ensures n <= |b|
    ensures n < |b| ==> b[n].flags == f
    ensures forall i :: 0 <= i < n ==> b[i].flags != f
  {
    if b == [] || b[0].flags == f then 0 else 1 + FirstWithFlags(b[1..], f)
  }

  /** The lowest of f and the flags in the bucket. */
  function LowestFlags(b: Bucket, f: Word): (r: Word)
  {
    if b == [] then f
    else
      var r := LowestFlags(b[..|b| - 1], f);
      if b[|b| - 1].flags < r then b[|b| - 1].flags else r
  }

  lemma {:induction false} LowestPresent(b: Bucket, f: Word)
    ensures LowestFlags(b, f) <= f
    ensures forall i :: 0 <= i < |b| ==> LowestFlags(b, f) <= b[i].flags
    ensures LowestFlags(b, f) < f ==> FirstWithFlags(b, LowestFlags(b, f)) < |b|
  {
    if b == [] {
    } else {
      var n := |b| - 1;
      LowestPresent(b[..n], f);
      assert forall i :: 0 <= i < n ==> b[i] == b[..n][i];
      var r := LowestFlags(b, f);
      if r < f && b[n].flags != r {
        assert b[..n][FirstWithFlags(b[..n], r)] == b[FirstWithFlags(b[..n], r)];
      }
    }
  }

  function Without(b: Bucket, i: nat): Bucket
    requires i < |b|
  {
    b[..i] + b[i + 1..]
  }

  function NewPeer(id: PeerId, flags: Word, ts: int): Peer {
    Peer(id, flags, ts, ts, 0)
  }

  /** The bucket after a peer has been heard, and whether the peer is in it now. */
  function Added(b: Bucket, id: PeerId, flags: Word, ts: int): (Bucket, bool)
  {
    var at := IndexOf(b, id);
    var lowest := LowestFlags(b, flags);
    if at < |b| then
      (Without(b, at) + [b[at].(lastRecv := ts, flags := Or(b[at].flags, flags))], true)
    else if |b| < NODES_PER_BUCKET then (b + [NewPeer(id, flags, ts)], true)
    else if b[0].lastRecv - ts > MAX_RECV_PERIOD then (b[1..] + [NewPeer(id, flags, ts)], true)
    else if flags > lowest then
      LowestPresent(b, flags);
      (Without(b, FirstWithFlags(b, lowest)) + [NewPeer(id, flags, ts)], true)
    else (b, false)
  }

  function BucketIndex(own: NodeId, id: PeerId): (k: nat)
    ensures k < NUM_BUCKETS
  {
    BucketInRange(own, id.id);
    BucketOf(Dist(own, id.id))
  }

  function AddedTo(own: NodeId, t: Table, id: PeerId, flags: Word, ts: int): (r: Table)
    requires |t| == NUM_BUCKETS
    ensures |r| == |t|
  {
    var k := BucketIndex(own, id);
    t[k := Added(t[k], id, flags, ts).0]
  }

  function EmptyTable(): (t: Table)
    ensures |t| == NUM_BUCKETS && forall i :: 0 <= i < |t| ==> t[i] == []
  {
    seq(NUM_BUCKETS, _ => [])
  }

  // ---------------------------------------------------------------- the stale-peer sweep

  predicate Stale(p: Peer, ts: int) {
    ts - p.lastSend > MAX_SEND_PERIOD
  }

  function FirstStale(b: Bucket, ts: int): (n: nat)
    ensures n <= |b|
    ensures n < |b| ==> Stale(b[n], ts)
    ensures forall i :: 0 <= i < n ==> !Stale(b[i], ts)
  {
    if b == [] || Stale(b[0], ts) then 0 else 1 + FirstStale(b[1..], ts)
  }

  /** The first bucket that holds a stale peer, or |t|. */
  function FirstStaleBucket(t: Table, ts: int): (n: nat)
    ensures n <= |t|
    ensures n < |t| ==> FirstStale(t[n], ts) < |t[n]|
    ensures forall i :: 0 <= i < n ==> FirstStale(t[i], ts) == |t[i]|
  {
    if t == [] || FirstStale(t[0], ts) < |t[0]| then 0 else 1 + FirstStaleBucket(t[1..], ts)
  }

  function Touched(t: Table, k: nat, j: nat, ts: int): Table
    requires k < |t| && j < |t[k]|
  {
    t[k := t[k][j := t[k][j].(lastSend := ts)]]
  }

  // ---------------------------------------------------------------- nearest nodes

  function Flatten(t: Table): (r: seq<Peer>)
  {
    if t == [] then [] else Flatten(t[..|t| - 1]) + t[|t| - 1]
  }

  /** Every peer under its distance from id. */
  function ByDistance(id: NodeId, ps: seq<Peer>): (r: NodeMap)
    ensures |r| == |ps|
    ensures forall i :: 0 <= i < |ps| ==> r[i] == Entry(Dist(id, ps[i].id.id), ps[i].id)
  {
    if ps == [] then []
    else ByDistance(id, ps[..|ps| - 1]) + [Entry(Dist(id, ps[|ps| - 1].id.id), ps[|ps| - 1].id)]
  }

  /** The first `number` peers of the table in order of distance from id. */
  function NearestNodes(t: Table, id: NodeId, number: int): NodeMap {
    Take(InsertAll([], ByDistance(id, Flatten(t))), if number < 0 then 0 else number)
  }

  // ---------------------------------------------------------------- sizes

  function Sizes(t: Table): (r: seq<nat>)
    ensures |r| == |t|
    ensures forall i :: 0 <= i < |t| ==> r[i] == |t[i]|
  {
    seq(|t|, i requires 0 <= i < |t| => |t[i]|)
  }

  function CountFlagged(b: Bucket, flag: Word): (n: nat)
    ensures n <= |b|
  {
    if b == [] then 0
    else CountFlagged(b[..|b| - 1], flag) + if And(flag, b[|b| - 1].flags) != 0 then 1 else 0
  }

  /** That many peers of the bucket have a flag in common with the given ones. */
  lemma {:induction false} CountFlaggedExact(b: Bucket, flag: Word)
    ensures CountFlagged(b, flag) == |set j | 0 <= j < |b| && Shares(flag, b[j].flags, 32)|
  {
    if b == [] {
    } else {
      var n := |b| - 1;
      CountFlaggedExact(b[..n], flag);
      AndShares(flag, b[n].flags, 32);
      FlaggedLast(b, flag, n);
    }
  }

  lemma FlaggedLast(b: Bucket, flag: Word, n: nat)
    requires |b| == n + 1
    ensures var s, r := set j | 0 <= j < |b| && Shares(flag, b[j].flags, 32),
                        set j | 0 <= j < n && Shares(flag, b[..n][j].flags, 32);
            |s| == |r| + if Shares(flag, b[n].flags, 32) then 1 else 0
  {
    var s, r := set j | 0 <= j < |b| && Shares(flag, b[j].flags, 32),
                set j | 0 <= j < n && Shares(flag, b[..n][j].flags, 32);
    assert forall j :: 0 <= j < n ==> b[..n][j] == b[j];
    assert s == if Shares(flag, b[n].flags, 32) then r + {n} else r;
  }

  function FlaggedSizes(t: Table, flag: Word): (r: seq<nat>)
    ensures |r| == |t|
    ensures forall i :: 0 <= i < |t| ==> r[i] == CountFlagged(t[i], flag)
  {
    seq(|t|, i requires 0 <= i < |t| => CountFlagged(t[i], flag))
  }

  // ---------------------------------------------------------------- the loops

  /** Looks for the peer, and as long as it is not met keeps the lowest score seen. */
  method FindAndScore(b: Bucket, id: PeerId, flags: Word) returns (at: nat, minScore: Word)
    ensures at == IndexOf(b, id)
    ensures at == |b| ==> minScore == LowestFlags(b, flags)
  {
    at, minScore := 0, flags;
    while at < |b|
      invariant at <= |b| && minScore == LowestFlags(b[..at], flags)
      invariant forall k :: 0 <= k < at ==> b[k].id != id
    {
      assert b[..at + 1][..at] == b[..at];
      if b[at].id == id {
        return;
      }
      if b[at].flags < minScore {
        minScore := b[at].flags;
      }
      at := at + 1;
    }
    assert b[..|b|] == b;
  }

  method FindScore(b: Bucket, score: Word) returns (at: nat)
    ensures at == FirstWithFlags(b, score)
  {
    at := 0;
    while at < |b|
      invariant at <= |b|
      invariant forall k :: 0 <= k < at ==> b[k].flags != score
    {
      if b[at].flags == score {
        return;
      }
      at := at + 1;
    }
  }

  /** Sorts one bucket's peers into the map, by distance. */
  method SortIn(id: NodeId, ghost done: seq<Peer>, b: Bucket, m: NodeMap) returns (closest: NodeMap)
    requires m == InsertAll([], ByDistance(id, done))
    ensures closest == InsertAll([], ByDistance(id, done + b))
  {
    closest := m;
    assert done + b[..0] == done;
    for j := 0 to |b|
      invariant closest == InsertAll([], ByDistance(id, done + b[..j]))
    {
      ByDistanceNext(id, done, b, j);
      closest := Insert(closest, Entry(Dist(id, b[j].id.id), b[j].id));
    }
    assert done + b[..|b|] == done + b;
  }

  lemma ByDistanceLast(id: NodeId, ps: seq<Peer>)
    requires ps != []
    ensures InsertAll([], ByDistance(id, ps))
         == Insert(InsertAll([], ByDistance(id, ps[..|ps| - 1])), Entry(Dist(id, ps[|ps| - 1].id.id), ps[|ps| - 1].id))
  {
    var es := ByDistance(id, ps);
    assert es[..|es| - 1] == ByDistance(id, ps[..|ps| - 1]);
  }

  lemma ByDistanceNext(id: NodeId, done: seq<Peer>, b: Bucket, j: nat)
    requires j < |b|
    ensures InsertAll([], ByDistance(id, done + b[..j + 1]))
         == Insert(InsertAll([], ByDistance(id, done + b[..j])), Entry(Dist(id, b[j].id.id), b[j].id))
  {
    var ps := done + b[..j + 1];
    assert ps[..|ps| - 1] == done + b[..j];
    ByDistanceLast(id, ps);
  }

  /** What becomes of a bucket when a peer is reported. */
  method AddToBucket(b: Bucket, id: PeerId, flags: Word, ts: int) returns (r: Bucket, added: bool)
    ensures r == Added(b, id, flags, ts).0 && added == Added(b, id, flags, ts).1
    ensures |b| <= NODES_PER_BUCKET ==> |r| <= NODES_PER_BUCKET
  {
    LowestPresent(b, flags);
    var at, minScore := FindAndScore(b, id, flags);
    if at < |b| {
      var peer := b[at].(lastRecv := ts, flags := Or(b[at].flags, flags));
      return b[..at] + b[at + 1..] + [peer], true;
    }
    r, added := b, false;
    if |b| < NODES_PER_BUCKET {
      added := true;
    } else {
      if b[0].lastRecv - ts > MAX_RECV_PERIOD {
        r := r[1..];
        added := true;
      } else if flags > minScore {
        var drop := FindScore(b, minScore);
        if drop < |b| {
          r := r[..drop] + r[drop + 1..];
          added := true;
        }
      }
    }
    if added {
      r := r + [NewPeer(id, flags, ts)];
    }
  }

  /** Adds the first entries to what is held. */
  method TakeInto(held: NodeMap, closest: NodeMap, number: int) returns (nearest: NodeMap)
    ensures nearest == InsertAll(held, Take(closest, if number < 0 then 0 else number))
  {
    nearest := held;
    var i := 0;
    while i < |closest| && i < number
      invariant 0 <= i <= |closest| && (i <= number || i == 0)
      invariant nearest == InsertAll(held, closest[..i])
    {
      assert closest[..i + 1][..i] == closest[..i];
      nearest := Insert(nearest, closest[i]);
      i := i + 1;
    }
    assert closest[..|closest|] == closest;
  }

  class Space {
    const ownId: NodeId
    var buckets: Table

    ghost predicate Valid()
      reads this
    {
      |buckets| == NUM_BUCKETS && forall i :: 0 <= i < |buckets| ==> |buckets[i]| <= NODES_PER_BUCKET
    }

    constructor (own: NodeId)
      ensures Valid() && ownId == own && buckets == EmptyTable()
    {
      ownId := own;
      buckets := EmptyTable();
    }

    method Clear()
      requires Valid()
      modifies this
      ensures Valid() && buckets == EmptyTable()
    {
      for i := 0 to |buckets|
        invariant |buckets| == NUM_BUCKETS
        invariant forall k :: 0 <= k < i ==> buckets[k] == []
      {
        buckets := buckets[i := []];
      }
    }

    method AddPeer(id: PeerId, flags: Word, ts: int) returns (added: bool)
      requires Valid()
      modifies this
      ensures Valid()
      ensures buckets == AddedTo(ownId, old(buckets), id, flags, ts)
      ensures added == Added(old(buckets)[BucketIndex(ownId, id)], id, flags, ts).1
    {
      var bucket := BucketIndex(ownId, id);
      var b := buckets[bucket];
      b, added := AddToBucket(b, id, flags, ts);
      buckets := buckets[bucket := b];
    }

    method OutOfDatePeer(ts: int) returns (r: Option<PeerId>)
      requires Valid()
      modifies this
      ensures Valid()
      ensures var k := FirstStaleBucket(old(buckets), ts);
              if k < NUM_BUCKETS then
                var j := FirstStale(old(buckets)[k], ts);
                r == Some(old(buckets)[k][j].id) && buckets == Touched(old(buckets), k, j, ts)
              else r == None && buckets == old(buckets)
    {
      for i := 0 to |buckets|
        invariant buckets == old(buckets)
        invariant forall k :: 0 <= k < i ==> FirstStale(buckets[k], ts) == |buckets[k]|
      {
        var b := buckets[i];
        for j := 0 to |b|
          invariant buckets == old(buckets) && b == buckets[i]
          invariant forall l :: 0 <= l < j ==> !Stale(b[l], ts)
        {
          if ts - b[j].lastSend > MAX_SEND_PERIOD {
            assert j == FirstStale(b, ts) && i == FirstStaleBucket(buckets, ts);
            r := Some(b[j].id);
            buckets := buckets[i := b[j := b[j].(lastSend := ts)]];
            return;
          }
        }
        assert FirstStale(b, ts) == |b|;
      }
      assert FirstStaleBucket(buckets, ts) == |buckets|;
      return None;
    }

    /** Adds the nearest peers to what the caller already holds. */
    method SortAll(id: NodeId) returns (closest: NodeMap)
      ensures closest == InsertAll([], ByDistance(id, Flatten(buckets)))
    {
      closest := [];
      for i := 0 to |buckets|
        invariant closest == InsertAll([], ByDistance(id, Flatten(buckets[..i])))
      {
        assert buckets[..i + 1][..i] == buckets[..i];
        closest := SortIn(id, Flatten(buckets[..i]), buckets[i], closest);
      }
      assert buckets[..|buckets|] == buckets;
    }

    method FindNearestNodes(id: NodeId, number: int, held: NodeMap) returns (nearest: NodeMap)
      requires Valid()
      ensures nearest == InsertAll(held, NearestNodes(buckets, id, number))
    {
      var closest := SortAll(id);
      nearest := TakeInto(held, closest, number);
    }

    method CalcNetworkSize() returns (netSize: nat)
      requires Valid()
      ensures netSize == Estimate(Sizes(buckets))
    {
      var w := Walk(0, 0, 0, false, false);
      ghost var sizes := Sizes(buckets);
      TracksStart(sizes);
      for i := 0 to |buckets|
        invariant Tracks(sizes, i, w)
      {
        VisitTracks(sizes, i, w);
        w := Visit(i, |buckets[i]|, w);
      }
      netSize := 0;
      if w.count != 0 {
        netSize := w.sum / w.count % 0x1_0000_0000;
      }
    }

    method CalcNetworkSizeWithFlag(withFlag: Word) returns (netSize: nat)
      requires Valid()
      ensures netSize == Estimate(FlaggedSizes(buckets, withFlag))
    {
      var w := Walk(0, 0, 0, false, false);
      ghost var sizes := FlaggedSizes(buckets, withFlag);
      TracksStart(sizes);
      for i := 0 to |buckets|
        invariant Tracks(sizes, i, w)
      {
        var b, size := buckets[i], 0;
        for j := 0 to |b|
          invariant size == CountFlagged(b[..j], withFlag)
        {
          assert b[..j + 1][..j] == b[..j];
          if And(withFlag, b[j].flags) != 0 {
            size := size + 1;
          }
        }
        assert b[..|b|] == b;
        VisitTracks(sizes, i, w);
        w := Visit(i, size, w);
      }
      netSize := 0;
      if w.count != 0 {
        netSize := w.sum / w.count % 0x1_0000_0000;
      }
    }

    method CalcSpaceSize() returns (n: int)
      requires Valid()
      ensures n == |Flatten(buckets)|
    {
      n := 0;
      for i := 0 to |buckets|
        invariant n == |Flatten(buckets[..i])|
      {
        assert buckets[..i + 1][..i] == buckets[..i];
        n := n + |buckets[i]|;
      }
      assert buckets[..|buckets|] == buckets;
    }
  }
}
