/** What the routing table keeps over any run, which peers it gives up, which it reports as
    nearest, and what the stale-peer sweep does. */
module SpaceTheorems {
  import opened Metric
  import opened Multimap
  import opened Peers
  import opened Space

  // ---------------------------------------------------------------- the invariant

  ghost predicate DistinctPeers(b: Bucket)
  {
    forall i, j :: 0 <= i < j < |b| ==> b[i].id != b[j].id
  }

  ghost predicate InBucket(own: NodeId, b: Bucket, k: nat)
  {
    forall i :: 0 <= i < |b| ==> BucketIndex(own, b[i].id) == k
  }

  ghost predicate TableInv(own: NodeId, t: Table)
  {
    && |t| == NUM_BUCKETS
    && forall k :: 0 <= k < |t| ==> |t[k]| <= NODES_PER_BUCKET && DistinctPeers(t[k]) && InBucket(own, t[k], k)
  }

  /** No peer occurs twice in the whole table. */
  lemma OncePerTable(own: NodeId, t: Table, k: nat, i: nat, l: nat, j: nat)
    requires TableInv(own, t) && k < |t| && l < |t| && i < |t[k]| && j < |t[l]|
    requires t[k][i].id == t[l][j].id
    ensures k == l && i == j
  {
    assert BucketIndex(own, t[k][i].id) == k && BucketIndex(own, t[l][j].id) == l;
  }

  lemma WithoutKeeps(own: NodeId, b: Bucket, k: nat, i: nat)
    requires DistinctPeers(b) && InBucket(own, b, k) && i < |b|
    ensures var r := Without(b, i);
            DistinctPeers(r) && InBucket(own, r, k) && forall j :: 0 <= j < |r| ==> r[j].id != b[i].id
  {
    var r := Without(b, i);
    assert forall j :: 0 <= j < |r| ==> r[j] == b[if j < i then j else j + 1];
  }

  lemma WithoutLacks(b: Bucket, i: nat, id: PeerId)
    requires i < |b| && IndexOf(b, id) == |b|
    ensures forall j :: 0 <= j < |Without(b, i)| ==> Without(b, i)[j].id != id
  {
    assert forall j :: 0 <= j < |Without(b, i)| ==> Without(b, i)[j] == b[if j < i then j else j + 1];
  }

  lemma AppendKeeps(own: NodeId, c: Bucket, k: nat, p: Peer)
    requires |c| < NODES_PER_BUCKET && DistinctPeers(c) && InBucket(own, c, k) && BucketIndex(own, p.id) == k
    requires forall j :: 0 <= j < |c| ==> c[j].id != p.id
    ensures var r := c + [p];
            |r| <= NODES_PER_BUCKET && DistinctPeers(r) && InBucket(own, r, k)
  {
  }

  /** The entry a report takes out of the bucket, or |b| if it takes none out. */
  function TakenOut(b: Bucket, id: PeerId, flags: Word, ts: int): (g: nat)
    ensures g <= |b|
  {
    var at := IndexOf(b, id);
    if at < |b| then at
    else if |b| < NODES_PER_BUCKET then |b|
    else if b[0].lastRecv - ts > MAX_RECV_PERIOD then 0
    else FirstWithFlags(b, LowestFlags(b, flags))
  }

  /** What is left. */
  function Rest(b: Bucket, g: nat): Bucket {
    if g < |b| then Without(b, g) else b
  }

  /** Every report takes out at most one entry and appends at most one, for the peer it names. */
  lemma AddedForm(b: Bucket, id: PeerId, flags: Word, ts: int)
    ensures var (r, taken) := Added(b, id, flags, ts);
            var g := TakenOut(b, id, flags, ts);
            if taken then
              && r != [] && r[|r| - 1].id == id
              && r[..|r| - 1] == Rest(b, g)
              && (g < |b| || |b| < NODES_PER_BUCKET)
            else r == b && IndexOf(b, id) == |b| && |b| >= NODES_PER_BUCKET
  {
    LowestPresent(b, flags);
    var (r, taken) := Added(b, id, flags, ts);
    if taken {
      var g := TakenOut(b, id, flags, ts);
      assert r[..|r| - 1] == Rest(b, g);
    }
  }

  lemma AddedKeeps(own: NodeId, b: Bucket, k: nat, id: PeerId, flags: Word, ts: int)
    requires |b| <= NODES_PER_BUCKET && DistinctPeers(b) && InBucket(own, b, k) && BucketIndex(own, id) == k
    ensures var r := Added(b, id, flags, ts).0;
            |r| <= NODES_PER_BUCKET && DistinctPeers(r) && InBucket(own, r, k)
  {
    AddedForm(b, id, flags, ts);
    var (r, taken) := Added(b, id, flags, ts);
    var g := TakenOut(b, id, flags, ts);
    if taken {
      assert r == r[..|r| - 1] + [r[|r| - 1]];
      if g < |b| {
        WithoutKeeps(own, b, k, g);
        if IndexOf(b, id) == |b| {
          WithoutLacks(b, g, id);
        }
      }
      AppendKeeps(own, r[..|r| - 1], k, r[|r| - 1]);
    }
  }

  // ---------------------------------------------------------------- runs

  datatype Event =
    | Reported(id: PeerId, flags: Word, ts: int)
    | Swept(ts: int)
    | Cleared

  /** One call of the sweep, as a function of the table. */
  function SweptOnce(t: Table, ts: int): (r: Table)
    ensures |r| == |t|
  {
    var k := FirstStaleBucket(t, ts);
    if k < |t| then Touched(t, k, FirstStale(t[k], ts), ts) else t
  }

  function Step(own: NodeId, t: Table, ev: Event): (r: Table)
    requires |t| == NUM_BUCKETS
    ensures |r| == NUM_BUCKETS
  {
    match ev
    case Reported(id, flags, ts) => AddedTo(own, t, id, flags, ts)
    case Swept(ts) => SweptOnce(t, ts)
    case Cleared => EmptyTable()
  }

  function Run(own: NodeId, evs: seq<Event>): (t: Table)
    ensures |t| == NUM_BUCKETS
  {
    if evs == [] then EmptyTable() else Step(own, Run(own, evs[..|evs| - 1]), evs[|evs| - 1])
  }

  lemma StepKeeps(own: NodeId, t: Table, ev: Event)
    requires TableInv(own, t)
    ensures TableInv(own, Step(own, t, ev))
  {
    if ev.Reported? {
      var k := BucketIndex(own, ev.id);
      AddedKeeps(own, t[k], k, ev.id, ev.flags, ev.ts);
    }
  }

  /** Every reachable table files each peer under its own distance, at most ten to a bucket
      and none twice. */
  lemma {:induction false} RunInv(own: NodeId, evs: seq<Event>)
    ensures TableInv(own, Run(own, evs))
  {
    if evs == [] {
    } else {
      RunInv(own, evs[..|evs| - 1]);
      StepKeeps(own, Run(own, evs[..|evs| - 1]), evs[|evs| - 1]);
    }
  }

  // ---------------------------------------------------------------- flags accumulate

  ghost predicate Held(own: NodeId, t: Table, id: PeerId)
    requires |t| == NUM_BUCKETS
  {
    var b := t[BucketIndex(own, id)];
    IndexOf(b, id) < |b|
  }

  ghost function FlagsOf(own: NodeId, t: Table, id: PeerId): Word
    requires |t| == NUM_BUCKETS && Held(own, t, id)
  {
    var b := t[BucketIndex(own, id)];
    b[IndexOf(b, id)].flags
  }

  /** All flags reported for the peer, or-ed together in order. */
  function AllFlags(evs: seq<Event>, id: PeerId): (f: Word)
  {
    if evs == [] then 0
    else
      var before, ev := AllFlags(evs[..|evs| - 1], id), evs[|evs| - 1];
      if ev.Reported? && ev.id == id then Or(before, ev.flags) else before
  }

  /** The event that put the peer's present entry into the table. */
  ghost function InsertedAt(own: NodeId, evs: seq<Event>, id: PeerId): (n: nat)
    requires evs != []
    ensures n < |evs|
  {
    var n := |evs| - 1;
    if n > 0 && Held(own, Run(own, evs[..n]), id) then InsertedAt(own, evs[..n], id) else n
  }

  lemma NoneHeldAtFirst(own: NodeId, id: PeerId)
    ensures !Held(own, Run(own, []), id)
  {
  }

  lemma AppearsBy(own: NodeId, evs: seq<Event>, id: PeerId)
    requires evs != [] && Held(own, Run(own, evs), id) && !Held(own, Run(own, evs[..|evs| - 1]), id)
    ensures evs[|evs| - 1].Reported? && evs[|evs| - 1].id == id
  {
    var before := evs[..|evs| - 1];
    RunInv(own, before);
    StepFlags(own, Run(own, before), evs[|evs| - 1], id);
  }

  lemma SameStart(evs: seq<Event>, before: seq<Event>, n: nat)
    requires before <= evs && n < |before|
    ensures before[..n] == evs[..n] && before[n] == evs[n]
  {
  }

  /** It reported the peer and found it absent. */
  lemma {:induction false} InsertedAtMeans(own: NodeId, evs: seq<Event>, id: PeerId)
    requires evs != [] && Held(own, Run(own, evs), id)
    ensures var n := InsertedAt(own, evs, id);
            !Held(own, Run(own, evs[..n]), id) && evs[n].Reported? && evs[n].id == id
  {
    var before := evs[..|evs| - 1];
    NoneHeldAtFirst(own, id);
    if Held(own, Run(own, before), id) {
      InsertedAtMeans(own, before, id);
      SameStart(evs, before, InsertedAt(own, before, id));
    } else {
      AppearsBy(own, evs, id);
    }
  }

  /** From then on the peer has been in the table without a break. */
  lemma {:induction false} HeldSince(own: NodeId, evs: seq<Event>, id: PeerId, k: nat)
    requires evs != [] && Held(own, Run(own, evs), id) && InsertedAt(own, evs, id) < k <= |evs|
    ensures Held(own, Run(own, evs[..k]), id)
  {
    if k == |evs| {
      assert evs[..k] == evs;
    } else {
      assert evs[..|evs| - 1][..k] == evs[..k];
      HeldSince(own, evs[..|evs| - 1], id, k);
    }
  }

  lemma {:induction false} IndexOfUnique(b: Bucket, i: nat)
    requires DistinctPeers(b) && i < |b|
    ensures IndexOf(b, b[i].id) == i
  {
  }

  lemma AddedFlagsSame(own: NodeId, b: Bucket, k: nat, id: PeerId, flags: Word, ts: int)
    requires |b| <= NODES_PER_BUCKET && DistinctPeers(b) && InBucket(own, b, k) && BucketIndex(own, id) == k
    ensures var r := Added(b, id, flags, ts).0;
            IndexOf(r, id) < |r| ==>
              r[IndexOf(r, id)].flags == if IndexOf(b, id) < |b| then Or(b[IndexOf(b, id)].flags, flags) else flags
  {
    var (r, taken) := Added(b, id, flags, ts);
    AddedForm(b, id, flags, ts);
    AddedKeeps(own, b, k, id, flags, ts);
    LowestPresent(b, flags);
    if taken {
      IndexOfUnique(r, |r| - 1);
    }
  }

  lemma KeptEntry(b: Bucket, g: nat, c: Bucket, i: nat) returns (j: nat)
    requires c == Rest(b, g) && i < |c|
    ensures j < |b| && c[i] == b[j]
  {
    j := if g < |b| && i >= g then i + 1 else i;
  }

  /** What is found in the new bucket under another id than the last was in the old one. */
  lemma KeptIsHeld(b: Bucket, g: nat, r: Bucket, x: PeerId)
    requires DistinctPeers(b) && r != [] && r[|r| - 1].id != x && IndexOf(r, x) < |r|
    requires r[..|r| - 1] == Rest(b, g)
    ensures IndexOf(b, x) < |b| && r[IndexOf(r, x)] == b[IndexOf(b, x)]
  {
    var i := IndexOf(r, x);
    var c, e := r[..|r| - 1], r[i];
    assert c[i] == e;
    var j := KeptEntry(b, g, c, i);
    FoundAt(b, j, e);
  }

  lemma FoundAt(b: Bucket, j: nat, e: Peer)
    requires DistinctPeers(b) && j < |b| && b[j] == e
    ensures IndexOf(b, e.id) < |b| && b[IndexOf(b, e.id)] == e
  {
    IndexOfUnique(b, j);
  }

  lemma AddedFlagsOther(b: Bucket, id: PeerId, flags: Word, ts: int, x: PeerId)
    requires DistinctPeers(b) && x != id
    ensures var r := Added(b, id, flags, ts).0;
            IndexOf(r, x) < |r| ==> IndexOf(b, x) < |b| && r[IndexOf(r, x)] == b[IndexOf(b, x)]
  {
    var (r, taken) := Added(b, id, flags, ts);
    var i := IndexOf(r, x);
    AddedForm(b, id, flags, ts);
    if i < |r| && taken {
      KeptIsHeld(b, TakenOut(b, id, flags, ts), r, x);
    }
  }

  lemma {:induction false} SameIdsIndex(b: Bucket, r: Bucket, x: PeerId)
    requires |b| == |r| && forall i :: 0 <= i < |b| ==> b[i].id == r[i].id
    ensures IndexOf(b, x) == IndexOf(r, x)
  {
    if b == [] {
    } else {
      SameIdsIndex(b[1..], r[1..], x);
    }
  }

  lemma StepFlags(own: NodeId, t: Table, ev: Event, x: PeerId)
    requires TableInv(own, t) && Held(own, Step(own, t, ev), x)
    ensures Held(own, t, x) ==>
              FlagsOf(own, Step(own, t, ev), x) ==
                if ev.Reported? && ev.id == x then Or(FlagsOf(own, t, x), ev.flags) else FlagsOf(own, t, x)
    ensures !Held(own, t, x) ==> ev.Reported? && ev.id == x && FlagsOf(own, Step(own, t, ev), x) == ev.flags
  {
    match ev
    case Reported(id, flags, ts) =>
      var k := BucketIndex(own, id);
      if k == BucketIndex(own, x) {
        if x == id {
          AddedFlagsSame(own, t[k], k, id, flags, ts);
        } else {
          AddedFlagsOther(t[k], id, flags, ts, x);
        }
      }
    case Swept(ts) =>
      var k := FirstStaleBucket(t, ts);
      if k < |t| && k == BucketIndex(own, x) {
        SameIdsIndex(t[k], Touched(t, k, FirstStale(t[k], ts), ts)[k], x);
      }
    case Cleared =>
  }

  lemma {:induction false} OrBitsZero(y: nat, k: nat)
    requires y < Pow2(k)
    ensures OrBits(0, y, k) == y
  {
    if k == 0 {
    } else {
      OrBitsZero(y / 2, k - 1);
    }
  }

  lemma AllFlagsLast(evs: seq<Event>, n: nat, id: PeerId)
    requires n < |evs|
    ensures var ev, before := evs[|evs| - 1], AllFlags(evs[..|evs| - 1][n..], id);
            AllFlags(evs[n..], id) == if ev.Reported? && ev.id == id then Or(before, ev.flags) else before
  {
    assert evs[n..][..|evs[n..]| - 1] == evs[..|evs| - 1][n..];
  }

  /** Every entry carries the union of all flags reported since it was inserted. */
  lemma {:induction false} FlagsAccumulate(own: NodeId, evs: seq<Event>, id: PeerId)
    requires evs != [] && Held(own, Run(own, evs), id)
    ensures FlagsOf(own, Run(own, evs), id) == AllFlags(evs[InsertedAt(own, evs, id)..], id)
  {
    var last := |evs| - 1;
    var t := Run(own, evs[..last]);
    RunInv(own, evs[..last]);
    StepFlags(own, t, evs[last], id);
    var n := InsertedAt(own, evs, id);
    AllFlagsLast(evs, n, id);
    if last > 0 && Held(own, t, id) {
      FlagsAccumulate(own, evs[..last], id);
    } else {
      Pow2Of32();
      OrBitsZero(evs[last].flags, 32);
      assert evs[..last][last..] == [];
    }
  }

  // ---------------------------------------------------------------- who is given up

  ghost predicate HeardInOrder(b: Bucket, now: int)
  {
    && (forall i, j :: 0 <= i < j < |b| ==> b[i].lastRecv <= b[j].lastRecv)
    && forall i :: 0 <= i < |b| ==> b[i].lastRecv <= now
  }

  lemma WithoutInOrder(b: Bucket, g: nat, now: int)
    requires HeardInOrder(b, now) && g < |b|
    ensures HeardInOrder(Without(b, g), now)
  {
    var c := Without(b, g);
    assert forall i :: 0 <= i < |c| ==> c[i] == b[if i < g then i else i + 1];
  }

  lemma AppendInOrder(c: Bucket, p: Peer, before: int)
    requires HeardInOrder(c, before) && before <= p.lastRecv
    ensures HeardInOrder(c + [p], p.lastRecv)
  {
  }

  /** While the clock does not run backwards, a bucket stays in the order it was heard. */
  lemma AddedInOrder(b: Bucket, id: PeerId, flags: Word, before: int, ts: int)
    requires HeardInOrder(b, before) && before <= ts
    ensures HeardInOrder(Added(b, id, flags, ts).0, ts)
  {
    AddedForm(b, id, flags, ts);
    LowestPresent(b, flags);
    var (r, taken) := Added(b, id, flags, ts);
    if taken {
      var g := TakenOut(b, id, flags, ts);
      if g < |b| {
        WithoutInOrder(b, g, before);
      }
      assert r == r[..|r| - 1] + [r[|r| - 1]];
      AppendInOrder(r[..|r| - 1], r[|r| - 1], before);
    }
  }

  lemma PresentIndex(b: Bucket, i: nat)
    requires i < |b|
    ensures IndexOf(b, b[i].id) <= i
  {
  }

  lemma StaysIn(b: Bucket, r: Bucket, g: nat, i: nat)
    requires r != [] && g <= |b| && r[..|r| - 1] == (if g < |b| then Without(b, g) else b)
    requires i < |b| && i != g
    ensures IndexOf(r, b[i].id) < |r|
  {
    assert r[..|r| - 1][if i < g then i else i - 1] == b[i];
  }

  lemma GivenUpIsTakenOut(b: Bucket, id: PeerId, flags: Word, ts: int, i: nat)
    requires |b| <= NODES_PER_BUCKET && i < |b|
    requires var r := Added(b, id, flags, ts).0; IndexOf(r, b[i].id) == |r|
    ensures Added(b, id, flags, ts).1 && i == TakenOut(b, id, flags, ts) && b[i].id != id
  {
    AddedForm(b, id, flags, ts);
    var (r, taken) := Added(b, id, flags, ts);
    var g := TakenOut(b, id, flags, ts);
    PresentIndex(b, i);
    if taken {
      PresentIndex(r, |r| - 1);
      if i != g {
        StaysIn(b, r, g, i);
      }
    }
  }

  /** An entry is given up only by a full bucket, only for a newcomer with strictly higher
      flags, and it is the one heard least recently among those with the lowest flags. */
  lemma EvictionRule(own: NodeId, b: Bucket, k: nat, id: PeerId, flags: Word, ts: int, i: nat)
    requires |b| <= NODES_PER_BUCKET && DistinctPeers(b) && InBucket(own, b, k) && BucketIndex(own, id) == k
    requires HeardInOrder(b, ts) && i < |b|
    requires var r := Added(b, id, flags, ts).0; IndexOf(r, b[i].id) == |r|
    ensures |b| == NODES_PER_BUCKET && IndexOf(b, id) == |b| && flags > b[i].flags
    ensures forall j :: 0 <= j < |b| ==> b[i].flags <= b[j].flags
    ensures forall j :: 0 <= j < |b| && b[j].flags == b[i].flags ==> i <= j && b[i].lastRecv <= b[j].lastRecv
    ensures var r := Added(b, id, flags, ts).0; |r| == NODES_PER_BUCKET && r[|r| - 1].id == id
  {
    GivenUpIsTakenOut(b, id, flags, ts, i);
    AddedForm(b, id, flags, ts);
    TakenOutIsLowest(b, id, flags, ts);
  }

  /** Under a forward clock whom a newcomer takes out is the first of the lowest flags. */
  lemma TakenOutIsLowest(b: Bucket, id: PeerId, flags: Word, ts: int)
    requires |b| <= NODES_PER_BUCKET && HeardInOrder(b, ts) && Added(b, id, flags, ts).1
    requires TakenOut(b, id, flags, ts) < |b| && b[TakenOut(b, id, flags, ts)].id != id
    ensures |b| == NODES_PER_BUCKET && IndexOf(b, id) == |b|
    ensures var i := TakenOut(b, id, flags, ts);
            && flags > b[i].flags
            && (forall j :: 0 <= j < |b| ==> b[i].flags <= b[j].flags)
            && (forall j :: 0 <= j < |b| && b[j].flags == b[i].flags ==> i <= j && b[i].lastRecv <= b[j].lastRecv)
  {
    LowestPresent(b, flags);
  }

  /** Under a clock that runs forward, how long ago the peers of a full bucket were heard does
      not matter: a newcomer gets in exactly when some peer there has lower flags. */
  lemma FullTakesIff(b: Bucket, id: PeerId, flags: Word, ts: int)
    requires |b| == NODES_PER_BUCKET && IndexOf(b, id) == |b| && HeardInOrder(b, ts)
    ensures Added(b, id, flags, ts).1 <==> exists i :: 0 <= i < |b| && b[i].flags < flags
  {
    LowestPresent(b, flags);
    if flags > LowestFlags(b, flags) {
      assert b[FirstWithFlags(b, LowestFlags(b, flags))].flags < flags;
    }
  }

  /** So a peer unheard for longer than the age limit keeps its place in a full bucket, and a
      newcomer with no better flags is turned away. */
  lemma OldPeerStays(b: Bucket, id: PeerId, flags: Word, ts: int)
    requires |b| == NODES_PER_BUCKET && IndexOf(b, id) == |b| && HeardInOrder(b, ts)
    requires ts - b[0].lastRecv > MAX_RECV_PERIOD && forall i :: 0 <= i < |b| ==> flags <= b[i].flags
    ensures Added(b, id, flags, ts) == (b, false)
  {
    AddedForm(b, id, flags, ts);
    FullTakesIff(b, id, flags, ts);
  }

  /** The newcomer ousts entry i: the bucket is full, and entry i is the first of the lowest
      flags, which are lower than the newcomer's. */
  ghost predicate Ousts(b: Bucket, i: nat, id: PeerId, flags: Word)
    requires i < |b|
  {
    && |b| == NODES_PER_BUCKET && IndexOf(b, id) == |b| && b[i].flags < flags
    && (forall j :: 0 <= j < |b| ==> b[i].flags <= b[j].flags)
    && (forall j :: 0 <= j < i ==> b[j].flags != b[i].flags)
  }

  lemma OustedIsFirstLowest(b: Bucket, i: nat, id: PeerId, flags: Word)
    requires i < |b| && Ousts(b, i, id, flags)
    ensures LowestFlags(b, flags) == b[i].flags && FirstWithFlags(b, b[i].flags) == i
  {
    LowestPresent(b, flags);
  }

  lemma OustedIff(own: NodeId, b: Bucket, k: nat, id: PeerId, flags: Word, ts: int, i: nat)
    requires |b| <= NODES_PER_BUCKET && DistinctPeers(b) && InBucket(own, b, k) && BucketIndex(own, id) == k
    requires HeardInOrder(b, ts) && i < |b|
    ensures var r := Added(b, id, flags, ts).0; IndexOf(r, b[i].id) == |r| <==> Ousts(b, i, id, flags)
  {
    var r := Added(b, id, flags, ts).0;
    if IndexOf(r, b[i].id) == |r| {
      EvictionRule(own, b, k, id, flags, ts, i);
    }
    if Ousts(b, i, id, flags) {
      OustedGoes(own, b, k, id, flags, ts, i);
    }
  }

  lemma OustedGoes(own: NodeId, b: Bucket, k: nat, id: PeerId, flags: Word, ts: int, i: nat)
    requires DistinctPeers(b) && InBucket(own, b, k) && i < |b| && HeardInOrder(b, ts) && Ousts(b, i, id, flags)
    ensures var r := Added(b, id, flags, ts).0; IndexOf(r, b[i].id) == |r|
  {
    var r := Added(b, id, flags, ts).0;
    OustedIsFirstLowest(b, i, id, flags);
    WithoutKeeps(own, b, k, i);
    assert r == Without(b, i) + [NewPeer(id, flags, ts)];
  }

  function LowestOf(b: Bucket): Word {
    LowestFlags(b, 0xFFFF_FFFF)
  }

  lemma LowestBelow(b: Bucket, f: Word)
    requires forall i :: 0 <= i < |b| ==> f <= b[i].flags
    ensures f <= LowestOf(b)
  {
    LowestPresent(b, 0xFFFF_FFFF);
  }

  lemma NoneLower(b: Bucket, id: PeerId, flags: Word, ts: int, i: nat)
    requires |b| == NODES_PER_BUCKET && HeardInOrder(b, ts) && i < |Added(b, id, flags, ts).0|
    ensures LowestOf(b) <= Added(b, id, flags, ts).0[i].flags
  {
    AddedForm(b, id, flags, ts);
    LowestPresent(b, flags);
    LowestPresent(b, 0xFFFF_FFFF);
    var (r, taken) := Added(b, id, flags, ts);
    if taken {
      var g := TakenOut(b, id, flags, ts);
      OrGrows(b[g].flags, flags);
      if i < |r| - 1 {
        assert r[i] == r[..|r| - 1][i] == b[if i < g then i else i + 1];
      }
    }
  }

  /** A full bucket stays full, and the lowest flags in it never fall. */
  lemma FullStaysFull(b: Bucket, id: PeerId, flags: Word, ts: int)
    requires |b| == NODES_PER_BUCKET && HeardInOrder(b, ts)
    ensures |Added(b, id, flags, ts).0| == NODES_PER_BUCKET
    ensures LowestOf(b) <= LowestOf(Added(b, id, flags, ts).0)
  {
    AddedForm(b, id, flags, ts);
    var r := Added(b, id, flags, ts).0;
    forall i | 0 <= i < |r| ensures LowestOf(b) <= r[i].flags {
      NoneLower(b, id, flags, ts, i);
    }
    LowestBelow(r, LowestOf(b));
  }

  /** Reports carry times that never go back. */
  ghost predicate ClockForward(evs: seq<Event>)
  {
    forall i, j :: 0 <= i < j < |evs| && evs[i].Reported? && evs[j].Reported? ==> evs[i].ts <= evs[j].ts
  }

  ghost predicate NotAfter(evs: seq<Event>, now: int)
  {
    forall i :: 0 <= i < |evs| && evs[i].Reported? ==> evs[i].ts <= now
  }

  lemma SweptInOrder(b: Bucket, j: nat, ts: int, now: int)
    requires j < |b| && HeardInOrder(b, now)
    ensures HeardInOrder(b[j := b[j].(lastSend := ts)], now)
  {
  }

  lemma HeardLater(t: Table, before: int, now: int)
    requires before <= now && forall k :: 0 <= k < |t| ==> HeardInOrder(t[k], before)
    ensures forall k :: 0 <= k < |t| ==> HeardInOrder(t[k], now)
  {
  }

  /** In every reachable table every bucket is in the order its peers were last heard. */
  lemma {:induction false} RunInOrder(own: NodeId, evs: seq<Event>, now: int)
    requires ClockForward(evs) && NotAfter(evs, now)
    ensures forall k :: 0 <= k < NUM_BUCKETS ==> HeardInOrder(Run(own, evs)[k], now)
  {
    if evs == [] {
    } else {
      var last := |evs| - 1;
      var ev := evs[last];
      var t := Run(own, evs[..last]);
      var at := if ev.Reported? then ev.ts else now;
      RunInOrder(own, evs[..last], at);
      HeardLater(t, at, now);
      match ev
      case Reported(id, flags, ts) =>
        var k := BucketIndex(own, id);
        AddedInOrder(t[k], id, flags, ts, ts);
        HeardLater(t[k := Added(t[k], id, flags, ts).0], ts, now);
      case Swept(ts) =>
        var k := FirstStaleBucket(t, ts);
        if k < |t| {
          SweptInOrder(t[k], FirstStale(t[k], ts), ts, now);
        }
      case Cleared =>
    }
  }

  lemma LeavesStep(own: NodeId, t: Table, ev: Event, id: PeerId)
    requires TableInv(own, t) && Held(own, t, id)
    requires ev.Reported? ==> forall k :: 0 <= k < |t| ==> HeardInOrder(t[k], ev.ts)
    ensures !Held(own, Step(own, t, ev), id) <==>
              || ev.Cleared?
              || (ev.Reported? && BucketIndex(own, ev.id) == BucketIndex(own, id)
                  && var b := t[BucketIndex(own, id)]; Ousts(b, IndexOf(b, id), ev.id, ev.flags))
  {
    var k := BucketIndex(own, id);
    match ev
    case Reported(x, flags, ts) =>
      if BucketIndex(own, x) == k {
        OustedIff(own, t[k], k, x, flags, ts, IndexOf(t[k], id));
      }
    case Swept(ts) =>
      var f := FirstStaleBucket(t, ts);
      if f == k {
        SameIdsIndex(t[k], Touched(t, k, FirstStale(t[k], ts), ts)[k], id);
      }
    case Cleared =>
  }

  /** In any run under a clock that runs forward, a peer in the table leaves it at an event if
      and only if the table is cleared, or a newcomer is reported for its bucket that ousts it:
      no sweep and no report for another bucket takes it out. */
  lemma LeavesIff(own: NodeId, evs: seq<Event>, id: PeerId)
    requires evs != [] && ClockForward(evs) && Held(own, Run(own, evs[..|evs| - 1]), id)
    ensures var t, ev, k := Run(own, evs[..|evs| - 1]), evs[|evs| - 1], BucketIndex(own, id);
            !Held(own, Run(own, evs), id) <==>
              || ev.Cleared?
              || (ev.Reported? && BucketIndex(own, ev.id) == k
                  && Ousts(t[k], IndexOf(t[k], id), ev.id, ev.flags))
  {
    var before, ev := evs[..|evs| - 1], evs[|evs| - 1];
    ClockPrefix(evs);
    RunInv(own, before);
    if ev.Reported? {
      RunInOrder(own, before, ev.ts);
    }
    LeavesStep(own, Run(own, before), ev, id);
  }

  /** The peer ousted is the least recently heard of those with the lowest flags. */
  lemma OustedIsOldest(b: Bucket, i: nat, id: PeerId, flags: Word, now: int)
    requires i < |b| && Ousts(b, i, id, flags) && HeardInOrder(b, now)
    ensures forall j :: 0 <= j < |b| ==> b[i].flags < b[j].flags || b[i].lastRecv <= b[j].lastRecv
  {
    forall j | 0 <= j < |b| && b[j].flags == b[i].flags ensures b[i].lastRecv <= b[j].lastRecv {
      assert i <= j;
    }
  }

  lemma {:induction false} SweptLowest(b: Bucket, j: nat, ts: int)
    requires j < |b|
    ensures LowestOf(b) <= LowestOf(b[j := b[j].(lastSend := ts)])
  {
    LowestPresent(b, 0xFFFF_FFFF);
    LowestBelow(b[j := b[j].(lastSend := ts)], LowestOf(b));
  }

  lemma ClockPrefix(evs: seq<Event>)
    requires ClockForward(evs) && evs != []
    ensures ClockForward(evs[..|evs| - 1])
    ensures evs[|evs| - 1].Reported? ==> NotAfter(evs[..|evs| - 1], evs[|evs| - 1].ts)
  {
  }

  lemma StepFull(own: NodeId, t: Table, ev: Event, k: nat)
    requires |t| == NUM_BUCKETS && k < NUM_BUCKETS && |t[k]| == NODES_PER_BUCKET && !ev.Cleared?
    requires ev.Reported? ==> HeardInOrder(t[k], ev.ts)
    ensures |Step(own, t, ev)[k]| == NODES_PER_BUCKET && LowestOf(t[k]) <= LowestOf(Step(own, t, ev)[k])
  {
    match ev
    case Reported(id, flags, ts) =>
      if k == BucketIndex(own, id) {
        FullStaysFull(t[k], id, flags, ts);
      }
    case Swept(ts) =>
      if FirstStaleBucket(t, ts) == k {
        SweptLowest(t[k], FirstStale(t[k], ts), ts);
      }
  }

  /** Short of clearing the table, a bucket once full is full for good, and its lowest flags
      never fall. */
  lemma {:induction false} FullForGood(own: NodeId, evs: seq<Event>, n: nat, k: nat)
    requires ClockForward(evs) && n <= |evs| && k < NUM_BUCKETS
    requires |Run(own, evs[..n])[k]| == NODES_PER_BUCKET
    requires forall i :: n <= i < |evs| ==> !evs[i].Cleared?
    ensures |Run(own, evs)[k]| == NODES_PER_BUCKET
    ensures LowestOf(Run(own, evs[..n])[k]) <= LowestOf(Run(own, evs)[k])
  {
    var last := |evs| - 1;
    if n == |evs| {
      assert evs[..n] == evs;
    } else {
      assert evs[..last][..n] == evs[..n];
      ClockPrefix(evs);
      FullForGood(own, evs[..last], n, k);
      if evs[last].Reported? {
        RunInOrder(own, evs[..last], evs[last].ts);
      }
      StepFull(own, Run(own, evs[..last]), evs[last], k);
    }
  }

  // ---------------------------------------------------------------- nearest nodes

  /** r is the nearest part of all: as many as asked for, in order, and nothing left out is
      nearer than anything in it. */
  ghost predicate NearestPart(all: NodeMap, r: NodeMap, number: int)
  {
    && |r| == (if number < 0 then 0 else if number < |all| then number else |all|)
    && Sorted(r)
    && exists rest: NodeMap :: Splits(all, r, rest)
  }

  ghost predicate Splits(all: NodeMap, r: NodeMap, rest: NodeMap)
  {
    && multiset(all) == multiset(r) + multiset(rest)
    && forall i, j :: 0 <= i < |r| && 0 <= j < |rest| ==> r[i].key <= rest[j].key
  }

  lemma PrefixSplits(m: NodeMap, n: nat)
    requires Sorted(m) && n <= |m|
    ensures Splits(m, m[..n], m[n..])
  {
    assert m == m[..n] + m[n..];
  }

  lemma TakeIsNearest(all: NodeMap, m: NodeMap, number: int)
    requires Sorted(m) && multiset(m) == multiset(all) && |m| == |all|
    ensures var n := if number < 0 then 0 else number; NearestPart(all, Take(m, n), number) && Sorted(Take(m, n))
  {
    var r := Take(m, if number < 0 then 0 else number);
    assert r == m[..|r|];
    PrefixSplits(m, |r|);
    assert Splits(all, r, m[|r|..]);
  }

  /** What find_nearest_nodes answers is the nearest part of the whole table, each peer under
      its true distance. */
  lemma NearestNodesCorrect(t: Table, id: NodeId, number: int)
    ensures NearestPart(ByDistance(id, Flatten(t)), NearestNodes(t, id, number), number)
    ensures InsertAll([], NearestNodes(t, id, number)) == NearestNodes(t, id, number)
  {
    var all := ByDistance(id, Flatten(t));
    var m := InsertAll([], all);
    InsertAllKeeps([], all);
    TakeIsNearest(all, m, number);
    InsertAllSorted(NearestNodes(t, id, number));
  }

  // ---------------------------------------------------------------- distinct answers

  ghost predicate DistinctFlat(ps: seq<Peer>)
  {
    forall i, j :: 0 <= i < j < |ps| ==> ps[i].id != ps[j].id
  }

  lemma {:induction false} FlattenDistinct(own: NodeId, t: Table, n: nat)
    requires TableInv(own, t) && n <= |t|
    ensures DistinctFlat(Flatten(t[..n]))
    ensures forall i :: 0 <= i < |Flatten(t[..n])| ==> BucketIndex(own, Flatten(t[..n])[i].id) < n
  {
    if n == 0 {
    } else {
      FlattenDistinct(own, t, n - 1);
      assert t[..n][..n - 1] == t[..n - 1];
      var f, b := Flatten(t[..n - 1]), t[n - 1];
      assert Flatten(t[..n]) == f + b;
      forall i, j | 0 <= i < |f| && 0 <= j < |b| ensures f[i].id != b[j].id {
        assert BucketIndex(own, b[j].id) == n - 1;
      }
    }
  }

  lemma TwiceInMultiset<T>(s: seq<T>, i: nat, j: nat)
    requires i < j < |s| && s[i] == s[j]
    ensures multiset(s)[s[i]] >= 2
  {
    assert s == s[..j] + [s[j]] + s[j + 1..];
    assert s[..j][i] == s[i];
    assert s[i] in multiset(s[..j]);
  }

  lemma {:induction false} OnceInMultiset(id: NodeId, ps: seq<Peer>, e: Entry<PeerId>)
    requires DistinctFlat(ps)
    ensures multiset(ByDistance(id, ps))[e] <= 1
  {
    if ps == [] {
    } else {
      var n := |ps| - 1;
      OnceInMultiset(id, ps[..n], e);
      var before := ByDistance(id, ps[..n]);
      assert forall i :: 0 <= i < n ==> before[i].val != ps[n].id;
      assert multiset(ByDistance(id, ps)) == multiset(before) + multiset{Entry(Dist(id, ps[n].id.id), ps[n].id)};
    }
  }

  lemma OneEntryEach(m: NodeMap, id: NodeId, ps: seq<Peer>, i: nat, j: nat)
    requires DistinctFlat(ps) && multiset(m) == multiset(ByDistance(id, ps))
    requires i < j < |m|
    ensures m[i] != m[j]
  {
    OnceInMultiset(id, ps, m[i]);
    if m[i] == m[j] {
      TwiceInMultiset(m, i, j);
    }
  }

  /** A sorted entry stands under its distance and is one of the peers sorted. */
  lemma SortedEntry(id: NodeId, ps: seq<Peer>, m: NodeMap, i: nat)
    requires multiset(m) == multiset(ByDistance(id, ps)) && i < |m|
    ensures m[i].key == Dist(id, m[i].val.id) && exists j :: 0 <= j < |ps| && ps[j].id == m[i].val
  {
    var all := ByDistance(id, ps);
    assert m[i] in multiset(m);
    assert m[i] in all;
    var j :| 0 <= j < |all| && all[j] == m[i];
    assert ps[j].id == m[i].val;
  }

  /** Each answer stands under its true distance and is in the table. */
  lemma NearestNodesKeyed(t: Table, id: NodeId, number: int, i: nat)
    requires i < |NearestNodes(t, id, number)|
    ensures var e := NearestNodes(t, id, number)[i];
            e.key == Dist(id, e.val.id) && exists j :: 0 <= j < |Flatten(t)| && Flatten(t)[j].id == e.val
  {
    InsertAllKeeps([], ByDistance(id, Flatten(t)));
    SortedEntry(id, Flatten(t), InsertAll([], ByDistance(id, Flatten(t))), i);
  }

  lemma SortedDistinct(id: NodeId, ps: seq<Peer>, m: NodeMap, i: nat, j: nat)
    requires DistinctFlat(ps) && multiset(m) == multiset(ByDistance(id, ps)) && i < j < |m|
    ensures m[i].val != m[j].val
  {
    OneEntryEach(m, id, ps, i, j);
    SortedEntry(id, ps, m, i);
    SortedEntry(id, ps, m, j);
  }

  /** The nearest nodes are distinct peers: a fit start list. */
  lemma NearestNodesDistinct(own: NodeId, t: Table, id: NodeId, number: int, i: nat, j: nat)
    requires TableInv(own, t) && i < j < |NearestNodes(t, id, number)|
    ensures NearestNodes(t, id, number)[i].val != NearestNodes(t, id, number)[j].val
  {
    var all := InsertAll([], ByDistance(id, Flatten(t)));
    WholeDistinct(own, t);
    InsertedDistinct(id, Flatten(t), all, i, j);
    assert NearestNodes(t, id, number)[i] == all[i] && NearestNodes(t, id, number)[j] == all[j];
  }

  lemma WholeDistinct(own: NodeId, t: Table)
    requires TableInv(own, t)
    ensures DistinctFlat(Flatten(t))
  {
    FlattenDistinct(own, t, |t|);
    assert t[..|t|] == t;
  }

  lemma InsertedDistinct(id: NodeId, ps: seq<Peer>, m: NodeMap, i: nat, j: nat)
    requires DistinctFlat(ps) && m == InsertAll([], ByDistance(id, ps)) && i < j < |m|
    ensures m[i].val != m[j].val
  {
    InsertAllKeeps([], ByDistance(id, ps));
    SortedDistinct(id, ps, m, i, j);
  }

  // ---------------------------------------------------------------- the sweep

  function StaleIn(b: Bucket, ts: int): (r: seq<PeerId>)
  {
    if b == [] then [] else (if Stale(b[0], ts) then [b[0].id] else []) + StaleIn(b[1..], ts)
  }

  /** The stale peers of the table, bucket by bucket. */
  function StaleIds(t: Table, ts: int): (r: seq<PeerId>)
  {
    if t == [] then [] else StaleIn(t[0], ts) + StaleIds(t[1..], ts)
  }

  function RefreshedIn(b: Bucket, ts: int): (r: Bucket)
    ensures |r| == |b|
    ensures forall i :: 0 <= i < |b| ==> r[i] == if Stale(b[i], ts) then b[i].(lastSend := ts) else b[i]
  {
    seq(|b|, i requires 0 <= i < |b| => if Stale(b[i], ts) then b[i].(lastSend := ts) else b[i])
  }

  /** The table with every stale peer marked as sent to just now, all else unchanged. */
  function Refreshed(t: Table, ts: int): (r: Table)
    ensures |r| == |t|
    ensures forall k :: 0 <= k < |t| ==> r[k] == RefreshedIn(t[k], ts)
  {
    seq(|t|, k requires 0 <= k < |t| => RefreshedIn(t[k], ts))
  }

  lemma {:induction false} StaleInTouched(b: Bucket, ts: int)
    requires FirstStale(b, ts) < |b|
    ensures var j := FirstStale(b, ts);
            StaleIn(b, ts) == [b[j].id] + StaleIn(b[j := b[j].(lastSend := ts)], ts)
  {
    var j := FirstStale(b, ts);
    var r := b[j := b[j].(lastSend := ts)];
    if j == 0 {
      assert r[1..] == b[1..];
    } else {
      StaleInTouched(b[1..], ts);
      assert r[1..] == b[1..][j - 1 := b[1..][j - 1].(lastSend := ts)];
    }
  }

  lemma {:induction false} NoneStaleIn(b: Bucket, ts: int)
    ensures FirstStale(b, ts) == |b| <==> StaleIn(b, ts) == []
  {
    if b == [] {
    } else {
      NoneStaleIn(b[1..], ts);
    }
  }

  lemma StaleIdsSkip(t: Table, ts: int)
    requires t != [] && FirstStale(t[0], ts) == |t[0]|
    ensures StaleIds(t, ts) == StaleIds(t[1..], ts)
  {
    NoneStaleIn(t[0], ts);
    assert [] + StaleIds(t[1..], ts) == StaleIds(t[1..], ts);
  }

  lemma {:induction false} StaleIdsTouched(t: Table, ts: int)
    requires FirstStaleBucket(t, ts) < |t|
    ensures var k := FirstStaleBucket(t, ts);
            var j := FirstStale(t[k], ts);
            StaleIds(t, ts) == [t[k][j].id] + StaleIds(Touched(t, k, j, ts), ts)
  {
    var k := FirstStaleBucket(t, ts);
    var j := FirstStale(t[k], ts);
    var r := Touched(t, k, j, ts);
    if k == 0 {
      StaleInTouched(t[0], ts);
      assert r[1..] == t[1..];
    } else {
      StaleIdsTouched(t[1..], ts);
      assert r[1..] == Touched(t[1..], k - 1, j, ts);
      StaleIdsSkip(t, ts);
      StaleIdsSkip(r, ts);
    }
  }

  /** One call of the sweep takes the first stale peer off the list and refreshes only it. */
  lemma SweepTakesFirst(t: Table, ts: int)
    requires FirstStaleBucket(t, ts) < |t|
    ensures var k := FirstStaleBucket(t, ts);
            var j := FirstStale(t[k], ts);
            && StaleIds(t, ts) == [t[k][j].id] + StaleIds(Touched(t, k, j, ts), ts)
            && Refreshed(t, ts) == Refreshed(Touched(t, k, j, ts), ts)
  {
    var k := FirstStaleBucket(t, ts);
    var j := FirstStale(t[k], ts);
    StaleIdsTouched(t, ts);
    assert RefreshedIn(Touched(t, k, j, ts)[k], ts) == RefreshedIn(t[k], ts);
    assert Refreshed(t, ts) == Refreshed(Touched(t, k, j, ts), ts);
  }

  lemma {:induction false} SweepDone(t: Table, ts: int)
    requires FirstStaleBucket(t, ts) == |t|
    ensures StaleIds(t, ts) == [] && Refreshed(t, ts) == t
  {
    if t == [] {
    } else {
      NoneStaleIn(t[0], ts);
      SweepDone(t[1..], ts);
      assert Refreshed(t, ts)[1..] == Refreshed(t[1..], ts);
      assert RefreshedIn(t[0], ts) == t[0];
    }
  }

  lemma {:induction false} StaleInExact(b: Bucket, ts: int, id: PeerId)
    requires DistinctPeers(b)
    ensures multiset(StaleIn(b, ts))[id] == if IndexOf(b, id) < |b| && Stale(b[IndexOf(b, id)], ts) then 1 else 0
  {
    if b == [] {
    } else {
      StaleInExact(b[1..], ts, id);
      if b[0].id == id {
        assert forall i :: 0 <= i < |b[1..]| ==> b[1..][i] == b[i + 1];
        assert IndexOf(b[1..], id) == |b[1..]|;
      } else {
        assert IndexOf(b, id) == 1 + IndexOf(b[1..], id);
      }
    }
  }

  lemma NotIndexed(own: NodeId, b: Bucket, k: nat, id: PeerId)
    requires InBucket(own, b, k) && BucketIndex(own, id) != k
    ensures IndexOf(b, id) == |b|
  {
  }

  lemma {:induction false} StaleElsewhere(own: NodeId, t: Table, k: nat, ts: int, id: PeerId)
    requires forall l :: 0 <= l < |t| ==> DistinctPeers(t[l]) && InBucket(own, t[l], k + l)
    requires BucketIndex(own, id) < k || BucketIndex(own, id) >= k + |t|
    ensures multiset(StaleIds(t, ts))[id] == 0
  {
    if t == [] {
    } else {
      StaleInExact(t[0], ts, id);
      NotIndexed(own, t[0], k, id);
      StaleElsewhere(own, t[1..], k + 1, ts, id);
    }
  }

  lemma {:induction false} StaleFrom(own: NodeId, t: Table, k: nat, ts: int, id: PeerId)
    requires forall l :: 0 <= l < |t| ==> DistinctPeers(t[l]) && InBucket(own, t[l], k + l)
    requires k <= BucketIndex(own, id) < k + |t|
    ensures var b := t[BucketIndex(own, id) - k];
            multiset(StaleIds(t, ts))[id] == if IndexOf(b, id) < |b| && Stale(b[IndexOf(b, id)], ts) then 1 else 0
  {
    StaleInExact(t[0], ts, id);
    if BucketIndex(own, id) == k {
      StaleElsewhere(own, t[1..], k + 1, ts, id);
    } else {
      NotIndexed(own, t[0], k, id);
      StaleFrom(own, t[1..], k + 1, ts, id);
    }
  }

  /** The sweep's list names every stale peer of the table once, and no other peer. */
  lemma StaleIdsExact(own: NodeId, t: Table, ts: int, id: PeerId)
    requires TableInv(own, t)
    ensures var b := t[BucketIndex(own, id)];
            multiset(StaleIds(t, ts))[id]
              == if IndexOf(b, id) < |b| && ts - b[IndexOf(b, id)].lastSend > 600 then 1 else 0
  {
    StaleFrom(own, t, 0, ts, id);
  }

  // ---------------------------------------------------------------- the tables a node can hold

  lemma RunAgain(own: NodeId, evs: seq<Event>, ev: Event, more: seq<Event>)
    ensures evs + [ev] + more == evs + ([ev] + more)
    ensures Run(own, evs + [ev]) == Step(own, Run(own, evs), ev)
  {
    assert (evs + [ev])[..|evs|] == evs;
  }

  lemma SweptOnceTakes(t: Table, ts: int)
    requires FirstStaleBucket(t, ts) < |t|
    ensures |StaleIds(t, ts)| == 1 + |StaleIds(SweptOnce(t, ts), ts)|
    ensures Refreshed(t, ts) == Refreshed(SweptOnce(t, ts), ts)
  {
    SweepTakesFirst(t, ts);
  }

  function Sweeps(n: nat, ts: int): seq<Event> {
    if n == 0 then [] else [Swept(ts)] + Sweeps(n - 1, ts)
  }

  /** A whole sweep is a run of as many single ones as there are stale peers. */
  lemma {:induction false} SweepIsRun(own: NodeId, evs: seq<Event>, n: nat, ts: int)
    requires n == |StaleIds(Run(own, evs), ts)|
    ensures Run(own, evs + Sweeps(n, ts)) == Refreshed(Run(own, evs), ts)
    decreases n
  {
    var t := Run(own, evs);
    if FirstStaleBucket(t, ts) == |t| {
      SweepDone(t, ts);
      assert evs + [] == evs;
    } else {
      SweptOnceTakes(t, ts);
      RunAgain(own, evs, Swept(ts), Sweeps(n - 1, ts));
      SweepIsRun(own, evs + [Swept(ts)], n - 1, ts);
    }
  }

  /** The table is what some run makes of the empty one. */
  ghost predicate Reached(own: NodeId, t: Table)
  {
    exists evs :: t == Run(own, evs)
  }

  lemma ReachedInv(own: NodeId, t: Table)
    requires Reached(own, t)
    ensures TableInv(own, t)
  {
    var evs :| t == Run(own, evs);
    RunInv(own, evs);
  }

  lemma ReachedEmpty(own: NodeId)
    ensures Reached(own, EmptyTable())
  {
    assert Run(own, []) == EmptyTable();
  }

  lemma ReachedStep(own: NodeId, t: Table, ev: Event)
    requires Reached(own, t) && |t| == NUM_BUCKETS
    ensures Reached(own, Step(own, t, ev))
  {
    var evs :| t == Run(own, evs);
    RunAgain(own, evs, ev, []);
  }

  lemma ReachedSwept(own: NodeId, t: Table, ts: int)
    requires Reached(own, t)
    ensures Reached(own, Refreshed(t, ts))
  {
    var evs :| t == Run(own, evs);
    SweepIsRun(own, evs, |StaleIds(t, ts)|, ts);
  }
}
