/** What the routing table records of its peers, told from the events of its run: when each was
    last heard, and when it was last sent to. */
module TableHistory {
  import opened Metric
  import opened Peers
  import opened Space
  import opened SpaceTheorems

  // ---------------------------------------------------------------- the events of a peer

  /** The sweep at ts returns x: its entry is the first, bucket by bucket, that was sent to more
      than six hundred seconds before. */
  ghost predicate SweepReturns(t: Table, ts: int, x: PeerId)
  {
    exists k: nat, j: nat :: k < |t| && j < |t[k]| && FirstUnsent(t, ts, k, j) && t[k][j].id == x
  }

  ghost predicate FirstUnsent(t: Table, ts: int, k: nat, j: nat)
    requires k < |t| && j < |t[k]|
  {
    && ts - t[k][j].lastSend > 600
    && (forall i :: 0 <= i < j ==> ts - t[k][i].lastSend <= 600)
    && (forall l, i :: 0 <= l < k && 0 <= i < |t[l]| ==> ts - t[l][i].lastSend <= 600)
  }

  /** The time of the last report of x from event n on. */
  function LastReport(evs: seq<Event>, n: nat, x: PeerId): int
  {
    if |evs| <= n then 0
    else
      var ev := evs[|evs| - 1];
      if ev.Reported? && ev.id == x then ev.ts else LastReport(evs[..|evs| - 1], n, x)
  }

  /** The time of the last sweep after event n that returned x, or else of event n. */
  ghost function LastSent(own: NodeId, evs: seq<Event>, n: nat, x: PeerId): int
    requires n < |evs| && evs[n].Reported?
  {
    var before, ev := evs[..|evs| - 1], evs[|evs| - 1];
    if n == |before| then evs[n].ts
    else if ev.Swept? && SweepReturns(Run(own, before), ev.ts, x) then ev.ts
    else LastSent(own, before, n, x)
  }

  ghost function EntryOf(own: NodeId, t: Table, id: PeerId): (p: Peer)
    requires |t| == NUM_BUCKETS && Held(own, t, id)
    ensures p.id == id
  {
    var b := t[BucketIndex(own, id)];
    b[IndexOf(b, id)]
  }

  // ---------------------------------------------------------------- what a sweep returns

  lemma FirstUnsentIs(t: Table, ts: int, k: nat, j: nat)
    requires k < |t| && j < |t[k]|
    ensures FirstUnsent(t, ts, k, j) <==> FirstStaleBucket(t, ts) == k && FirstStale(t[k], ts) == j
  {
  }

  lemma SweepReturnsIs(t: Table, ts: int, x: PeerId)
    ensures SweepReturns(t, ts, x) <==>
              var k := FirstStaleBucket(t, ts); k < |t| && t[k][FirstStale(t[k], ts)].id == x
  {
    var k := FirstStaleBucket(t, ts);
    if k < |t| {
      FirstUnsentIs(t, ts, k, FirstStale(t[k], ts));
    }
    if SweepReturns(t, ts, x) {
      var l: nat, j: nat :| l < |t| && j < |t[l]| && FirstUnsent(t, ts, l, j) && t[l][j].id == x;
      FirstUnsentIs(t, ts, l, j);
    }
  }

  // ---------------------------------------------------------------- one event

  lemma AddedEntry(own: NodeId, b: Bucket, k: nat, id: PeerId, flags: Word, ts: int)
    requires |b| <= NODES_PER_BUCKET && DistinctPeers(b) && InBucket(own, b, k) && BucketIndex(own, id) == k
    ensures var r := Added(b, id, flags, ts).0;
            IndexOf(r, id) < |r| ==>
              && r[IndexOf(r, id)].lastRecv == ts
              && r[IndexOf(r, id)].lastSend == if IndexOf(b, id) < |b| then b[IndexOf(b, id)].lastSend else ts
  {
    var (r, taken) := Added(b, id, flags, ts);
    AddedForm(b, id, flags, ts);
    AddedKeeps(own, b, k, id, flags, ts);
    LowestPresent(b, flags);
    if taken {
      IndexOfUnique(r, |r| - 1);
    }
  }

  lemma TouchedEntry(b: Bucket, j: nat, ts: int, x: PeerId)
    requires DistinctPeers(b) && j < |b|
    ensures var r := b[j := b[j].(lastSend := ts)];
            IndexOf(r, x) == IndexOf(b, x)
            && (IndexOf(b, x) < |b| ==>
                  r[IndexOf(r, x)] == if b[j].id == x then b[IndexOf(b, x)].(lastSend := ts) else b[IndexOf(b, x)])
  {
    SameIdsIndex(b, b[j := b[j].(lastSend := ts)], x);
    IndexOfUnique(b, j);
  }

  lemma StepEntry(own: NodeId, t: Table, ev: Event, x: PeerId)
    requires TableInv(own, t) && Held(own, t, x) && Held(own, Step(own, t, ev), x)
    ensures var e, r := EntryOf(own, t, x), EntryOf(own, Step(own, t, ev), x);
            && r.lastRecv == (if ev.Reported? && ev.id == x then ev.ts else e.lastRecv)
            && r.lastSend == if ev.Swept? && SweepReturns(t, ev.ts, x) then ev.ts else e.lastSend
  {
    match ev
    case Reported(id, flags, ts) =>
      var k := BucketIndex(own, id);
      if k == BucketIndex(own, x) {
        if x == id {
          AddedEntry(own, t[k], k, id, flags, ts);
        } else {
          AddedFlagsOther(t[k], id, flags, ts, x);
        }
      }
    case Swept(ts) => SweptEntry(own, t, ts, x);
    case Cleared =>
  }

  lemma SweptEntry(own: NodeId, t: Table, ts: int, x: PeerId)
    requires TableInv(own, t) && Held(own, t, x)
    ensures Held(own, SweptOnce(t, ts), x)
    ensures var e, r := EntryOf(own, t, x), EntryOf(own, SweptOnce(t, ts), x);
            r == if SweepReturns(t, ts, x) then e.(lastSend := ts) else e
  {
    SweepReturnsIs(t, ts, x);
    var k := FirstStaleBucket(t, ts);
    if k < |t| {
      if k == BucketIndex(own, x) {
        TouchedEntry(t[k], FirstStale(t[k], ts), ts, x);
      } else {
        assert BucketIndex(own, t[k][FirstStale(t[k], ts)].id) == k;
      }
    }
  }

  lemma StepNewEntry(own: NodeId, t: Table, ev: Event, x: PeerId)
    requires TableInv(own, t) && !Held(own, t, x) && Held(own, Step(own, t, ev), x)
    ensures ev.Reported? && ev.id == x
    ensures var r := EntryOf(own, Step(own, t, ev), x); r.lastRecv == ev.ts && r.lastSend == ev.ts
  {
    StepFlags(own, t, ev, x);
    AddedEntry(own, t[BucketIndex(own, x)], BucketIndex(own, x), x, ev.flags, ev.ts);
  }

  // ---------------------------------------------------------------- the record

  /** Each entry records the time the peer was last reported since it came in, and the time it
      was last sent to: when it came in, or when a later sweep returned it. */
  lemma {:induction false} EntryRecords(own: NodeId, evs: seq<Event>, x: PeerId)
    requires evs != [] && Held(own, Run(own, evs), x)
    ensures var p, n := EntryOf(own, Run(own, evs), x), InsertedAt(own, evs, x);
            && evs[n].Reported?
            && p.lastRecv == LastReport(evs, n, x) && p.lastSend == LastSent(own, evs, n, x)
  {
    var before, ev := evs[..|evs| - 1], evs[|evs| - 1];
    var t := Run(own, before);
    RunInv(own, before);
    NoneHeldAtFirst(own, x);
    InsertedAtMeans(own, evs, x);
    if Held(own, t, x) {
      EntryRecords(own, before, x);
      StepEntry(own, t, ev, x);
      SameStart(evs, before, InsertedAt(own, before, x));
    } else {
      StepNewEntry(own, t, ev, x);
    }
  }
}
