/** What the lists of an iterative lookup guarantee: over any run that drops no silent peer, and
    over no other, the list is the nearest peers among all that were offered. */
module QueryTheorems {
  import opened Metric
  import opened Multimap
  import opened Peers
  import opened Query

  // ---------------------------------------------------------------- the list's shape

  ghost predicate Distinct(m: FoundMap)
  {
    forall i, j :: 0 <= i < j < |m| ==> m[i].val.id != m[j].val.id
  }

  ghost predicate Shape(m: FoundMap, target: NodeId)
  {
    && Sorted(m)
    && Distinct(m)
    && Keyed(m, target)
    && |m| <= NODES_PER_BUCKET
  }

  ghost predicate Keyed(m: FoundMap, target: NodeId)
  {
    forall i :: 0 <= i < |m| ==> m[i].key == Dist(target, m[i].val.id.id)
  }

  ghost predicate Holds(m: FoundMap, id: PeerId)
  {
    exists i :: 0 <= i < |m| && m[i].val.id == id
  }

  ghost function IdSet(m: FoundMap): set<PeerId>
  {
    set i | 0 <= i < |m| :: m[i].val.id
  }

  /** m holds as many of the offered peers as fit, and none it leaves out is nearer. */
  ghost predicate Nearest(m: FoundMap, target: NodeId, offered: set<PeerId>)
  {
    && (forall i :: 0 <= i < |m| ==> m[i].val.id in offered)
    && |m| == (if |offered| < NODES_PER_BUCKET then |offered| else NODES_PER_BUCKET)
    && forall x, i :: x in offered && !Holds(m, x) && 0 <= i < |m| ==> m[i].key <= Dist(target, x.id)
  }

  lemma {:induction false} IdSetSize(m: FoundMap)
    requires Distinct(m)
    ensures |IdSet(m)| == |m|
  {
    if m == [] {
    } else {
      var n := |m| - 1;
      IdSetSize(m[..n]);
      assert IdSet(m) == IdSet(m[..n]) + {m[n].val.id};
      assert m[n].val.id !in IdSet(m[..n]);
    }
  }

  lemma SubsetSize<T>(a: set<T>, b: set<T>)
    requires a <= b
    ensures |a| <= |b|
    ensures |a| == |b| ==> a == b
  {
    assert |b| == |a| + |b - a| by { assert b == a + (b - a); }
  }

  /** The distances are determined: any two lists that are nearest among the same offers
      agree on them, position by position. */
  lemma NearestDistancesUnique(m: FoundMap, p: FoundMap, target: NodeId, offered: set<PeerId>, i: nat)
    requires Shape(m, target) && Nearest(m, target, offered)
    requires Shape(p, target) && Nearest(p, target, offered)
    requires i < |m|
    ensures i < |p| && m[i].key == p[i].key
  {
    if m[i].key < p[i].key {
      NotNearer(m, p, target, offered, i);
    } else if p[i].key < m[i].key {
      NotNearer(p, m, target, offered, i);
    }
  }

  lemma NearAreShared(m: FoundMap, p: FoundMap, target: NodeId, offered: set<PeerId>, i: nat, k: nat)
    requires Shape(m, target) && Nearest(m, target, offered)
    requires Shape(p, target) && Nearest(p, target, offered)
    requires k < |m| && i < |p| && m[k].key < p[i].key
    ensures m[k].val.id in IdSet(p[..i])
  {
    var x := m[k].val.id;
    assert Holds(p, x);
    var l :| 0 <= l < |p| && p[l].val.id == x;
    assert p[l].key == m[k].key;
    assert l < i;
    assert p[..i][l].val.id == x;
  }

  lemma NotNearer(m: FoundMap, p: FoundMap, target: NodeId, offered: set<PeerId>, i: nat)
    requires Shape(m, target) && Nearest(m, target, offered)
    requires Shape(p, target) && Nearest(p, target, offered)
    requires i < |m| && i < |p|
    ensures m[i].key >= p[i].key
  {
    if m[i].key < p[i].key {
      var a := m[..i + 1];
      forall x | x in IdSet(a) ensures x in IdSet(p[..i]) {
        var k :| 0 <= k < |a| && a[k].val.id == x;
        NearAreShared(m, p, target, offered, i, k);
      }
      TooManyIds(a, p[..i]);
    }
  }

  lemma TooManyIds(a: FoundMap, b: FoundMap)
    requires Distinct(a) && Distinct(b) && IdSet(a) <= IdSet(b)
    ensures |a| <= |b|
  {
    IdSetSize(a);
    IdSetSize(b);
    SubsetSize(IdSet(a), IdSet(b));
  }

  // ---------------------------------------------------------------- admitting a newcomer

  lemma InsertDistinct(t: FoundMap, e: Entry<Peer>)
    requires Distinct(t) && !Holds(t, e.val.id)
    ensures Distinct(Insert(t, e))
  {
    var n := UpperBound(t, e.key);
    var r := Insert(t, e);
    forall i, j | 0 <= i < j < |r| ensures r[i].val.id != r[j].val.id {
      var a, b := if i < n then i else i - 1, if j < n then j else j - 1;
      assert i != n ==> r[i] == t[a];
      assert j != n ==> r[j] == t[b];
    }
  }

  lemma InsertKeyed(t: FoundMap, target: NodeId, e: Entry<Peer>)
    requires Keyed(t, target) && e.key == Dist(target, e.val.id.id)
    ensures Keyed(Insert(t, e), target)
  {
    var r := Insert(t, e);
    forall i | 0 <= i < |r| ensures r[i].key == Dist(target, r[i].val.id.id) {
      InsertMembers(t, e, r[i]);
    }
  }

  lemma AdmitShape(m: FoundMap, target: NodeId, e: Entry<Peer>)
    requires Shape(m, target) && !Holds(m, e.val.id) && e.key == Dist(target, e.val.id.id)
    ensures Shape(Admit(m, e), target)
    ensures |Admit(m, e)| == 1 + if |m| < NODES_PER_BUCKET then |m| else NODES_PER_BUCKET - 1
  {
    var t := Take(m, NODES_PER_BUCKET - 1);
    InsertSorted(t, e);
    InsertDistinct(t, e);
    InsertKeyed(t, target, e);
  }

  lemma AdmitMembers(m: FoundMap, e: Entry<Peer>)
    ensures e in Admit(m, e)
    ensures forall i :: 0 <= i < |m| && i < NODES_PER_BUCKET - 1 ==>
              m[i] in Admit(m, e) && Holds(Admit(m, e), m[i].val.id)
    ensures forall x :: x in Admit(m, e) ==> x == e || x in m
  {
    var t := Take(m, NODES_PER_BUCKET - 1);
    InsertMembers(t, e, e);
    forall i | 0 <= i < |m| && i < NODES_PER_BUCKET - 1
      ensures m[i] in Admit(m, e) && Holds(Admit(m, e), m[i].val.id)
    {
      assert m[i] == t[i];
      InsertMembers(t, e, m[i]);
      var j :| 0 <= j < |Admit(m, e)| && Admit(m, e)[j] == m[i];
    }
    forall x | x in Admit(m, e) ensures x == e || x in m {
      InsertMembers(t, e, x);
    }
  }

  /** What a full or part-filled nearest list says about who is left out. */
  lemma LeftOut(m: FoundMap, target: NodeId, offered: set<PeerId>, x: PeerId)
    requires Distinct(m) && Nearest(m, target, offered)
    ensures |m| < NODES_PER_BUCKET ==> (x in offered <==> Holds(m, x)) && |offered| == |m|
    ensures |m| >= NODES_PER_BUCKET ==> |offered| >= NODES_PER_BUCKET
  {
    IdSetSize(m);
    assert IdSet(m) <= offered;
    SubsetSize(IdSet(m), offered);
    assert x in IdSet(m) <==> Holds(m, x);
  }

  lemma AdmitNearest(m: FoundMap, target: NodeId, offered: set<PeerId>, e: Entry<Peer>)
    requires Shape(m, target) && Nearest(m, target, offered)
    requires !Holds(m, e.val.id) && e.key == Dist(target, e.val.id.id)
    requires LowerBound(m, e.key) < NODES_PER_BUCKET
    ensures Nearest(Admit(m, e), target, offered + {e.val.id})
  {
    var r := Admit(m, e);
    var all := offered + {e.val.id};
    AdmitShape(m, target, e);
    AdmitMembers(m, e);
    LeftOut(m, target, offered, e.val.id);
    SubsetSize(offered, all);
    AdmitIds(m, offered, e);
    forall x, i | x in all && !Holds(r, x) && 0 <= i < |r| ensures r[i].key <= Dist(target, x.id) {
      assert r[i] in r;
      AdmitLeavesFar(m, target, offered, e, x, r[i]);
    }
  }

  lemma AdmitIds(m: FoundMap, offered: set<PeerId>, e: Entry<Peer>)
    requires forall i :: 0 <= i < |m| ==> m[i].val.id in offered
    ensures var r := Admit(m, e); forall i :: 0 <= i < |r| ==> r[i].val.id in offered + {e.val.id}
  {
    var r := Admit(m, e);
    AdmitMembers(m, e);
    forall i | 0 <= i < |r| ensures r[i].val.id in offered + {e.val.id} {
      assert r[i] in r;
    }
  }

  lemma FarthestGoes(m: FoundMap, e: Entry<Peer>)
    requires Sorted(m) && LowerBound(m, e.key) < NODES_PER_BUCKET
    ensures |m| == NODES_PER_BUCKET ==> e.key <= m[NODES_PER_BUCKET - 1].key
  {
    Bounds(m, e.key);
  }

  lemma AdmitLeavesFar(m: FoundMap, target: NodeId, offered: set<PeerId>, e: Entry<Peer>, x: PeerId, y: Entry<Peer>)
    requires Shape(m, target) && Nearest(m, target, offered)
    requires !Holds(m, e.val.id) && e.key == Dist(target, e.val.id.id)
    requires LowerBound(m, e.key) < NODES_PER_BUCKET
    requires x in offered + {e.val.id} && !Holds(Admit(m, e), x) && y in Admit(m, e)
    ensures y.key <= Dist(target, x.id)
  {
    AdmitMembers(m, e);
    LeftOut(m, target, offered, x);
    FarthestGoes(m, e);
    var last := NODES_PER_BUCKET - 1;
    if Holds(m, x) {
      var k :| 0 <= k < |m| && m[k].val.id == x;
      assert k >= last;
    }
    assert |m| == NODES_PER_BUCKET;
    assert m[last].key <= Dist(target, x.id);
  }

  // ---------------------------------------------------------------- dropping silent peers

  lemma {:induction false} LiveDistinct(m: FoundMap, ts: int)
    requires Distinct(m)
    ensures Distinct(Live(m, ts))
  {
    if m == [] {
    } else {
      var n := |m| - 1;
      var r := Live(m[..n], ts);
      LiveDistinct(m[..n], ts);
      forall i | 0 <= i < |r| ensures r[i].val.id != m[n].val.id {
        LiveMembers(m[..n], ts, r[i]);
      }
    }
  }

  /** Exactly the strictly nearer timed-out entries go. */
  lemma KeptMembers(m: FoundMap, d: nat, ts: int, e: Entry<Peer>)
    requires Sorted(m)
    ensures e in Kept(m, d, ts) <==> e in m && !(e.key < d && TimedOut(e.val, ts))
  {
    Bounds(m, d);
    var lo := LowerBound(m, d);
    LiveMembers(m[..lo], ts, e);
    assert m == m[..lo] + m[lo..];
    assert e in m[..lo] ==> e.key < d;
    assert e in m[lo..] ==> e.key >= d;
  }

  lemma KeptDistinct(m: FoundMap, d: nat, ts: int)
    requires Distinct(m)
    ensures Distinct(Kept(m, d, ts))
  {
    var lo := LowerBound(m, d);
    var live := Live(m[..lo], ts);
    LiveDistinct(m[..lo], ts);
    forall i, j | 0 <= i < |live| && lo <= j < |m| ensures live[i].val.id != m[j].val.id {
      LiveMembers(m[..lo], ts, live[i]);
    }
  }

  lemma KeptShape(m: FoundMap, target: NodeId, d: nat, ts: int)
    requires Shape(m, target)
    ensures Shape(Kept(m, d, ts), target)
  {
    var k := Kept(m, d, ts);
    KeptSorted(m, d, ts);
    KeptDistinct(m, d, ts);
    forall i | 0 <= i < |k| ensures k[i].key == Dist(target, k[i].val.id.id) {
      KeptMembers(m, d, ts, k[i]);
    }
  }

  lemma KeptLower(m: FoundMap, d: nat, ts: int)
    requires Sorted(m)
    ensures LowerBound(Kept(m, d, ts), d) == |Live(m[..LowerBound(m, d)], ts)|
  {
    var lo := LowerBound(m, d);
    var live := Live(m[..lo], ts);
    var k := Kept(m, d, ts);
    KeptSorted(m, d, ts);
    Bounds(m, d);
    Bounds(k, d);
    if live != [] {
      LiveMembers(m[..lo], ts, live[|live| - 1]);
      assert k[|live| - 1] == live[|live| - 1];
    }
    if |k| > |live| {
      assert k[|live|] == m[lo];
    }
  }

  /** The offer takes the branch that drops a silent peer and puts the newcomer in. */
  predicate Drops(m: FoundMap, target: NodeId, id: PeerId, ts: int)
    requires Sorted(m)
  {
    var d := Dist(target, id.id);
    Bounds(m, d);
    && |Live(m[..LowerBound(m, d)], ts)| < LowerBound(m, d)
    && !TooFar(m, d, ts)
    && Find(m, id, LowerBound(m, d), UpperBound(m, d)) == UpperBound(m, d)
  }

  lemma FindIsHolds(m: FoundMap, target: NodeId, id: PeerId)
    requires Shape(m, target)
    ensures var lo, hi := LowerBound(m, Dist(target, id.id)), UpperBound(m, Dist(target, id.id));
            lo <= hi && (Find(m, id, lo, hi) < hi <==> Holds(m, id))
  {
    Bounds(m, Dist(target, id.id));
  }

  /** The three things an offer can do, told apart by distance and by membership. */
  lemma OfferCases(m: FoundMap, target: NodeId, id: PeerId, mode: Word, ts: int)
    requires Shape(m, target)
    ensures Offer(m, target, id, mode, ts).1 <==> !TooFar(m, Dist(target, id.id), ts)
    ensures TooFar(m, Dist(target, id.id), ts) ==> Offer(m, target, id, mode, ts).0 == m
    ensures Holds(m, id) ==> SamePeers(m, Offer(m, target, id, mode, ts).0)
    ensures !TooFar(m, Dist(target, id.id), ts) && !Holds(m, id) ==>
              Offer(m, target, id, mode, ts).0 == Admit(Kept(m, Dist(target, id.id), ts), Fresh(target, id, mode, ts))
  {
    FindIsHolds(m, target, id);
  }

  lemma InsertedNearest(m: FoundMap, target: NodeId, id: PeerId, mode: Word, ts: int)
    requires Shape(m, target) && !TooFar(m, Dist(target, id.id), ts) && !Holds(m, id)
    ensures var k := Kept(m, Dist(target, id.id), ts);
            var r := Admit(k, Fresh(target, id, mode, ts));
            Shape(r, target) && Nearest(r, target, IdSet(k) + {id})
  {
    var d := Dist(target, id.id);
    var k := Kept(m, d, ts);
    KeptShape(m, target, d, ts);
    KeptLower(m, d, ts);
    NotHeldKept(m, d, ts, id);
    IdSetSize(k);
    AdmitShape(k, target, Fresh(target, id, mode, ts));
    AdmitNearest(k, target, IdSet(k), Fresh(target, id, mode, ts));
  }

  lemma InsertedKeepsNearer(m: FoundMap, target: NodeId, id: PeerId, mode: Word, ts: int, x: Entry<Peer>)
    requires Shape(m, target) && !TooFar(m, Dist(target, id.id), ts)
    requires x in m && x.key < Dist(target, id.id) && !TimedOut(x.val, ts)
    ensures x in Admit(Kept(m, Dist(target, id.id), ts), Fresh(target, id, mode, ts))
  {
    var d := Dist(target, id.id);
    var k := Kept(m, d, ts);
    KeptSorted(m, d, ts);
    KeptLower(m, d, ts);
    KeptMembers(m, d, ts, x);
    Bounds(k, d);
    AdmitMembers(k, Fresh(target, id, mode, ts));
  }

  /** One offer, time-outs included. A taken newcomer leaves the nearest of itself and what
      was kept; a refused one changes nothing; a live peer that is strictly nearer stays. */
  lemma OfferStep(m: FoundMap, target: NodeId, id: PeerId, mode: Word, ts: int, x: Entry<Peer>)
    requires Shape(m, target)
    ensures var d := Dist(target, id.id);
            var (r, taken) := Offer(m, target, id, mode, ts);
            && Shape(r, target)
            && (taken <==> !TooFar(m, d, ts))
            && (!taken ==> r == m)
            && (taken && !Holds(m, id) ==> Nearest(r, target, IdSet(Kept(m, d, ts)) + {id}))
            && (x in m && x.key < d && !TimedOut(x.val, ts) ==> x in r)
  {
    OfferCases(m, target, id, mode, ts);
    var d := Dist(target, id.id);
    if Holds(m, id) {
      SamePeersNearest(m, Offer(m, target, id, mode, ts).0, target, {});
      if x in m && x.key < d && !TooFar(m, d, ts) {
        HeardKeepsOthers(m, target, id, mode, ts, x);
      }
    } else if !TooFar(m, d, ts) {
      InsertedNearest(m, target, id, mode, ts);
      if x in m && x.key < d && !TimedOut(x.val, ts) {
        InsertedKeepsNearer(m, target, id, mode, ts, x);
      }
    }
  }

  lemma HeardKeepsOthers(m: FoundMap, target: NodeId, id: PeerId, mode: Word, ts: int, x: Entry<Peer>)
    requires Shape(m, target) && Holds(m, id) && x in m && x.key < Dist(target, id.id)
    ensures x in Offer(m, target, id, mode, ts).0
  {
    FindIsHolds(m, target, id);
    Bounds(m, Dist(target, id.id));
    var i :| 0 <= i < |m| && m[i] == x;
    assert Offer(m, target, id, mode, ts).0[i] == x;
  }

  lemma NotHeldKept(m: FoundMap, d: nat, ts: int, id: PeerId)
    requires Sorted(m) && !Holds(m, id)
    ensures !Holds(Kept(m, d, ts), id)
  {
    var k := Kept(m, d, ts);
    forall i | 0 <= i < |k| ensures k[i].val.id != id {
      KeptMembers(m, d, ts, k[i]);
    }
  }

  lemma NothingDropped(m: FoundMap, d: nat, ts: int)
    requires |Live(m[..LowerBound(m, d)], ts)| == LowerBound(m, d)
    ensures Kept(m, d, ts) == m
  {
    LiveAll(m[..LowerBound(m, d)], ts);
  }

  // ---------------------------------------------------------------- same peers, other times

  ghost predicate SamePeers(m: FoundMap, r: FoundMap)
  {
    && |m| == |r|
    && forall i :: 0 <= i < |m| ==> m[i].key == r[i].key && m[i].val.id == r[i].val.id
  }

  lemma SamePeersNearest(m: FoundMap, r: FoundMap, target: NodeId, offered: set<PeerId>)
    requires SamePeers(m, r)
    ensures Shape(m, target) ==> Shape(r, target)
    ensures Nearest(m, target, offered) ==> Nearest(r, target, offered)
  {
    forall x ensures Holds(m, x) <==> Holds(r, x) {
      if Holds(m, x) {
        var i :| 0 <= i < |m| && m[i].val.id == x;
        assert r[i].val.id == x;
      }
    }
  }

  // ---------------------------------------------------------------- the M closest peers

  /** The list stays the nearest of everything offered if and only if this offer does not
      drop a silent peer to make room. */
  lemma OfferKeepsNearestIff(m: FoundMap, target: NodeId, offered: set<PeerId>, id: PeerId, mode: Word, ts: int)
    requires Shape(m, target) && Nearest(m, target, offered)
    ensures Nearest(Offer(m, target, id, mode, ts).0, target, offered + {id}) <==> !Drops(m, target, id, ts)
  {
    var d := Dist(target, id.id);
    var lo := LowerBound(m, d);
    var r := Offer(m, target, id, mode, ts).0;
    DropsWhen(m, target, id, ts);
    OfferCases(m, target, id, mode, ts);
    if Holds(m, id) {
      assert offered + {id} == offered;
      SamePeersNearest(m, r, target, offered);
    } else if TooFar(m, d, ts) {
      FarNearest(m, target, offered, id, ts);
    } else if |Live(m[..lo], ts)| == lo {
      NothingDropped(m, d, ts);
      AdmitNearest(m, target, offered, Fresh(target, id, mode, ts));
    } else {
      DropLosesNearest(m, target, offered, id, mode, ts);
    }
  }

  lemma DropsWhen(m: FoundMap, target: NodeId, id: PeerId, ts: int)
    requires Shape(m, target)
    ensures var d := Dist(target, id.id);
            && |Live(m[..LowerBound(m, d)], ts)| <= LowerBound(m, d)
            && (Drops(m, target, id, ts) <==>
                  !Holds(m, id) && !TooFar(m, d, ts) && |Live(m[..LowerBound(m, d)], ts)| < LowerBound(m, d))
  {
    FindIsHolds(m, target, id);
  }

  /** A peer beyond a full list of live ones changes nothing. */
  lemma FarNearest(m: FoundMap, target: NodeId, offered: set<PeerId>, id: PeerId, ts: int)
    requires Shape(m, target) && Nearest(m, target, offered) && TooFar(m, Dist(target, id.id), ts)
    ensures Nearest(m, target, offered + {id})
  {
    Bounds(m, Dist(target, id.id));
    SubsetSize(offered, offered + {id});
  }

  /** A silent peer nearer than the newcomer is not in the list any more. */
  lemma SilentIsGone(m: FoundMap, target: NodeId, id: PeerId, mode: Word, ts: int, j: nat)
    requires Shape(m, target) && j < LowerBound(m, Dist(target, id.id)) && TimedOut(m[j].val, ts)
    ensures !Holds(Admit(Kept(m, Dist(target, id.id), ts), Fresh(target, id, mode, ts)), m[j].val.id)
  {
    var d := Dist(target, id.id);
    var k, e := Kept(m, d, ts), Fresh(target, id, mode, ts);
    var r := Admit(k, e);
    Bounds(m, d);
    AdmitMembers(k, e);
    forall i | 0 <= i < |r| ensures r[i].val.id != m[j].val.id {
      assert r[i] in r;
      if r[i] != e {
        KeptMembers(m, d, ts, r[i]);
      }
    }
  }

  lemma DropLosesNearest(m: FoundMap, target: NodeId, offered: set<PeerId>, id: PeerId, mode: Word, ts: int)
    requires Shape(m, target) && Nearest(m, target, offered)
    requires !Holds(m, id) && |Live(m[..LowerBound(m, Dist(target, id.id))], ts)| < LowerBound(m, Dist(target, id.id))
    ensures !Nearest(Admit(Kept(m, Dist(target, id.id), ts), Fresh(target, id, mode, ts)), target, offered + {id})
  {
    var d := Dist(target, id.id);
    var lo := LowerBound(m, d);
    var k, e := Kept(m, d, ts), Fresh(target, id, mode, ts);
    Bounds(m, d);
    var j := SomeSilent(m, lo, ts);
    SilentIsGone(m, target, id, mode, ts, j);
    NearerLeftOut(k, e, target, offered + {id}, m[j].val.id);
  }

  lemma SomeSilent(m: FoundMap, lo: nat, ts: int) returns (j: nat)
    requires lo <= |m| && |Live(m[..lo], ts)| < lo
    ensures j < lo && TimedOut(m[j].val, ts)
  {
    LiveAll(m[..lo], ts);
    j :| 0 <= j < lo && TimedOut(m[..lo][j].val, ts);
  }

  /** A list that takes e in but not a nearer peer is not the nearest. */
  lemma NearerLeftOut(k: FoundMap, e: Entry<Peer>, target: NodeId, offered: set<PeerId>, x: PeerId)
    requires x in offered && !Holds(Admit(k, e), x) && Dist(target, x.id) < e.key
    ensures !Nearest(Admit(k, e), target, offered)
  {
    var r := Admit(k, e);
    AdmitMembers(k, e);
    var i :| 0 <= i < |r| && r[i] == e;
  }

  // ---------------------------------------------------------------- runs

  /** What a lookup can be told: a peer spoke, a peer was named, or it is its turn. */
  datatype Event =
    | Spoke(id: PeerId, mode: Word, ts: int)
    | Named(id: PeerId, mode: Word, ts: int)
    | Turn(now: int, filler: NodeId)

  function Step(s: State, ev: Event): (r: State)
    requires s.Valid()
    ensures r.Valid()
  {
    match ev
    case Spoke(id, mode, ts) =>
      OfferSorted(s.closest, s.target, id, mode, ts);
      s.(closest := Offer(s.closest, s.target, id, mode, ts).0)
    case Named(id, mode, ts) =>
      OfferPotentialSorted(s.closest, s.potential, s.target, id, mode, ts);
      s.(potential := OfferPotential(s.closest, s.potential, s.target, id, mode, ts).0)
    case Turn(now, filler) =>
      AskSorted(s, now, filler);
      Ask(s, now, filler).0
  }

  function Run(s: State, evs: seq<Event>): (r: State)
    requires s.Valid()
    ensures r.Valid()
  {
    if evs == [] then s else Step(Run(s, evs[..|evs| - 1]), evs[|evs| - 1])
  }

  ghost function Offered(evs: seq<Event>): set<PeerId>
  {
    set i | 0 <= i < |evs| && evs[i].Spoke? :: evs[i].id
  }

  ghost predicate NoDrops(s: State, evs: seq<Event>)
    requires s.Valid()
  {
    forall k :: 0 <= k < |evs| && evs[k].Spoke? ==>
      var q := Run(s, evs[..k]); !Drops(q.closest, q.target, evs[k].id, evs[k].ts)
  }

  ghost function Members(s: seq<PeerId>): set<PeerId>
  {
    set i | 0 <= i < |s| :: s[i]
  }

  ghost predicate DistinctIds(s: seq<PeerId>)
  {
    forall i, j :: 0 <= i < j < |s| ==> s[i] != s[j]
  }

  /** How a lookup starts. */
  datatype Origin = Origin(target: NodeId, start: seq<PeerId>, flags: Word, now: int)
  {
    ghost predicate Fits() {
      DistinctIds(start) && |start| <= NODES_PER_BUCKET
    }

    function First(): (s: State)
      ensures s.Valid()
    {
      InitialSorted(target, start, flags, now);
      Initial(target, start, flags, now)
    }
  }

  lemma InsertAllSize(target: NodeId, start: seq<PeerId>, now: int)
    ensures |InsertAll([], StartEntries(target, start, now))| == |start|
  {
    InsertAllKeeps([], StartEntries(target, start, now));
  }

  lemma InsertAllLast(target: NodeId, start: seq<PeerId>, now: int)
    requires 0 < |start| <= NODES_PER_BUCKET
    ensures InsertAll([], StartEntries(target, start, now))
         == Admit(InsertAll([], StartEntries(target, start[..|start| - 1], now)),
                  Newcomer(target, start[|start| - 1], 0, now))
  {
    var n := |start| - 1;
    InsertAllSize(target, start[..n], now);
    assert StartEntries(target, start, now)[..n] == StartEntries(target, start[..n], now);
  }

  lemma {:induction false} InitialNearest(target: NodeId, start: seq<PeerId>, now: int)
    requires DistinctIds(start) && |start| <= NODES_PER_BUCKET
    ensures var m := InsertAll([], StartEntries(target, start, now));
            Shape(m, target) && Nearest(m, target, Members(start))
  {
    if start == [] {
      assert Members(start) == {};
    } else {
      var n := |start| - 1;
      InitialNearest(target, start[..n], now);
      InsertAllLast(target, start, now);
      InsertAllSize(target, start[..n], now);
      MembersLast(start);
      AdmitNew(InsertAll([], StartEntries(target, start[..n], now)), target, Members(start[..n]), start[n], now);
    }
  }

  lemma MembersLast(start: seq<PeerId>)
    requires start != [] && DistinctIds(start)
    ensures Members(start) == Members(start[..|start| - 1]) + {start[|start| - 1]}
    ensures start[|start| - 1] !in Members(start[..|start| - 1])
  {
  }

  lemma AdmitNew(m: FoundMap, target: NodeId, offered: set<PeerId>, id: PeerId, now: int)
    requires Shape(m, target) && Nearest(m, target, offered) && id !in offered && |m| < NODES_PER_BUCKET
    ensures var r := Admit(m, Newcomer(target, id, 0, now));
            Shape(r, target) && Nearest(r, target, offered + {id})
  {
    AdmitShape(m, target, Newcomer(target, id, 0, now));
    AdmitNearest(m, target, offered, Newcomer(target, id, 0, now));
  }

  /** The fields no event changes, and the list's shape, over any run. */
  lemma {:induction false} RunShape(s: State, evs: seq<Event>)
    requires s.Valid() && Shape(s.closest, s.target) && Shape(s.potential, s.target)
    ensures Run(s, evs).target == s.target && Run(s, evs).flags == s.flags && Run(s, evs).queryTS == s.queryTS
    ensures Shape(Run(s, evs).closest, s.target) && Shape(Run(s, evs).potential, s.target)
  {
    if evs == [] {
    } else {
      var n := |evs| - 1;
      RunShape(s, evs[..n]);
      var q := Run(s, evs[..n]);
      match evs[n]
      case Spoke(id, mode, ts) => OfferStep(q.closest, q.target, id, mode, ts, Fresh(q.target, id, mode, ts));
      case Named(id, mode, ts) => PotentialStep(q.closest, q.potential, q.target, {}, id, mode, ts);
      case Turn(now, filler) =>
        AskSamePeers(q, now, filler);
        SamePeersNearest(q.closest, Ask(q, now, filler).0.closest, q.target, {});
    }
  }

  lemma AskSamePeers(s: State, now: int, filler: NodeId)
    ensures SamePeers(s.closest, Ask(s, now, filler).0.closest)
    ensures var r := Ask(s, now, filler).0;
            r.potential == s.potential && r.target == s.target && r.flags == s.flags && r.queryTS == s.queryTS
  {
    var q := WithPeriod(s, now);
    assert q.closest == s.closest && q.potential == s.potential;
    if s.status == Querying || s.Idle() {
      var n := NextIndex(q.closest, q.Idle(), q.retryPeriod, now);
      if n < |q.closest| {
        assert Ask(s, now, filler).0.closest
            == s.closest[n := s.closest[n].(val := s.closest[n].val.(lastSend := now))];
      } else {
        assert Ask(s, now, filler).0.closest == s.closest;
      }
    }
  }

  lemma StepNearest(s: State, ev: Event, offered: set<PeerId>)
    requires s.Valid() && Shape(s.closest, s.target) && Nearest(s.closest, s.target, offered)
    requires ev.Spoke? ==> !Drops(s.closest, s.target, ev.id, ev.ts)
    ensures Nearest(Step(s, ev).closest, s.target, if ev.Spoke? then offered + {ev.id} else offered)
  {
    match ev
    case Spoke(id, mode, ts) => OfferKeepsNearestIff(s.closest, s.target, offered, id, mode, ts);
    case Named(id, mode, ts) =>
    case Turn(now, filler) =>
      AskSamePeers(s, now, filler);
      SamePeersNearest(s.closest, Ask(s, now, filler).0.closest, s.target, offered);
  }

  lemma OfferedLast(evs: seq<Event>, offered: set<PeerId>)
    requires evs != []
    ensures var ev, before := evs[|evs| - 1], offered + Offered(evs[..|evs| - 1]);
            offered + Offered(evs) == if ev.Spoke? then before + {ev.id} else before
  {
  }

  lemma NoDropsPrefix(s: State, evs: seq<Event>)
    requires s.Valid() && evs != [] && NoDrops(s, evs)
    ensures NoDrops(s, evs[..|evs| - 1])
  {
    var before := evs[..|evs| - 1];
    forall k | 0 <= k < |before| && before[k].Spoke?
      ensures var q := Run(s, before[..k]); !Drops(q.closest, q.target, before[k].id, before[k].ts)
    {
      assert before[..k] == evs[..k];
    }
  }

  lemma {:induction false} RunNearestFrom(s: State, evs: seq<Event>, offered: set<PeerId>)
    requires s.Valid() && Shape(s.closest, s.target) && Shape(s.potential, s.target)
    requires Nearest(s.closest, s.target, offered) && NoDrops(s, evs)
    ensures Nearest(Run(s, evs).closest, s.target, offered + Offered(evs))
  {
    if evs == [] {
      assert offered + Offered(evs) == offered;
    } else {
      var n := |evs| - 1;
      NoDropsPrefix(s, evs);
      RunNearestFrom(s, evs[..n], offered);
      RunShape(s, evs[..n]);
      OfferedLast(evs, offered);
      StepNearest(Run(s, evs[..n]), evs[n], offered + Offered(evs[..n]));
    }
  }

  /** Over any run that never drops a silent peer, whatever is offered, re-offered, tied or
      asked in between, the list is the nearest peers of all ever offered. */
  lemma RunNearest(o: Origin, evs: seq<Event>)
    requires o.Fits() && NoDrops(o.First(), evs)
    ensures Nearest(Run(o.First(), evs).closest, o.target, Members(o.start) + Offered(evs))
  {
    InitialNearest(o.target, o.start, o.now);
    RunNearestFrom(o.First(), evs, Members(o.start));
  }

  lemma RunSnoc(s: State, evs: seq<Event>, k: nat)
    requires s.Valid() && k < |evs|
    ensures Run(s, evs[..k + 1]) == Step(Run(s, evs[..k]), evs[k])
  {
    assert evs[..k + 1][..k] == evs[..k];
  }

  lemma {:induction false} RunConcat(s: State, a: seq<Event>, b: seq<Event>)
    requires s.Valid()
    ensures Run(Run(s, a), b) == Run(s, a + b)
  {
    if b == [] {
      assert a + b == a;
    } else {
      var n := |b| - 1;
      RunConcat(s, a, b[..n]);
      ConcatLast(a, b);
    }
  }

  lemma ConcatLast<T>(a: seq<T>, b: seq<T>)
    requires b != []
    ensures a + b != [] && (a + b)[..|a + b| - 1] == a + b[..|b| - 1] && (a + b)[|a + b| - 1] == b[|b| - 1]
  {
  }

  lemma RunTwo(s: State, a: Event, b: Event)
    requires s.Valid()
    ensures Run(s, [a, b]) == Step(Step(s, a), b)
  {
    var evs := [a, b];
    RunSnoc(s, evs, 0);
    RunSnoc(s, evs, 1);
    assert evs[..0] == [] && evs[..2] == evs;
  }

  lemma OfferedOnce(a: Event, b: Event)
    requires a.Turn? && b.Spoke?
    ensures Offered([a, b]) == {b.id}
  {
    var evs := [a, b];
    assert evs[1] == b;
  }

  /** A lookup that starts from the target itself, asks it, and waits 21 seconds for the answer,
      drops it for the next peer that comes along, with nine places free. */
  lemma TargetItselfDropped(target: NodeId, a: Addr, id: PeerId, mode: Word, filler: NodeId)
    requires id.id != target
    ensures var o := Origin(target, [PeerId(target, a)], 0, 0);
            var evs := [Turn(1, filler), Spoke(id, mode, 22)];
            && o.Fits()
            && Run(o.First(), evs).closest == [Fresh(target, id, mode, 22)]
            && !Nearest(Run(o.First(), evs).closest, target, Members(o.start) + Offered(evs))
  {
    var o := Origin(target, [PeerId(target, a)], 0, 0);
    AskedSilent(target, PeerId(target, a), filler);
    SilentDropped(target, a, id, mode);
    RunTwo(o.First(), Turn(1, filler), Spoke(id, mode, 22));
    OfferedOnce(Turn(1, filler), Spoke(id, mode, 22));
    assert Members(o.start) == {PeerId(target, a)};
  }

  lemma AskedSilent(target: NodeId, silent: PeerId, filler: NodeId)
    ensures var s := Step(Origin(target, [silent], 0, 0).First(), Turn(1, filler));
            s.closest == [Entry(Dist(target, silent.id), Peer(silent, 0, 1, 0, 0))] && s.target == target
  {
    var o := Origin(target, [silent], 0, 0);
    var e := Newcomer(target, silent, 0, 0);
    assert [silent][..0] == [] && StartEntries(target, [silent], 0) == [e] && [e][..0] == [];
    assert InsertAll([], [e]) == [e];
    assert o.First().closest == [e];
    assert NextIndex([e], o.First().Idle(), IDLE_RETRY_PERIOD, 1) == 0;
  }

  lemma SilentDropped(target: NodeId, a: Addr, id: PeerId, mode: Word)
    requires id.id != target
    ensures var silent := PeerId(target, a);
            var m := [Entry(Dist(target, target), Peer(silent, 0, 1, 0, 0))];
            && Sorted(m) && Offer(m, target, id, mode, 22).0 == [Fresh(target, id, mode, 22)]
            && !Nearest(Offer(m, target, id, mode, 22).0, target, {silent} + {id})
  {
    var silent := PeerId(target, a);
    var m := [Entry(Dist(target, target), Peer(silent, 0, 1, 0, 0))];
    DistIdentity(target, target, target);
    DistIdentity(target, target, id.id);
    assert m[0].val.id == silent;
    assert Holds(m, silent);
    Bounds(m, Dist(target, id.id));
    assert m[..1] == m && m[..0] == [];
    FindIsHolds(m, target, id);
    OfferKeepsNearestIff(m, target, {silent}, id, mode, 22);
  }

  lemma NoDropsUpTo(s: State, evs: seq<Event>, k: nat)
    requires s.Valid() && NoDrops(s, evs) && k <= |evs|
    ensures NoDrops(s, evs[..k])
  {
    forall l | 0 <= l < k && evs[..k][l].Spoke?
      ensures var q := Run(s, evs[..k][..l]); !Drops(q.closest, q.target, evs[..k][l].id, evs[..k][l].ts)
    {
      assert evs[..k][..l] == evs[..l];
    }
  }

  lemma OfferedSnoc(evs: seq<Event>, k: nat)
    requires k < |evs| && evs[k].Spoke?
    ensures Offered(evs[..k + 1]) == Offered(evs[..k]) + {evs[k].id}
  {
    assert evs[..k + 1][..k] == evs[..k];
    OfferedLast(evs[..k + 1], {});
  }

  /** If the list is right before and after an offer, the offer dropped no one. */
  lemma NearestMeansNoDrop(s: State, evs: seq<Event>, start: set<PeerId>, k: nat)
    requires s.Valid() && Shape(s.closest, s.target) && Shape(s.potential, s.target) && k < |evs| && evs[k].Spoke?
    requires Nearest(Run(s, evs[..k]).closest, s.target, start + Offered(evs[..k]))
    requires Nearest(Run(s, evs[..k + 1]).closest, s.target, start + Offered(evs[..k + 1]))
    ensures var q := Run(s, evs[..k]); !Drops(q.closest, q.target, evs[k].id, evs[k].ts)
  {
    RunShape(s, evs[..k]);
    RunSnoc(s, evs, k);
    OfferedSnoc(evs, k);
    Union3(start, Offered(evs[..k]), {evs[k].id});
    StepMeansNoDrop(Run(s, evs[..k]), evs[k], start + Offered(evs[..k]));
  }

  lemma Union3<T>(a: set<T>, b: set<T>, c: set<T>)
    ensures a + (b + c) == a + b + c
  {
  }

  lemma StepMeansNoDrop(q: State, ev: Event, offered: set<PeerId>)
    requires q.Valid() && Shape(q.closest, q.target) && ev.Spoke?
    requires Nearest(q.closest, q.target, offered) && Nearest(Step(q, ev).closest, q.target, offered + {ev.id})
    ensures !Drops(q.closest, q.target, ev.id, ev.ts)
  {
    OfferKeepsNearestIff(q.closest, q.target, offered, ev.id, ev.mode, ev.ts);
  }

  /** The list is right at every moment of a run if and only if the run never drops a silent
      peer. */
  lemma RunNearestIff(o: Origin, evs: seq<Event>)
    requires o.Fits()
    ensures NoDrops(o.First(), evs) <==>
              forall k :: 0 <= k <= |evs| ==>
                Nearest(Run(o.First(), evs[..k]).closest, o.target, Members(o.start) + Offered(evs[..k]))
  {
    InitialNearest(o.target, o.start, o.now);
    if NoDrops(o.First(), evs) {
      forall k | 0 <= k <= |evs|
        ensures Nearest(Run(o.First(), evs[..k]).closest, o.target, Members(o.start) + Offered(evs[..k]))
      {
        NoDropsUpTo(o.First(), evs, k);
        RunNearest(o, evs[..k]);
      }
    } else {
      var k :| 0 <= k < |evs| && evs[k].Spoke?
        && var q := Run(o.First(), evs[..k]); Drops(q.closest, q.target, evs[k].id, evs[k].ts);
      if Nearest(Run(o.First(), evs[..k]).closest, o.target, Members(o.start) + Offered(evs[..k]))
        && Nearest(Run(o.First(), evs[..k + 1]).closest, o.target, Members(o.start) + Offered(evs[..k + 1]))
      {
        NearestMeansNoDrop(o.First(), evs, Members(o.start), k);
      }
    }
  }

  // ---------------------------------------------------------------- peers known by name

  /** A named peer passes when it is not in the list and not beyond a full list. */
  predicate Passes(m: FoundMap, target: NodeId, id: PeerId)
    requires Sorted(m)
  {
    var d := Dist(target, id.id);
    Bounds(m, d);
    && Find(m, id, LowerBound(m, d), UpperBound(m, d)) == UpperBound(m, d)
    && (LowerBound(m, d) < |m| || |m| < NODES_PER_BUCKET)
  }

  /** The second list is the nearest of all named peers that passed, and a peer is worth a
      ping exactly when it passes and is not in that list already. */
  lemma PotentialStep(m: FoundMap, potential: FoundMap, target: NodeId, passed: set<PeerId>,
                      id: PeerId, mode: Word, ts: int)
    requires Sorted(m) && Shape(potential, target)
    ensures var (r, worthy) := OfferPotential(m, potential, target, id, mode, ts);
            && Shape(r, target)
            && (worthy <==> Passes(m, target, id) && !Holds(potential, id))
            && (!Passes(m, target, id) ==> r == potential)
            && (Nearest(potential, target, passed) && Passes(m, target, id) ==> Nearest(r, target, passed + {id}))
  {
    var r := OfferPotential(m, potential, target, id, mode, ts).0;
    PotentialCases(m, potential, target, id, mode, ts);
    if Passes(m, target, id) {
      if LowerBound(potential, Dist(target, id.id)) >= NODES_PER_BUCKET {
        BeyondNearest(potential, target, passed, id);
      } else if Holds(potential, id) {
        SamePeersNearest(potential, r, target, passed);
        assert id in passed ==> passed + {id} == passed;
      } else {
        AdmitShape(potential, target, Newcomer(target, id, ts, ts));
        if Nearest(potential, target, passed) {
          AdmitNearest(potential, target, passed, Newcomer(target, id, ts, ts));
        }
      }
    }
  }

  lemma PotentialCases(m: FoundMap, potential: FoundMap, target: NodeId, id: PeerId, mode: Word, ts: int)
    requires Sorted(m) && Shape(potential, target)
    ensures var (r, worthy) := OfferPotential(m, potential, target, id, mode, ts);
            var full := LowerBound(potential, Dist(target, id.id)) >= NODES_PER_BUCKET;
            if !Passes(m, target, id) then r == potential && !worthy
            else if full then r == potential && worthy && !Holds(potential, id)
            else if Holds(potential, id) then SamePeers(potential, r) && !worthy
            else r == Admit(potential, Newcomer(target, id, ts, ts)) && worthy
  {
    Bounds(m, Dist(target, id.id));
    Bounds(potential, Dist(target, id.id));
    FindIsHolds(potential, target, id);
  }

  lemma BeyondNearest(m: FoundMap, target: NodeId, passed: set<PeerId>, id: PeerId)
    requires Shape(m, target) && LowerBound(m, Dist(target, id.id)) >= NODES_PER_BUCKET
    ensures Nearest(m, target, passed) ==> Nearest(m, target, passed + {id})
  {
    Bounds(m, Dist(target, id.id));
    SubsetSize(passed, passed + {id});
  }

  /** All named peers that passed at the moment they were named. */
  ghost function Passed(s: State, evs: seq<Event>): set<PeerId>
    requires s.Valid()
  {
    if evs == [] then {}
    else
      var n := |evs| - 1;
      Passed(s, evs[..n]) + PassedIn(Run(s, evs[..n]), evs[n])
  }

  ghost function PassedIn(q: State, ev: Event): set<PeerId>
    requires q.Valid()
  {
    if ev.Named? && Passes(q.closest, q.target, ev.id) then {ev.id} else {}
  }

  lemma StepPotential(q: State, ev: Event, passed: set<PeerId>)
    requires q.Valid() && Shape(q.potential, q.target) && Nearest(q.potential, q.target, passed)
    ensures Nearest(Step(q, ev).potential, q.target, passed + PassedIn(q, ev))
  {
    match ev
    case Spoke(_, _, _) => assert passed + {} == passed;
    case Named(id, mode, ts) =>
      PotentialStep(q.closest, q.potential, q.target, passed, id, mode, ts);
      assert passed + {} == passed;
    case Turn(now, filler) =>
      AskSamePeers(q, now, filler);
      assert passed + {} == passed;
  }

  /** Over any run the second list is the nearest peers of all that passed. */
  lemma {:induction false} RunPotentialNearest(o: Origin, evs: seq<Event>)
    requires o.Fits()
    ensures Nearest(Run(o.First(), evs).potential, o.target, Passed(o.First(), evs))
  {
    InitialNearest(o.target, o.start, o.now);
    RunShape(o.First(), evs);
    if evs == [] {
      assert Run(o.First(), evs).potential == [];
    } else {
      var before := evs[..|evs| - 1];
      RunPotentialNearest(o, before);
      RunShape(o.First(), before);
      StepPotential(Run(o.First(), before), evs[|evs| - 1], Passed(o.First(), before));
    }
  }
}
