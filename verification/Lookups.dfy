/** The lookups a node holds: each is a run of the lookup machine from a start list that fits,
    and every entry of it was offered to a lookup for the same target. */
module Lookups {
  import opened Metric
  import opened Multimap
  import opened Peers
  import opened Query
  import opened QueryTheorems

  // ---------------------------------------------------------------- where a lookup stands

  /** The lookup is what some run makes of some fitting start. */
  ghost predicate Reachable(q: State)
  {
    exists o: Origin, evs: seq<Event> :: o.Fits() && q == Run(o.First(), evs)
  }

  lemma ReachableShape(q: State)
    requires Reachable(q)
    ensures q.Valid() && Shape(q.closest, q.target) && Shape(q.potential, q.target)
  {
    var o: Origin, evs: seq<Event> :| o.Fits() && q == Run(o.First(), evs);
    InitialNearest(o.target, o.start, o.now);
    RunShape(o.First(), evs);
  }

  lemma ReachableFirst(o: Origin)
    requires o.Fits()
    ensures Reachable(o.First())
  {
    assert o.First() == Run(o.First(), []);
  }

  lemma ReachableStep(q: State, ev: Event)
    requires q.Valid() && Reachable(q)
    ensures Reachable(Step(q, ev))
  {
    var o: Origin, evs: seq<Event> :| o.Fits() && q == Run(o.First(), evs);
    assert (evs + [ev])[..|evs|] == evs;
    assert Step(q, ev) == Run(o.First(), evs + [ev]);
  }

  // ---------------------------------------------------------------- where entries come from

  /** Every peer in the list was offered to a lookup for the target. */
  ghost predicate Sourced(m: FoundMap, target: NodeId, offered: set<(NodeId, PeerId)>)
  {
    forall e :: e in m ==> (target, e.val.id) in offered
  }

  ghost predicate Good(q: State, offered: set<(NodeId, PeerId)>)
  {
    Reachable(q) && Sourced(q.closest, q.target, offered)
  }

  ghost predicate AllGood(qs: seq<State>, offered: set<(NodeId, PeerId)>)
  {
    forall i {:trigger Good(qs[i], offered)} :: 0 <= i < |qs| ==> Good(qs[i], offered)
  }

  ghost predicate AllValid(qs: seq<State>)
  {
    forall i :: 0 <= i < |qs| ==> qs[i].Valid()
  }

  lemma AllGoodValid(qs: seq<State>, offered: set<(NodeId, PeerId)>)
    requires AllGood(qs, offered)
    ensures AllValid(qs)
  {
    forall i | 0 <= i < |qs| ensures qs[i].Valid() {
      assert Good(qs[i], offered);
      ReachableShape(qs[i]);
    }
  }

  lemma GoodShapes(qs: seq<State>, offered: set<(NodeId, PeerId)>)
    requires AllGood(qs, offered)
    ensures forall i :: 0 <= i < |qs| ==> Shape(qs[i].closest, qs[i].target)
  {
    forall i | 0 <= i < |qs| ensures Shape(qs[i].closest, qs[i].target) {
      assert Good(qs[i], offered);
      ReachableShape(qs[i]);
    }
  }

  /** A list that takes in one peer at most. */
  lemma OfferMembers(m: FoundMap, target: NodeId, id: PeerId, mode: Word, ts: int, e: Entry<Peer>)
    requires Sorted(m) && e in Offer(m, target, id, mode, ts).0
    ensures e.val.id == id || e in m
  {
    var d := Dist(target, id.id);
    Bounds(m, d);
    var at := Find(m, id, LowerBound(m, d), UpperBound(m, d));
    if !TooFar(m, d, ts) && at == UpperBound(m, d) {
      var kept := Kept(m, d, ts);
      InsertMembers(Take(kept, NODES_PER_BUCKET - 1), Fresh(target, id, mode, ts), e);
      if e != Fresh(target, id, mode, ts) {
        assert e in kept;
        LiveMembers(m[..LowerBound(m, d)], ts, e);
      }
    }
  }

  lemma AskMembers(s: State, now: int, filler: NodeId, e: Entry<Peer>)
    requires e in Ask(s, now, filler).0.closest
    ensures exists i :: 0 <= i < |s.closest| && s.closest[i].val.id == e.val.id
  {
    var q := WithPeriod(s, now);
    var r := Ask(s, now, filler).0.closest;
    assert |r| == |s.closest|;
    var i :| 0 <= i < |r| && r[i] == e;
    assert s.closest[i].val.id == e.val.id;
  }

  // ---------------------------------------------------------------- what lookups are told

  /** A lookup after a peer has been offered to it. */
  function Told(q: State, id: PeerId, flags: Word, ts: int): State
    requires q.Valid()
  {
    Step(q, Spoke(id, flags, ts))
  }

  /** A lookup after it has been told of a peer known only by name. */
  function Hinted(q: State, id: PeerId, ts: int): State
    requires q.Valid()
  {
    Step(q, Named(id, 0, ts))
  }

  predicate Worthy(q: State, id: PeerId, ts: int)
    requires q.Valid()
  {
    OfferPotential(q.closest, q.potential, q.target, id, 0, ts).1
  }

  /** A peer that is named is worth a ping if and only if it is in neither list, and the first
      list has room or a peer that is no nearer. */
  lemma WorthyIff(q: State, id: PeerId, ts: int)
    requires q.Valid() && Shape(q.closest, q.target) && Shape(q.potential, q.target)
    ensures Worthy(q, id, ts) <==>
              && !Holds(q.closest, id) && !Holds(q.potential, id)
              && (|q.closest| < 10
                  || exists i :: 0 <= i < |q.closest|
                                 && Dist(q.target, q.closest[i].val.id.id) >= Dist(q.target, id.id))
  {
    var d := Dist(q.target, id.id);
    PotentialStep(q.closest, q.potential, q.target, {}, id, 0, ts);
    FindIsHolds(q.closest, q.target, id);
    Bounds(q.closest, d);
    if LowerBound(q.closest, d) < |q.closest| {
      assert q.closest[LowerBound(q.closest, d)].key >= d;
    }
  }

  /** The offers made when a peer that has spoken is told to all lookups. */
  function OffersTo(qs: seq<State>, id: PeerId): set<(NodeId, PeerId)> {
    set i | 0 <= i < |qs| :: (qs[i].target, id)
  }

  /** The offers made when a lookup starts. */
  function OffersOf(target: NodeId, start: seq<PeerId>): set<(NodeId, PeerId)> {
    set i | 0 <= i < |start| :: (target, start[i])
  }

  lemma OffersExact(qs: seq<State>, id: PeerId, target: NodeId, start: seq<PeerId>, x: (NodeId, PeerId))
    ensures x in OffersTo(qs, id) <==> x.1 == id && exists i :: 0 <= i < |qs| && qs[i].target == x.0
    ensures x in OffersOf(target, start) <==> x.0 == target && x.1 in start
  {
  }

  lemma TurnKeeps(q: State, now: int, filler: NodeId, offered: set<(NodeId, PeerId)>)
    requires Good(q, offered)
    ensures Good(Ask(q, now, filler).0, offered)
  {
    ReachableShape(q);
    ReachableStep(q, Turn(now, filler));
    TurnSourced(q, now, filler, offered);
  }

  lemma TurnSourced(q: State, now: int, filler: NodeId, offered: set<(NodeId, PeerId)>)
    requires Sourced(q.closest, q.target, offered)
    ensures var r := Ask(q, now, filler).0; r.target == q.target && Sourced(r.closest, r.target, offered)
  {
    var r := Ask(q, now, filler).0;
    AskSamePeers(q, now, filler);
    forall e | e in r.closest ensures (q.target, e.val.id) in offered {
      AskMembers(q, now, filler, e);
      var i :| 0 <= i < |q.closest| && q.closest[i].val.id == e.val.id;
      assert q.closest[i] in q.closest;
    }
  }

  lemma ToldKeepsOne(q: State, id: PeerId, flags: Word, ts: int, offered: set<(NodeId, PeerId)>)
    requires q.Valid() && Good(q, offered) && (q.target, id) in offered
    ensures Good(Told(q, id, flags, ts), offered)
  {
    ReachableStep(q, Spoke(id, flags, ts));
    var r := Told(q, id, flags, ts);
    forall e | e in r.closest ensures (r.target, e.val.id) in offered {
      OfferMembers(q.closest, q.target, id, flags, ts, e);
    }
  }

  lemma ToldKeeps(qs: seq<State>, rs: seq<State>, id: PeerId, flags: Word, ts: int, before: set<(NodeId, PeerId)>)
    requires AllValid(qs) && AllGood(qs, before)
    requires |rs| == |qs| && forall i :: 0 <= i < |qs| ==> rs[i] == Told(qs[i], id, flags, ts)
    ensures AllGood(rs, before + OffersTo(qs, id))
  {
    var after := before + OffersTo(qs, id);
    forall i | 0 <= i < |rs| ensures Good(rs[i], after) {
      assert Good(qs[i], before);
      GoodLater(qs[i], before, after);
      ToldKeepsOne(qs[i], id, flags, ts, after);
    }
  }

  lemma GoodLater(q: State, before: set<(NodeId, PeerId)>, after: set<(NodeId, PeerId)>)
    requires Good(q, before) && before <= after
    ensures Good(q, after)
  {
  }

  lemma HintedKeeps(qs: seq<State>, rs: seq<State>, id: PeerId, ts: int, offered: set<(NodeId, PeerId)>)
    requires AllValid(qs) && AllGood(qs, offered)
    requires |rs| == |qs| && forall i :: 0 <= i < |qs| ==> rs[i] == Hinted(qs[i], id, ts)
    ensures AllGood(rs, offered)
  {
    forall i | 0 <= i < |rs| ensures Good(rs[i], offered) {
      assert Good(qs[i], offered);
      ReachableStep(qs[i], Named(id, 0, ts));
    }
  }

  lemma StartSourced(target: NodeId, start: seq<PeerId>, flags: Word, now: int)
    ensures Sourced(Initial(target, start, flags, now).closest, target, OffersOf(target, start))
  {
    var es := StartEntries(target, start, now);
    InsertAllKeeps([], es);
    forall e | e in InsertAll([], es) ensures (target, e.val.id) in OffersOf(target, start) {
      assert e in multiset(InsertAll([], es)) && e in multiset(es);
    }
  }

  lemma StartKeeps(qs: seq<State>, id: NodeId, start: seq<PeerId>, flags: Word, now: int,
                   before: set<(NodeId, PeerId)>)
    requires AllGood(qs, before) && DistinctIds(start) && |start| <= NODES_PER_BUCKET
    ensures AllGood(qs + [Initial(id, start, flags, now)], before + OffersOf(id, start))
  {
    var after := before + OffersOf(id, start);
    ReachableFirst(Origin(id, start, flags, now));
    StartSourced(id, start, flags, now);
    forall i | 0 <= i < |qs| ensures Good(qs[i], after) {
      GoodLater(qs[i], before, after);
    }
  }

  // ---------------------------------------------------------------- dropping and reporting

  /** The lookups whose target is not id, in order. */
  function Without(qs: seq<State>, id: NodeId): (r: seq<State>)
  {
    if qs == [] then []
    else
      var r := Without(qs[..|qs| - 1], id);
      if qs[|qs| - 1].target == id then r else r + [qs[|qs| - 1]]
  }

  lemma WithoutSnoc(qs: seq<State>, q: State, id: NodeId)
    ensures Without(qs + [q], id) == if q.target == id then Without(qs, id) else Without(qs, id) + [q]
  {
    assert (qs + [q])[..|qs|] == qs;
  }

  lemma {:induction false} WithoutMembers(qs: seq<State>, id: NodeId, q: State)
    ensures q in Without(qs, id) <==> q in qs && q.target != id
  {
    if qs == [] {
    } else {
      WithoutMembers(qs[..|qs| - 1], id, q);
      assert qs == qs[..|qs| - 1] + [qs[|qs| - 1]];
    }
  }

  lemma WithoutKeeps(qs: seq<State>, id: NodeId, offered: set<(NodeId, PeerId)>)
    requires AllGood(qs, offered)
    ensures AllGood(Without(qs, id), offered)
  {
    var rs := Without(qs, id);
    forall i | 0 <= i < |rs| ensures Good(rs[i], offered) {
      WithoutMembers(qs, id, rs[i]);
    }
  }

  datatype QueryStatus = QueryStatus(status: Status, flags: Word, results: seq<PeerId>)

  function StatusOf(q: State): QueryStatus {
    QueryStatus(q.status, q.flags, Results(q.closest))
  }

  /** What is reported for each target: the last lookup for it speaks for all. */
  function Statuses(qs: seq<State>): map<NodeId, QueryStatus>
  {
    if qs == [] then map[]
    else Statuses(qs[..|qs| - 1])[qs[|qs| - 1].target := StatusOf(qs[|qs| - 1])]
  }
}
