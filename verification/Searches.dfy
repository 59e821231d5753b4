/** The searches a user has asked for, what becomes of them when the node reports on its
    lookups, and the modes the manager goes through. */
module Searches {
  import opened Metric
  import opened NetworkSize
  import opened NodeOrder
  import opened Peers
  import opened Query
  import opened QueryTheorems
  import opened QueryProgress
  import opened Lookups
  import Node
  import Space
  import SpaceTheorems

  const MAX_STARTUP_TIME := 10
  const MAX_REFRESH_TIME := 10
  const MAX_FINDSELF_TIME := 60
  const TRANSITION_OP_SPACE_SIZE := 100
  const MIN_OP_SPACE_SIZE := 20

  /** The second identifier looked up at startup. */
  function WellKnownId(): NodeId {
    [0x93, 0x29, 0x96, 0x9e, 0x1a, 0xac, 0xf2, 0x49, 0x28, 0x38,
     0x97, 0x24, 0xd4, 0xc3, 0x51, 0x77, 0x75, 0x6b, 0x00, 0x00]
  }

  datatype Mode = Off | Startup | FindSelf | Active | Refresh | Quiet | Failed

  datatype QueryPeer = QueryPeer(status: Status, qflags: Word, addr: Addr)

  // ---------------------------------------------------------------- what is handed back

  /** The address is 0:0, or that of a peer whose node id is id and that was offered to a
      lookup for id. */
  ghost predicate AddrOk(id: NodeId, a: Addr, offered: set<(NodeId, PeerId)>)
  {
    a == ZERO_ADDR || (id, PeerId(id, a)) in offered
  }

  ghost predicate AddrsOk(peers: map<NodeId, QueryPeer>, offered: set<(NodeId, PeerId)>)
  {
    forall id :: id in peers ==> AddrOk(id, peers[id].addr, offered)
  }

  lemma {:induction false} StatusSource(qs: seq<State>, id: NodeId) returns (i: nat)
    requires id in Statuses(qs)
    ensures i < |qs| && qs[i].target == id && Statuses(qs)[id] == StatusOf(qs[i])
    ensures forall k :: i < k < |qs| ==> qs[k].target != id
  {
    var n := |qs| - 1;
    if qs[n].target == id {
      i := n;
    } else {
      i := StatusSource(qs[..n], id);
    }
  }

  /** Every result reported for a target has the target's id and was offered to a lookup for it. */
  lemma ReportedResults(qs: seq<State>, offered: set<(NodeId, PeerId)>, id: NodeId, k: nat)
    requires AllGood(qs, offered) && id in Statuses(qs) && k < |Statuses(qs)[id].results|
    ensures Statuses(qs)[id].results[k].id == id && (id, Statuses(qs)[id].results[k]) in offered
  {
    var i := StatusSource(qs, id);
    assert Good(qs[i], offered);
    ReachableShape(qs[i]);
    ResultsIffHead(qs[i].closest, id);
    var j :| 0 <= j < |qs[i].closest| && qs[i].closest[j].val.id == Results(qs[i].closest)[k];
    assert qs[i].closest[j] in qs[i].closest;
  }

  /** A search after the report on its lookup. */
  function Updated(p: QueryPeer, st: QueryStatus): QueryPeer {
    p.(status := st.status,
       addr := if st.status != Success then p.addr else if st.results != [] then st.results[0].addr else ZERO_ADDR)
  }

  function UpdatedAll(peers: map<NodeId, QueryPeer>, sts: map<NodeId, QueryStatus>): map<NodeId, QueryPeer> {
    map id | id in peers :: if id in sts then Updated(peers[id], sts[id]) else peers[id]
  }

  lemma UpdatedAllOk(peers: map<NodeId, QueryPeer>, qs: seq<State>, offered: set<(NodeId, PeerId)>)
    requires AddrsOk(peers, offered) && AllGood(qs, offered)
    ensures AddrsOk(UpdatedAll(peers, Statuses(qs)), offered)
  {
    var sts := Statuses(qs);
    forall id | id in peers ensures AddrOk(id, UpdatedAll(peers, sts)[id].addr, offered) {
      assert AddrOk(id, peers[id].addr, offered);
      if id in sts && sts[id].status == Success && sts[id].results != [] {
        ReportedResults(qs, offered, id, 0);
      }
    }
  }

  // ---------------------------------------------------------------- which lookups end

  /** The lookup is over and does not idle on. */
  predicate Over(st: QueryStatus) {
    st.status in {Failure, FoundClosest, PeerUnreachable, Success} && And(st.flags, DO_IDLE) == 0
  }

  function OverIds(sts: map<NodeId, QueryStatus>): set<NodeId> {
    set id | id in sts && Over(sts[id])
  }

  /** The lookups whose target is not among the ids, in order. */
  function Remaining(qs: seq<State>, ids: set<NodeId>): (r: seq<State>)
  {
    if qs == [] then []
    else
      var r := Remaining(qs[..|qs| - 1], ids);
      if qs[|qs| - 1].target in ids then r else r + [qs[|qs| - 1]]
  }

  lemma {:induction false} RemainingNone(qs: seq<State>)
    ensures Remaining(qs, {}) == qs
  {
    if qs == [] {
    } else {
      RemainingNone(qs[..|qs| - 1]);
    }
  }

  lemma {:induction false} RemainingMore(qs: seq<State>, ids: set<NodeId>, id: NodeId)
    ensures Without(Remaining(qs, ids), id) == Remaining(qs, ids + {id})
  {
    if qs == [] {
    } else {
      var n := |qs| - 1;
      RemainingMore(qs[..n], ids, id);
      WithoutSnoc(Remaining(qs[..n], ids), qs[n], id);
    }
  }

  // ---------------------------------------------------------------- what a report means

  /** No later lookup is for the id. */
  ghost predicate LastFor(qs: seq<State>, id: NodeId, i: nat) {
    forall k :: i < k < |qs| ==> qs[k].target != id
  }

  ghost predicate NoneFor(qs: seq<State>, id: NodeId) {
    forall k :: 0 <= k < |qs| ==> qs[k].target != id
  }

  /** The address of the peer at the head of the list, if that is the target, else 0:0. */
  function HeadAddr(q: State): Addr {
    if q.closest != [] && q.closest[0].val.id.id == q.target then q.closest[0].val.id.addr else ZERO_ADDR
  }

  /** The search takes the lookup's status, and on success the address its list is headed by. */
  ghost predicate Learns(p: QueryPeer, r: QueryPeer, q: State) {
    r.status == q.status && r.qflags == p.qflags && r.addr == if q.status == Success then HeadAddr(q) else p.addr
  }

  /** Every search learns from the last lookup for it; one without a lookup stays as it is. */
  ghost predicate AllLearn(peers: map<NodeId, QueryPeer>, qs: seq<State>, after: map<NodeId, QueryPeer>)
  {
    && after.Keys == peers.Keys
    && (forall id :: id in peers && NoneFor(qs, id) ==> after[id] == peers[id])
    && (forall id, i :: id in peers && 0 <= i < |qs| && qs[i].target == id && LastFor(qs, id, i) ==>
          Learns(peers[id], after[id], qs[i]))
  }

  /** The lookup is over, and does not go on (bit 1 of its flags). */
  predicate Ended(q: State) {
    q.status != Ready && q.status != Querying && Bit(q.flags, 1) == 0
  }

  /** The last lookup for the target is over. */
  ghost predicate TargetEnded(qs: seq<State>, id: NodeId)
  {
    exists i :: 0 <= i < |qs| && qs[i].target == id && LastFor(qs, id, i) && Ended(qs[i])
  }

  /** Exactly the lookups stay whose target's last lookup is not over. */
  ghost predicate OthersStay(qs: seq<State>, rest: seq<State>)
  {
    forall q :: multiset(rest)[q] == if TargetEnded(qs, q.target) then 0 else multiset(qs)[q]
  }

  lemma FirstResult(m: FoundMap, target: NodeId)
    requires Shape(m, target)
    ensures Results(m) == [] <==> m == [] || m[0].val.id.id != target
    ensures Results(m) != [] ==> Results(m)[0] == m[0].val.id
  {
    ResultsIffHead(m, target);
  }

  lemma StatusIs(qs: seq<State>, id: NodeId, i: nat)
    requires i < |qs| && qs[i].target == id && LastFor(qs, id, i)
    ensures id in Statuses(qs) && Statuses(qs)[id] == StatusOf(qs[i])
  {
    StatusOfLast(qs, id, i);
  }

  lemma NoneReported(qs: seq<State>, id: NodeId)
    requires NoneFor(qs, id)
    ensures id !in Statuses(qs)
  {
    if id in Statuses(qs) {
      var i := StatusSource(qs, id);
    }
  }

  lemma UpdatedOne(peers: map<NodeId, QueryPeer>, qs: seq<State>, id: NodeId, i: nat)
    requires id in peers && i < |qs| && qs[i].target == id && LastFor(qs, id, i) && Shape(qs[i].closest, id)
    ensures Learns(peers[id], UpdatedAll(peers, Statuses(qs))[id], qs[i])
  {
    StatusIs(qs, id, i);
    FirstResult(qs[i].closest, id);
  }

  lemma UpdatedLearns(peers: map<NodeId, QueryPeer>, qs: seq<State>)
    requires forall i :: 0 <= i < |qs| ==> Shape(qs[i].closest, qs[i].target)
    ensures AllLearn(peers, qs, UpdatedAll(peers, Statuses(qs)))
  {
    var after := UpdatedAll(peers, Statuses(qs));
    forall id | id in peers && NoneFor(qs, id) ensures after[id] == peers[id] {
      NoneReported(qs, id);
    }
    forall id, i | id in peers && 0 <= i < |qs| && qs[i].target == id && LastFor(qs, id, i)
      ensures Learns(peers[id], after[id], qs[i])
    {
      UpdatedOne(peers, qs, id, i);
    }
  }

  lemma OverIsEnded(qs: seq<State>, id: NodeId)
    ensures id in OverIds(Statuses(qs)) <==> TargetEnded(qs, id)
  {
    if id in Statuses(qs) {
      var i := StatusSource(qs, id);
      FlagTests(qs[i].flags);
      assert Over(StatusOf(qs[i])) <==> Ended(qs[i]);
    }
    if TargetEnded(qs, id) {
      var i :| 0 <= i < |qs| && qs[i].target == id && LastFor(qs, id, i) && Ended(qs[i]);
      StatusIs(qs, id, i);
      FlagTests(qs[i].flags);
    }
  }

  lemma {:induction false} RemainingTimes(qs: seq<State>, ids: set<NodeId>, q: State)
    ensures multiset(Remaining(qs, ids))[q] == if q.target in ids then 0 else multiset(qs)[q]
  {
    if qs == [] {
    } else {
      var before, last := qs[..|qs| - 1], qs[|qs| - 1];
      RemainingTimes(before, ids, q);
      assert qs == before + [last];
    }
  }

  lemma RemainingStay(qs: seq<State>)
    ensures OthersStay(qs, Remaining(qs, OverIds(Statuses(qs))))
  {
    forall q ensures multiset(Remaining(qs, OverIds(Statuses(qs))))[q]
                  == if TargetEnded(qs, q.target) then 0 else multiset(qs)[q]
    {
      RemainingTimes(qs, OverIds(Statuses(qs)), q);
      OverIsEnded(qs, q.target);
    }
  }

  /** A lookup that does not idle and has just concluded in success has the target at its head,
      and was offered it; so that is the address its search learns. */
  lemma ConcludedAddress(q: State, now: int, filler: NodeId, offered: set<(NodeId, PeerId)>)
    requires Good(q, offered) && q.status == Querying && Bit(q.flags, 1) == 0
    requires Ask(q, now, filler).0.status == Success
    ensures var r := Ask(q, now, filler).0;
            && r.target == q.target && r.closest != [] && r.closest[0].val.id.id == q.target
            && HeadAddr(r) == r.closest[0].val.id.addr && (q.target, r.closest[0].val.id) in offered
  {
    ReachableShape(q);
    FlagTests(q.flags);
    SucceedsIff(q, now, filler);
    AskKeepsResults(q, now, filler);
    ResultsIffHead(q.closest, q.target);
    AskSamePeers(q, now, filler);
    assert q.closest[0] in q.closest;
  }

  /** Once the report has been read, the search for a lookup that has just so concluded has
      succeeded, with the address of a peer of that id that was offered to a lookup for it. */
  lemma FoundAddress(peers: map<NodeId, QueryPeer>, qs: seq<State>, after: map<NodeId, QueryPeer>, i: nat,
                     q: State, now: int, filler: NodeId, offered: set<(NodeId, PeerId)>) returns (x: PeerId)
    requires AllLearn(peers, qs, after) && i < |qs| && q.target in peers && LastFor(qs, q.target, i)
    requires qs[i] == Ask(q, now, filler).0 && qs[i].status == Success
    requires Good(q, offered) && q.status == Querying && Bit(q.flags, 1) == 0
    ensures after[q.target].status == Success && after[q.target].addr == x.addr
    ensures x.id == q.target && (q.target, x) in offered
  {
    ConcludedAddress(q, now, filler, offered);
    x := qs[i].closest[0].val.id;
    assert Learns(peers[q.target], after[q.target], qs[i]);
  }

  // ---------------------------------------------------------------- which searches start

  function ReadyIds(peers: map<NodeId, QueryPeer>): set<NodeId> {
    set id | id in peers && peers[id].status == Ready
  }

  function StartedOne(p: QueryPeer): QueryPeer {
    if p.status == Ready then p.(status := Querying) else p
  }

  function Started(peers: map<NodeId, QueryPeer>): map<NodeId, QueryPeer> {
    map id | id in peers :: StartedOne(peers[id])
  }

  function StoppedAll(peers: map<NodeId, QueryPeer>): map<NodeId, QueryPeer> {
    map id | id in peers :: peers[id].(status := Ready)
  }

  /** The lookup begun for a search. */
  function LookupFor(id: NodeId, p: QueryPeer, t: Space.Table, now: int): State {
    Initial(id, Node.StartList(t, id), Or(p.qflags, DISGUISE), now)
  }

  /** The lookups begun for the ids, in this order. */
  function Begun(order: seq<NodeId>, peers: map<NodeId, QueryPeer>, t: Space.Table, now: int): (r: seq<State>)
    requires forall i :: 0 <= i < |order| ==> order[i] in peers
    ensures |r| == |order|
    ensures forall i :: 0 <= i < |r| ==> r[i] == LookupFor(order[i], peers[order[i]], t, now)
  {
    seq(|order|, i requires 0 <= i < |order| => LookupFor(order[i], peers[order[i]], t, now))
  }

  lemma BegunSnoc(order: seq<NodeId>, id: NodeId, peers: map<NodeId, QueryPeer>, t: Space.Table, now: int)
    requires id in peers && forall i :: 0 <= i < |order| ==> order[i] in peers
    ensures Begun(order + [id], peers, t, now) == Begun(order, peers, t, now) + [LookupFor(id, peers[id], t, now)]
  {
  }

  /** The peers offered when those lookups begin. */
  function BegunOffers(order: seq<NodeId>, t: Space.Table): set<(NodeId, PeerId)>
  {
    if order == [] then {}
    else
      var id := order[|order| - 1];
      BegunOffers(order[..|order| - 1], t) + OffersOf(id, Node.StartList(t, id))
  }

  lemma BegunOffersSnoc(order: seq<NodeId>, id: NodeId, t: Space.Table)
    ensures BegunOffers(order + [id], t) == BegunOffers(order, t) + OffersOf(id, Node.StartList(t, id))
  {
    assert (order + [id])[..|order|] == order;
  }

  /** The node once lookups have begun for the ids, in this order. */
  function BegunView(v: Node.NodeView, order: seq<NodeId>, peers: map<NodeId, QueryPeer>, now: int): Node.NodeView
    requires forall i :: 0 <= i < |order| ==> order[i] in peers
  {
    v.(queries := v.queries + Begun(order, peers, v.table, now),
       offered := v.offered + BegunOffers(order, v.table))
  }

  /** The node with a lookup begun for one search. */
  function BegunOne(v: Node.NodeView, id: NodeId, p: QueryPeer, now: int): Node.NodeView {
    v.(queries := v.queries + [LookupFor(id, p, v.table, now)],
       offered := v.offered + OffersOf(id, Node.StartList(v.table, id)))
  }

  lemma BegunViewSnoc(v: Node.NodeView, order: seq<NodeId>, peers: map<NodeId, QueryPeer>, now: int, id: NodeId)
    requires id in peers && forall i :: 0 <= i < |order| ==> order[i] in peers
    ensures BegunView(v, order + [id], peers, now) == BegunOne(BegunView(v, order, peers, now), id, peers[id], now)
  {
    var q, offers := LookupFor(id, peers[id], v.table, now), OffersOf(id, Node.StartList(v.table, id));
    BegunSnoc(order, id, peers, v.table, now);
    BegunOffersSnoc(order, id, v.table);
    SeqsRegroup(v.queries, Begun(order, peers, v.table, now), [q]);
    SetsRegroup(v.offered, BegunOffers(order, v.table), offers);
  }

  lemma SeqsRegroup<T>(a: seq<T>, b: seq<T>, c: seq<T>)
    ensures a + b + c == a + (b + c)
  {
  }

  lemma SetsRegroup<T>(a: set<T>, b: set<T>, c: set<T>)
    ensures a + b + c == a + (b + c)
  {
  }

  /** All searches have been started but those in left. */
  ghost predicate Midway(peers: map<NodeId, QueryPeer>, active: map<NodeId, QueryPeer>, left: set<NodeId>)
  {
    && left <= peers.Keys == active.Keys
    && forall id :: id in peers ==> active[id] == if id in left then peers[id] else StartedOne(peers[id])
  }

  lemma MidwayStep(peers: map<NodeId, QueryPeer>, active: map<NodeId, QueryPeer>, left: set<NodeId>, id: NodeId)
    requires Midway(peers, active, left) && id in left
    ensures peers[id].status != Ready ==> Midway(peers, active, left - {id})
    ensures Midway(peers, active[id := StartedOne(peers[id])], left - {id})
  {
  }

  /** The ids that wait, but those in left, in order. */
  ghost predicate OrderSoFar(order: seq<NodeId>, ready: set<NodeId>, left: set<NodeId>)
  {
    Before(order, left) && InOrder(order, ready - left)
  }

  lemma OrderStep(order: seq<NodeId>, ready: set<NodeId>, left: set<NodeId>, id: NodeId)
    requires OrderSoFar(order, ready, left) && id in left && forall x :: x in left ==> Value(id) <= Value(x)
    ensures OrderSoFar(if id in ready then order + [id] else order, ready, left - {id})
  {
    LeastBefore(order, left, id);
    if id in ready {
      InOrderSnoc(order, ready - left, id);
      assert ready - (left - {id}) == ready - left + {id};
    } else {
      assert ready - (left - {id}) == ready - left;
    }
  }

  /** Where the walk over the searches stands: those in left are still to be looked at. */
  ghost predicate Starting(peers: map<NodeId, QueryPeer>, v: Node.NodeView, now: int, left: set<NodeId>,
                           active: map<NodeId, QueryPeer>, w: Node.NodeView, order: seq<NodeId>)
  {
    && Midway(peers, active, left) && OrderSoFar(order, ReadyIds(peers), left)
    && w == BegunView(v, order, peers, now)
  }

  lemma StartingFirst(peers: map<NodeId, QueryPeer>, v: Node.NodeView, now: int)
    ensures Starting(peers, v, now, peers.Keys, peers, v, [])
  {
  }

  lemma StartingStep(peers: map<NodeId, QueryPeer>, v: Node.NodeView, now: int, left: set<NodeId>,
                     active: map<NodeId, QueryPeer>, w: Node.NodeView, order: seq<NodeId>, id: NodeId)
    requires Starting(peers, v, now, left, active, w, order)
    requires id in left && forall x :: x in left ==> Value(id) <= Value(x)
    ensures id in active
    ensures active[id].status != Ready ==> Starting(peers, v, now, left - {id}, active, w, order)
    ensures active[id].status == Ready ==>
              Starting(peers, v, now, left - {id}, active[id := active[id].(status := Querying)],
                       BegunOne(w, id, active[id], now), order + [id])
  {
    MidwayStep(peers, active, left, id);
    OrderStep(order, ReadyIds(peers), left, id);
    BegunViewSnoc(v, order, peers, now, id);
  }

  lemma StartingDone(peers: map<NodeId, QueryPeer>, v: Node.NodeView, now: int,
                     active: map<NodeId, QueryPeer>, w: Node.NodeView, order: seq<NodeId>)
    requires Starting(peers, v, now, {}, active, w, order)
    ensures active == Started(peers) && w == BegunView(v, OrderOf(ReadyIds(peers)), peers, now)
  {
    assert ReadyIds(peers) - {} == ReadyIds(peers);
    OrderUnique(order, OrderOf(ReadyIds(peers)), ReadyIds(peers));
  }

  /** Where the walk over the report stands. */
  ghost predicate Checking(peers: map<NodeId, QueryPeer>, qs: seq<State>, sts: map<NodeId, QueryStatus>,
                           left: set<NodeId>, active: map<NodeId, QueryPeer>, rest: seq<State>)
  {
    && left <= sts.Keys && active.Keys == peers.Keys
    && rest == Remaining(qs, OverIds(sts) - left)
    && forall id :: id in peers ==> active[id] == if id in left then peers[id] else UpdatedAll(peers, sts)[id]
  }

  lemma CheckingFirst(peers: map<NodeId, QueryPeer>, qs: seq<State>, sts: map<NodeId, QueryStatus>)
    ensures Checking(peers, qs, sts, sts.Keys, peers, qs)
  {
    RemainingNone(qs);
    assert OverIds(sts) - sts.Keys == {};
  }

  lemma CheckingStep(peers: map<NodeId, QueryPeer>, qs: seq<State>, sts: map<NodeId, QueryStatus>,
                     left: set<NodeId>, active: map<NodeId, QueryPeer>, rest: seq<State>, id: NodeId)
    requires Checking(peers, qs, sts, left, active, rest) && id in left
    ensures Checking(peers, qs, sts, left - {id},
                     if id in active then active[id := Updated(active[id], sts[id])] else active,
                     if Over(sts[id]) then Without(rest, id) else rest)
  {
    RemainingMore(qs, OverIds(sts) - left, id);
    assert OverIds(sts) - (left - {id})
        == if Over(sts[id]) then OverIds(sts) - left + {id} else OverIds(sts) - left;
  }

  lemma CheckingDone(peers: map<NodeId, QueryPeer>, qs: seq<State>, sts: map<NodeId, QueryStatus>,
                     active: map<NodeId, QueryPeer>, rest: seq<State>)
    requires Checking(peers, qs, sts, {}, active, rest)
    ensures active == UpdatedAll(peers, sts) && rest == Remaining(qs, OverIds(sts))
  {
    assert OverIds(sts) - {} == OverIds(sts);
    assert active == UpdatedAll(peers, sts);
  }

  // ---------------------------------------------------------------- the modes

  /** The mode an iteration leaves, from the mode, its age and the number of peers known. */
  function NextMode(mode: Mode, age: int, size: nat): Mode {
    match mode
    case Startup => if age > MAX_STARTUP_TIME then FindSelf else Startup
    case FindSelf =>
      if age > MAX_FINDSELF_TIME then (if size > MIN_OP_SPACE_SIZE then Refresh else Failed)
      else if size > TRANSITION_OP_SPACE_SIZE then Refresh else FindSelf
    case Active => if age > MAX_REFRESH_TIME then Refresh else Active
    case Refresh => Active
    case Failed => Startup
    case _ => mode
  }

  /** What an iteration of the manager works on. */
  datatype View = View(mode: Mode, modeTS: int, peers: map<NodeId, QueryPeer>, netSize: nat, bdSize: nat,
                       node: Node.NodeView)
  {
    function Enter(m: Mode, now: int): View {
      this.(mode := m, modeTS := now)
    }

    predicate Fits() {
      |node.table| == NUM_BUCKETS
    }
  }

  /** With a lookup of the node's own, which goes on when it is over. */
  function WithOwnSearch(v: Node.NodeView, id: NodeId, now: int): Node.NodeView {
    BegunOne(v, id, QueryPeer(Ready, DO_IDLE, ZERO_ADDR), now)
  }

  /** The node when it looks for its own id and one more. */
  function FindingSelf(v: Node.NodeView, own: NodeId, now: int): Node.NodeView {
    WithOwnSearch(WithOwnSearch(v, own, now), WellKnownId(), now)
  }

  /** Every search that waited has its lookup begun, in order. */
  ghost function AllBegun(v: View, now: int): View {
    v.(peers := Started(v.peers), node := BegunView(v.node, OrderOf(ReadyIds(v.peers)), v.peers, now))
  }

  /** The report has been read: those that are over go, and the searches learn their outcome. */
  function ReportRead(v: View): View
    requires v.Fits()
  {
    var sts := Statuses(v.node.queries);
    v.(peers := UpdatedAll(v.peers, sts),
       netSize := Estimate(Space.Sizes(v.node.table)),
       bdSize := Estimate(Space.FlaggedSizes(v.node.table, DHT_APPL)),
       node := v.node.(queries := Remaining(v.node.queries, OverIds(sts))))
  }

  lemma ReportReadParts(v: View, peers: map<NodeId, QueryPeer>, queries: seq<State>, net: nat, bd: nat)
    requires v.Fits() && peers == UpdatedAll(v.peers, Statuses(v.node.queries))
    requires queries == Remaining(v.node.queries, OverIds(Statuses(v.node.queries)))
    requires net == Estimate(Space.Sizes(v.node.table)) && bd == Estimate(Space.FlaggedSizes(v.node.table, DHT_APPL))
    ensures ReportRead(v) == v.(peers := peers, netSize := net, bdSize := bd, node := v.node.(queries := queries))
  {
  }

  /** What waited is begun, then the report is read. */
  ghost function Refreshing(v: View, now: int): View
    requires v.Fits()
  {
    ReportRead(AllBegun(v, now))
  }

  /** Everything is forgotten but what was ever offered; the stored peers are to be pinged. */
  function Restarted(v: View, stored: seq<PeerId>): View {
    v.(peers := StoppedAll(v.peers),
       node := Node.NodeView([], [], stored, [], Space.EmptyTable(), v.node.offered))
  }

  /** What leaving a mode brings about. */
  ghost function Leaving(v: View, own: NodeId, now: int, stored: seq<PeerId>): View
    requires v.Fits()
  {
    match v.mode
    case Startup => v.(node := FindingSelf(v.node, own, now))
    case Refresh => Refreshing(v, now)
    case Failed => Restarted(v, stored)
    case _ => v
  }

  /** The change of mode at the start of an iteration, and what comes with it. */
  ghost function Switched(v: View, own: NodeId, now: int, stored: seq<PeerId>): (r: View)
    requires v.Fits()
    ensures r.Fits()
  {
    var next := NextMode(v.mode, now - v.modeTS, |Space.Flatten(v.node.table)|);
    if next == v.mode then v else Leaving(v, own, now, stored).Enter(next, now)
  }

  // ---------------------------------------------------------------- what a change of mode does

  /** The lookup starts from the nearest of the table, and has just these flag bits set besides
      those of qflags. */
  ghost predicate StartedAs(q: State, id: NodeId, qflags: Word, bits: set<nat>, t: Space.Table, now: int)
  {
    && q == Initial(id, Node.StartList(t, id), q.flags, now)
    && forall k: nat :: k < 32 ==> (Bit(q.flags, k) == 1 <==> k in bits || Bit(qflags, k) == 1)
  }

  lemma OrBits32(x: Word, y: Word, k: nat)
    requires k < 32
    ensures Bit(Or(x, y), k) == 1 <==> Bit(x, k) == 1 || Bit(y, k) == 1
  {
    OrBit(x, y, k, 32);
  }

  lemma LookupStarted(id: NodeId, p: QueryPeer, t: Space.Table, now: int)
    ensures StartedAs(LookupFor(id, p, t, now), id, p.qflags, {0}, t, now)
  {
    forall k: nat | k < 32 ensures Bit(Or(p.qflags, DISGUISE), k) == 1 <==> k in {0} || Bit(p.qflags, k) == 1 {
      OrBits32(p.qflags, DISGUISE, k);
      OneBit(0, k);
    }
  }

  /** A power of two has that one bit. */
  lemma {:induction false} OneBit(n: nat, k: nat)
    ensures Bit(Pow2(n), k) == 1 <==> k == n
  {
    if k == 0 {
    } else if n == 0 {
      ZeroBit(k - 1);
    } else {
      OneBit(n - 1, k - 1);
    }
  }

  /** Startup ends with two lookups, for the own id and for one known to all, that are disguised
      (bit 0) and idle (bit 1). */
  lemma StartupLooks(v: View, own: NodeId, now: int, stored: seq<PeerId>)
    requires v.Fits() && v.mode == Startup && now - v.modeTS > 10
    ensures var r, n := Switched(v, own, now, stored), |v.node.queries|;
            && r.mode == FindSelf && r.modeTS == now && r.peers == v.peers
            && |r.node.queries| == n + 2 && r.node.queries[..n] == v.node.queries
            && StartedAs(r.node.queries[n], own, 0, {0, 1}, v.node.table, now)
            && StartedAs(r.node.queries[n + 1],
                         [0x93, 0x29, 0x96, 0x9e, 0x1a, 0xac, 0xf2, 0x49, 0x28, 0x38,
                          0x97, 0x24, 0xd4, 0xc3, 0x51, 0x77, 0x75, 0x6b, 0x00, 0x00], 0, {0, 1}, v.node.table, now)
            && r.node == v.node.(queries := r.node.queries, offered := r.node.offered)
  {
    SwitchedStartup(v, own, now, stored);
    OwnStarted(own, v.node.table, now);
    OwnStarted(WellKnownId(), v.node.table, now);
  }

  lemma OwnStarted(id: NodeId, t: Space.Table, now: int)
    ensures StartedAs(LookupFor(id, QueryPeer(Ready, DO_IDLE, ZERO_ADDR), t, now), id, 0, {0, 1}, t, now)
  {
    forall k: nat | k < 32 ensures Bit(Or(DO_IDLE, DISGUISE), k) == 1 <==> k in {0, 1} || Bit(0, k) == 1 {
      OrBits32(DO_IDLE, DISGUISE, k);
      OneBit(0, k);
      OneBit(1, k);
      ZeroBit(k);
    }
  }

  /** After a failure everything is forgotten but the searches, which wait again, with their
      flags and addresses; the stored peers are to be pinged. */
  lemma FailureRestarts(v: View, own: NodeId, now: int, stored: seq<PeerId>)
    requires v.Fits() && v.mode == Failed
    ensures var r := Switched(v, own, now, stored);
            && r.mode == Startup && r.modeTS == now && r.peers.Keys == v.peers.Keys
            && (forall id :: id in v.peers ==> r.peers[id] == QueryPeer(Ready, v.peers[id].qflags, v.peers[id].addr))
            && r.node.queries == [] && r.node.remote == [] && r.node.outgoing == [] && r.node.potential == stored
            && (forall k :: 0 <= k < |r.node.table| ==> r.node.table[k] == [])
            && r.netSize == v.netSize && r.bdSize == v.bdSize
  {
  }

  /** One lookup for each search that waits, in the order of their ids, with its flags and
      disguised (bit 0). */
  ghost predicate BegunRight(v: View, now: int, order: seq<NodeId>, began: seq<State>)
  {
    && InOrder(order, set id | id in v.peers && v.peers[id].status == Ready)
    && |began| == |order|
    && forall i :: 0 <= i < |began| ==>
         order[i] in v.peers && StartedAs(began[i], order[i], v.peers[order[i]].qflags, {0}, v.node.table, now)
  }

  /** The searches when those that waited are querying. */
  ghost predicate MarkedRight(peers: map<NodeId, QueryPeer>, marked: map<NodeId, QueryPeer>)
  {
    && marked.Keys == peers.Keys
    && forall id :: id in marked ==>
         marked[id] == if peers[id].status == Ready then peers[id].(status := Querying) else peers[id]
  }

  lemma BegunIsRight(v: View, now: int, order: seq<NodeId>, began: seq<State>)
    requires order == OrderOf(ReadyIds(v.peers)) && began == Begun(order, v.peers, v.node.table, now)
    ensures BegunRight(v, now, order, began)
  {
    forall i | 0 <= i < |began|
      ensures StartedAs(began[i], order[i], v.peers[order[i]].qflags, {0}, v.node.table, now)
    {
      LookupStarted(order[i], v.peers[order[i]], v.node.table, now);
    }
    assert ReadyIds(v.peers) == set id | id in v.peers && v.peers[id].status == Ready;
  }

  lemma RefreshedIs(v: View, now: int, all: seq<State>, marked: map<NodeId, QueryPeer>)
    requires v.Fits() && marked == Started(v.peers)
    requires all == v.node.queries + Begun(OrderOf(ReadyIds(v.peers)), v.peers, v.node.table, now)
    ensures var r := Refreshing(v, now);
            && r.peers == UpdatedAll(marked, Statuses(all)) && r.node.queries == Remaining(all, OverIds(Statuses(all)))
            && r.netSize == Estimate(Space.Sizes(v.node.table))
            && r.bdSize == Estimate(Space.FlaggedSizes(v.node.table, DHT_APPL))
            && r.node == v.node.(queries := r.node.queries, offered := r.node.offered)
  {
  }

  /** A refresh begins those lookups and marks those searches; then every search learns from the
      last lookup for it, and the lookups that are over go. */
  lemma RefreshMeans(v: View, own: NodeId, now: int)
    returns (order: seq<NodeId>, began: seq<State>, marked: map<NodeId, QueryPeer>)
    requires v.Fits() && AllGood(v.node.queries, v.node.offered) && SpaceTheorems.TableInv(own, v.node.table)
    ensures BegunRight(v, now, order, began) && MarkedRight(v.peers, marked)
    ensures var r := Refreshing(v, now);
            && AllLearn(marked, v.node.queries + began, r.peers)
            && OthersStay(v.node.queries + began, r.node.queries)
            && r.netSize == Estimate(Space.Sizes(v.node.table))
            && r.bdSize == Estimate(Space.FlaggedSizes(v.node.table, DHT_APPL))
            && r.node == v.node.(queries := r.node.queries, offered := r.node.offered)
  {
    order := OrderOf(ReadyIds(v.peers));
    began := Begun(order, v.peers, v.node.table, now);
    marked := Started(v.peers);
    var all := v.node.queries + began;
    BegunIsRight(v, now, order, began);
    BegunShapes(v, own, now, order, began);
    UpdatedLearns(marked, all);
    RemainingStay(all);
    RefreshedIs(v, now, all, marked);
  }

  /** That is what leaving the refresh mode does, and all it does. */
  lemma SwitchedRefresh(v: View, own: NodeId, now: int, stored: seq<PeerId>)
    requires v.Fits() && v.mode == Refresh
    ensures Switched(v, own, now, stored) == Refreshing(v, now).Enter(Active, now)
  {
  }

  lemma BegunShapes(v: View, own: NodeId, now: int, order: seq<NodeId>, began: seq<State>)
    requires AllGood(v.node.queries, v.node.offered) && SpaceTheorems.TableInv(own, v.node.table)
    requires (forall i :: 0 <= i < |order| ==> order[i] in v.peers) && began == Begun(order, v.peers, v.node.table, now)
    ensures var all := v.node.queries + began; forall i :: 0 <= i < |all| ==> Shape(all[i].closest, all[i].target)
  {
    GoodShapes(v.node.queries, v.node.offered);
    forall i | 0 <= i < |began| ensures Shape(began[i].closest, began[i].target) {
      Node.StartListFits(own, v.node.table, order[i]);
      InitialNearest(order[i], Node.StartList(v.node.table, order[i]), now);
    }
  }

  /** A tick: the change of mode, then the node's own tick unless the mode is off. */
  ghost function Ticked(v: View, own: NodeId, now: int, stored: seq<PeerId>, fillers: nat -> NodeId,
                        extras: seq<Node.Out>): (r: View)
    requires v.Fits()
    ensures r.Fits()
  {
    var w := Switched(v, own, now, stored);
    if w.mode == Off then w else w.(node := Node.Ticked(w.node, Fillers(|w.node.queries|, fillers), now, extras))
  }

  function Fillers(n: nat, fillers: nat -> NodeId): (fs: seq<NodeId>)
    ensures |fs| == n
  {
    seq(n, i requires 0 <= i => fillers(i))
  }

  /** A search is asked for; one already there stays as it is. */
  function Sought(v: View, id: NodeId, qflags: Word): View {
    if id in v.peers then v else v.(peers := v.peers[id := QueryPeer(Ready, qflags, ZERO_ADDR)])
  }

  /** A search is given up, and its lookups with it. */
  function GivenUp(v: View, id: NodeId): View {
    if id in v.peers then v.(peers := v.peers - {id}, node := v.node.(queries := Without(v.node.queries, id))) else v
  }

  lemma SwitchedStartup(v: View, own: NodeId, now: int, stored: seq<PeerId>)
    requires v.Fits() && v.mode == Startup
    ensures Switched(v, own, now, stored)
         == if now - v.modeTS > MAX_STARTUP_TIME then v.(node := FindingSelf(v.node, own, now)).Enter(FindSelf, now)
            else v
  {
    assert NextMode(Startup, now - v.modeTS, |Space.Flatten(v.node.table)|)
        == if now - v.modeTS > MAX_STARTUP_TIME then FindSelf else Startup;
  }

  // ---------------------------------------------------------------- progress of the modes

  /** The mode changes so, and no other way; and its time with it. */
  lemma SwitchedMode(v: View, own: NodeId, now: int, stored: seq<PeerId>)
    requires v.Fits()
    ensures var r, m := Switched(v, own, now, stored),
                        ModeStep(v.mode, v.modeTS, ModeTick(now, |Space.Flatten(v.node.table)|));
            r.mode == m.0 && r.modeTS == m.1
  {
  }

  datatype ModeTick = ModeTick(now: int, size: nat)

  /** Mode and the time it was entered, after a tick. */
  function ModeStep(mode: Mode, modeTS: int, t: ModeTick): (Mode, int) {
    var next := NextMode(mode, t.now - modeTS, t.size);
    (next, if next == mode then modeTS else t.now)
  }

  /** Mode and the time it was entered, after some ticks. */
  function ModeRun(mode: Mode, modeTS: int, ticks: seq<ModeTick>): (r: (Mode, int))
    decreases |ticks|
  {
    if ticks == [] then (mode, modeTS)
    else
      var m := ModeStep(mode, modeTS, ticks[0]);
      ModeRun(m.0, m.1, ticks[1..])
  }

  /** No tick leaves the mode that is off: only a start does. */
  lemma {:induction false} OffStays(modeTS: int, ticks: seq<ModeTick>)
    ensures ModeRun(Off, modeTS, ticks) == (Off, modeTS)
    decreases |ticks|
  {
    if ticks == [] {
    } else {
      OffStays(modeTS, ticks[1..]);
    }
  }

  /** While active, the tick after the first one that comes more than ten seconds after the mode
      was entered is a refresh, whatever the table: waiting searches are begun then. */
  lemma {:induction false} RefreshComes(modeTS: int, ticks: seq<ModeTick>, i: nat) returns (j: nat)
    requires i < |ticks| && ticks[i].now - modeTS > MAX_REFRESH_TIME
    ensures j <= i + 1 && ModeRun(Active, modeTS, ticks[..j]).0 == Refresh
    decreases |ticks|
  {
    if ticks[0].now - modeTS > MAX_REFRESH_TIME {
      j := 1;
      assert ticks[..1][0] == ticks[0] && ticks[..1][1..] == [];
    } else {
      j := RefreshComes(modeTS, ticks[1..], i - 1);
      j := j + 1;
      assert ticks[..j][0] == ticks[0] && ticks[..j][1..] == ticks[1..][..j - 1];
    }
  }

  /** The search for oneself ends within a minute, in a refresh or a failure. */
  lemma {:induction false} FindingEnds(modeTS: int, ticks: seq<ModeTick>, i: nat) returns (j: nat)
    requires i < |ticks| && ticks[i].now - modeTS > MAX_FINDSELF_TIME
    ensures j <= i + 1 && ModeRun(FindSelf, modeTS, ticks[..j]).0 in {Refresh, Failed}
    decreases |ticks|
  {
    if NextMode(FindSelf, ticks[0].now - modeTS, ticks[0].size) != FindSelf {
      j := 1;
      assert ticks[..1][0] == ticks[0] && ticks[..1][1..] == [];
    } else {
      j := FindingEnds(modeTS, ticks[1..], i - 1);
      j := j + 1;
      assert ticks[..j][0] == ticks[0] && ticks[..j][1..] == ticks[1..][..j - 1];
    }
  }

  /** Startup and the active mode last ten seconds; the first tick after that ends them. */
  lemma {:induction false} WaitOutcome(mode: Mode, modeTS: int, ticks: seq<ModeTick>, i: nat)
    requires mode in {Startup, Active} && i < |ticks| && ticks[i].now - modeTS > 10
    requires forall k :: 0 <= k < i ==> ticks[k].now - modeTS <= 10
    ensures ModeRun(mode, modeTS, ticks[..i]) == (mode, modeTS)
    ensures ModeRun(mode, modeTS, ticks[..i + 1]) == (if mode == Startup then FindSelf else Refresh, ticks[i].now)
    decreases i
  {
    assert ticks[..i + 1][0] == ticks[0];
    if i == 0 {
      assert ticks[..i] == [] && ticks[..i + 1][1..] == [];
    } else {
      assert ticks[..i][0] == ticks[0] && ticks[..i][1..] == ticks[1..][..i - 1];
      assert ticks[..i + 1][1..] == ticks[1..][..i];
      WaitOutcome(mode, modeTS, ticks[1..], i - 1);
    }
  }

  /** The search for oneself goes on until the first tick that finds more than a hundred peers
      or comes more than a minute later. It fails if and only if a minute has passed and no more
      than twenty peers are known. */
  lemma {:induction false} FindingOutcome(modeTS: int, ticks: seq<ModeTick>, i: nat)
    requires i < |ticks| && (ticks[i].size > 100 || ticks[i].now - modeTS > 60)
    requires forall k :: 0 <= k < i ==> ticks[k].size <= 100 && ticks[k].now - modeTS <= 60
    ensures ModeRun(FindSelf, modeTS, ticks[..i]) == (FindSelf, modeTS)
    ensures ModeRun(FindSelf, modeTS, ticks[..i + 1])
         == (if ticks[i].now - modeTS > 60 && ticks[i].size <= 20 then Failed else Refresh, ticks[i].now)
    decreases i
  {
    assert ticks[..i + 1][0] == ticks[0];
    if i == 0 {
      assert ticks[..i] == [] && ticks[..i + 1][1..] == [];
    } else {
      assert ticks[..i][0] == ticks[0] && ticks[..i][1..] == ticks[1..][..i - 1];
      assert ticks[..i + 1][1..] == ticks[1..][..i];
      FindingOutcome(modeTS, ticks[1..], i - 1);
    }
  }

  /** A refresh and a failure last one tick; off and quiet last. */
  lemma BriefModes(mode: Mode, modeTS: int, t: ModeTick)
    ensures mode == Refresh ==> ModeRun(mode, modeTS, [t]) == (Active, t.now)
    ensures mode == Failed ==> ModeRun(mode, modeTS, [t]) == (Startup, t.now)
    ensures mode in {Off, Quiet} ==> ModeRun(mode, modeTS, [t]) == (mode, modeTS)
  {
    assert [t][1..] == [];
  }

  /** Under a clock that runs forward, startup leads to a refresh or a failure within the two
      limits together, ten seconds and a minute, counted at the ticks; and a failure leads to
      startup at once. */
  lemma {:induction false} StartupEnds(modeTS: int, ticks: seq<ModeTick>, i: nat, k: nat) returns (j: nat)
    requires i < k < |ticks| && forall a, b :: 0 <= a < b < |ticks| ==> ticks[a].now <= ticks[b].now
    requires ticks[i].now - modeTS > MAX_STARTUP_TIME && ticks[k].now - ticks[i].now > MAX_FINDSELF_TIME
    ensures j <= k + 1 && ModeRun(Startup, modeTS, ticks[..j]).0 in {Refresh, Failed}
    ensures forall t: ModeTick :: NextMode(Failed, t.now, t.size) == Startup
    decreases |ticks|
  {
    if ticks[0].now - modeTS > MAX_STARTUP_TIME {
      j := FindingEnds(ticks[0].now, ticks[1..], k - 1);
    } else {
      j := StartupEnds(modeTS, ticks[1..], i - 1, k - 1);
    }
    j := j + 1;
    assert ticks[..j][0] == ticks[0] && ticks[..j][1..] == ticks[1..][..j - 1];
  }

  /** The place of the lookup begun for an id: no later one is for it. */
  lemma BegunAmong(order: seq<NodeId>, peers: map<NodeId, QueryPeer>, t: Space.Table, now: int, id: NodeId)
    returns (k: nat)
    requires InOrder(order, ReadyIds(peers)) && id in ReadyIds(peers)
    ensures var r := Begun(order, peers, t, now);
            k < |r| && r[k] == LookupFor(id, peers[id], t, now) && LastFor(r, id, k)
  {
    k := PlaceIn(order, ReadyIds(peers), id);
    var r := Begun(order, peers, t, now);
    forall l | k < l < |r| ensures r[l].target != id {
      LookupTarget(order[l], peers[order[l]], t, now);
    }
  }

  lemma LastShifted(a: seq<State>, b: seq<State>, id: NodeId, k: nat)
    requires k < |b| && LastFor(b, id, k)
    ensures (a + b)[|a| + k] == b[k] && LastFor(a + b, id, |a| + k)
  {
  }

  lemma LookupTarget(id: NodeId, p: QueryPeer, t: Space.Table, now: int)
    ensures var q := LookupFor(id, p, t, now); q.target == id && q.status == Querying
  {
  }

  lemma QueryingStays(qs: seq<State>, sts: map<NodeId, QueryStatus>, id: NodeId, i: nat)
    requires i < |qs| && qs[i].target == id && id in sts && sts[id].status == Querying
    ensures qs[i] in Remaining(qs, OverIds(sts))
  {
    assert !Over(sts[id]);
    RemainingHas(qs, OverIds(sts), i);
  }

  lemma LastSpeaks(qs: seq<State>, sts: map<NodeId, QueryStatus>, id: NodeId, i: nat)
    requires i < |qs| && qs[i].target == id && qs[i].status == Querying && sts == Statuses(qs) && LastFor(qs, id, i)
    ensures id in sts && sts[id].status == Querying
  {
    StatusOfLast(qs, id, i);
  }

  lemma BegunStays(order: seq<NodeId>, peers: map<NodeId, QueryPeer>, t: Space.Table, now: int, qs: seq<State>,
                   all: seq<State>, sts: map<NodeId, QueryStatus>, id: NodeId)
    requires InOrder(order, ReadyIds(peers)) && id in ReadyIds(peers)
    requires all == qs + Begun(order, peers, t, now) && sts == Statuses(all)
    ensures id in sts && sts[id].status == Querying && LookupFor(id, peers[id], t, now) in Remaining(all, OverIds(sts))
  {
    var k := BegunAmong(order, peers, t, now, id);
    LastShifted(qs, Begun(order, peers, t, now), id, k);
    LookupTarget(id, peers[id], t, now);
    LastSpeaks(all, sts, id, |qs| + k);
    QueryingStays(all, sts, id, |qs| + k);
  }

  lemma RefreshedPeer(peers: map<NodeId, QueryPeer>, sts: map<NodeId, QueryStatus>, id: NodeId)
    requires id in peers && id in sts
    ensures var r := UpdatedAll(Started(peers), sts); id in r && r[id].status == sts[id].status
  {
  }

  lemma BegunQuerying(v: View, now: int, id: NodeId)
    requires v.Fits() && id in ReadyIds(v.peers)
    ensures var all, sts := AllBegun(v, now).node.queries, Statuses(AllBegun(v, now).node.queries);
            && id in sts && sts[id].status == Querying
            && LookupFor(id, v.peers[id], v.node.table, now) in Remaining(all, OverIds(sts))
  {
    BegunStays(OrderOf(ReadyIds(v.peers)), v.peers, v.node.table, now, v.node.queries, AllBegun(v, now).node.queries,
               Statuses(AllBegun(v, now).node.queries), id);
  }

  /** A search that waits when a refresh comes has its lookup begun then, and is querying. */
  lemma SearchBegun(v: View, now: int, id: NodeId)
    requires v.Fits() && id in ReadyIds(v.peers)
    ensures var r := Refreshing(v, now);
            && id in r.peers && r.peers[id].status == Querying
            && LookupFor(id, v.peers[id], v.node.table, now) in r.node.queries
  {
    BegunQuerying(v, now, id);
    RefreshedPeer(v.peers, Statuses(AllBegun(v, now).node.queries), id);
  }

  lemma {:induction false} StatusOfLast(qs: seq<State>, id: NodeId, i: nat)
    requires i < |qs| && qs[i].target == id && LastFor(qs, id, i)
    ensures id in Statuses(qs) && Statuses(qs)[id] == StatusOf(qs[i])
  {
    if i == |qs| - 1 {
    } else {
      StatusOfLast(qs[..|qs| - 1], id, i);
    }
  }

  lemma {:induction false} RemainingHas(qs: seq<State>, ids: set<NodeId>, i: nat)
    requires i < |qs| && qs[i].target !in ids
    ensures qs[i] in Remaining(qs, ids)
  {
    if i == |qs| - 1 {
      assert (Remaining(qs[..|qs| - 1], ids) + [qs[i]])[|Remaining(qs[..|qs| - 1], ids)|] == qs[i];
    } else {
      RemainingHas(qs[..|qs| - 1], ids, i);
    }
  }
}
