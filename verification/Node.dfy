/** A node: the per-tick schedule of pings and lookups, the queue of remote queries, the sweep
    of stale peers, and its part in the rendezvous. */
module Node {
  import opened Metric
  import opened NodeOrder
  import opened Peers
  import opened Query
  import opened Lookups
  import opened QueryTheorems
  import Space
  import SpaceTheorems
  import opened Rendezvous

  const MAX_MSGS: nat := 50
  const ALLOWED_PINGS: nat := 45
  const QUERY_START_PEERS := 10
  const QUERY_NEIGHBOUR_PEERS := 8
  const MAX_REMOTE_QUERY_AGE := 10
  const BROADCAST_EVERY := 10
  const PUNCH_EVERY := 2
  const PUNCH_TIMES: nat := 100

  datatype QueryType = Neighbours | Hash | Other

  datatype RemoteQuery = RemoteQuery(id: PeerId, query: NodeId, tid: Bytes, kind: QueryType, queryTS: int)

  /** What a node puts on the wire, without the transaction ids it numbers its requests with. */
  datatype Out =
    | SendPing(to: Addr)
    | SendFindNode(to: Addr, target: NodeId)
    | SendNodes(to: Addr, tid: Bytes, nodes: seq<PeerId>)
    | SendAskConn(asking: Asking)
    | SendAskMyIp(to: Addr)
    | SendBroadcast(to: Addr, nodeId: NodeId, peerId: NodeId)

  // ---------------------------------------------------------------- what is sent

  function Pings(ids: seq<PeerId>): (r: seq<Out>)
    ensures |r| == |ids|
    ensures forall i :: 0 <= i < |r| ==> r[i] == SendPing(ids[i].addr)
  {
    seq(|ids|, i requires 0 <= i < |ids| => SendPing(ids[i].addr))
  }

  lemma PingsNext(o: seq<Out>, ids: seq<PeerId>, id: PeerId)
    ensures o + Pings(ids + [id]) == o + Pings(ids) + [SendPing(id.addr)]
  {
  }

  function AskConns(out: seq<Asking>): (r: seq<Out>)
    ensures |r| == |out|
    ensures forall i :: 0 <= i < |r| ==> r[i] == SendAskConn(out[i])
  {
    seq(|out|, i requires 0 <= i < |out| => SendAskConn(out[i]))
  }

  function Vals(m: Space.NodeMap): (r: seq<PeerId>)
    ensures |r| == |m|
    ensures forall i :: 0 <= i < |r| ==> r[i] == m[i].val
  {
    seq(|m|, i requires 0 <= i < |m| => m[i].val)
  }

  lemma ValsNext(m: Space.NodeMap, i: nat)
    requires i < |m|
    ensures Vals(m[..i + 1]) == Vals(m[..i]) + [m[i].val]
  {
  }

  /** How many of the waiting peers one tick pings. */
  function PingCount(waiting: nat): (n: nat)
    ensures n <= ALLOWED_PINGS
  {
    if waiting < ALLOWED_PINGS then waiting else ALLOWED_PINGS
  }

  lemma Regroup<T>(a: seq<T>, b: seq<T>, c: seq<T>)
    ensures a + b + c == a + (b + c)
  {
  }

  /** What one peer is sent when the pairs that want to meet are announced. */
  function Announcements(to: Addr, pairs: seq<(NodeId, NodeId)>): (r: seq<Out>)
    ensures |r| == 1 + |pairs| && r[0] == SendAskMyIp(to)
    ensures forall i :: 0 <= i < |pairs| ==> r[1 + i] == SendBroadcast(to, pairs[i].0, pairs[i].1)
  {
    if pairs == [] then [SendAskMyIp(to)]
    else Announcements(to, pairs[..|pairs| - 1]) + [SendBroadcast(to, pairs[|pairs| - 1].0, pairs[|pairs| - 1].1)]
  }

  function AllAnnouncements(peers: seq<PeerId>, pairs: seq<(NodeId, NodeId)>): (r: seq<Out>)
  {
    if peers == [] then []
    else AllAnnouncements(peers[..|peers| - 1], pairs) + Announcements(peers[|peers| - 1].addr, pairs)
  }

  function Firsts(pairs: seq<(NodeId, NodeId)>): (r: seq<NodeId>)
    ensures |r| == |pairs| && forall i :: 0 <= i < |r| ==> r[i] == pairs[i].0
  {
    seq(|pairs|, i requires 0 <= i < |pairs| => pairs[i].0)
  }

  /** The pairs of the map, each once, in the order of their keys. */
  ghost predicate Lists(pairs: seq<(NodeId, NodeId)>, m: map<NodeId, NodeId>)
  {
    && InOrder(Firsts(pairs), m.Keys)
    && forall i :: 0 <= i < |pairs| ==> pairs[i].0 in m && pairs[i].1 == m[pairs[i].0]
  }

  /** The pairs of the map in that order. */
  ghost function PairsOf(m: map<NodeId, NodeId>): (pairs: seq<(NodeId, NodeId)>)
    ensures Lists(pairs, m)
  {
    var order := OrderOf(m.Keys);
    var pairs := seq(|order|, i requires 0 <= i < |order| => (order[i], m[order[i]]));
    assert Firsts(pairs) == order;
    pairs
  }

  lemma ListsMembers(pairs: seq<(NodeId, NodeId)>, m: map<NodeId, NodeId>, x: NodeId, y: NodeId)
    requires Lists(pairs, m)
    ensures (x, y) in pairs <==> x in m && m[x] == y
  {
    if x in m {
      assert x in Firsts(pairs);
      var i :| 0 <= i < |pairs| && Firsts(pairs)[i] == x;
      assert pairs[i] == (x, m[x]);
    }
  }

  /** Each address is pinged so many times in a row. */
  function Punches(ps: seq<PeerId>, times: nat): seq<Out>
  {
    if ps == [] then [] else Punches(ps[..|ps| - 1], times) + seq(times, _ => SendPing(ps[|ps| - 1].addr))
  }

  /** What the count of all ticks adds: every tenth one announces, every second one punches. */
  ghost function Extras(count: nat, known: seq<PeerId>, meeting: Meeting): seq<Out>
  {
    (if count % BROADCAST_EVERY == 0 then AllAnnouncements(known, PairsOf(meeting.requests)) else [])
    + (if count % PUNCH_EVERY == 0 then Punches(meeting.punching, PUNCH_TIMES) else [])
  }

  // ---------------------------------------------------------------- the lookup schedule

  /** What each lookup asks when it has its turn, each with its own random filler. */
  function Asked(ss: seq<State>, fs: seq<NodeId>, now: int): (r: seq<Option<(PeerId, NodeId)>>)
    requires |ss| <= |fs|
    ensures |r| == |ss|
  {
    if ss == [] then [] else Asked(ss[..|ss| - 1], fs, now) + [Ask(ss[|ss| - 1], now, fs[|ss| - 1]).1]
  }

  /** Each lookup after its turn. */
  function Turned(ss: seq<State>, fs: seq<NodeId>, now: int): (r: seq<State>)
    requires |ss| <= |fs|
    ensures |r| == |ss|
  {
    if ss == [] then [] else Turned(ss[..|ss| - 1], fs, now) + [Ask(ss[|ss| - 1], now, fs[|ss| - 1]).0]
  }

  /** Each of them is one turn of that lookup, from the state it was in. */
  lemma {:induction false} TurnAt(ss: seq<State>, fs: seq<NodeId>, now: int, i: nat)
    requires i < |ss| <= |fs|
    ensures Asked(ss, fs, now)[i] == Ask(ss[i], now, fs[i]).1
    ensures Turned(ss, fs, now)[i] == Ask(ss[i], now, fs[i]).0
  {
    if i == |ss| - 1 {
    } else {
      TurnAt(ss[..|ss| - 1], fs, now, i);
    }
  }

  /** The list once its first k lookups have had their turn and gone to the back. */
  function Rotated(qs: seq<State>, fs: seq<NodeId>, now: int, k: nat): (r: seq<State>)
    requires k <= |qs| <= |fs|
    ensures |r| == |qs|
  {
    qs[k..] + Turned(qs, fs, now)[..k]
  }

  lemma RotateOnce(qs: seq<State>, fs: seq<NodeId>, now: int, k: nat)
    requires k < |qs| <= |fs|
    ensures Rotated(qs, fs, now, k)[0] == qs[k]
    ensures Rotated(qs, fs, now, k)[1..] + [Turned(qs, fs, now)[k]] == Rotated(qs, fs, now, k + 1)
  {
  }

  lemma TurnedGood(qs: seq<State>, fs: seq<NodeId>, now: int, j: nat, offered: set<(NodeId, PeerId)>)
    requires j < |qs| <= |fs| && Good(qs[j], offered)
    ensures Good(Turned(qs, fs, now)[j], offered)
  {
    TurnAt(qs, fs, now, j);
    TurnKeeps(qs[j], now, fs[j], offered);
  }

  lemma JoinGood(a: seq<State>, b: seq<State>, k: nat, offered: set<(NodeId, PeerId)>)
    requires AllGood(a, offered) && AllGood(b, offered) && k <= |a| && k <= |b|
    ensures AllGood(a[k..] + b[..k], offered)
  {
  }

  lemma RotatedKeeps(qs: seq<State>, fs: seq<NodeId>, now: int, k: nat, offered: set<(NodeId, PeerId)>)
    requires k <= |qs| <= |fs| && AllGood(qs, offered)
    ensures AllGood(Rotated(qs, fs, now, k), offered)
  {
    forall j | 0 <= j < |qs| ensures Good(Turned(qs, fs, now)[j], offered) {
      TurnedGood(qs, fs, now, j, offered);
    }
    JoinGood(qs, Turned(qs, fs, now), k, offered);
  }

  /** Where the turns stop that start with lookup i: at the end of the list, or when the budget
      of requests is spent. */
  function TurnsEnd(asks: seq<Option<(PeerId, NodeId)>>, i: nat, budget: nat): (n: nat)
    requires i <= |asks|
    ensures i <= n <= |asks|
    ensures n < |asks| ==> n - i >= budget
    decreases |asks| - i
  {
    if i == |asks| || budget == 0 then i
    else TurnsEnd(asks, i + 1, if asks[i].Some? then budget - 1 else budget)
  }

  /** The requests sent when the first k lookups have had their turn, in order. */
  function Requests(asks: seq<Option<(PeerId, NodeId)>>, k: nat): (r: seq<Out>)
    requires k <= |asks|
    ensures |r| <= k
  {
    if k == 0 then [] else Requests(asks, k - 1) + RequestOf(asks[k - 1])
  }

  lemma NextTurn(asks: seq<Option<(PeerId, NodeId)>>, i: nat, budget: nat)
    requires i < |asks| && budget > 0
    ensures TurnsEnd(asks, i + 1, if asks[i].Some? then budget - 1 else budget) == TurnsEnd(asks, i, budget)
    ensures Requests(asks, i + 1) == Requests(asks, i) + RequestOf(asks[i])
  {
  }

  function RequestOf(ask: Option<(PeerId, NodeId)>): (r: seq<Out>)
    ensures |r| == if ask.Some? then 1 else 0
  {
    if ask.Some? then [SendFindNode(ask.value.0.addr, ask.value.1)] else []
  }

  /** No tick sends more requests than its budget, and it skips a lookup only when the budget
      is spent to the last message. */
  lemma {:induction false} RequestsWithinBudget(asks: seq<Option<(PeerId, NodeId)>>, i: nat, budget: nat)
    requires i <= |asks|
    ensures var n := TurnsEnd(asks, i, budget);
            && |Requests(asks, n)| <= |Requests(asks, i)| + budget
            && (n < |asks| ==> |Requests(asks, n)| == |Requests(asks, i)| + budget)
    decreases |asks| - i
  {
    if i == |asks| || budget == 0 {
    } else {
      RequestsWithinBudget(asks, i + 1, if asks[i].Some? then budget - 1 else budget);
    }
  }

  // ---------------------------------------------------------------- remote queries

  predicate Answerable(q: RemoteQuery, now: int) {
    q.queryTS > now - MAX_REMOTE_QUERY_AGE && q.kind != Other
  }

  /** The oldest query that is recent enough and of a known type, or |qs|. */
  function FirstAnswerable(qs: seq<RemoteQuery>, now: int): (n: nat)
    ensures n <= |qs|
    ensures n < |qs| ==> Answerable(qs[n], now)
    ensures forall i :: 0 <= i < n ==> !Answerable(qs[i], now)
  {
    if qs == [] || Answerable(qs[0], now) then 0 else 1 + FirstAnswerable(qs[1..], now)
  }

  /** The reply to it: only neighbour queries get one. */
  function Reply(t: Space.Table, q: RemoteQuery): seq<Out> {
    if q.kind == Neighbours then
      [SendNodes(q.id.addr, q.tid, Vals(Space.NearestNodes(t, q.query, QUERY_NEIGHBOUR_PEERS)))]
    else []
  }

  /** The queries left for later ticks. */
  function Unread(qs: seq<RemoteQuery>, now: int): (r: seq<RemoteQuery>)
    ensures |r| < |qs| || qs == []
  {
    var k := FirstAnswerable(qs, now);
    if k < |qs| then qs[k + 1..] else []
  }

  function Answers(t: Space.Table, qs: seq<RemoteQuery>, now: int): (r: seq<Out>)
    ensures |r| <= 1
  {
    var k := FirstAnswerable(qs, now);
    if k < |qs| then Reply(t, qs[k]) else []
  }

  /** The list a lookup starts from. */
  function StartList(t: Space.Table, id: NodeId): seq<PeerId> {
    Vals(Space.NearestNodes(t, id, QUERY_START_PEERS))
  }

  /** A lookup starts from at most ten peers, no peer twice. */
  lemma StartListFits(own: NodeId, t: Space.Table, id: NodeId)
    requires SpaceTheorems.TableInv(own, t)
    ensures |StartList(t, id)| <= NODES_PER_BUCKET && DistinctIds(StartList(t, id))
  {
    SpaceTheorems.NearestNodesCorrect(t, id, QUERY_START_PEERS);
    var r := StartList(t, id);
    forall i, j | 0 <= i < j < |r| ensures r[i] != r[j] {
      SpaceTheorems.NearestNodesDistinct(own, t, id, QUERY_START_PEERS, i, j);
    }
  }

  lemma Snoc<T>(a: seq<T>, s: seq<T>, i: nat)
    requires i < |s|
    ensures a + s[..i] + [s[i]] == a + s[..i + 1]
  {
  }

  method ListPairs(m: map<NodeId, NodeId>) returns (pairs: seq<(NodeId, NodeId)>)
    ensures pairs == PairsOf(m)
  {
    var order := Ordered(m.Keys);
    pairs := [];
    for i := 0 to |order|
      invariant |pairs| == i && forall k :: 0 <= k < i ==> pairs[k] == (order[k], m[order[k]])
    {
      pairs := pairs + [(order[i], m[order[i]])];
    }
  }

  // ---------------------------------------------------------------- the tick

  /** What a node holds, but for the rendezvous. */
  datatype NodeView = NodeView(queries: seq<State>, remote: seq<RemoteQuery>, potential: seq<PeerId>,
                               outgoing: seq<Out>, table: Space.Table, offered: set<(NodeId, PeerId)>)

  /** How many lookups have their turn in a tick. */
  function TickTurns(v: NodeView, fs: seq<NodeId>, now: int): (n: nat)
    requires |v.queries| <= |fs|
    ensures n <= |v.queries|
  {
    TurnsEnd(Asked(v.queries, fs, now), 0, MAX_MSGS - PingCount(|v.potential|))
  }

  /** What a tick sends, before the extras: pings, requests, an answer, the sweep. */
  function TickSends(v: NodeView, fs: seq<NodeId>, now: int): seq<Out>
    requires |v.queries| <= |fs|
  {
    Pings(v.potential[..PingCount(|v.potential|)])
    + Requests(Asked(v.queries, fs, now), TickTurns(v, fs, now))
    + Answers(v.table, v.remote, now)
    + Pings(SpaceTheorems.StaleIds(v.table, now))
  }

  /** The node after a tick. */
  function Ticked(v: NodeView, fs: seq<NodeId>, now: int, extras: seq<Out>): NodeView
    requires |v.queries| <= |fs|
  {
    v.(queries := Rotated(v.queries, fs, now, TickTurns(v, fs, now)),
       remote := Unread(v.remote, now),
       potential := v.potential[PingCount(|v.potential|)..],
       outgoing := v.outgoing + (TickSends(v, fs, now) + extras),
       table := SpaceTheorems.Refreshed(v.table, now))
  }

  /** After its first half: pings and requests. */
  function Requested(v: NodeView, fs: seq<NodeId>, now: int): NodeView
    requires |v.queries| <= |fs|
  {
    v.(queries := Rotated(v.queries, fs, now, TickTurns(v, fs, now)),
       potential := v.potential[PingCount(|v.potential|)..],
       outgoing := v.outgoing + Pings(v.potential[..PingCount(|v.potential|)])
                   + Requests(Asked(v.queries, fs, now), TickTurns(v, fs, now)))
  }

  /** After its second half: an answer and the sweep. */
  function Answered(v: NodeView, now: int): NodeView {
    v.(remote := Unread(v.remote, now),
       outgoing := v.outgoing + Answers(v.table, v.remote, now) + Pings(SpaceTheorems.StaleIds(v.table, now)),
       table := SpaceTheorems.Refreshed(v.table, now))
  }

  lemma TickHalves(v: NodeView, fs: seq<NodeId>, now: int)
    requires |v.queries| <= |fs|
    ensures Answered(Requested(v, fs, now), now) == Ticked(v, fs, now, [])
  {
    var p := Pings(v.potential[..PingCount(|v.potential|)]);
    var r := Requests(Asked(v.queries, fs, now), TickTurns(v, fs, now));
    var a := Answers(v.table, v.remote, now);
    var s := Pings(SpaceTheorems.StaleIds(v.table, now));
    Regroup5(v.outgoing, p, r, a, s);
  }

  lemma Regroup5(o: seq<Out>, p: seq<Out>, r: seq<Out>, a: seq<Out>, s: seq<Out>)
    ensures o + p + r + a + s == o + (p + r + a + s + [])
  {
  }

  lemma AddExtras(v: NodeView, fs: seq<NodeId>, now: int, extras: seq<Out>)
    requires |v.queries| <= |fs|
    ensures Ticked(v, fs, now, []).outgoing + extras == Ticked(v, fs, now, extras).outgoing
  {
    var sends := TickSends(v, fs, now);
    assert sends + [] == sends;
    Regroup(v.outgoing, sends, extras);
  }

  class Node {
    const ownId: NodeId
    const space: Space.Space
    var localQueries: seq<State>
    var remoteQueries: seq<RemoteQuery>
    var potentialPeers: seq<PeerId>
    var meeting: Meeting
    var outgoing: seq<Out>
    /** Every pair (target, peer) such that the peer was offered to a lookup for the target. */
    ghost var offered: set<(NodeId, PeerId)>

    ghost predicate Valid()
      reads this, space
    {
      && space.Valid() && space.ownId == ownId && SpaceTheorems.Reached(ownId, space.buckets)
      && AllGood(localQueries, offered)
    }

    ghost function Viewed(): NodeView
      reads this, space
    {
      NodeView(localQueries, remoteQueries, potentialPeers, outgoing, space.buckets, offered)
    }

    constructor (own: NodeId)
      ensures Valid() && fresh(space) && ownId == own && space.buckets == Space.EmptyTable()
      ensures localQueries == [] && remoteQueries == [] && potentialPeers == [] && outgoing == [] && offered == {}
      ensures meeting == Meeting(map[], map[], [])
    {
      ownId := own;
      space := new Space.Space(own);
      localQueries, remoteQueries, potentialPeers, outgoing := [], [], [], [];
      meeting := Meeting(map[], map[], []);
      offered := {};
      new;
      SpaceTheorems.ReachedEmpty(own);
    }

    // -------------------------------------------------------------- the tick

    /** Pings potential peers, first come first served, up to the allowance. */
    method PingPotential() returns (sentMsgs: nat)
      modifies this`potentialPeers, this`outgoing
      ensures sentMsgs == PingCount(|old(potentialPeers)|)
      ensures potentialPeers == old(potentialPeers)[sentMsgs..]
      ensures outgoing == old(outgoing) + Pings(old(potentialPeers)[..sentMsgs])
    {
      sentMsgs := 0;
      while |potentialPeers| > 0 && sentMsgs < ALLOWED_PINGS
        invariant sentMsgs <= ALLOWED_PINGS && sentMsgs <= |old(potentialPeers)|
        invariant potentialPeers == old(potentialPeers)[sentMsgs..]
        invariant outgoing == old(outgoing) + Pings(old(potentialPeers)[..sentMsgs])
        decreases |potentialPeers|
      {
        var pid := potentialPeers[0];
        assert pid == old(potentialPeers)[sentMsgs];
        potentialPeers := potentialPeers[1..];
        outgoing := outgoing + [SendPing(pid.addr)];
        sentMsgs := sentMsgs + 1;
      }
    }

    /** The lookup at the front has its turn and goes to the back; k of the qs had theirs. */
    method TakeTurn(ghost qs: seq<State>, ghost fs: seq<NodeId>, ghost k: nat, now: int, filler: NodeId)
      returns (asked: bool)
      requires k < |qs| <= |fs| && filler == fs[k] && localQueries == Rotated(qs, fs, now, k)
      modifies this`localQueries, this`outgoing
      ensures localQueries == Rotated(qs, fs, now, k + 1)
      ensures asked <==> Asked(qs, fs, now)[k].Some?
      ensures outgoing == old(outgoing) + RequestOf(Asked(qs, fs, now)[k])
    {
      TurnAt(qs, fs, now, k);
      RotateOnce(qs, fs, now, k);
      var query := localQueries[0];
      localQueries := localQueries[1..];
      var (next, ask) := Ask(query, now, filler);
      localQueries := localQueries + [next];
      asked := ask.Some?;
      if asked {
        outgoing := outgoing + [SendFindNode(ask.value.0.addr, ask.value.1)];
      }
    }

    /** Gives each lookup, in turn, the chance to send one request, until the tick's messages
        are spent; a lookup that had its turn goes to the back. */
    method RunQueries(sentMsgs: nat, now: int, fillers: seq<NodeId>) returns (turns: nat)
      requires sentMsgs <= MAX_MSGS && |fillers| >= |localQueries|
      modifies this`localQueries, this`outgoing
      ensures turns == TurnsEnd(Asked(old(localQueries), fillers, now), 0, MAX_MSGS - sentMsgs)
      ensures localQueries == Rotated(old(localQueries), fillers, now, turns)
      ensures outgoing == old(outgoing) + Requests(Asked(old(localQueries), fillers, now), turns)
    {
      ghost var qs := localQueries;
      ghost var asks, before := Asked(qs, fillers, now), outgoing;
      ghost var end := TurnsEnd(asks, 0, MAX_MSGS - sentMsgs);
      var sent, numQueries := sentMsgs, |localQueries|;
      turns := 0;
      while turns < numQueries && sent < MAX_MSGS
        invariant turns <= |qs| == numQueries == |asks| && sent <= MAX_MSGS
        invariant localQueries == Rotated(qs, fillers, now, turns)
        invariant TurnsEnd(asks, turns, MAX_MSGS - sent) == end
        invariant outgoing == before + Requests(asks, turns)
        decreases numQueries - turns
      {
        NextTurn(asks, turns, MAX_MSGS - sent);
        Regroup(before, Requests(asks, turns), RequestOf(asks[turns]));
        var asked := TakeTurn(qs, fillers, turns, now, fillers[turns]);
        if asked {
          sent := sent + 1;
        }
        turns := turns + 1;
      }
    }

    /** Sends the nearest peers of the table to whoever asked for neighbours. */
    method ReplyNeighbours(query: RemoteQuery)
      requires space.Valid() && query.kind == Neighbours
      modifies this`outgoing
      ensures outgoing == old(outgoing) + Reply(space.buckets, query)
    {
      var nearest := space.FindNearestNodes(query.query, QUERY_NEIGHBOUR_PEERS, []);
      SpaceTheorems.NearestNodesCorrect(space.buckets, query.query, QUERY_NEIGHBOUR_PEERS);
      outgoing := outgoing + [SendNodes(query.id.addr, query.tid, Vals(nearest))];
    }

    /** Answers the oldest remote query that is recent and of a known type; those before it,
        and it, leave the queue. */
    method ProcessRemoteQuery(now: int)
      requires space.Valid()
      modifies this`remoteQueries, this`outgoing
      ensures remoteQueries == Unread(old(remoteQueries), now)
      ensures outgoing == old(outgoing) + Answers(space.buckets, old(remoteQueries), now)
    {
      ghost var qs := remoteQueries;
      ghost var k := 0;
      var processed := false;
      var oldTS := now - MAX_REMOTE_QUERY_AGE;
      while !processed
        invariant k <= |qs| && remoteQueries == qs[k..]
        invariant !processed ==> outgoing == old(outgoing) && forall i :: 0 <= i < k ==> !Answerable(qs[i], now)
        invariant processed ==> 0 < k && k - 1 == FirstAnswerable(qs, now)
                                && outgoing == old(outgoing) + Reply(space.buckets, qs[k - 1])
        decreases |remoteQueries|
      {
        if |remoteQueries| < 1 {
          return;
        }
        var query := remoteQueries[0];
        assert query == qs[k];
        if query.queryTS > oldTS {
          processed := true;
          match query.kind {
            case Neighbours =>
              ReplyNeighbours(query);
            case Hash =>
            case Other =>
              processed := false;
          }
        }
        remoteQueries := remoteQueries[1..];
        k := k + 1;
      }
    }

    /** Takes the next stale peer off the table's list of them. */
    method NextStale(now: int) returns (r: Option<PeerId>)
      requires space.Valid()
      modifies space
      ensures space.Valid()
      ensures r.Some? ==> SpaceTheorems.StaleIds(old(space.buckets), now)
                            == [r.value] + SpaceTheorems.StaleIds(space.buckets, now)
      ensures r.None? ==> SpaceTheorems.StaleIds(space.buckets, now) == []
                          && SpaceTheorems.Refreshed(space.buckets, now) == space.buckets == old(space.buckets)
      ensures SpaceTheorems.Refreshed(space.buckets, now) == SpaceTheorems.Refreshed(old(space.buckets), now)
    {
      ghost var table := space.buckets;
      r := space.OutOfDatePeer(now);
      if r.Some? {
        SpaceTheorems.SweepTakesFirst(table, now);
      } else {
        SpaceTheorems.SweepDone(table, now);
      }
    }

    /** Pings every stale peer of the table. */
    method SweepStale(now: int)
      requires space.Valid()
      modifies this`outgoing, space
      ensures space.Valid()
      ensures space.buckets == SpaceTheorems.Refreshed(old(space.buckets), now)
      ensures SpaceTheorems.StaleIds(space.buckets, now) == []
      ensures outgoing == old(outgoing) + Pings(SpaceTheorems.StaleIds(old(space.buckets), now))
    {
      ghost var sent: seq<PeerId>, all := [], SpaceTheorems.StaleIds(space.buckets, now);
      var more := true;
      while more
        invariant space.Valid()
        invariant all == sent + SpaceTheorems.StaleIds(space.buckets, now)
        invariant SpaceTheorems.Refreshed(space.buckets, now) == SpaceTheorems.Refreshed(old(space.buckets), now)
        invariant !more ==> SpaceTheorems.StaleIds(space.buckets, now) == []
                            && SpaceTheorems.Refreshed(space.buckets, now) == space.buckets
        invariant outgoing == old(outgoing) + Pings(sent)
        decreases |SpaceTheorems.StaleIds(space.buckets, now)|, more
      {
        var r := NextStale(now);
        more := r.Some?;
        if more {
          PingsNext(old(outgoing), sent, r.value);
          Regroup(sent, [r.value], SpaceTheorems.StaleIds(space.buckets, now));
          outgoing := outgoing + [SendPing(r.value.addr)];
          sent := sent + [r.value];
        }
      }
    }

    /** The first half of a tick: pings and requests share the tick's messages. */
    method SendRequests(now: int, fillers: seq<NodeId>)
      requires |fillers| >= |localQueries|
      modifies this`localQueries, this`potentialPeers, this`outgoing
      ensures Viewed() == Requested(old(Viewed()), fillers, now)
    {
      ghost var v := Viewed();
      var sentMsgs := PingPotential();
      assert localQueries == v.queries && sentMsgs == PingCount(|v.potential|);
      var turns := RunQueries(sentMsgs, now, fillers);
      assert turns == TickTurns(v, fillers, now);
    }

    /** The second half: one remote query and the stale peers. */
    method AnswerAndSweep(now: int)
      requires space.Valid()
      modifies this`remoteQueries, this`outgoing, space
      ensures space.Valid() && Viewed() == Answered(old(Viewed()), now)
    {
      ghost var v := Viewed();
      ProcessRemoteQuery(now);
      assert space.buckets == v.table;
      ghost var w := v.(remote := Unread(v.remote, now), outgoing := v.outgoing + Answers(v.table, v.remote, now));
      assert Viewed() == w;
      SweepStale(now);
    }

    /** The part of a tick that happens every time. */
    method SendAll(now: int, fillers: seq<NodeId>)
      requires space.Valid() && |fillers| >= |localQueries|
      modifies this`localQueries, this`remoteQueries, this`potentialPeers, this`outgoing, space
      ensures space.Valid()
      ensures Viewed() == Ticked(old(Viewed()), fillers, now, [])
    {
      TickHalves(Viewed(), fillers, now);
      SendRequests(now, fillers);
      AnswerAndSweep(now);
    }

    method Punching(times: nat)
      modifies this`outgoing
      ensures outgoing == old(outgoing) + Punches(meeting.punching, times)
    {
      for i := 0 to |meeting.punching|
        invariant outgoing == old(outgoing) + Punches(meeting.punching[..i], times)
      {
        assert meeting.punching[..i + 1][..i] == meeting.punching[..i];
        PunchOne(meeting.punching[i].addr, times);
      }
      assert meeting.punching[..|meeting.punching|] == meeting.punching;
    }

    method PunchOne(to: Addr, times: nat)
      modifies this`outgoing
      ensures outgoing == old(outgoing) + seq(times, _ => SendPing(to))
    {
      for i := 0 to times
        invariant outgoing == old(outgoing) + seq(i, _ => SendPing(to))
      {
        outgoing := outgoing + [SendPing(to)];
      }
    }

    /** What only some ticks do, by the count of all. */
    method SendExtras(count: nat, known: seq<PeerId>)
      modifies this`outgoing
      ensures outgoing == old(outgoing) + Extras(count, known, meeting)
    {
      if count % BROADCAST_EVERY == 0 {
        BroadcastPeers(known);
      }
      ghost var a := if count % BROADCAST_EVERY == 0 then AllAnnouncements(known, PairsOf(meeting.requests)) else [];
      ghost var b := if count % PUNCH_EVERY == 0 then Punches(meeting.punching, PUNCH_TIMES) else [];
      if count % PUNCH_EVERY == 0 {
        Punching(PUNCH_TIMES);
      }
      Regroup(old(outgoing), a, b);
    }

    /** One tick: pings, lookups, one remote query, stale peers, and by the count of ticks the
        announcements and the punching. */
    method Iteration(now: int, fillers: seq<NodeId>, count: nat, known: seq<PeerId>)
      requires Valid() && |fillers| >= |localQueries|
      modifies this`localQueries, this`remoteQueries, this`potentialPeers, this`outgoing, space
      ensures Valid()
      ensures Viewed() == Ticked(old(Viewed()), fillers, now, Extras(count, known, meeting))
    {
      ghost var v := Viewed();
      RotatedKeeps(localQueries, fillers, now, TickTurns(v, fillers, now), offered);
      SpaceTheorems.ReachedSwept(ownId, space.buckets, now);
      SendAll(now, fillers);
      SendExtras(count, known);
      AddExtras(v, fillers, now, Extras(count, known, meeting));
    }

    // -------------------------------------------------------------- lookups

    method TellQueries(id: PeerId, flags: Word, ts: int)
      requires AllValid(localQueries)
      modifies this`localQueries
      ensures |localQueries| == |old(localQueries)|
      ensures forall i :: 0 <= i < |localQueries| ==> localQueries[i] == Told(old(localQueries)[i], id, flags, ts)
    {
      for i := 0 to |localQueries|
        invariant |localQueries| == |old(localQueries)|
        invariant forall k :: 0 <= k < i ==> localQueries[k] == Told(old(localQueries)[k], id, flags, ts)
        invariant forall k :: i <= k < |localQueries| ==> localQueries[k] == old(localQueries)[k]
      {
        var q := localQueries[i];
        localQueries := localQueries[i := q.(closest := Offer(q.closest, q.target, id, flags, ts).0)];
      }
    }

    /** A peer has spoken: every lookup and the routing table are told. */
    method AddPeer(id: PeerId, flags: Word, ts: int)
      requires Valid()
      modifies this`localQueries, this`offered, space
      ensures Valid()
      ensures |localQueries| == |old(localQueries)| && AllValid(old(localQueries))
      ensures forall i :: 0 <= i < |localQueries| ==> localQueries[i] == Told(old(localQueries)[i], id, flags, ts)
      ensures space.buckets == Space.AddedTo(ownId, old(space.buckets), id, flags, ts)
      ensures offered == old(offered) + OffersTo(old(localQueries), id)
    {
      ghost var qs := localQueries;
      AllGoodValid(localQueries, offered);
      TellQueries(id, flags, ts);
      offered := offered + OffersTo(qs, id);
      ToldKeeps(qs, localQueries, id, flags, ts, old(offered));
      SpaceTheorems.ReachedStep(ownId, space.buckets, SpaceTheorems.Reported(id, flags, ts));
      var _ := space.AddPeer(id, flags, ts);
    }

    method HintOne(i: nat, id: PeerId, ts: int) returns (worthy: bool)
      requires i < |localQueries| && localQueries[i].Valid()
      modifies this`localQueries
      ensures localQueries == old(localQueries)[i := Hinted(old(localQueries)[i], id, ts)]
      ensures worthy <==> Worthy(old(localQueries)[i], id, ts)
    {
      var q := localQueries[i];
      var (potential, isWorthy) := OfferPotential(q.closest, q.potential, q.target, id, 0, ts);
      localQueries := localQueries[i := q.(potential := potential)];
      worthy := isWorthy;
    }

    method HintQueries(id: PeerId, ts: int) returns (isWorthy: bool)
      requires AllValid(localQueries)
      modifies this`localQueries
      ensures |localQueries| == |old(localQueries)|
      ensures forall i :: 0 <= i < |localQueries| ==> localQueries[i] == Hinted(old(localQueries)[i], id, ts)
      ensures isWorthy <==> exists i :: 0 <= i < |old(localQueries)| && Worthy(old(localQueries)[i], id, ts)
    {
      isWorthy := false;
      for i := 0 to |localQueries|
        invariant |localQueries| == |old(localQueries)|
        invariant forall k :: 0 <= k < i ==> localQueries[k] == Hinted(old(localQueries)[k], id, ts)
        invariant forall k :: i <= k < |localQueries| ==> localQueries[k] == old(localQueries)[k]
        invariant isWorthy <==> exists k :: 0 <= k < i && Worthy(old(localQueries)[k], id, ts)
      {
        var worthy := HintOne(i, id, ts);
        if worthy {
          isWorthy := true;
        }
      }
    }

    /** A peer has been named by another: the lookups are told, and it is pinged if one of them
        finds it worth that. */
    method CheckPotentialPeer(id: PeerId, ts: int)
      requires Valid()
      modifies this`localQueries, this`potentialPeers
      ensures Valid()
      ensures |localQueries| == |old(localQueries)| && AllValid(old(localQueries))
      ensures forall i :: 0 <= i < |localQueries| ==> localQueries[i] == Hinted(old(localQueries)[i], id, ts)
      ensures potentialPeers == old(potentialPeers)
                + if exists i :: 0 <= i < |old(localQueries)| && Worthy(old(localQueries)[i], id, ts) then [id] else []
    {
      AllGoodValid(localQueries, offered);
      var isWorthy := HintQueries(id, ts);
      HintedKeeps(old(localQueries), localQueries, id, ts, offered);
      if isWorthy {
        potentialPeers := potentialPeers + [id];
      }
    }

    method StartPeers(id: NodeId) returns (startList: seq<PeerId>)
      requires space.Valid()
      ensures startList == StartList(space.buckets, id)
    {
      var nearest := space.FindNearestNodes(id, QUERY_START_PEERS, []);
      SpaceTheorems.NearestNodesCorrect(space.buckets, id, QUERY_START_PEERS);
      startList := [];
      for i := 0 to |nearest|
        invariant startList == Vals(nearest[..i])
      {
        ValsNext(nearest, i);
        startList := startList + [nearest[i].val];
      }
      assert nearest[..|nearest|] == nearest;
    }

    /** Starts a lookup from the nearest peers of the table. */
    method AddQuery(id: NodeId, qflags: Word, now: int)
      requires Valid()
      modifies this`localQueries, this`offered
      ensures Valid()
      ensures localQueries == old(localQueries) + [Initial(id, StartList(space.buckets, id), qflags, now)]
      ensures offered == old(offered) + OffersOf(id, StartList(space.buckets, id))
    {
      ghost var qs := localQueries;
      var startList := StartPeers(id);
      var query := new Query(id, startList, qflags, now);
      localQueries := localQueries + [query.Snapshot()];
      offered := offered + OffersOf(id, startList);
      SpaceTheorems.ReachedInv(ownId, space.buckets);
      StartListFits(ownId, space.buckets, id);
      StartKeeps(qs, id, startList, qflags, now, old(offered));
    }

    method EraseQueries(id: NodeId)
      modifies this`localQueries
      ensures localQueries == Without(old(localQueries), id)
    {
      var i := 0;
      ghost var done: seq<State>, rest := [], localQueries;
      while i < |localQueries|
        invariant old(localQueries) == done + rest && localQueries == Without(done, id) + rest
        invariant i == |Without(done, id)|
        decreases |rest|
      {
        var q := localQueries[i];
        assert q == rest[0];
        WithoutSnoc(done, q, id);
        done, rest := done + [q], rest[1..];
        if q.target == id {
          localQueries := localQueries[..i] + localQueries[i + 1..];
        } else {
          i := i + 1;
        }
      }
      assert done == old(localQueries);
    }

    /** Drops every lookup for the target. */
    method ClearQuery(id: NodeId)
      requires Valid()
      modifies this`localQueries
      ensures Valid() && localQueries == Without(old(localQueries), id)
    {
      WithoutKeeps(localQueries, id, offered);
      EraseQueries(id);
    }

    /** The report on all lookups. */
    method ReportStatus() returns (statusMap: map<NodeId, QueryStatus>)
      ensures statusMap == Statuses(localQueries)
    {
      statusMap := map[];
      for i := 0 to |localQueries|
        invariant statusMap == Statuses(localQueries[..i])
      {
        assert localQueries[..i + 1][..i] == localQueries[..i];
        statusMap := statusMap[localQueries[i].target := StatusOf(localQueries[i])];
      }
      assert localQueries[..|localQueries|] == localQueries;
    }

    method QueueQuery(id: PeerId, query: NodeId, tid: Bytes, kind: QueryType, now: int)
      requires Valid()
      modifies this`remoteQueries
      ensures Valid() && remoteQueries == old(remoteQueries) + [RemoteQuery(id, query, tid, kind, now)]
    {
      remoteQueries := remoteQueries + [RemoteQuery(id, query, tid, kind, now)];
    }

    // -------------------------------------------------------------- rendezvous

    method AddConnReq(id: NodeId)
      requires Valid()
      modifies this`meeting
      ensures Valid() && meeting == old(meeting).(requests := old(meeting).requests[ownId := id])
    {
      meeting := meeting.(requests := meeting.requests[ownId := id]);
    }

    method Announce(to: Addr, order: seq<(NodeId, NodeId)>)
      modifies this`outgoing
      ensures outgoing == old(outgoing) + Announcements(to, order)
    {
      outgoing := outgoing + [SendAskMyIp(to)];
      for j := 0 to |order|
        invariant outgoing == old(outgoing) + Announcements(to, order[..j])
      {
        assert order[..j + 1][..j] == order[..j];
        outgoing := outgoing + [SendBroadcast(to, order[j].0, order[j].1)];
      }
      assert order[..|order|] == order;
    }

    method AnnounceAll(peers: seq<PeerId>, order: seq<(NodeId, NodeId)>)
      modifies this`outgoing
      ensures outgoing == old(outgoing) + AllAnnouncements(peers, order)
    {
      for i := 0 to |peers|
        invariant outgoing == old(outgoing) + AllAnnouncements(peers[..i], order)
      {
        assert peers[..i + 1][..i] == peers[..i];
        Announce(peers[i].addr, order);
      }
      assert peers[..|peers|] == peers;
    }

    /** Asks each known peer for the own address and tells it of every pair that wants to meet. */
    method BroadcastPeers(peers: seq<PeerId>)
      modifies this`outgoing
      ensures outgoing == old(outgoing) + AllAnnouncements(peers, PairsOf(meeting.requests))
    {
      var order := ListPairs(meeting.requests);
      AnnounceAll(peers, order);
    }

    method Note(id: PeerId, other: NodeId)
      modifies this`meeting
      ensures meeting == Noted(old(meeting), id, other)
    {
      meeting := meeting.(requests := meeting.requests[id.id := other]);
      meeting := meeting.(addrs := meeting.addrs[id.id := id.addr]);
    }

    /** Each of the two is told of the other; the sender is addressed by the peer id named. */
    method AskBoth(id: PeerId, peer: PeerId, named: NodeId)
      modifies this`outgoing
      ensures outgoing == old(outgoing) + AskConns([Asking(peer.addr, peer.id, id), Asking(id.addr, named, peer)])
    {
      outgoing := outgoing + [SendAskConn(Asking(peer.addr, peer.id, id))];
      outgoing := outgoing + [SendAskConn(Asking(id.addr, named, peer))];
    }

    method MsginBroadcastConn(id: PeerId, nodeId: NodeId, peerId: NodeId)
      requires Valid()
      modifies this`meeting, this`outgoing
      ensures Valid()
      ensures meeting == HearBroadcast(old(meeting), id, nodeId, peerId).0
      ensures outgoing == old(outgoing) + AskConns(HearBroadcast(old(meeting), id, nodeId, peerId).1)
    {
      if id.id == nodeId {
        Note(id, peerId);
        if peerId in meeting.addrs {
          AskBoth(id, PeerId(peerId, meeting.addrs[peerId]), peerId);
        }
      } else if id.id == peerId {
        Note(id, nodeId);
        if nodeId in meeting.addrs {
          AskBoth(id, PeerId(nodeId, meeting.addrs[nodeId]), peerId);
        }
      }
    }

    method CountPunching(peerId: PeerId) returns (count: nat)
      ensures count == 0 <==> peerId !in meeting.punching
    {
      count := 0;
      for i := 0 to |meeting.punching|
        invariant count == 0 && forall k :: 0 <= k < i ==> meeting.punching[k] != peerId
      {
        if meeting.punching[i] == peerId {
          count := count + 1;
          break;
        }
      }
    }

    method MsginAskConn(nodeId: NodeId, peerId: PeerId)
      requires Valid()
      modifies this`meeting
      ensures Valid() && meeting == HearAsk(old(meeting), ownId, nodeId, peerId)
    {
      if ownId == nodeId {
        var count := CountPunching(peerId);
        if count == 0 {
          meeting := meeting.(punching := meeting.punching + [peerId]);
        }
      }
    }

    // -------------------------------------------------------------- start and stop

    /** Every stored peer is pinged again. */
    method Restart(stored: seq<PeerId>)
      requires Valid()
      modifies this`potentialPeers
      ensures Valid() && potentialPeers == old(potentialPeers) + stored
    {
      for i := 0 to |stored|
        invariant potentialPeers == old(potentialPeers) + stored[..i]
      {
        Snoc(old(potentialPeers), stored, i);
        potentialPeers := potentialPeers + [stored[i]];
      }
      assert stored[..|stored|] == stored;
    }

    method Shutdown()
      requires Valid()
      modifies this`localQueries, this`remoteQueries, this`potentialPeers, this`outgoing, space
      ensures Valid() && localQueries == [] && remoteQueries == [] && potentialPeers == [] && outgoing == []
      ensures space.buckets == Space.EmptyTable()
    {
      SpaceTheorems.ReachedEmpty(ownId);
      localQueries, remoteQueries := [], [];
      space.Clear();
      potentialPeers := [];
      outgoing := [];
    }
  }
}
