/** The manager: the searches a user has asked for, the mode the node is in, and the address
    a finished search hands back. */
module Manager {
  import opened Metric
  import opened NetworkSize
  import opened NodeOrder
  import opened Peers
  import opened Query
  import opened Lookups
  import opened Rendezvous
  import opened Searches
  import Node
  import Space

  class Manager {
    const node: Node.Node
    var activePeers: map<NodeId, QueryPeer>
    var mode: Mode
    var modeTS: int
    var networkSize: nat
    var bdNetworkSize: nat

    ghost predicate Valid()
      reads this, node, node.space
    {
      node.Valid() && AddrsOk(activePeers, node.offered)
    }

    constructor (own: NodeId)
      ensures Valid() && fresh(node) && fresh(node.space)
      ensures activePeers == map[] && mode == Off && modeTS == 0
      ensures node.ownId == own && node.localQueries == []
    {
      node := new Node.Node(own);
      activePeers, mode, modeTS := map[], Off, 0;
      networkSize, bdNetworkSize := 0, 0;
    }

    // -------------------------------------------------------------- what the user asks for

    /** Asks for a search; one already there stays as it is. */
    method AddFindNode(id: NodeId, qflags: Word)
      requires Valid()
      modifies this`activePeers, node`meeting
      ensures Valid()
      ensures activePeers == if id in old(activePeers) then old(activePeers)
                             else old(activePeers)[id := QueryPeer(Ready, qflags, ZERO_ADDR)]
      ensures Viewed() == Sought(old(Viewed()), id, qflags)
      ensures id in old(activePeers) ==> node.meeting == old(node.meeting)
      ensures id !in old(activePeers) ==>
                node.meeting == old(node.meeting).(requests := old(node.meeting).requests[node.ownId := id])
    {
      if id in activePeers {
        return;
      }
      activePeers := activePeers[id := QueryPeer(Ready, qflags, ZERO_ADDR)];
      node.AddConnReq(id);
    }

    method RemoveFindNode(id: NodeId)
      requires Valid()
      modifies this`activePeers, node`localQueries
      ensures Valid()
      ensures activePeers == old(activePeers) - {id}
      ensures node.localQueries ==
                if id in old(activePeers) then Without(old(node.localQueries), id) else old(node.localQueries)
      ensures Viewed() == GivenUp(old(Viewed()), id)
    {
      if id !in activePeers {
        return;
      }
      node.ClearQuery(id);
      activePeers := activePeers - {id};
    }

    /** Drops the lookups for all the ids. */
    method ClearQueries(ids: set<NodeId>)
      requires node.Valid()
      modifies node`localQueries
      ensures node.Valid()
      ensures node.localQueries == Remaining(old(node.localQueries), ids)
    {
      var left := ids;
      ghost var done: set<NodeId> := {};
      RemainingNone(node.localQueries);
      while left != {}
        invariant node.Valid()
        invariant done + left == ids
        invariant node.localQueries == Remaining(old(node.localQueries), done)
        decreases |left|
      {
        var id :| id in left;
        RemainingMore(old(node.localQueries), done, id);
        node.ClearQuery(id);
        left := left - {id};
        done := done + {id};
      }
    }

    /** Forgets every search; a lookup for the own id goes on. */
    method RemoveAllFindNode()
      requires Valid()
      modifies this`activePeers, node`localQueries
      ensures Valid() && activePeers == map[]
      ensures node.localQueries == Remaining(old(node.localQueries), old(activePeers).Keys - {node.ownId})
    {
      ClearQueries(activePeers.Keys - {node.ownId});
      activePeers := map[];
    }

    /** The address found for the id, once its search has succeeded. */
    method GetDhtPeerAddress(id: NodeId) returns (found: bool, addr: Addr)
      requires Valid()
      ensures found <==> id in activePeers && activePeers[id].status == Success
      ensures found ==> addr == activePeers[id].addr && AddrOk(id, addr, node.offered)
    {
      found, addr := false, ZERO_ADDR;
      if id in activePeers {
        if activePeers[id].status == Success {
          addr := activePeers[id].addr;
          found := true;
        }
      }
    }

    // -------------------------------------------------------------- what comes in

    /** A peer has spoken. */
    method AddPeer(id: PeerId, flags: Word, ts: int)
      requires Valid()
      modifies node`localQueries, node`offered, node.space
      ensures Valid()
      ensures |node.localQueries| == |old(node.localQueries)| && AllValid(old(node.localQueries))
      ensures forall i :: 0 <= i < |node.localQueries| ==>
                node.localQueries[i] == Told(old(node.localQueries)[i], id, flags, ts)
      ensures node.space.buckets == Space.AddedTo(node.ownId, old(node.space.buckets), id, flags, ts)
      ensures node.offered == old(node.offered) + OffersTo(old(node.localQueries), id)
    {
      node.AddPeer(id, flags, ts);
      NodeWorkKeeps();
    }

    /** Whatever the node does by itself keeps the addresses sound. */
    twostate lemma NodeWorkKeeps()
      requires old(Valid()) && unchanged(this) && node.Valid() && old(node.offered) <= node.offered
      ensures Valid()
    {
    }

    /** A peer has been named. */
    method CheckPotentialPeer(id: PeerId, ts: int)
      requires Valid()
      modifies node`localQueries, node`potentialPeers
      ensures Valid()
      ensures |node.localQueries| == |old(node.localQueries)| && AllValid(old(node.localQueries))
      ensures forall i :: 0 <= i < |node.localQueries| ==>
                node.localQueries[i] == Hinted(old(node.localQueries)[i], id, ts)
      ensures node.potentialPeers == old(node.potentialPeers)
                + if exists i :: 0 <= i < |old(node.localQueries)| && Worthy(old(node.localQueries)[i], id, ts)
                  then [id] else []
    {
      node.CheckPotentialPeer(id, ts);
      NodeWorkKeeps();
    }

    method QueueQuery(id: PeerId, query: NodeId, tid: Bytes, kind: Node.QueryType, now: int)
      requires Valid()
      modifies node`remoteQueries
      ensures Valid()
      ensures node.remoteQueries == old(node.remoteQueries) + [Node.RemoteQuery(id, query, tid, kind, now)]
    {
      node.QueueQuery(id, query, tid, kind, now);
      NodeWorkKeeps();
    }

    method MsginBroadcastConn(id: PeerId, nodeId: NodeId, peerId: NodeId)
      requires Valid()
      modifies node`meeting, node`outgoing
      ensures Valid()
      ensures node.meeting == HearBroadcast(old(node.meeting), id, nodeId, peerId).0
      ensures node.outgoing == old(node.outgoing)
                               + Node.AskConns(HearBroadcast(old(node.meeting), id, nodeId, peerId).1)
    {
      node.MsginBroadcastConn(id, nodeId, peerId);
      NodeWorkKeeps();
    }

    method MsginAskConn(nodeId: NodeId, peerId: PeerId)
      requires Valid()
      modifies node`meeting
      ensures Valid() && node.meeting == HearAsk(old(node.meeting), node.ownId, nodeId, peerId)
    {
      node.MsginAskConn(nodeId, peerId);
      NodeWorkKeeps();
    }

    // -------------------------------------------------------------- start and stop

    method MarkReady()
      modifies this`activePeers
      ensures activePeers == StoppedAll(old(activePeers))
    {
      var left := activePeers.Keys;
      while left != {}
        invariant left <= activePeers.Keys == old(activePeers).Keys
        invariant forall id :: id in activePeers ==>
          activePeers[id] == if id in left then old(activePeers)[id] else old(activePeers)[id].(status := Ready)
        decreases |left|
      {
        var id :| id in left;
        activePeers := activePeers[id := activePeers[id].(status := Ready)];
        left := left - {id};
      }
    }

    /** Everything the node knows is forgotten; the searches wait again. */
    method StopDht(now: int)
      requires Valid()
      modifies this`activePeers, this`mode, this`modeTS
      modifies node`localQueries, node`remoteQueries, node`potentialPeers, node`outgoing, node.space
      ensures Valid() && mode == Off && modeTS == now
      ensures activePeers == StoppedAll(old(activePeers))
      ensures node.localQueries == [] && node.remoteQueries == [] && node.potentialPeers == [] && node.outgoing == []
      ensures node.space.buckets == Space.EmptyTable()
    {
      node.Shutdown();
      MarkReady();
      mode, modeTS := Off, now;
    }

    method StartDht(now: int, stored: seq<PeerId>)
      requires Valid()
      modifies this`mode, this`modeTS, node`potentialPeers
      ensures Valid() && mode == Startup && modeTS == now
      ensures node.potentialPeers == old(node.potentialPeers) + stored
    {
      node.Restart(stored);
      mode, modeTS := Startup, now;
    }

    // -------------------------------------------------------------- the tick

    method BeginOne(id: NodeId, now: int)
      requires Valid() && id in activePeers
      modifies this`activePeers, node`localQueries, node`offered
      ensures Valid()
      ensures activePeers == old(activePeers)[id := old(activePeers)[id].(status := Querying)]
      ensures node.Viewed() == BegunOne(old(node.Viewed()), id, old(activePeers)[id], now)
    {
      activePeers := activePeers[id := activePeers[id].(status := Querying)];
      node.AddQuery(id, Or(activePeers[id].qflags, DISGUISE), now);
    }

    /** The next search, if it waits. */
    method BeginNext(ghost peers: map<NodeId, QueryPeer>, ghost v: Node.NodeView, now: int, ghost left: set<NodeId>,
                     ghost order: seq<NodeId>, id: NodeId) returns (ghost next: seq<NodeId>)
      requires Valid() && id in left && forall x :: x in left ==> Value(id) <= Value(x)
      requires Starting(peers, v, now, left, activePeers, node.Viewed(), order)
      modifies this`activePeers, node`localQueries, node`offered
      ensures Valid() && Starting(peers, v, now, left - {id}, activePeers, node.Viewed(), next)
    {
      StartingStep(peers, v, now, left, activePeers, node.Viewed(), order, id);
      next := order;
      if activePeers[id].status == Ready {
        next := order + [id];
        BeginOne(id, now);
      }
    }

    /** Begins a lookup for every search that waits for one. */
    method StartQueries(now: int)
      requires Valid()
      modifies this`activePeers, node`localQueries, node`offered
      ensures Valid() && Viewed() == AllBegun(old(Viewed()), now)
    {
      ghost var peers, v := activePeers, node.Viewed();
      ghost var order: seq<NodeId> := [];
      var left := activePeers.Keys;
      StartingFirst(peers, v, now);
      while left != {}
        invariant Valid() && Starting(peers, v, now, left, activePeers, node.Viewed(), order)
        decreases |left|
      {
        var id := Least(left);
        order := BeginNext(peers, v, now, left, order, id);
        left := left - {id};
      }
      StartingDone(peers, v, now, activePeers, node.Viewed(), order);
    }

    method CheckOne(ghost peers: map<NodeId, QueryPeer>, ghost qs: seq<State>, ghost sts: map<NodeId, QueryStatus>,
                    ghost left: set<NodeId>, id: NodeId, st: QueryStatus)
      requires node.Valid() && Checking(peers, qs, sts, left, activePeers, node.localQueries)
      requires id in left && st == sts[id]
      modifies this`activePeers, node`localQueries
      ensures node.Valid() && Checking(peers, qs, sts, left - {id}, activePeers, node.localQueries)
    {
      CheckingStep(peers, qs, sts, left, activePeers, node.localQueries, id);
      var doRemove, doSaveAddress := false, false;
      match st.status {
        case Failure => doRemove := true;
        case FoundClosest => doRemove := true;
        case PeerUnreachable => doRemove := true;
        case Success => doRemove, doSaveAddress := true, true;
        case _ =>
      }
      if doRemove {
        if And(st.flags, DO_IDLE) != 0 {
          doRemove := false;
        }
      }
      if doRemove {
        node.ClearQuery(id);
      }
      if id in activePeers {
        var peer := activePeers[id].(status := st.status);
        if doSaveAddress {
          peer := peer.(addr := if |st.results| > 0 then st.results[0].addr else ZERO_ADDR);
        }
        activePeers := activePeers[id := peer];
      }
    }

    /** Reads the report on the lookups: those that are over go, and the searches learn their
        outcome. */
    method CheckStatus()
      requires Valid()
      modifies this`activePeers, node`localQueries
      ensures Valid()
      ensures activePeers == UpdatedAll(old(activePeers), Statuses(old(node.localQueries)))
      ensures node.localQueries == Remaining(old(node.localQueries), OverIds(Statuses(old(node.localQueries))))
      ensures AllLearn(old(activePeers), old(node.localQueries), activePeers)
      ensures OthersStay(old(node.localQueries), node.localQueries)
    {
      GoodShapes(node.localQueries, node.offered);
      UpdatedLearns(activePeers, node.localQueries);
      RemainingStay(node.localQueries);
      ghost var peers, qs := activePeers, node.localQueries;
      var queryStatus := node.ReportStatus();
      UpdatedAllOk(peers, qs, node.offered);
      CheckingFirst(peers, qs, queryStatus);
      var left := queryStatus.Keys;
      while left != {}
        invariant node.Valid() && Checking(peers, qs, queryStatus, left, activePeers, node.localQueries)
        decreases |left|
      {
        var id :| id in left;
        CheckOne(peers, qs, queryStatus, left, id, queryStatus[id]);
        left := left - {id};
      }
      CheckingDone(peers, qs, queryStatus, activePeers, node.localQueries);
    }

    method ReadReport()
      requires Valid()
      modifies this`activePeers, node`localQueries
      ensures Valid()
      ensures activePeers == UpdatedAll(old(activePeers), Statuses(old(node.localQueries)))
      ensures node.localQueries == Remaining(old(node.localQueries), OverIds(Statuses(old(node.localQueries))))
    {
      CheckStatus();
    }

    method UpdateStatus()
      requires Valid()
      modifies this`activePeers, this`networkSize, this`bdNetworkSize, node`localQueries
      ensures Valid() && Viewed() == ReportRead(old(Viewed()))
    {
      ghost var v := Viewed();
      ReadReport();
      EstimateSizes();
      ReportReadParts(v, activePeers, node.localQueries, networkSize, bdNetworkSize);
      assert node.Viewed() == v.node.(queries := node.localQueries);
    }

    method EstimateSizes()
      requires node.space.Valid()
      modifies this`networkSize, this`bdNetworkSize
      ensures networkSize == Estimate(Space.Sizes(node.space.buckets))
      ensures bdNetworkSize == Estimate(Space.FlaggedSizes(node.space.buckets, DHT_APPL))
    {
      networkSize := node.space.CalcNetworkSize();
      bdNetworkSize := node.space.CalcNetworkSizeWithFlag(DHT_APPL);
    }

    ghost function Viewed(): View
      reads this, node, node.space
    {
      View(mode, modeTS, activePeers, networkSize, bdNetworkSize, node.Viewed())
    }

    method AddOwnSearch(id: NodeId, now: int)
      requires Valid()
      modifies node`localQueries, node`offered
      ensures Valid()
      ensures node.Viewed() == WithOwnSearch(old(node.Viewed()), id, now)
    {
      node.AddQuery(id, Or(DO_IDLE, DISGUISE), now);
    }

    /** Startup is over: look for the own id and one more, and keep looking. */
    method LeaveStartup(now: int)
      requires Valid()
      modifies this`mode, this`modeTS, node`localQueries, node`offered
      ensures Valid() && mode == FindSelf && modeTS == now
      ensures node.Viewed() == FindingSelf(old(node.Viewed()), node.ownId, now)
    {
      mode, modeTS := FindSelf, now;
      LookForSelf(now);
    }

    method LookForSelf(now: int)
      requires Valid()
      modifies node`localQueries, node`offered
      ensures Valid() && node.Viewed() == FindingSelf(old(node.Viewed()), node.ownId, now)
    {
      AddOwnSearch(node.ownId, now);
      AddOwnSearch(WellKnownId(), now);
    }

    /** Startup, until it has lasted long enough. */
    method Start(now: int, ghost stored: seq<PeerId>)
      requires Valid() && mode == Startup
      modifies this`mode, this`modeTS, node`localQueries, node`offered
      ensures Valid() && Viewed() == Switched(old(Viewed()), node.ownId, now, stored)
    {
      ghost var v := Viewed();
      SwitchedStartup(v, node.ownId, now, stored);
      if now - modeTS > MAX_STARTUP_TIME {
        LeaveStartup(now);
        assert Viewed() == v.(node := node.Viewed()).Enter(FindSelf, now);
      }
    }

    /** The modes that only wait. */
    method Wait(now: int, ghost stored: seq<PeerId>)
      requires node.space.Valid() && mode !in {Startup, Refresh, Failed}
      modifies this`mode, this`modeTS
      ensures Viewed() == Switched(old(Viewed()), node.ownId, now, stored)
    {
      var modeAge := now - modeTS;
      if mode == FindSelf {
        var nodeSpaceSize := node.space.CalcSpaceSize();
        if nodeSpaceSize > TRANSITION_OP_SPACE_SIZE {
          mode, modeTS := Refresh, now;
        }
        if modeAge > MAX_FINDSELF_TIME {
          if nodeSpaceSize > MIN_OP_SPACE_SIZE {
            mode, modeTS := Refresh, now;
          } else {
            mode, modeTS := Failed, now;
          }
        }
      } else if mode == Active {
        if modeAge > MAX_REFRESH_TIME {
          mode, modeTS := Refresh, now;
        }
      }
    }

    /** Begins what waits and reads the report. */
    method RefreshSearches(now: int)
      requires Valid()
      modifies this, node`localQueries, node`offered
      ensures Valid() && Viewed() == Refreshing(old(Viewed()), now).Enter(Active, now)
    {
      mode, modeTS := Active, now;
      StartQueries(now);
      UpdateStatus();
    }

    method StartOver(now: int, stored: seq<PeerId>)
      requires Valid()
      modifies this`activePeers, this`mode, this`modeTS
      modifies node`localQueries, node`remoteQueries, node`potentialPeers, node`outgoing, node.space
      ensures Valid() && Viewed() == Restarted(old(Viewed()), stored).Enter(Startup, now)
    {
      StopDht(now);
      StartDht(now, stored);
    }

    /** Moves on to the next mode when it is time, with what that starts or stops. */
    method SwitchMode(now: int, stored: seq<PeerId>)
      requires Valid()
      modifies this, node`localQueries, node`remoteQueries, node`potentialPeers, node`outgoing, node`offered, node.space
      ensures Valid() && Viewed() == Switched(old(Viewed()), node.ownId, now, stored)
    {
      match mode {
        case Startup =>
          Start(now, stored);
        case Refresh =>
          RefreshSearches(now);
        case Failed => StartOver(now, stored);
        case _ => Wait(now, stored);
      }
    }

    /** One tick of the manager: the mode, then the node's own tick unless it is off. */
    method Iteration(now: int, stored: seq<PeerId>, fillers: nat -> NodeId, count: nat, known: seq<PeerId>)
      requires Valid()
      modifies this, node`localQueries, node`remoteQueries, node`potentialPeers, node`outgoing, node`offered, node.space
      ensures Valid()
      ensures Viewed() ==
                Ticked(old(Viewed()), node.ownId, now, stored, fillers, Node.Extras(count, known, node.meeting))
    {
      SwitchMode(now, stored);
      if mode != Off {
        node.Iteration(now, Fillers(|node.localQueries|, fillers), count, known);
      }
    }
  }
}
