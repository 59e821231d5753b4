/** Runs of the manager between a start and a stop: ticks, what the node does in between, and
    searches asked for and given up. */
module ManagerRuns {
  import opened Metric
  import opened Peers
  import opened Query
  import opened Searches
  import QueryTheorems
  import Node
  import Space

  type AnyNode = n: Node.NodeView | |n.table| == NUM_BUCKETS
    witness Node.NodeView([], [], [], [], Space.EmptyTable(), {})

  /** A message that comes in may turn the node into any other. */
  datatype Act =
    | Tick(now: int, stored: seq<PeerId>, fillers: nat -> NodeId, extras: seq<Node.Out>)
    | Work(node: AnyNode)
    | Seek(id: NodeId, qflags: Word)
    | GiveUp(id: NodeId)

  ghost function Step(own: NodeId, v: View, act: Act): (r: View)
    requires v.Fits()
    ensures r.Fits()
  {
    match act
    case Tick(now, stored, fillers, extras) => Ticked(v, own, now, stored, fillers, extras)
    case Work(node) => v.(node := node)
    case Seek(id, qflags) => Sought(v, id, qflags)
    case GiveUp(id) => GivenUp(v, id)
  }

  ghost function Run(own: NodeId, v: View, acts: seq<Act>): (r: View)
    requires v.Fits()
    ensures r.Fits()
    decreases |acts|
  {
    if acts == [] then v else Run(own, Step(own, v, acts[0]), acts[1..])
  }

  // ---------------------------------------------------------------- the mode

  function Size(v: View): nat {
    |Space.Flatten(v.node.table)|
  }

  /** Only ticks change the mode. */
  lemma StepMode(own: NodeId, v: View, act: Act)
    requires v.Fits()
    ensures var r := Step(own, v, act);
            (r.mode, r.modeTS)
              == if act.Tick? then ModeStep(v.mode, v.modeTS, ModeTick(act.now, Size(v))) else (v.mode, v.modeTS)
  {
    if act.Tick? {
      SwitchedMode(v, own, act.now, act.stored);
    }
  }

  /** The ticks of a run, each with the number of peers the table holds then. */
  ghost function Ticks(own: NodeId, v: View, acts: seq<Act>): seq<ModeTick>
    requires v.Fits()
    decreases |acts|
  {
    if acts == [] then []
    else
      var rest := Ticks(own, Step(own, v, acts[0]), acts[1..]);
      if acts[0].Tick? then [ModeTick(acts[0].now, Size(v))] + rest else rest
  }

  /** Mode and time are what the mode machine makes of them. */
  ghost predicate Agrees(own: NodeId, v: View, acts: seq<Act>)
    requires v.Fits()
  {
    var r := Run(own, v, acts);
    (r.mode, r.modeTS) == ModeRun(v.mode, v.modeTS, Ticks(own, v, acts))
  }

  lemma ModeRunOn(mode: Mode, modeTS: int, t: ModeTick, ticks: seq<ModeTick>, next: Mode, nextTS: int)
    requires (next, nextTS) == ModeStep(mode, modeTS, t)
    ensures ModeRun(mode, modeTS, [t] + ticks) == ModeRun(next, nextTS, ticks)
  {
    assert ([t] + ticks)[1..] == ticks;
  }

  lemma AgreesOn(own: NodeId, v: View, acts: seq<Act>, w: View, rest: seq<Act>)
    requires v.Fits() && acts != [] && w == Step(own, v, acts[0]) && rest == acts[1..] && Agrees(own, w, rest)
    ensures Agrees(own, v, acts)
  {
    StepMode(own, v, acts[0]);
    var ticks := Ticks(own, w, rest);
    if acts[0].Tick? {
      var t := ModeTick(acts[0].now, Size(v));
      ModeRunOn(v.mode, v.modeTS, t, ticks, w.mode, w.modeTS);
      assert Ticks(own, v, acts) == [t] + ticks;
    } else {
      assert Ticks(own, v, acts) == ticks;
    }
  }

  /** So they are over any run, whatever happens between the ticks. */
  lemma {:induction false} RunMode(own: NodeId, v: View, acts: seq<Act>)
    requires v.Fits()
    ensures Agrees(own, v, acts)
    decreases |acts|
  {
    if acts == [] {
    } else {
      RunMode(own, Step(own, v, acts[0]), acts[1..]);
      AgreesOn(own, v, acts, Step(own, v, acts[0]), acts[1..]);
    }
  }

  /** A tick in the mode off changes nothing at all; in any other mode the node has its tick
      after the change of mode. */
  lemma TickIs(own: NodeId, v: View, act: Act)
    requires v.Fits() && act.Tick?
    ensures v.mode == Off ==> Step(own, v, act) == v
    ensures v.mode != Off ==>
              var w := Switched(v, own, act.now, act.stored);
              w.mode != Off && Step(own, v, act).peers == w.peers
              && Step(own, v, act).node
                   == Node.Ticked(w.node, Fillers(|w.node.queries|, act.fillers), act.now, act.extras)
  {
  }

  // ---------------------------------------------------------------- waiting searches

  predicate Waits(v: View, id: NodeId, qflags: Word) {
    id in v.peers && v.peers[id].status == Ready && v.peers[id].qflags == qflags
  }

  /** The node has a lookup for the id, begun at that time with those flags. */
  ghost predicate Looking(qs: seq<State>, id: NodeId, flags: Word, now: int) {
    exists i :: 0 <= i < |qs| && qs[i].target == id && qs[i].queryTS == now && qs[i].flags == flags
  }

  lemma TurnedLooks(qs: seq<State>, fs: seq<NodeId>, now: int, i: nat)
    requires i < |qs| <= |fs|
    ensures var q := Node.Turned(qs, fs, now)[i];
            q.target == qs[i].target && q.queryTS == qs[i].queryTS && q.flags == qs[i].flags
  {
    Node.TurnAt(qs, fs, now, i);
    QueryTheorems.AskSamePeers(qs[i], now, fs[i]);
  }

  /** Turns do not end the search. */
  lemma RotatedLooks(qs: seq<State>, fs: seq<NodeId>, now: int, k: nat, id: NodeId, flags: Word, ts: int)
    requires k <= |qs| <= |fs| && Looking(qs, id, flags, ts)
    ensures Looking(Node.Rotated(qs, fs, now, k), id, flags, ts)
  {
    var i :| 0 <= i < |qs| && qs[i].target == id && qs[i].queryTS == ts && qs[i].flags == flags;
    var r := Node.Rotated(qs, fs, now, k);
    if i >= k {
      assert r[i - k] == qs[i];
    } else {
      TurnedLooks(qs, fs, now, i);
      assert r[|qs| - k + i] == Node.Turned(qs, fs, now)[i];
    }
  }

  lemma TickPeers(own: NodeId, v: View, act: Act, w: View)
    requires v.Fits() && act.Tick? && w == Switched(v, own, act.now, act.stored)
    ensures Step(own, v, act).peers == w.peers
    ensures w.mode != Off ==>
              Step(own, v, act).node
                == Node.Ticked(w.node, Fillers(|w.node.queries|, act.fillers), act.now, act.extras)
  {
  }

  lemma SwitchedWaits(own: NodeId, v: View, now: int, stored: seq<PeerId>, id: NodeId, qflags: Word)
    requires v.Fits() && Waits(v, id, qflags) && v.mode != Refresh
    ensures Waits(Switched(v, own, now, stored), id, qflags)
  {
  }

  /** A search waits until a refresh, unless it is given up. */
  lemma WaitsOn(own: NodeId, v: View, act: Act, id: NodeId, qflags: Word)
    requires v.Fits() && Waits(v, id, qflags) && act != GiveUp(id) && (act.Tick? ==> v.mode != Refresh)
    ensures Waits(Step(own, v, act), id, qflags)
  {
    if act.Tick? {
      SwitchedWaits(own, v, act.now, act.stored, id, qflags);
      TickPeers(own, v, act, Switched(v, own, act.now, act.stored));
    }
  }

  lemma RefreshLooks(v: View, now: int, id: NodeId, qflags: Word)
    requires v.Fits() && Waits(v, id, qflags)
    ensures Underway(Refreshing(v, now), id, qflags, now)
  {
    SearchBegun(v, now, id);
    var q, qs := LookupFor(id, v.peers[id], v.node.table, now), Refreshing(v, now).node.queries;
    var i :| 0 <= i < |qs| && qs[i] == q;
  }

  /** The node's tick does not end it. */
  lemma TickLooks(v: Node.NodeView, fs: seq<NodeId>, now: int, extras: seq<Node.Out>, id: NodeId, flags: Word, ts: int)
    requires |v.queries| <= |fs| && Looking(v.queries, id, flags, ts)
    ensures Looking(Node.Ticked(v, fs, now, extras).queries, id, flags, ts)
  {
    RotatedLooks(v.queries, fs, now, Node.TickTurns(v, fs, now), id, flags, ts);
  }

  lemma RefreshStep(own: NodeId, v: View, act: Act)
    requires v.Fits() && act.Tick? && v.mode == Refresh
    ensures var w, r := Refreshing(v, act.now), Step(own, v, act);
            && r.peers == w.peers
            && r.node == Node.Ticked(w.node, Fillers(|w.node.queries|, act.fillers), act.now, act.extras)
  {
    SwitchedRefresh(v, own, act.now, act.stored);
    TickPeers(own, v, act, Refreshing(v, act.now).Enter(Active, act.now));
  }

  /** And at the refresh its lookup begins. */
  lemma RefreshBegins(own: NodeId, v: View, act: Act, id: NodeId, qflags: Word)
    requires v.Fits() && Waits(v, id, qflags) && act.Tick? && v.mode == Refresh
    ensures Underway(Step(own, v, act), id, qflags, act.now)
  {
    var w := Refreshing(v, act.now);
    RefreshLooks(v, act.now, id, qflags);
    RefreshStep(own, v, act);
    var fs := Fillers(|w.node.queries|, act.fillers);
    TickLooks(w.node, fs, act.now, act.extras, id, Or(qflags, DISGUISE), act.now);
  }

  ghost predicate Underway(v: View, id: NodeId, qflags: Word, now: int) {
    id in v.peers && v.peers[id].status == Querying && Looking(v.node.queries, id, Or(qflags, DISGUISE), now)
  }

  /** In that act the lookup for the search begins. */
  ghost predicate BegunIn(own: NodeId, v: View, acts: seq<Act>, j: nat, id: NodeId, qflags: Word)
    requires v.Fits()
  {
    && j < |acts| && acts[j].Tick?
    && Run(own, v, acts[..j]).mode == Refresh && Waits(Run(own, v, acts[..j]), id, qflags)
    && Underway(Run(own, v, acts[..j + 1]), id, qflags, acts[j].now)
  }

  lemma RunOn(own: NodeId, v: View, acts: seq<Act>, j: nat)
    requires v.Fits() && j < |acts|
    ensures Run(own, v, acts[..j + 1]) == Run(own, Step(own, v, acts[0]), acts[1..][..j])
  {
    assert acts[..j + 1][0] == acts[0] && acts[..j + 1][1..] == acts[1..][..j];
  }

  lemma RunFirst(own: NodeId, v: View, acts: seq<Act>)
    requires v.Fits() && acts != []
    ensures Run(own, v, acts[..0]) == v && Run(own, v, acts[..1]) == Step(own, v, acts[0])
  {
    RunOn(own, v, acts, 0);
    assert acts[..0] == [] && acts[1..][..0] == [];
  }

  lemma BegunLater(own: NodeId, v: View, acts: seq<Act>, j: nat, id: NodeId, qflags: Word)
    requires v.Fits() && acts != [] && BegunIn(own, Step(own, v, acts[0]), acts[1..], j, id, qflags)
    ensures BegunIn(own, v, acts, j + 1, id, qflags)
  {
    RunOn(own, v, acts, j);
    RunOn(own, v, acts, j + 1);
  }

  lemma BegunNow(own: NodeId, v: View, acts: seq<Act>, id: NodeId, qflags: Word)
    requires v.Fits() && Waits(v, id, qflags) && acts != [] && acts[0].Tick? && v.mode == Refresh
    ensures BegunIn(own, v, acts, 0, id, qflags)
  {
    RefreshBegins(own, v, acts[0], id, qflags);
    RunFirst(own, v, acts);
  }

  lemma {:induction false} BegunFromRefresh(own: NodeId, v: View, acts: seq<Act>, id: NodeId, qflags: Word, k: nat)
    returns (j: nat)
    requires v.Fits() && Waits(v, id, qflags) && v.mode == Refresh
    requires k < |acts| && acts[k].Tick? && GiveUp(id) !in acts[..k]
    ensures j <= k && BegunIn(own, v, acts, j, id, qflags)
    decreases |acts|
  {
    if acts[0].Tick? {
      BegunNow(own, v, acts, id, qflags);
      j := 0;
    } else {
      assert acts[..k][0] == acts[0] && acts[..k][1..] == acts[1..][..k - 1];
      WaitsOn(own, v, acts[0], id, qflags);
      j := BegunFromRefresh(own, Step(own, v, acts[0]), acts[1..], id, qflags, k - 1);
      BegunLater(own, v, acts, j, id, qflags);
      j := j + 1;
    }
  }

  /** While the manager is active, a search that waits has its lookup begun by the tick after
      the first one that comes more than ten seconds after the mode was entered, whatever
      happens in between, unless it is given up. */
  lemma {:induction false} WaitingBegun(own: NodeId, v: View, acts: seq<Act>, id: NodeId, qflags: Word,
                                        i: nat, k: nat) returns (j: nat)
    requires v.Fits() && Waits(v, id, qflags) && v.mode == Active
    requires i < k < |acts| && acts[i].Tick? && acts[k].Tick? && GiveUp(id) !in acts[..k]
    requires acts[i].now - v.modeTS > MAX_REFRESH_TIME
    ensures j <= k && BegunIn(own, v, acts, j, id, qflags)
    decreases |acts|
  {
    assert acts[..k][0] == acts[0] && acts[..k][1..] == acts[1..][..k - 1];
    WaitsOn(own, v, acts[0], id, qflags);
    var w := Step(own, v, acts[0]);
    if w.mode == Refresh {
      j := BegunFromRefresh(own, w, acts[1..], id, qflags, k - 1);
    } else {
      j := WaitingBegun(own, w, acts[1..], id, qflags, i - 1, k - 1);
    }
    BegunLater(own, v, acts, j, id, qflags);
    j := j + 1;
  }
}
