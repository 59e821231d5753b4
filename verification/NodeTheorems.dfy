/** What the schedule of a node guarantees, whom it answers with what, and from where its
    lookups start. */
module NodeTheorems {
  import opened Metric
  import opened Peers
  import opened Query
  import opened QueryTheorems
  import opened Lookups
  import opened Node
  import Multimap
  import Rendezvous
  import Space
  import SpaceTheorems

  // ---------------------------------------------------------------- the budget of a tick

  /** A tick sends at most fifty pings and requests; it passes a lookup over only when all
      fifty are spent, and at least five lookups, or all, have their turn. */
  lemma TickBudget(waiting: nat, qs: seq<State>, fs: seq<NodeId>, now: int)
    requires |qs| <= |fs|
    ensures var pings := PingCount(waiting);
            var turns := TurnsEnd(Asked(qs, fs, now), 0, MAX_MSGS - pings);
            var sent := pings + |Requests(Asked(qs, fs, now), turns)|;
            && sent <= MAX_MSGS
            && (turns < |qs| ==> sent == MAX_MSGS && turns >= MAX_MSGS - pings >= 5)
  {
    RequestsWithinBudget(Asked(qs, fs, now), 0, MAX_MSGS - PingCount(waiting));
  }

  // ---------------------------------------------------------------- fairness

  /** One tick, as far as the lookups go: what they were told when the messages that had come in
      were read, then the pings sent before their turns, the time and the randomness. */
  datatype Tick = Tick(heard: seq<Event>, pings: nat, now: int, fillers: seq<NodeId>)

  /** What being told does to a lookup. */
  type Telling = (State, seq<Event>) -> State

  ghost predicate Composes(tell: Telling)
  {
    forall q: State, a: seq<Event>, b: seq<Event> {:trigger tell(q, a + b)} :: tell(tell(q, a), b) == tell(q, a + b)
  }

  ghost predicate Fit(ts: seq<Tick>, n: nat)
  {
    forall i :: 0 <= i < |ts| ==> ts[i].pings <= ALLOWED_PINGS && n <= |ts[i].fillers|
  }

  /** What is heard is told to every lookup. */
  function Hear(tell: Telling, qs: seq<State>, heard: seq<Event>): (r: seq<State>)
    ensures |r| == |qs|
    ensures forall i :: 0 <= i < |r| ==> r[i] == tell(qs[i], heard)
  {
    seq(|qs|, i requires 0 <= i < |qs| => tell(qs[i], heard))
  }

  function Turns(qs: seq<State>, t: Tick): (n: nat)
    requires |qs| <= |t.fillers| && t.pings <= ALLOWED_PINGS
    ensures n <= |qs|
  {
    TurnsEnd(Asked(qs, t.fillers, t.now), 0, MAX_MSGS - t.pings)
  }

  /** The lookups after one tick. */
  function Advanced(tell: Telling, qs: seq<State>, t: Tick): (r: seq<State>)
    requires t.pings <= ALLOWED_PINGS && |qs| <= |t.fillers|
    ensures |r| == |qs|
  {
    var h := Hear(tell, qs, t.heard);
    Rotated(h, t.fillers, t.now, Turns(h, t))
  }

  /** The lookups after some ticks. */
  ghost function After(tell: Telling, qs: seq<State>, ts: seq<Tick>): (r: seq<State>)
    requires Fit(ts, |qs|)
    ensures |r| == |qs|
    decreases |ts|
  {
    if ts == [] then qs else After(tell, Advanced(tell, qs, ts[0]), ts[1..])
  }

  /** All turns taken in those ticks. */
  ghost function TurnsTaken(tell: Telling, qs: seq<State>, ts: seq<Tick>): nat
    requires Fit(ts, |qs|)
    decreases |ts|
  {
    if ts == [] then 0
    else Turns(Hear(tell, qs, ts[0].heard), ts[0]) + TurnsTaken(tell, Advanced(tell, qs, ts[0]), ts[1..])
  }

  /** All that was heard in those ticks. */
  function AllHeard(ts: seq<Tick>): seq<Event>
  {
    if ts == [] then [] else ts[0].heard + AllHeard(ts[1..])
  }

  /** The lookups when their turns begin in tick j. */
  ghost function ReadyIn(tell: Telling, qs: seq<State>, ts: seq<Tick>, j: nat): (r: seq<State>)
    requires Fit(ts, |qs|) && j < |ts|
    ensures |r| == |qs|
  {
    Hear(tell, After(tell, qs, ts[..j]), ts[j].heard)
  }

  /** In tick j, where it stands at `at`, the lookup that stood at p has its turn, changed by
      nothing but what it was told. */
  ghost predicate ServedIn(tell: Telling, qs: seq<State>, ts: seq<Tick>, p: nat, j: nat, at: nat)
    requires Fit(ts, |qs|) && p < |qs| && j < |ts|
  {
    && at + TurnsTaken(tell, qs, ts[..j]) == p
    && at < Turns(ReadyIn(tell, qs, ts, j), ts[j])
    && ReadyIn(tell, qs, ts, j)[at] == tell(qs[p], AllHeard(ts[..j + 1]))
  }

  /** Five lookups, or all, have their turn in a tick. */
  lemma FiveTurns(qs: seq<State>, t: Tick)
    requires |qs| <= |t.fillers| && t.pings <= ALLOWED_PINGS
    ensures Turns(qs, t) == |qs| || Turns(qs, t) >= 5
  {
    RequestsWithinBudget(Asked(qs, t.fillers, t.now), 0, MAX_MSGS - t.pings);
  }

  lemma AdvancedAt(tell: Telling, qs: seq<State>, t: Tick, i: nat, n: nat, k: nat)
    requires t.pings <= ALLOWED_PINGS && |qs| <= |t.fillers|
    requires n == Turns(Hear(tell, qs, t.heard), t) && k + n == i < |qs|
    ensures Advanced(tell, qs, t)[k] == tell(qs[i], t.heard)
  {
  }

  lemma TurnsSkip(tell: Telling, qs: seq<State>, next: seq<State>, ts: seq<Tick>, j: nat)
    requires Fit(ts, |qs|) && j < |ts| && next == Advanced(tell, qs, ts[0])
    ensures TurnsTaken(tell, qs, ts[..j + 1])
         == Turns(Hear(tell, qs, ts[0].heard), ts[0]) + TurnsTaken(tell, next, ts[1..][..j])
  {
    assert ts[..j + 1][0] == ts[0] && ts[..j + 1][1..] == ts[1..][..j];
  }

  lemma ReadySkip(tell: Telling, qs: seq<State>, next: seq<State>, ts: seq<Tick>, j: nat)
    requires Fit(ts, |qs|) && j + 1 < |ts| && next == Advanced(tell, qs, ts[0])
    ensures ReadyIn(tell, qs, ts, j + 1) == ReadyIn(tell, next, ts[1..], j)
  {
    assert ts[..j + 1][0] == ts[0] && ts[..j + 1][1..] == ts[1..][..j];
    assert After(tell, qs, ts[..j + 1]) == After(tell, next, ts[1..][..j]);
  }

  lemma HeardSkip(ts: seq<Tick>, j: nat)
    requires j < |ts|
    ensures AllHeard(ts[..j + 1]) == ts[0].heard + AllHeard(ts[1..][..j])
  {
    assert ts[..j + 1][0] == ts[0] && ts[..j + 1][1..] == ts[1..][..j];
  }

  lemma ServedLater(tell: Telling, qs: seq<State>, next: seq<State>, ts: seq<Tick>, rest: seq<Tick>,
                    p: nat, n: nat, k: nat, j: nat, at: nat)
    requires Composes(tell) && Fit(ts, |qs|) && p < |qs| && j + 1 < |ts|
    requires next == Advanced(tell, qs, ts[0]) && rest == ts[1..] && Fit(rest, |qs|)
    requires n == Turns(Hear(tell, qs, ts[0].heard), ts[0]) && k + n == p && ServedIn(tell, next, rest, k, j, at)
    ensures ServedIn(tell, qs, ts, p, j + 1, at)
  {
    TurnsSkip(tell, qs, next, ts, j);
    ReadySkip(tell, qs, next, ts, j);
    HeardSkip(ts, j + 1);
    AdvancedAt(tell, qs, ts[0], p, n, k);
    var heard := AllHeard(rest[..j + 1]);
    assert tell(tell(qs[p], ts[0].heard), heard) == tell(qs[p], ts[0].heard + heard);
  }

  lemma ServedAtOnce(tell: Telling, qs: seq<State>, ts: seq<Tick>, p: nat)
    requires Fit(ts, |qs|) && ts != [] && p < Turns(Hear(tell, qs, ts[0].heard), ts[0])
    ensures ServedIn(tell, qs, ts, p, 0, p)
  {
    HeardSkip(ts, 0);
    assert ts[..0] == [] && ts[1..][..0] == [];
    assert ts[0].heard + [] == ts[0].heard;
  }

  lemma FitRest(ts: seq<Tick>, n: nat)
    requires ts != [] && Fit(ts, n)
    ensures Fit(ts[1..], n)
  {
  }

  /** Whatever being told does to a lookup, one that stands at p has its turn within p / 5 + 1
      ticks. */
  lemma {:induction false} EveryLookupServedBy(tell: Telling, qs: seq<State>, ts: seq<Tick>, p: nat)
    returns (j: nat, at: nat)
    requires Composes(tell) && Fit(ts, |qs|) && p < |qs| && p < 5 * |ts|
    ensures j <= p / 5 && j < |ts| && ServedIn(tell, qs, ts, p, j, at)
    decreases |ts|
  {
    var n := Turns(Hear(tell, qs, ts[0].heard), ts[0]);
    if p < n {
      ServedAtOnce(tell, qs, ts, p);
      j, at := 0, p;
    } else {
      FiveTurns(Hear(tell, qs, ts[0].heard), ts[0]);
      FitRest(ts, |qs|);
      var next, rest, k := Advanced(tell, qs, ts[0]), ts[1..], p - n;
      var i;
      i, at := EveryLookupServedBy(tell, next, rest, k);
      ServedLater(tell, qs, next, ts, rest, p, n, k, i, at);
      j := i + 1;
    }
  }

  /** What being told does: the lookup machine runs. */
  ghost function Informed(q: State, evs: seq<Event>): State {
    if q.Valid() then Run(q, evs) else q
  }

  lemma InformedComposes()
    ensures Composes(Informed)
  {
    forall q: State, a: seq<Event>, b: seq<Event> ensures Informed(Informed(q, a), b) == Informed(q, a + b) {
      if q.Valid() {
        RunConcat(q, a, b);
      }
    }
  }

  /** A lookup that stands at p has its turn within p / 5 + 1 ticks, in the state that all it was
      told until then has brought it to: whatever messages come in, whatever the pings, the
      answers and the randomness, n lookups are all served within n / 5 ticks, rounded up. */
  lemma EveryLookupServed(qs: seq<State>, ts: seq<Tick>, p: nat) returns (j: nat, at: nat)
    requires Fit(ts, |qs|) && AllValid(qs) && p < |qs| && p < 5 * |ts|
    ensures j <= p / 5 && j < |ts|
    ensures var ready := ReadyIn(Informed, qs, ts, j);
            && at + TurnsTaken(Informed, qs, ts[..j]) == p
            && at < Turns(ready, ts[j])
            && ready[at] == Run(qs[p], AllHeard(ts[..j + 1]))
  {
    InformedComposes();
    j, at := EveryLookupServedBy(Informed, qs, ts, p);
  }

  /** The ticks of this schedule are those of a node: it holds afterwards the lookups so
      advanced. */
  lemma TickAdvances(tell: Telling, qs: seq<State>, heard: seq<Event>, v: NodeView, fs: seq<NodeId>, now: int,
                     extras: seq<Out>)
    requires |v.queries| <= |fs| && v.queries == Hear(tell, qs, heard)
    ensures Ticked(v, fs, now, extras).queries == Advanced(tell, qs, Tick(heard, PingCount(|v.potential|), now, fs))
  {
    assert Turns(v.queries, Tick(heard, PingCount(|v.potential|), now, fs)) == TickTurns(v, fs, now);
  }

  /** And what a node does to its lookups when a peer speaks or is named is to tell them so. */
  lemma NodeTells(qs: seq<State>, id: PeerId, flags: Word, ts: int, i: nat)
    requires i < |qs| && AllValid(qs)
    ensures Hear(Informed, qs, [Spoke(id, flags, ts)])[i] == Told(qs[i], id, flags, ts)
    ensures Hear(Informed, qs, [Named(id, 0, ts)])[i] == Hinted(qs[i], id, ts)
  {
    ToldOnce(qs[i], Spoke(id, flags, ts));
    ToldOnce(qs[i], Named(id, 0, ts));
  }

  lemma ToldOnce(q: State, ev: Event)
    requires q.Valid()
    ensures Run(q, [ev]) == Step(q, ev)
  {
    assert [ev][..0] == [];
    assert Run(q, []) == q;
  }

  // ---------------------------------------------------------------- remote queries

  /** Less than ten seconds old, and of a known type. */
  predicate Recent(q: RemoteQuery, now: int) {
    now - q.queryTS < 10 && (q.kind == Neighbours || q.kind == Hash)
  }

  /** At most one remote query is answered: the oldest that is younger than ten seconds and of
      a known type, if that asks for neighbours; and everything up to it has left the queue. */
  lemma AnsweredIff(t: Space.Table, qs: seq<RemoteQuery>, now: int, k: nat)
    requires k < |qs| && Recent(qs[k], now) && forall i :: 0 <= i < k ==> !Recent(qs[i], now)
    ensures Unread(qs, now) == qs[k + 1..]
    ensures Answers(t, qs, now) != [] <==> qs[k].kind == Neighbours
    ensures qs[k].kind == Neighbours ==>
              && |Answers(t, qs, now)| == 1
              && var a := Answers(t, qs, now)[0];
                 && a.SendNodes? && a.to == qs[k].id.addr && a.tid == qs[k].tid
                 && NearestOf(t, qs[k].query, 8, a.nodes)
  {
    assert FirstAnswerable(qs, now) == k;
    NearestOfTable(t, qs[k].query, 8);
  }

  /** With none such, the whole queue is dropped unanswered. */
  lemma NoneAnswered(t: Space.Table, qs: seq<RemoteQuery>, now: int)
    requires forall i :: 0 <= i < |qs| ==> !Recent(qs[i], now)
    ensures Unread(qs, now) == [] && Answers(t, qs, now) == []
  {
    assert FirstAnswerable(qs, now) == |qs|;
  }

  ghost function TableIds(t: Space.Table): set<PeerId> {
    set i | 0 <= i < |Space.Flatten(t)| :: Space.Flatten(t)[i].id
  }

  /** ids are peers of the table, as many as asked for or all, in order of distance, and no
      peer left out is nearer. */
  ghost predicate NearestOf(t: Space.Table, target: NodeId, number: nat, ids: seq<PeerId>)
  {
    && |ids| == (if number < |Space.Flatten(t)| then number else |Space.Flatten(t)|)
    && (forall i :: 0 <= i < |ids| ==> ids[i] in TableIds(t))
    && (forall i, j :: 0 <= i < j < |ids| ==> Dist(target, ids[i].id) <= Dist(target, ids[j].id))
    && (forall x, i :: x in TableIds(t) && x !in ids && 0 <= i < |ids| ==>
          Dist(target, ids[i].id) <= Dist(target, x.id))
  }

  lemma NearestOfTable(t: Space.Table, target: NodeId, number: nat)
    ensures NearestOf(t, target, number, Vals(Space.NearestNodes(t, target, number)))
  {
    var r := Space.NearestNodes(t, target, number);
    SpaceTheorems.NearestNodesCorrect(t, target, number);
    forall i | 0 <= i < |r| ensures r[i].key == Dist(target, r[i].val.id) && r[i].val in TableIds(t) {
      SpaceTheorems.NearestNodesKeyed(t, target, number, i);
    }
    forall x, i | x in TableIds(t) && x !in Vals(r) && 0 <= i < |r| ensures r[i].key <= Dist(target, x.id) {
      NearerAnswered(t, target, Space.ByDistance(target, Space.Flatten(t)), r, x, i);
    }
    KeyedNearest(t, target, number, r);
  }

  lemma KeyedNearest(t: Space.Table, target: NodeId, number: nat, r: Space.NodeMap)
    requires |r| == (if number < |Space.Flatten(t)| then number else |Space.Flatten(t)|) && Multimap.Sorted(r)
    requires forall i :: 0 <= i < |r| ==> r[i].key == Dist(target, r[i].val.id) && r[i].val in TableIds(t)
    requires forall x, i :: x in TableIds(t) && x !in Vals(r) && 0 <= i < |r| ==> r[i].key <= Dist(target, x.id)
    ensures NearestOf(t, target, number, Vals(r))
  {
  }

  lemma NearerAnswered(t: Space.Table, target: NodeId, all: Space.NodeMap, r: Space.NodeMap, x: PeerId, i: nat)
    requires all == Space.ByDistance(target, Space.Flatten(t)) && (exists rest :: SpaceTheorems.Splits(all, r, rest))
    requires x in TableIds(t) && x !in Vals(r) && i < |r|
    ensures r[i].key <= Dist(target, x.id)
  {
    var rest: Space.NodeMap :| SpaceTheorems.Splits(all, r, rest);
    var k :| 0 <= k < |all| && Space.Flatten(t)[k].id == x;
    LeftInRest(all, r, rest, k);
  }

  lemma LeftInRest(all: Space.NodeMap, r: Space.NodeMap, rest: Space.NodeMap, k: nat)
    requires SpaceTheorems.Splits(all, r, rest) && k < |all| && all[k].val !in Vals(r)
    ensures forall i :: 0 <= i < |r| ==> r[i].key <= all[k].key
  {
    assert all[k] in multiset(all);
    forall i | 0 <= i < |r| ensures r[i] != all[k] {
      assert Vals(r)[i] == r[i].val;
    }
    assert all[k] in multiset(rest);
    var j :| 0 <= j < |rest| && rest[j] == all[k];
  }

  // ---------------------------------------------------------------- lookups, end to end

  /** A list of all of start is the nearest of ids too, if start is that. */
  lemma NearestBeyond(m: FoundMap, target: NodeId, start: seq<PeerId>, ids: set<PeerId>)
    requires Shape(m, target) && |m| == |start| && DistinctIds(start)
    requires forall i :: 0 <= i < |m| ==> m[i].val.id in Members(start)
    requires Members(start) <= ids && |start| == if |ids| < NODES_PER_BUCKET then |ids| else NODES_PER_BUCKET
    requires forall x, i :: x in ids && x !in start && 0 <= i < |start| ==>
               Dist(target, start[i].id) <= Dist(target, x.id)
    ensures Nearest(m, target, ids)
  {
    AllHeld(m, start);
    forall x, i | x in ids && !Holds(m, x) && 0 <= i < |m| ensures m[i].key <= Dist(target, x.id) {
      var k :| 0 <= k < |start| && start[k] == m[i].val.id;
      assert x in start ==> x in Members(start);
    }
  }

  /** The list of a new lookup is the nearest ten peers of the whole table. */
  lemma StartNearest(own: NodeId, t: Space.Table, id: NodeId, flags: Word, now: int)
    requires SpaceTheorems.TableInv(own, t)
    ensures Nearest(Initial(id, StartList(t, id), flags, now).closest, id, TableIds(t))
  {
    var start := StartList(t, id);
    StartListFits(own, t, id);
    InitialNearest(id, start, now);
    InsertAllSize(id, start, now);
    NearestOfTable(t, id, QUERY_START_PEERS);
    TableIdsSize(own, t);
    NearestBeyond(Initial(id, start, flags, now).closest, id, start, TableIds(t));
  }

  lemma AllHeld(m: FoundMap, start: seq<PeerId>)
    requires Distinct(m) && |m| == |start| && DistinctIds(start)
    requires forall i :: 0 <= i < |m| ==> m[i].val.id in Members(start)
    ensures forall x :: x in Members(start) ==> Holds(m, x)
  {
    IdSetSize(m);
    MembersSize(start);
    assert IdSet(m) <= Members(start);
    if exists x :: x in Members(start) && !Holds(m, x) {
      var x :| x in Members(start) && !Holds(m, x);
      SubsetSize(IdSet(m), Members(start) - {x});
    }
  }

  lemma {:induction false} MembersSize(start: seq<PeerId>)
    requires DistinctIds(start)
    ensures |Members(start)| == |start|
  {
    if start == [] {
    } else {
      MembersLast(start);
      MembersSize(start[..|start| - 1]);
    }
  }

  lemma TableIdsSize(own: NodeId, t: Space.Table)
    requires SpaceTheorems.TableInv(own, t)
    ensures |TableIds(t)| == |Space.Flatten(t)|
  {
    SpaceTheorems.FlattenDistinct(own, t, |t|);
    assert t[..|t|] == t;
    FlatIdsSize(Space.Flatten(t));
  }

  lemma {:induction false} FlatIdsSize(ps: seq<Peer>)
    requires SpaceTheorems.DistinctFlat(ps)
    ensures |set i | 0 <= i < |ps| :: ps[i].id| == |ps|
  {
    if ps == [] {
    } else {
      var n := |ps| - 1;
      FlatIdsSize(ps[..n]);
      var a, b := set i | 0 <= i < |ps| :: ps[i].id, set i | 0 <= i < |ps[..n]| :: ps[..n][i].id;
      assert a == b + {ps[n].id};
      assert ps[n].id !in b;
    }
  }

  /** A lookup that a node starts, and that never drops a silent peer, holds at every later
      moment the nearest ten among the peers the table held when it started and all that have
      spoken since. */
  lemma LookupHoldsNearest(own: NodeId, t: Space.Table, id: NodeId, flags: Word, now: int, evs: seq<Event>)
    requires SpaceTheorems.TableInv(own, t)
    requires NoDrops(Origin(id, StartList(t, id), flags, now).First(), evs)
    ensures Nearest(Run(Origin(id, StartList(t, id), flags, now).First(), evs).closest, id, TableIds(t) + Offered(evs))
  {
    StartListFits(own, t, id);
    StartNearest(own, t, id, flags, now);
    InitialNearest(id, StartList(t, id), now);
    RunNearestFrom(Origin(id, StartList(t, id), flags, now).First(), evs, TableIds(t));
  }

  // ---------------------------------------------------------------- announcements

  lemma {:induction false} AnnouncedToOne(at: Addr, pairs: seq<(NodeId, NodeId)>, to: Addr, x: NodeId, y: NodeId)
    ensures SendBroadcast(to, x, y) in Announcements(at, pairs) <==> at == to && (x, y) in pairs
  {
    if pairs == [] {
    } else {
      var n := |pairs| - 1;
      AnnouncedToOne(at, pairs[..n], to, x, y);
      assert pairs == pairs[..n] + [pairs[n]];
    }
  }

  ghost predicate AnyAt(peers: seq<PeerId>, to: Addr)
  {
    exists i :: 0 <= i < |peers| && peers[i].addr == to
  }

  lemma {:induction false} AnnouncedToAll(peers: seq<PeerId>, pairs: seq<(NodeId, NodeId)>,
                                          to: Addr, x: NodeId, y: NodeId)
    ensures SendBroadcast(to, x, y) in AllAnnouncements(peers, pairs) <==> AnyAt(peers, to) && (x, y) in pairs
  {
    if peers == [] {
    } else {
      var n := |peers| - 1;
      AnnouncedToAll(peers[..n], pairs, to, x, y);
      AnnouncedToOne(peers[n].addr, pairs, to, x, y);
      AnyAtLast(peers, to);
    }
  }

  lemma AnyAtLast(peers: seq<PeerId>, to: Addr)
    requires peers != []
    ensures AnyAt(peers, to) <==> AnyAt(peers[..|peers| - 1], to) || peers[|peers| - 1].addr == to
  {
  }

  lemma {:induction false} AskedAll(peers: seq<PeerId>, pairs: seq<(NodeId, NodeId)>, to: Addr)
    ensures SendAskMyIp(to) in AllAnnouncements(peers, pairs) <==> AnyAt(peers, to)
  {
    if peers == [] {
    } else {
      AskedAll(peers[..|peers| - 1], pairs, to);
      AskedOne(peers[|peers| - 1].addr, pairs, to);
      AnyAtLast(peers, to);
    }
  }

  lemma AskedOne(at: Addr, pairs: seq<(NodeId, NodeId)>, to: Addr)
    ensures SendAskMyIp(to) in Announcements(at, pairs) <==> at == to
  {
    var r := Announcements(at, pairs);
    assert r[0] == SendAskMyIp(at);
    forall i | 0 < i < |r| ensures r[i] != SendAskMyIp(to) {
      assert r[1 + (i - 1)] == SendBroadcast(at, pairs[i - 1].0, pairs[i - 1].1);
    }
  }

  /** What a node announces is what the network model lets it announce: exactly the pairs it
      has recorded, to exactly the peers it knows. */
  lemma AnnouncedIff(peers: seq<PeerId>, m: Rendezvous.Meeting, to: Addr, x: NodeId, y: NodeId)
    ensures SendBroadcast(to, x, y) in AllAnnouncements(peers, PairsOf(m.requests))
       <==> AnyAt(peers, to) && x in m.requests && m.requests[x] == y
  {
    AnnouncedToAll(peers, PairsOf(m.requests), to, x, y);
    ListsMembers(PairsOf(m.requests), m.requests, x, y);
  }
}
