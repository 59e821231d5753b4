/** What a tick of a node puts on the wire: whom each lookup asks and for what, who is pinged,
    and what each lookup has become. */
module NodeWire {
  import opened Metric
  import opened Peers
  import opened Query
  import opened QueryHistory
  import opened Lookups
  import opened Rendezvous
  import opened Node
  import NodeTheorems
  import SpaceTheorems

  /** What a tick adds to the messages. */
  ghost function Sent(v: NodeView, fs: seq<NodeId>, now: int, count: nat, known: seq<PeerId>, m: Meeting): seq<Out>
    requires |v.queries| <= |fs|
  {
    Ticked(v, fs, now, Extras(count, known, m)).outgoing[|v.outgoing|..]
  }

  lemma SentIs(v: NodeView, fs: seq<NodeId>, now: int, count: nat, known: seq<PeerId>, m: Meeting)
    requires |v.queries| <= |fs|
    ensures Sent(v, fs, now, count, known, m) == TickSends(v, fs, now) + Extras(count, known, m)
    ensures Ticked(v, fs, now, Extras(count, known, m)).outgoing == v.outgoing + Sent(v, fs, now, count, known, m)
  {
  }

  // ---------------------------------------------------------------- requests

  /** The find_node messages, in order. */
  function FindNodes(out: seq<Out>): (r: seq<Out>)
  {
    if out == [] then []
    else FindNodes(out[..|out| - 1]) + if out[|out| - 1].SendFindNode? then [out[|out| - 1]] else []
  }

  lemma {:induction false} FindNodesJoin(a: seq<Out>, b: seq<Out>)
    ensures FindNodes(a + b) == FindNodes(a) + FindNodes(b)
  {
    if b == [] {
      assert a + b == a;
    } else {
      FindNodesJoin(a, b[..|b| - 1]);
      assert (a + b)[..|a + b| - 1] == a + b[..|b| - 1];
    }
  }

  lemma {:induction false} NoFindNodes(out: seq<Out>)
    requires forall i :: 0 <= i < |out| ==> !out[i].SendFindNode?
    ensures FindNodes(out) == []
  {
    if out == [] {
    } else {
      NoFindNodes(out[..|out| - 1]);
    }
  }

  lemma {:induction false} AllFindNodes(asks: seq<Option<(PeerId, NodeId)>>, k: nat)
    requires k <= |asks|
    ensures FindNodes(Requests(asks, k)) == Requests(asks, k)
  {
    if k == 0 {
    } else {
      AllFindNodes(asks, k - 1);
      FindNodesJoin(Requests(asks, k - 1), RequestOf(asks[k - 1]));
      NoneOrOne(asks[k - 1]);
    }
  }

  lemma NoneOrOne(ask: Option<(PeerId, NodeId)>)
    ensures FindNodes(RequestOf(ask)) == RequestOf(ask)
  {
    if ask.Some? {
      assert RequestOf(ask)[..0] == [];
    }
  }

  lemma {:induction false} NoRequestIn(peers: seq<PeerId>, pairs: seq<(NodeId, NodeId)>)
    ensures forall i :: 0 <= i < |AllAnnouncements(peers, pairs)| ==>
              var o := AllAnnouncements(peers, pairs)[i]; o.SendAskMyIp? || o.SendBroadcast?
  {
    if peers == [] {
    } else {
      NoRequestIn(peers[..|peers| - 1], pairs);
      AnnouncementKinds(peers[|peers| - 1].addr, pairs);
    }
  }

  lemma AnnouncementKinds(to: Addr, pairs: seq<(NodeId, NodeId)>)
    ensures forall i :: 0 <= i < |Announcements(to, pairs)| ==>
              var o := Announcements(to, pairs)[i]; o.SendAskMyIp? || o.SendBroadcast?
  {
    forall i | 0 <= i < |Announcements(to, pairs)|
      ensures var o := Announcements(to, pairs)[i]; o.SendAskMyIp? || o.SendBroadcast?
    {
      if i > 0 {
        assert Announcements(to, pairs)[1 + (i - 1)] == SendBroadcast(to, pairs[i - 1].0, pairs[i - 1].1);
      }
    }
  }

  lemma {:induction false} PunchKinds(ps: seq<PeerId>, times: nat)
    ensures forall i :: 0 <= i < |Punches(ps, times)| ==> Punches(ps, times)[i].SendPing?
  {
    if ps == [] {
    } else {
      PunchKinds(ps[..|ps| - 1], times);
    }
  }

  lemma TickRequests(v: NodeView, fs: seq<NodeId>, now: int, count: nat, known: seq<PeerId>, m: Meeting)
    requires |v.queries| <= |fs|
    ensures FindNodes(Sent(v, fs, now, count, known, m)) == Requests(Asked(v.queries, fs, now), TickTurns(v, fs, now))
  {
    SentIs(v, fs, now, count, known, m);
    RequestsOnly(v, fs, now);
    ExtraKinds(count, known, m);
    NoFindNodes(Extras(count, known, m));
    SkipsAfter(TickSends(v, fs, now), Extras(count, known, m));
  }

  lemma RequestsOnly(v: NodeView, fs: seq<NodeId>, now: int)
    requires |v.queries| <= |fs|
    ensures FindNodes(TickSends(v, fs, now)) == Requests(Asked(v.queries, fs, now), TickTurns(v, fs, now))
  {
    var p := Pings(v.potential[..PingCount(|v.potential|)]);
    var r := Requests(Asked(v.queries, fs, now), TickTurns(v, fs, now));
    var a, s := Answers(v.table, v.remote, now), Pings(SpaceTheorems.StaleIds(v.table, now));
    AllFindNodes(Asked(v.queries, fs, now), TickTurns(v, fs, now));
    PingsFindNone(v.potential[..PingCount(|v.potential|)]);
    AnswersFindNone(v, now);
    PingsFindNone(SpaceTheorems.StaleIds(v.table, now));
    OnlySecond(p, r, a, s);
  }

  lemma PingsFindNone(ids: seq<PeerId>)
    ensures FindNodes(Pings(ids)) == []
  {
    NoFindNodes(Pings(ids));
  }

  lemma AnswersFindNone(v: NodeView, now: int)
    ensures FindNodes(Answers(v.table, v.remote, now)) == []
  {
    NoFindNodes(Answers(v.table, v.remote, now));
  }

  lemma OnlySecond(p: seq<Out>, r: seq<Out>, a: seq<Out>, s: seq<Out>)
    requires FindNodes(p) == FindNodes(a) == FindNodes(s) == []
    ensures FindNodes(p + r + a + s) == FindNodes(r)
  {
    SkipsAfter(p + r + a, s);
    SkipsAfter(p + r, a);
    FindNodesJoin(p, r);
  }

  lemma SkipsAfter(a: seq<Out>, b: seq<Out>)
    requires FindNodes(b) == []
    ensures FindNodes(a + b) == FindNodes(a)
  {
    FindNodesJoin(a, b);
  }

  lemma ExtraKinds(count: nat, known: seq<PeerId>, m: Meeting)
    ensures forall i :: 0 <= i < |Extras(count, known, m)| ==> !Extras(count, known, m)[i].SendFindNode?
  {
    NoRequestIn(known, PairsOf(m.requests));
    PunchKinds(m.punching, PUNCH_TIMES);
  }

  /** idx lists, in order, those of the first k that ask. */
  ghost predicate Picks(idx: seq<nat>, asks: seq<Option<(PeerId, NodeId)>>, k: nat)
    requires k <= |asks|
  {
    && (forall i, j :: 0 <= i < j < |idx| ==> idx[i] < idx[j])
    && (forall j :: 0 <= j < |idx| ==> idx[j] < k && asks[idx[j]].Some?)
    && (forall i :: 0 <= i < k && asks[i].Some? ==> i in idx)
  }

  /** The requests are theirs. */
  ghost predicate Theirs(idx: seq<nat>, asks: seq<Option<(PeerId, NodeId)>>, out: seq<Out>)
    requires forall j :: 0 <= j < |idx| ==> idx[j] < |asks| && asks[idx[j]].Some?
  {
    && |out| == |idx|
    && forall j :: 0 <= j < |idx| ==> out[j] == SendFindNode(asks[idx[j]].value.0.addr, asks[idx[j]].value.1)
  }

  lemma {:induction false} RequestsTheirs(asks: seq<Option<(PeerId, NodeId)>>, k: nat) returns (idx: seq<nat>)
    requires k <= |asks|
    ensures Picks(idx, asks, k) && Theirs(idx, asks, Requests(asks, k))
  {
    if k == 0 {
      idx := [];
    } else {
      idx := RequestsTheirs(asks, k - 1);
      if asks[k - 1].Some? {
        PicksMore(idx, asks, k);
        TheirsMore(idx, asks, Requests(asks, k - 1), k - 1);
        idx := idx + [k - 1];
      } else {
        assert Requests(asks, k) == Requests(asks, k - 1) + [];
      }
    }
  }

  lemma TheirsMore(idx: seq<nat>, asks: seq<Option<(PeerId, NodeId)>>, out: seq<Out>, i: nat)
    requires i < |asks| && asks[i].Some?
    requires (forall j :: 0 <= j < |idx| ==> idx[j] < |asks| && asks[idx[j]].Some?) && Theirs(idx, asks, out)
    ensures Theirs(idx + [i], asks, out + RequestOf(asks[i]))
  {
  }

  lemma PicksMore(idx: seq<nat>, asks: seq<Option<(PeerId, NodeId)>>, k: nat)
    requires 0 < k <= |asks| && Picks(idx, asks, k - 1) && asks[k - 1].Some?
    ensures Picks(idx + [k - 1], asks, k)
  {
    forall i | 0 <= i < k && asks[i].Some? ensures i in idx + [k - 1] {
      if i == k - 1 {
        assert (idx + [k - 1])[|idx|] == i;
      }
    }
  }

  /** The message goes to the first peer of the lookup's list that is due a request, and names
      the target, or if the lookup is disguised an id in the target's direction. */
  ghost predicate RightRequest(out: Out, q: State, now: int, filler: NodeId)
  {
    exists n :: 0 <= n < |q.closest| && FirstOverdue(q, now, n) && out.SendFindNode?
                && out.to == q.closest[n].val.id.addr && NamesFor(q, filler, q.closest[n].val.id.id, out.target)
  }

  /** The find_node messages a tick sends are, in order, one for each lookup that has its turn
      and has someone to ask; each goes to whom it should and names what it should. */
  lemma RequestsRight(v: NodeView, fs: seq<NodeId>, now: int, count: nat, known: seq<PeerId>, m: Meeting)
    returns (idx: seq<nat>)
    requires |v.queries| <= |fs| && AllValid(v.queries)
    ensures forall i, j :: 0 <= i < j < |idx| ==> idx[i] < idx[j]
    ensures forall i: nat :: i in idx <==> i < TickTurns(v, fs, now) && HasSomeone(v.queries[i], now)
    ensures forall j :: 0 <= j < |idx| ==> idx[j] < TickTurns(v, fs, now)
    ensures |FindNodes(Sent(v, fs, now, count, known, m))| == |idx|
    ensures forall j :: 0 <= j < |idx| ==>
              RightRequest(FindNodes(Sent(v, fs, now, count, known, m))[j], v.queries[idx[j]], now, fs[idx[j]])
  {
    var asks, turns := Asked(v.queries, fs, now), TickTurns(v, fs, now);
    TickRequests(v, fs, now, count, known, m);
    idx := RequestsTheirs(asks, turns);
    forall i: nat | i < |v.queries| ensures asks[i].Some? <==> HasSomeone(v.queries[i], now) {
      AskedIs(v.queries, fs, now, i);
    }
    forall j | 0 <= j < |idx| ensures RightRequest(Requests(asks, turns)[j], v.queries[idx[j]], now, fs[idx[j]]) {
      RequestIs(v.queries, fs, now, idx[j]);
    }
  }

  lemma AskedIs(qs: seq<State>, fs: seq<NodeId>, now: int, i: nat)
    requires i < |qs| <= |fs| && qs[i].Valid()
    ensures Asked(qs, fs, now)[i].Some? <==> HasSomeone(qs[i], now)
  {
    TurnAt(qs, fs, now, i);
    AskIs(qs[i], now, fs[i]);
  }

  lemma RequestIs(qs: seq<State>, fs: seq<NodeId>, now: int, i: nat)
    requires i < |qs| <= |fs| && qs[i].Valid() && Asked(qs, fs, now)[i].Some?
    ensures var (peer, to) := Asked(qs, fs, now)[i].value;
            RightRequest(SendFindNode(peer.addr, to), qs[i], now, fs[i])
  {
    TurnAt(qs, fs, now, i);
    AskIs(qs[i], now, fs[i]);
  }

  lemma BudgetAtOnce(asks: seq<Option<(PeerId, NodeId)>>, budget: nat, n: nat)
    requires budget > 0 && n == TurnsEnd(asks, 0, budget)
    ensures n <= |asks| && |Requests(asks, n)| <= budget
    ensures n < |asks| ==> |Requests(asks, n)| == budget && n > 0 && asks[n - 1].Some?
  {
    RequestsWithinBudget(asks, 0, budget);
    LastTurnAsks(asks, 0, budget);
  }

  lemma TurnsAtOnce(v: NodeView, fs: seq<NodeId>, now: int)
    requires |v.queries| <= |fs|
    ensures var asks, turns := Asked(v.queries, fs, now), TickTurns(v, fs, now);
            var sent := PingCount(|v.potential|) + |Requests(asks, turns)|;
            sent <= 50 && (turns < |v.queries| ==> sent == 50 && turns > 0 && asks[turns - 1].Some?)
  {
    BudgetAtOnce(Asked(v.queries, fs, now), MAX_MSGS - PingCount(|v.potential|), TickTurns(v, fs, now));
  }

  /** A tick sends at most fifty pings and requests, and passes lookups over only when all fifty
      are spent, */
  lemma FiftyAtMost(v: NodeView, fs: seq<NodeId>, now: int, count: nat, known: seq<PeerId>, m: Meeting)
    requires |v.queries| <= |fs|
    ensures var sent := PingCount(|v.potential|) + |FindNodes(Sent(v, fs, now, count, known, m))|;
            sent <= 50 && (TickTurns(v, fs, now) < |v.queries| ==> sent == 50)
  {
    TickRequests(v, fs, now, count, known, m);
    TurnsAtOnce(v, fs, now);
  }

  /** and then at once: the last lookup that had its turn sent the fiftieth. */
  lemma PassedOverAtOnce(v: NodeView, fs: seq<NodeId>, now: int)
    requires |v.queries| <= |fs| && TickTurns(v, fs, now) < |v.queries|
    requires TickTurns(v, fs, now) > 0 ==> v.queries[TickTurns(v, fs, now) - 1].Valid()
    ensures TickTurns(v, fs, now) > 0 && HasSomeone(v.queries[TickTurns(v, fs, now) - 1], now)
  {
    TurnsAtOnce(v, fs, now);
    AskedIs(v.queries, fs, now, TickTurns(v, fs, now) - 1);
  }

  lemma {:induction false} LastTurnAsks(asks: seq<Option<(PeerId, NodeId)>>, i: nat, budget: nat)
    requires i <= |asks| && budget > 0
    ensures var n := TurnsEnd(asks, i, budget); n < |asks| ==> n > i && asks[n - 1].Some?
    decreases |asks| - i
  {
    if i == |asks| {
    } else if !asks[i].Some? || budget > 1 {
      LastTurnAsks(asks, i + 1, if asks[i].Some? then budget - 1 else budget);
    }
  }

  // ---------------------------------------------------------------- what becomes of the lookups

  /** Those that had their turn come last, in order, each after that turn; */
  lemma TurnTaken(v: NodeView, fs: seq<NodeId>, now: int, extras: seq<Out>, qs: seq<State>, turns: nat, i: nat)
    requires |v.queries| <= |fs| && i < turns == TickTurns(v, fs, now) && qs == Ticked(v, fs, now, extras).queries
    ensures |qs| == |v.queries| && qs[|qs| - turns + i] == Ask(v.queries[i], now, fs[i]).0
  {
    TurnAt(v.queries, fs, now, i);
    TakenAt(v.queries, Turned(v.queries, fs, now), turns, i, qs);
  }

  lemma TakenAt(qs: seq<State>, ts: seq<State>, k: nat, i: nat, r: seq<State>)
    requires |ts| == |qs| && i < k <= |qs| && r == qs[k..] + ts[..k]
    ensures |r| == |qs| && r[|r| - k + i] == ts[i]
  {
  }

  /** the others come first, untouched. */
  lemma TurnNotTaken(v: NodeView, fs: seq<NodeId>, now: int, extras: seq<Out>, qs: seq<State>, turns: nat, i: nat)
    requires |v.queries| <= |fs| && turns == TickTurns(v, fs, now) && qs == Ticked(v, fs, now, extras).queries
    requires turns <= i < |v.queries|
    ensures |qs| == |v.queries| && qs[i - turns] == v.queries[i]
  {
    LeftAt(v.queries, Turned(v.queries, fs, now), turns, i, qs);
  }

  lemma LeftAt(qs: seq<State>, ts: seq<State>, k: nat, i: nat, r: seq<State>)
    requires |ts| == |qs| && k <= i < |qs| && r == qs[k..] + ts[..k]
    ensures |r| == |qs| && r[i - k] == qs[i]
  {
  }

  // ---------------------------------------------------------------- pings

  /** How many pings go to the address. */
  function PingsTo(out: seq<Out>, a: Addr): nat
  {
    if out == [] then 0 else PingsTo(out[..|out| - 1], a) + if out[|out| - 1] == SendPing(a) then 1 else 0
  }

  /** How often it is among them. */
  function Times(ids: seq<PeerId>, a: Addr): nat
  {
    if ids == [] then 0 else Times(ids[..|ids| - 1], a) + if ids[|ids| - 1].addr == a then 1 else 0
  }

  lemma {:induction false} PingsToJoin(x: seq<Out>, y: seq<Out>, a: Addr)
    ensures PingsTo(x + y, a) == PingsTo(x, a) + PingsTo(y, a)
  {
    if y == [] {
      assert x + y == x;
    } else {
      PingsToJoin(x, y[..|y| - 1], a);
      assert (x + y)[..|x + y| - 1] == x + y[..|y| - 1];
    }
  }

  lemma {:induction false} NoPings(out: seq<Out>, a: Addr)
    requires forall i :: 0 <= i < |out| ==> !out[i].SendPing?
    ensures PingsTo(out, a) == 0
  {
    if out == [] {
    } else {
      NoPings(out[..|out| - 1], a);
    }
  }

  lemma {:induction false} PingsCount(ids: seq<PeerId>, a: Addr)
    ensures PingsTo(Pings(ids), a) == Times(ids, a)
  {
    if ids == [] {
    } else {
      PingsCount(ids[..|ids| - 1], a);
      assert Pings(ids)[..|ids| - 1] == Pings(ids[..|ids| - 1]);
    }
  }

  lemma {:induction false} ManyPings(n: nat, to: Addr, a: Addr)
    ensures PingsTo(seq(n, _ => SendPing(to)), a) == if to == a then n else 0
  {
    if n == 0 {
    } else {
      ManyPings(n - 1, to, a);
      assert seq(n, _ => SendPing(to))[..n - 1] == seq(n - 1, _ => SendPing(to));
    }
  }

  lemma OneMore(n: nat, k: nat)
    ensures n * (k + 1) == n * k + n && n * (k + 0) == n * k
  {
  }

  lemma {:induction false} PunchesCount(ps: seq<PeerId>, times: nat, a: Addr)
    ensures PingsTo(Punches(ps, times), a) == times * Times(ps, a)
  {
    if ps == [] {
    } else {
      var n := |ps| - 1;
      PunchesCount(ps[..n], times, a);
      ManyPings(times, ps[n].addr, a);
      OneMore(times, Times(ps[..n], a));
      PingsToJoin(Punches(ps[..n], times), seq(times, _ => SendPing(ps[n].addr)), a);
    }
  }

  lemma {:induction false} NoPingRequests(asks: seq<Option<(PeerId, NodeId)>>, k: nat)
    requires k <= |asks|
    ensures forall i :: 0 <= i < |Requests(asks, k)| ==> Requests(asks, k)[i].SendFindNode?
  {
    if k == 0 {
    } else {
      NoPingRequests(asks, k - 1);
    }
  }

  /** A tick pings the first forty-five of the waiting peers, or all, every stale peer of the
      table, and in every second tick each peer to be punched a hundred times; and no one else. */
  lemma PingsRight(v: NodeView, fs: seq<NodeId>, now: int, count: nat, known: seq<PeerId>, m: Meeting, a: Addr)
    requires |v.queries| <= |fs|
    ensures PingsTo(Sent(v, fs, now, count, known, m), a)
         == Times(v.potential[..if |v.potential| < 45 then |v.potential| else 45], a)
            + Times(SpaceTheorems.StaleIds(v.table, now), a)
            + if count % 2 == 0 then 100 * Times(m.punching, a) else 0
  {
    SentIs(v, fs, now, count, known, m);
    PingsToJoin(TickSends(v, fs, now), Extras(count, known, m), a);
    TickPings(v, fs, now, a);
    ExtraPings(count, known, m, a);
  }

  lemma TickPings(v: NodeView, fs: seq<NodeId>, now: int, a: Addr)
    requires |v.queries| <= |fs|
    ensures PingsTo(TickSends(v, fs, now), a)
         == Times(v.potential[..PingCount(|v.potential|)], a) + Times(SpaceTheorems.StaleIds(v.table, now), a)
  {
    var p := Pings(v.potential[..PingCount(|v.potential|)]);
    var r := Requests(Asked(v.queries, fs, now), TickTurns(v, fs, now));
    var n, s := Answers(v.table, v.remote, now), Pings(SpaceTheorems.StaleIds(v.table, now));
    PingsToAll(p, r, n, s, a);
    NoPingRequests(Asked(v.queries, fs, now), TickTurns(v, fs, now));
    NoPings(r, a);
    NoPings(n, a);
    PingsCount(v.potential[..PingCount(|v.potential|)], a);
    PingsCount(SpaceTheorems.StaleIds(v.table, now), a);
  }

  lemma PingsToAll(p: seq<Out>, r: seq<Out>, n: seq<Out>, s: seq<Out>, a: Addr)
    ensures PingsTo(p + r + n + s, a) == PingsTo(p, a) + PingsTo(r, a) + PingsTo(n, a) + PingsTo(s, a)
  {
    PingsToJoin(p + r + n, s, a);
    PingsToJoin(p + r, n, a);
    PingsToJoin(p, r, a);
  }

  lemma ExtraPings(count: nat, known: seq<PeerId>, m: Meeting, a: Addr)
    ensures PingsTo(Extras(count, known, m), a) == if count % 2 == 0 then 100 * Times(m.punching, a) else 0
  {
    var x := if count % BROADCAST_EVERY == 0 then AllAnnouncements(known, PairsOf(m.requests)) else [];
    var y := if count % PUNCH_EVERY == 0 then Punches(m.punching, PUNCH_TIMES) else [];
    NoRequestIn(known, PairsOf(m.requests));
    NoPings(x, a);
    PunchesCount(m.punching, PUNCH_TIMES, a);
    PingsToJoin(x, y, a);
  }

  // ---------------------------------------------------------------- announcements

  lemma InJoin(x: seq<Out>, y: seq<Out>, o: Out)
    ensures o in x + y <==> o in x || o in y
  {
  }

  /** In every tenth tick, and in no other, each recorded pair goes to each known peer. */
  lemma AnnouncedRight(v: NodeView, fs: seq<NodeId>, now: int, count: nat, known: seq<PeerId>, m: Meeting,
                       to: Addr, x: NodeId, y: NodeId)
    requires |v.queries| <= |fs|
    ensures SendBroadcast(to, x, y) in Sent(v, fs, now, count, known, m)
       <==> count % 10 == 0 && NodeTheorems.AnyAt(known, to) && x in m.requests && m.requests[x] == y
  {
    SentIs(v, fs, now, count, known, m);
    NoPingRequests(Asked(v.queries, fs, now), TickTurns(v, fs, now));
    PunchKinds(m.punching, PUNCH_TIMES);
    NodeTheorems.AnnouncedIff(known, m, to, x, y);
    InJoin(if count % BROADCAST_EVERY == 0 then AllAnnouncements(known, PairsOf(m.requests)) else [],
           if count % PUNCH_EVERY == 0 then Punches(m.punching, PUNCH_TIMES) else [], SendBroadcast(to, x, y));
    InJoin(TickSends(v, fs, now), Extras(count, known, m), SendBroadcast(to, x, y));
    NoBroadcast(v, fs, now, SendBroadcast(to, x, y));
  }

  lemma NoBroadcast(v: NodeView, fs: seq<NodeId>, now: int, o: Out)
    requires |v.queries| <= |fs| && (o.SendBroadcast? || o.SendAskMyIp?)
    ensures o !in TickSends(v, fs, now)
  {
    var p := Pings(v.potential[..PingCount(|v.potential|)]);
    var r := Requests(Asked(v.queries, fs, now), TickTurns(v, fs, now));
    var a, s := Answers(v.table, v.remote, now), Pings(SpaceTheorems.StaleIds(v.table, now));
    NoPingRequests(Asked(v.queries, fs, now), TickTurns(v, fs, now));
    InJoin(p + r + a, s, o);
    InJoin(p + r, a, o);
    InJoin(p, r, o);
  }

  /** And each known peer is asked for the own address then. */
  lemma AskedMyIpRight(v: NodeView, fs: seq<NodeId>, now: int, count: nat, known: seq<PeerId>, m: Meeting, to: Addr)
    requires |v.queries| <= |fs|
    ensures SendAskMyIp(to) in Sent(v, fs, now, count, known, m) <==> count % 10 == 0 && NodeTheorems.AnyAt(known, to)
  {
    SentIs(v, fs, now, count, known, m);
    PunchKinds(m.punching, PUNCH_TIMES);
    NodeTheorems.AskedAll(known, PairsOf(m.requests), to);
    InJoin(if count % BROADCAST_EVERY == 0 then AllAnnouncements(known, PairsOf(m.requests)) else [],
           if count % PUNCH_EVERY == 0 then Punches(m.punching, PUNCH_TIMES) else [], SendAskMyIp(to));
    InJoin(TickSends(v, fs, now), Extras(count, known, m), SendAskMyIp(to));
    NoBroadcast(v, fs, now, SendAskMyIp(to));
  }

  // ---------------------------------------------------------------- replies

  /** The replies to remote queries, in order. */
  function Replies(out: seq<Out>): (r: seq<Out>)
  {
    if out == [] then [] else Replies(out[..|out| - 1]) + if out[|out| - 1].SendNodes? then [out[|out| - 1]] else []
  }

  lemma {:induction false} RepliesJoin(a: seq<Out>, b: seq<Out>)
    ensures Replies(a + b) == Replies(a) + Replies(b)
  {
    if b == [] {
      assert a + b == a;
    } else {
      RepliesJoin(a, b[..|b| - 1]);
      assert (a + b)[..|a + b| - 1] == a + b[..|b| - 1];
    }
  }

  lemma {:induction false} NoReplies(out: seq<Out>)
    requires forall i :: 0 <= i < |out| ==> !out[i].SendNodes?
    ensures Replies(out) == []
  {
    if out == [] {
    } else {
      NoReplies(out[..|out| - 1]);
    }
  }

  lemma OnlyThird(p: seq<Out>, r: seq<Out>, a: seq<Out>, s: seq<Out>, e: seq<Out>)
    requires Replies(p) == Replies(r) == Replies(s) == Replies(e) == []
    ensures Replies((p + r + a + s) + e) == Replies(a)
  {
    RepliesJoin(p + r + a + s, e);
    RepliesJoin(p + r + a, s);
    RepliesJoin(p + r, a);
    RepliesJoin(p, r);
  }

  lemma AnswersReply(v: NodeView, now: int)
    ensures Replies(Answers(v.table, v.remote, now)) == Answers(v.table, v.remote, now)
  {
    var a := Answers(v.table, v.remote, now);
    if a != [] {
      assert a[..0] == [] && a == [a[0]];
    }
  }

  /** The replies a tick sends are those to the remote queries, one at most. */
  lemma RepliesRight(v: NodeView, fs: seq<NodeId>, now: int, count: nat, known: seq<PeerId>, m: Meeting)
    requires |v.queries| <= |fs|
    ensures Replies(Sent(v, fs, now, count, known, m)) == Answers(v.table, v.remote, now)
  {
    var p := Pings(v.potential[..PingCount(|v.potential|)]);
    var r := Requests(Asked(v.queries, fs, now), TickTurns(v, fs, now));
    var s := Pings(SpaceTheorems.StaleIds(v.table, now));
    SentIs(v, fs, now, count, known, m);
    NoPingRequests(Asked(v.queries, fs, now), TickTurns(v, fs, now));
    NoReplies(p);
    NoReplies(r);
    NoReplies(s);
    ExtrasReplyNone(count, known, m);
    AnswersReply(v, now);
    OnlyThird(p, r, Answers(v.table, v.remote, now), s, Extras(count, known, m));
  }

  lemma ExtrasReplyNone(count: nat, known: seq<PeerId>, m: Meeting)
    ensures Replies(Extras(count, known, m)) == []
  {
    NoRequestIn(known, PairsOf(m.requests));
    PunchKinds(m.punching, PUNCH_TIMES);
    NoReplies(Extras(count, known, m));
  }
}
