/** Hole punching: nodes broadcast which pair of peers wants to meet; whoever hears both ends
    tells them of each other; and a node punches toward the peers it has been told of. The
    network may lose, repeat and reorder everything. */
module Rendezvous {
  import opened Metric

  /** A node's part in the protocol: pairs asked for, addresses heard from, peers to punch. */
  datatype Meeting = Meeting(requests: map<NodeId, NodeId>, addrs: map<NodeId, Addr>, punching: seq<PeerId>)

  /** An ask_conn: where it is sent, whom it is for, whom to punch. */
  datatype Asking = Asking(dst: Addr, nodeId: NodeId, peer: PeerId)

  // ---------------------------------------------------------------- the handlers

  /** The meeting after a broadcast naming the sender and another peer. */
  function Noted(s: Meeting, from: PeerId, other: NodeId): Meeting {
    s.(requests := s.requests[from.id := other], addrs := s.addrs[from.id := from.addr])
  }

  /** What a node that hears a broadcast keeps, and what it sends. Of the two messages for a
      matched pair, the one that goes back to the sender carries the peer id of the broadcast
      as its addressee, whichever of the two the sender is. */
  function HearBroadcast(s: Meeting, from: PeerId, nodeId: NodeId, peerId: NodeId): (Meeting, seq<Asking>)
  {
    if from.id == nodeId then
      var t := Noted(s, from, peerId);
      if peerId in t.addrs then
        var peer := PeerId(peerId, t.addrs[peerId]);
        (t, [Asking(peer.addr, peerId, from), Asking(from.addr, peerId, peer)])
      else (t, [])
    else if from.id == peerId then
      var t := Noted(s, from, nodeId);
      if nodeId in t.addrs then
        var peer := PeerId(nodeId, t.addrs[nodeId]);
        (t, [Asking(peer.addr, nodeId, from), Asking(from.addr, peerId, peer)])
      else (t, [])
    else (s, [])
  }

  /** What a node that hears an ask_conn keeps. */
  function HearAsk(s: Meeting, own: NodeId, nodeId: NodeId, peer: PeerId): Meeting {
    if own == nodeId && peer !in s.punching then s.(punching := s.punching + [peer]) else s
  }

  // ---------------------------------------------------------------- the network

  datatype Wire =
    | Broadcast(from: NodeId, src: Addr, dst: Addr, nodeId: NodeId, peerId: NodeId)
    | Invite(asking: Asking)

  /** All nodes, and every message ever sent: any of them may yet arrive, any number of times,
      in any order, or never. */
  datatype World = World(nodes: map<NodeId, Meeting>, sent: set<Wire>)

  datatype Event =
    | Request(x: NodeId, target: NodeId)
    | Announce(x: NodeId, src: Addr, dst: Addr, nodeId: NodeId)
    | Deliver(w: Wire)

  ghost predicate Enabled(owner: map<Addr, NodeId>, s: World, ev: Event)
  {
    match ev
    case Request(x, target) => x in s.nodes
    case Announce(x, src, dst, nodeId) =>
      x in s.nodes && nodeId in s.nodes[x].requests && src in owner && owner[src] == x
    case Deliver(w) =>
      && w in s.sent
      && var dst := if w.Invite? then w.asking.dst else w.dst;
         dst in owner && owner[dst] in s.nodes
  }

  function Invites(out: seq<Asking>): (r: set<Wire>)
  {
    set i | 0 <= i < |out| :: Invite(out[i])
  }

  function Next(owner: map<Addr, NodeId>, s: World, ev: Event): World
    requires Enabled(owner, s, ev)
  {
    match ev
    case Request(x, target) =>
      s.(nodes := s.nodes[x := s.nodes[x].(requests := s.nodes[x].requests[x := target])])
    case Announce(x, src, dst, nodeId) =>
      s.(sent := s.sent + {Broadcast(x, src, dst, nodeId, s.nodes[x].requests[nodeId])})
    case Deliver(Broadcast(from, src, dst, nodeId, peerId)) =>
      var r := owner[dst];
      var (t, out) := HearBroadcast(s.nodes[r], PeerId(from, src), nodeId, peerId);
      World(s.nodes[r := t], s.sent + Invites(out))
    case Deliver(Invite(a)) =>
      var r := owner[a.dst];
      s.(nodes := s.nodes[r := HearAsk(s.nodes[r], r, a.nodeId, a.peer)])
  }

  ghost predicate NothingSentYet(s: World)
  {
    s.sent == {} && forall x :: x in s.nodes ==> s.nodes[x] == Meeting(map[], map[], [])
  }

  ghost predicate Runs(owner: map<Addr, NodeId>, s: World, evs: seq<Event>, r: World)
    decreases |evs|
  {
    if evs == [] then s == r
    else Enabled(owner, s, evs[0]) && Runs(owner, Next(owner, s, evs[0]), evs[1..], r)
  }

  // ---------------------------------------------------------------- safety

  /** y has broadcast from address a. */
  ghost predicate SpokeFrom(s: World, y: NodeId, a: Addr)
  {
    exists w :: w in s.sent && w.Broadcast? && w.from == y && w.src == a
  }

  /** x or y has broadcast the pair of the two. */
  ghost predicate PairAnnounced(s: World, x: NodeId, y: NodeId)
  {
    exists w :: w in s.sent && w.Broadcast? && (w.from == x || w.from == y)
                && ((w.nodeId == x && w.peerId == y) || (w.nodeId == y && w.peerId == x))
  }

  ghost predicate Justified(s: World, x: NodeId, p: PeerId)
  {
    SpokeFrom(s, p.id, p.addr) && PairAnnounced(s, x, p.id)
  }

  ghost predicate NoRepeats(ps: seq<PeerId>)
  {
    forall i, j :: 0 <= i < j < |ps| ==> ps[i] != ps[j]
  }

  ghost predicate WireOk(owner: map<Addr, NodeId>, s: World, w: Wire)
  {
    match w
    case Broadcast(from, src, _, _, _) => src in owner && owner[src] == from
    case Invite(a) => a.dst in owner && owner[a.dst] == a.nodeId ==> Justified(s, a.nodeId, a.peer)
  }

  ghost predicate MeetingOk(s: World, x: NodeId, m: Meeting)
  {
    && (forall y :: y in m.addrs ==> SpokeFrom(s, y, m.addrs[y]))
    && (forall i :: 0 <= i < |m.punching| ==> Justified(s, x, m.punching[i]))
    && NoRepeats(m.punching)
  }

  ghost predicate Inv(owner: map<Addr, NodeId>, s: World)
  {
    && (forall w :: w in s.sent ==> WireOk(owner, s, w))
    && (forall x :: x in s.nodes ==> MeetingOk(s, x, s.nodes[x]))
  }

  /** Facts about what has been sent are never lost. */
  lemma JustifiedLater(s: World, r: World, x: NodeId, p: PeerId)
    requires s.sent <= r.sent && Justified(s, x, p)
    ensures Justified(r, x, p)
  {
    var w :| w in s.sent && w.Broadcast? && w.from == p.id && w.src == p.addr;
    assert w in r.sent;
    var v :| v in s.sent && v.Broadcast? && (v.from == x || v.from == p.id)
             && ((v.nodeId == x && v.peerId == p.id) || (v.nodeId == p.id && v.peerId == x));
    assert v in r.sent;
  }

  lemma MeetingLater(s: World, r: World, x: NodeId, m: Meeting)
    requires s.sent <= r.sent && MeetingOk(s, x, m)
    ensures MeetingOk(r, x, m)
  {
    forall y | y in m.addrs ensures SpokeFrom(r, y, m.addrs[y]) {
      var w :| w in s.sent && w.Broadcast? && w.from == y && w.src == m.addrs[y];
      assert w in r.sent;
    }
    forall i | 0 <= i < |m.punching| ensures Justified(r, x, m.punching[i]) {
      JustifiedLater(s, r, x, m.punching[i]);
    }
  }

  lemma WireLater(owner: map<Addr, NodeId>, s: World, r: World, w: Wire)
    requires s.sent <= r.sent && WireOk(owner, s, w)
    ensures WireOk(owner, r, w)
  {
    if w.Invite? && w.asking.dst in owner && owner[w.asking.dst] == w.asking.nodeId {
      JustifiedLater(s, r, w.asking.nodeId, w.asking.peer);
    }
  }

  /** Hearing a broadcast keeps the hearer's records true, and what it then sends is only
      acceptable to someone for whom it is true. */
  lemma HeardOk(owner: map<Addr, NodeId>, s: World, m: Meeting, x: NodeId, w: Wire)
    requires w in s.sent && w.Broadcast? && WireOk(owner, s, w) && MeetingOk(s, x, m)
    ensures var (t, out) := HearBroadcast(m, PeerId(w.from, w.src), w.nodeId, w.peerId);
            MeetingOk(s, x, t) && forall i :: 0 <= i < |out| ==> WireOk(owner, s, Invite(out[i]))
  {
    var from := PeerId(w.from, w.src);
    var (t, out) := HearBroadcast(m, from, w.nodeId, w.peerId);
    assert SpokeFrom(s, w.from, w.src);
    if w.from == w.nodeId || w.from == w.peerId {
      var other := if w.from == w.nodeId then w.peerId else w.nodeId;
      assert PairAnnounced(s, other, w.from) && PairAnnounced(s, w.from, other);
    }
  }

  lemma AskHeardOk(s: World, m: Meeting, own: NodeId, a: Asking)
    requires MeetingOk(s, own, m) && (own == a.nodeId ==> Justified(s, own, a.peer))
    ensures MeetingOk(s, own, HearAsk(m, own, a.nodeId, a.peer))
  {
  }

  lemma InvLater(owner: map<Addr, NodeId>, s: World, r: World, x: NodeId)
    requires Inv(owner, s) && s.sent <= r.sent && s.nodes.Keys == r.nodes.Keys
    requires forall y :: y in s.nodes && y != x ==> r.nodes[y] == s.nodes[y]
    requires forall w :: w in r.sent && w !in s.sent ==> WireOk(owner, r, w)
    requires x in r.nodes ==> MeetingOk(r, x, r.nodes[x])
    ensures Inv(owner, r)
  {
    forall w | w in r.sent ensures WireOk(owner, r, w) {
      if w in s.sent {
        WireLater(owner, s, r, w);
      }
    }
    forall y | y in r.nodes ensures MeetingOk(r, y, r.nodes[y]) {
      if y != x {
        MeetingLater(s, r, y, s.nodes[y]);
      }
    }
  }

  lemma NextKeeps(owner: map<Addr, NodeId>, s: World, ev: Event)
    requires Inv(owner, s) && Enabled(owner, s, ev)
    ensures Inv(owner, Next(owner, s, ev))
  {
    var r := Next(owner, s, ev);
    match ev
    case Request(x, target) =>
      InvLater(owner, s, r, x);
    case Announce(x, src, dst, nodeId) =>
      MeetingLater(s, r, x, s.nodes[x]);
      InvLater(owner, s, r, x);
    case Deliver(Broadcast(from, src, dst, nodeId, peerId)) =>
      DeliverKeeps(owner, s, ev.w);
    case Deliver(Invite(a)) =>
      var x := owner[a.dst];
      assert WireOk(owner, s, ev.w);
      AskHeardOk(s, s.nodes[x], x, a);
      MeetingLater(s, r, x, r.nodes[x]);
      InvLater(owner, s, r, x);
  }

  lemma DeliverKeeps(owner: map<Addr, NodeId>, s: World, w: Wire)
    requires Inv(owner, s) && Enabled(owner, s, Deliver(w)) && w.Broadcast?
    ensures Inv(owner, Next(owner, s, Deliver(w)))
  {
    var r := Next(owner, s, Deliver(w));
    var x := owner[w.dst];
    var (t, out) := HearBroadcast(s.nodes[x], PeerId(w.from, w.src), w.nodeId, w.peerId);
    HeardOk(owner, s, s.nodes[x], x, w);
    MeetingLater(s, r, x, t);
    forall v | v in r.sent && v !in s.sent ensures WireOk(owner, r, v) {
      var i :| 0 <= i < |out| && v == Invite(out[i]);
      WireLater(owner, s, r, Invite(out[i]));
    }
    InvLater(owner, s, r, x);
  }

  lemma {:induction false} RunsKeep(owner: map<Addr, NodeId>, s: World, evs: seq<Event>, r: World)
    requires Inv(owner, s) && Runs(owner, s, evs, r)
    ensures Inv(owner, r)
    decreases |evs|
  {
    if evs == [] {
    } else {
      NextKeeps(owner, s, evs[0]);
      RunsKeep(owner, Next(owner, s, evs[0]), evs[1..], r);
    }
  }

  /** In every run: a node punches toward y at an address only if y broadcast from there and
      one of the two broadcast that they want to meet; and it holds no peer twice. */
  lemma PunchingSafe(owner: map<Addr, NodeId>, s: World, evs: seq<Event>, r: World, x: NodeId, i: nat)
    requires NothingSentYet(s) && Runs(owner, s, evs, r)
    requires x in r.nodes && i < |r.nodes[x].punching|
    ensures SpokeFrom(r, r.nodes[x].punching[i].id, r.nodes[x].punching[i].addr)
    ensures PairAnnounced(r, x, r.nodes[x].punching[i].id)
    ensures NoRepeats(r.nodes[x].punching)
  {
    RunsKeep(owner, s, evs, r);
    assert MeetingOk(r, x, r.nodes[x]);
  }

  // ---------------------------------------------------------------- progress

  /** The broadcast names a and its own sender. */
  predicate Names(w: Wire, a: NodeId)
  {
    w.Broadcast? && w.from != a && ((w.nodeId == w.from && w.peerId == a) || (w.peerId == w.from && w.nodeId == a))
  }

  /** The message that tells a of the sender of w. */
  function Telling(s: World, x: NodeId, w: Wire, a: NodeId): Wire
    requires w.Broadcast? && x in s.nodes && a in s.nodes[x].addrs
  {
    Invite(Asking(s.nodes[x].addrs[a], a, PeerId(w.from, w.src)))
  }

  /** Once a node has recorded a's address, every broadcast naming a that it handles makes it
      send a the sender's address, to a place a owns. */
  lemma BroadcastTells(owner: map<Addr, NodeId>, s: World, w: Wire, a: NodeId)
    requires Inv(owner, s) && Enabled(owner, s, Deliver(w)) && Names(w, a)
    requires a in s.nodes[owner[w.dst]].addrs
    ensures var t := Telling(s, owner[w.dst], w, a);
            && t in Next(owner, s, Deliver(w)).sent
            && t.asking.dst in owner && owner[t.asking.dst] == a
  {
    var x := owner[w.dst];
    var (m, out) := HearBroadcast(s.nodes[x], PeerId(w.from, w.src), w.nodeId, w.peerId);
    assert Invite(out[0]) == Telling(s, x, w, a) && Invite(out[0]) in Invites(out);
    assert MeetingOk(s, x, s.nodes[x]);
    assert SpokeFrom(s, a, s.nodes[x].addrs[a]);
    var v :| v in s.sent && v.Broadcast? && v.from == a && v.src == s.nodes[x].addrs[a];
    assert WireOk(owner, s, v);
  }

  /** Messages once sent can still arrive. */
  lemma {:induction false} SentStays(owner: map<Addr, NodeId>, s: World, evs: seq<Event>, r: World, w: Wire)
    requires Runs(owner, s, evs, r) && w in s.sent
    ensures w in r.sent && s.nodes.Keys == r.nodes.Keys
    decreases |evs|
  {
    if evs == [] {
    } else {
      SentStays(owner, Next(owner, s, evs[0]), evs[1..], r, w);
    }
  }

  /** Whenever that message is delivered, however much later, a punches toward the sender. */
  lemma ToldPunches(owner: map<Addr, NodeId>, s: World, w: Wire, a: NodeId, evs: seq<Event>, r: World)
    requires Inv(owner, s) && Enabled(owner, s, Deliver(w)) && Names(w, a)
    requires a in s.nodes && a in s.nodes[owner[w.dst]].addrs
    requires Runs(owner, Next(owner, s, Deliver(w)), evs, r)
    ensures var t := Telling(s, owner[w.dst], w, a);
            && Enabled(owner, r, Deliver(t))
            && PeerId(w.from, w.src) in Next(owner, r, Deliver(t)).nodes[a].punching
  {
    BroadcastTells(owner, s, w, a);
    SentStays(owner, Next(owner, s, Deliver(w)), evs, r, Telling(s, owner[w.dst], w, a));
  }

  /** The other half of a match: the sender is told of a only when it named itself second. */
  lemma SenderToldIff(owner: map<Addr, NodeId>, s: World, w: Wire, a: NodeId)
    requires Inv(owner, s) && w in s.sent && Enabled(owner, s, Deliver(w)) && Names(w, a)
    requires a in s.nodes[owner[w.dst]].addrs
    ensures var (_, out) := HearBroadcast(s.nodes[owner[w.dst]], PeerId(w.from, w.src), w.nodeId, w.peerId);
            (exists i :: 0 <= i < |out| && out[i].dst == w.src && out[i].nodeId == w.from && out[i].peer.id == a)
              <==> w.peerId == w.from
  {
    var (_, out) := HearBroadcast(s.nodes[owner[w.dst]], PeerId(w.from, w.src), w.nodeId, w.peerId);
    assert |out| == 2;
    assert out[1].peer.id == a && out[1].dst == w.src && out[1].nodeId == w.peerId;
    assert out[0].nodeId == a;
  }

  /** B names itself first and A, whose address is known, second: what is sent to B's address
      names A as the one it is for, and B ignores it. */
  lemma SenderNotTold(a: PeerId, b: PeerId, at: Meeting)
    requires a.id != b.id
    ensures var (_, out) := HearBroadcast(Meeting(map[], map[a.id := a.addr], []), b, b.id, a.id);
            && |out| == 2 && out[1].dst == b.addr && out[1].peer == a
            && HearAsk(at, b.id, out[1].nodeId, out[1].peer) == at
  {
  }

  // ---------------------------------------------------------------- from end to end

  /** The broadcast names its sender and another. */
  predicate NamesSelf(w: Wire) {
    w.Broadcast? && (w.nodeId == w.from || w.peerId == w.from)
  }

  function OtherNamed(w: Wire): NodeId
    requires NamesSelf(w)
  {
    if w.nodeId == w.from then w.peerId else w.nodeId
  }

  /** Whoever handles a broadcast keeps the pair it names and the address it came from. */
  lemma Handled(owner: map<Addr, NodeId>, s: World, w: Wire)
    requires Enabled(owner, s, Deliver(w)) && NamesSelf(w)
    ensures var m := Next(owner, s, Deliver(w)).nodes[owner[w.dst]];
            && w.from in m.requests && m.requests[w.from] == OtherNamed(w)
            && w.from in m.addrs && m.addrs[w.from] == w.src
            && (forall y :: y in s.nodes[owner[w.dst]].addrs ==> y in m.addrs)
            && m.punching == s.nodes[owner[w.dst]].punching
  {
  }

  lemma NextKeepsAddr(owner: map<Addr, NodeId>, s: World, ev: Event, x: NodeId, a: NodeId)
    requires Enabled(owner, s, ev) && x in s.nodes && a in s.nodes[x].addrs
    ensures x in Next(owner, s, ev).nodes && a in Next(owner, s, ev).nodes[x].addrs
  {
  }

  /** An address once kept is kept, or replaced by a later one. */
  lemma {:induction false} AddrStays(owner: map<Addr, NodeId>, s: World, evs: seq<Event>, r: World,
                                     x: NodeId, a: NodeId)
    requires Runs(owner, s, evs, r) && x in s.nodes && a in s.nodes[x].addrs
    ensures x in r.nodes && a in r.nodes[x].addrs
    decreases |evs|
  {
    if evs == [] {
    } else {
      NextKeepsAddr(owner, s, evs[0], x, a);
      AddrStays(owner, Next(owner, s, evs[0]), evs[1..], r, x, a);
    }
  }

  /** Only those who were there at the start have spoken. */
  ghost predicate Speakers(s: World)
  {
    forall w :: w in s.sent && w.Broadcast? ==> w.from in s.nodes
  }

  lemma NextSpeakers(owner: map<Addr, NodeId>, s: World, ev: Event)
    requires Speakers(s) && Enabled(owner, s, ev)
    ensures Speakers(Next(owner, s, ev))
  {
  }

  lemma {:induction false} RunSpeakers(owner: map<Addr, NodeId>, s: World, evs: seq<Event>, r: World)
    requires Speakers(s) && Runs(owner, s, evs, r)
    ensures Speakers(r)
    decreases |evs|
  {
    if evs == [] {
    } else {
      NextSpeakers(owner, s, evs[0]);
      RunSpeakers(owner, Next(owner, s, evs[0]), evs[1..], r);
    }
  }

  /** The message v goes to a place a owns and tells a of p. */
  ghost predicate Tells(owner: map<Addr, NodeId>, v: Wire, a: NodeId, p: PeerId)
  {
    v.Invite? && v.asking.nodeId == a && v.asking.peer == p && v.asking.dst in owner && owner[v.asking.dst] == a
  }

  /** The message v goes to where w came from, for whomever w names as its peer, with an address
      from which a spoke. */
  ghost predicate Returns(s: World, v: Wire, w: Wire, a: NodeId)
    requires w.Broadcast?
  {
    && v.Invite? && v.asking.dst == w.src && v.asking.nodeId == w.peerId
    && v.asking.peer.id == a && SpokeFrom(s, a, v.asking.peer.addr)
  }

  /** Having handled a broadcast of a, a node has an address of a from then on. */
  lemma AddrKnown(owner: map<Addr, NodeId>, s: World, before: seq<Event>, s1: World, w: Wire,
                  between: seq<Event>, s2: World)
    requires NothingSentYet(s) && Runs(owner, s, before, s1)
    requires Enabled(owner, s1, Deliver(w)) && NamesSelf(w)
    requires Runs(owner, Next(owner, s1, Deliver(w)), between, s2)
    ensures Inv(owner, s2) && w.from in s2.nodes
    ensures owner[w.dst] in s2.nodes && w.from in s2.nodes[owner[w.dst]].addrs
  {
    var t := Next(owner, s1, Deliver(w));
    RunsKeep(owner, s, before, s1);
    RunSpeakers(owner, s, before, s1);
    NextKeeps(owner, s1, Deliver(w));
    RunsKeep(owner, t, between, s2);
    Handled(owner, s1, w);
    AddrStays(owner, t, between, s2, owner[w.dst], w.from);
    SentStays(owner, t, between, s2, w);
  }

  lemma HandledTells(owner: map<Addr, NodeId>, s: World, w: Wire, a: NodeId, after: seq<Event>, r: World)
    returns (v: Wire)
    requires Inv(owner, s) && Enabled(owner, s, Deliver(w)) && Names(w, a) && a in s.nodes[owner[w.dst]].addrs
    requires Runs(owner, Next(owner, s, Deliver(w)), after, r)
    ensures v in r.sent && Tells(owner, v, a, PeerId(w.from, w.src)) && s.nodes.Keys == r.nodes.Keys
  {
    BroadcastTells(owner, s, w, a);
    v := Telling(s, owner[w.dst], w, a);
    SentStays(owner, Next(owner, s, Deliver(w)), after, r, v);
  }

  lemma HandledReturns(owner: map<Addr, NodeId>, s: World, w: Wire, a: NodeId, after: seq<Event>, r: World)
    returns (v: Wire)
    requires Inv(owner, s) && Enabled(owner, s, Deliver(w)) && Names(w, a) && a in s.nodes[owner[w.dst]].addrs
    requires Runs(owner, Next(owner, s, Deliver(w)), after, r)
    ensures v in r.sent && Returns(r, v, w, a)
  {
    v := Returned(owner, s, w, a);
    SentStays(owner, Next(owner, s, Deliver(w)), after, r, v);
    SpokeLater(owner, s, w, after, r, a, v.asking.peer.addr);
  }

  lemma TellsPunches(owner: map<Addr, NodeId>, s: World, v: Wire, a: NodeId, p: PeerId)
    requires v in s.sent && Tells(owner, v, a, p) && a in s.nodes
    ensures Enabled(owner, s, Deliver(v)) && p in Next(owner, s, Deliver(v)).nodes[a].punching
  {
  }

  /** The same node has handled a broadcast that a sent naming itself, and then one that b sent
      naming itself and a. From any start in which nothing has been sent, whatever happens
      before, between and after: a message has been sent that tells a of b where b spoke from;
      whenever it arrives a punches toward b; and a second message was returned to b. */
  lemma Matched(owner: map<Addr, NodeId>, s: World, before: seq<Event>, s1: World, wa: Wire,
                between: seq<Event>, s2: World, wb: Wire, after: seq<Event>, r: World)
    returns (v: Wire, back: Wire)
    requires NothingSentYet(s) && Runs(owner, s, before, s1)
    requires Enabled(owner, s1, Deliver(wa)) && NamesSelf(wa)
    requires Runs(owner, Next(owner, s1, Deliver(wa)), between, s2)
    requires Enabled(owner, s2, Deliver(wb)) && Names(wb, wa.from) && owner[wb.dst] == owner[wa.dst]
    requires Runs(owner, Next(owner, s2, Deliver(wb)), after, r)
    ensures v in r.sent && Tells(owner, v, wa.from, PeerId(wb.from, wb.src))
    ensures Enabled(owner, r, Deliver(v))
    ensures PeerId(wb.from, wb.src) in Next(owner, r, Deliver(v)).nodes[wa.from].punching
    ensures back in r.sent && Returns(r, back, wb, wa.from)
  {
    AddrKnown(owner, s, before, s1, wa, between, s2);
    v := HandledTells(owner, s2, wb, wa.from, after, r);
    TellsPunches(owner, r, v, wa.from, PeerId(wb.from, wb.src));
    back := HandledReturns(owner, s2, wb, wa.from, after, r);
  }

  lemma Returned(owner: map<Addr, NodeId>, s: World, w: Wire, a: NodeId) returns (v: Wire)
    requires Inv(owner, s) && Enabled(owner, s, Deliver(w)) && Names(w, a) && a in s.nodes[owner[w.dst]].addrs
    ensures v in Next(owner, s, Deliver(w)).sent && v.Invite? && v.asking.dst == w.src
    ensures v.asking.nodeId == w.peerId && v.asking.peer.id == a && SpokeFrom(s, a, v.asking.peer.addr)
  {
    var m := s.nodes[owner[w.dst]];
    var (_, out) := HearBroadcast(m, PeerId(w.from, w.src), w.nodeId, w.peerId);
    v := Invite(out[1]);
    assert v in Invites(out) && MeetingOk(s, owner[w.dst], m);
  }

  lemma SpokeLater(owner: map<Addr, NodeId>, s: World, w: Wire, evs: seq<Event>, r: World, a: NodeId, at: Addr)
    requires Enabled(owner, s, Deliver(w)) && Runs(owner, Next(owner, s, Deliver(w)), evs, r) && SpokeFrom(s, a, at)
    ensures SpokeFrom(r, a, at)
  {
    var v :| v in s.sent && v.Broadcast? && v.from == a && v.src == at;
    assert v in Next(owner, s, Deliver(w)).sent;
    SentStays(owner, Next(owner, s, Deliver(w)), evs, r, v);
  }

  lemma NextKeepsPunching(owner: map<Addr, NodeId>, s: World, ev: Event, x: NodeId, p: PeerId)
    requires Enabled(owner, s, ev) && x in s.nodes && p in s.nodes[x].punching
    ensures x in Next(owner, s, ev).nodes && p in Next(owner, s, ev).nodes[x].punching
    ensures s.nodes[x].punching <= Next(owner, s, ev).nodes[x].punching
  {
  }

  /** The second message makes b punch toward a if b named itself second, and is ignored if not. */
  lemma ReturnedPunches(owner: map<Addr, NodeId>, s: World, w: Wire, a: NodeId, back: Wire)
    requires Names(w, a) && back in s.sent && Returns(s, back, w, a)
    requires w.src in owner && owner[w.src] == w.from && w.from in s.nodes
    ensures Enabled(owner, s, Deliver(back))
    ensures var m := Next(owner, s, Deliver(back)).nodes[w.from];
            if w.peerId == w.from then back.asking.peer in m.punching else m == s.nodes[w.from]
  {
  }

  /** Whoever punches toward a peer goes on doing so. */
  lemma {:induction false} PunchingStays(owner: map<Addr, NodeId>, s: World, evs: seq<Event>, r: World,
                                         x: NodeId, p: PeerId)
    requires Runs(owner, s, evs, r) && x in s.nodes && p in s.nodes[x].punching
    ensures x in r.nodes && p in r.nodes[x].punching
    decreases |evs|
  {
    if evs == [] {
    } else {
      NextKeepsPunching(owner, s, evs[0], x, p);
      PunchingStays(owner, Next(owner, s, evs[0]), evs[1..], r, x, p);
    }
  }
}
