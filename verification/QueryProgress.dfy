/** How a lookup proceeds: whom it asks, how often, and when and how it ends. */
module QueryProgress {
  import opened Metric
  import opened Multimap
  import opened Peers
  import opened Query
  import opened QueryTheorems

  /** A lookup that does not idle asks the nearest peer it has never asked, if there is one,
      and no other; a disguised request names an id strictly nearer the target than the
      peer it goes to. */
  lemma AsksNearestNeverAsked(s: State, now: int, filler: NodeId)
    requires s.Valid() && s.status == Querying && !s.Idle()
    ensures var (r, ask) := Ask(s, now, filler);
            var n := NextIndex(s.closest, false, s.retryPeriod, now);
            && (ask.Some? <==> exists i :: 0 <= i < |s.closest| && s.closest[i].val.lastSend == 0)
            && (ask.Some? ==>
                 && n < |s.closest| && s.closest[n].val.lastSend == 0
                 && ask.value.0 == s.closest[n].val.id
                 && (forall i :: 0 <= i < |s.closest| && s.closest[i].val.lastSend == 0 ==>
                      s.closest[n].key <= s.closest[i].key)
                 && r.closest == s.closest[n := s.closest[n].(val := s.closest[n].val.(lastSend := now))])
            && (ask.None? ==> r.closest == s.closest)
  {
    var q := WithPeriod(s, now);
    assert q.closest == s.closest && !q.Idle();
    NextIndexUnasked(s.closest, s.retryPeriod, q.retryPeriod, now);
    var n := NextIndex(s.closest, false, s.retryPeriod, now);
    if n < |s.closest| {
      forall i | 0 <= i < |s.closest| && s.closest[i].val.lastSend == 0
        ensures s.closest[n].key <= s.closest[i].key
      {
        assert i >= n;
      }
    }
  }

  lemma {:induction false} NextIndexUnasked(m: FoundMap, p: int, q: int, now: int)
    ensures NextIndex(m, false, p, now) == NextIndex(m, false, q, now)
  {
    if m == [] {
    } else {
      NextIndexUnasked(m[1..], p, q, now);
    }
  }

  /** The id a request names is the target, or for a disguised lookup an id strictly nearer
      the target than the peer asked. */
  lemma NamesNearerId(s: State, now: int, filler: NodeId)
    requires Ask(s, now, filler).1.Some?
    ensures var (peer, to) := Ask(s, now, filler).1.value;
            to == s.target || (And(s.flags, DISGUISE) != 0 && Dist(s.target, to) < Dist(s.target, peer.id))
  {
    var peer := Ask(s, now, filler).1.value.0;
    if peer.id != s.target {
      MidIdNearer(s.target, peer.id, filler);
    } else {
      assert MidId(s.target, peer.id, filler) == s.target by {
        assert CommonPrefix(peer.id, peer.id) == KEY_LEN;
      }
    }
  }

  // ---------------------------------------------------------------- asked at most once

  /** Counting is for one peer, or for all of them. */
  predicate Counts(who: Option<PeerId>, id: PeerId) {
    who.None? || who.value == id
  }

  function Unasked(m: FoundMap, who: Option<PeerId>): (n: nat)
  {
    if m == [] then 0
    else
      var e := m[|m| - 1];
      Unasked(m[..|m| - 1], who) + if Counts(who, e.val.id) && e.val.lastSend == 0 then 1 else 0
  }

  lemma {:induction false} UnaskedConcat(a: FoundMap, b: FoundMap, who: Option<PeerId>)
    ensures Unasked(a + b, who) == Unasked(a, who) + Unasked(b, who)
  {
    if b == [] {
      assert a + b == a;
    } else {
      assert (a + b)[..|a + b| - 1] == a + b[..|b| - 1];
      UnaskedConcat(a, b[..|b| - 1], who);
    }
  }

  lemma {:induction false} UnaskedLive(m: FoundMap, ts: int, who: Option<PeerId>)
    ensures Unasked(Live(m, ts), who) == Unasked(m, who)
  {
    if m == [] {
    } else {
      var n := |m| - 1;
      UnaskedLive(m[..n], ts, who);
      UnaskedConcat(Live(m[..n], ts), if TimedOut(m[n].val, ts) then [] else [m[n]], who);
    }
  }

  lemma UnaskedUpdate(m: FoundMap, i: nat, e: Entry<Peer>, who: Option<PeerId>)
    requires i < |m|
    ensures Unasked(m[i := e], who) + Unasked([m[i]], who) == Unasked(m, who) + Unasked([e], who)
  {
    assert m == m[..i] + ([m[i]] + m[i + 1..]);
    assert m[i := e] == m[..i] + ([e] + m[i + 1..]);
    UnaskedConcat(m[..i], [m[i]] + m[i + 1..], who);
    UnaskedConcat([m[i]], m[i + 1..], who);
    UnaskedConcat(m[..i], [e] + m[i + 1..], who);
    UnaskedConcat([e], m[i + 1..], who);
  }

  lemma UnaskedAdmit(m: FoundMap, e: Entry<Peer>, who: Option<PeerId>)
    ensures Unasked(Admit(m, e), who) <= Unasked(m, who) + Count(Counts(who, e.val.id))
  {
    var t := Take(m, NODES_PER_BUCKET - 1);
    var n := UpperBound(t, e.key);
    assert m == t + m[|t|..];
    UnaskedConcat(t, m[|t|..], who);
    assert t == t[..n] + t[n..];
    UnaskedConcat(t[..n], t[n..], who);
    UnaskedConcat(t[..n], [e], who);
    UnaskedConcat(t[..n] + [e], t[n..], who);
    assert [e][..0] == [];
  }

  /** Whether an offer puts a new entry into the list. */
  predicate TakesIn(m: FoundMap, target: NodeId, id: PeerId, ts: int)
    requires Sorted(m)
  {
    var d := Dist(target, id.id);
    Bounds(m, d);
    !TooFar(m, d, ts) && Find(m, id, LowerBound(m, d), UpperBound(m, d)) == UpperBound(m, d)
  }

  /** Whether an event puts a new entry for such a peer into the list. */
  predicate Inserts(s: State, ev: Event, who: Option<PeerId>)
    requires s.Valid()
  {
    ev.Spoke? && Counts(who, ev.id) && TakesIn(s.closest, s.target, ev.id, ev.ts)
  }

  /** Whether an event makes the lookup ask such a peer. */
  predicate Asks(s: State, ev: Event, who: Option<PeerId>) {
    ev.Turn? && var ask := Ask(s, ev.now, ev.filler).1; ask.Some? && Counts(who, ask.value.0)
  }

  function Count(b: bool): (n: nat) {
    if b then 1 else 0
  }

  lemma UnaskedKept(m: FoundMap, d: nat, ts: int, who: Option<PeerId>)
    ensures Unasked(Kept(m, d, ts), who) == Unasked(m, who)
  {
    var lo := LowerBound(m, d);
    UnaskedLive(m[..lo], ts, who);
    assert m == m[..lo] + m[lo..];
    UnaskedConcat(m[..lo], m[lo..], who);
    UnaskedConcat(Live(m[..lo], ts), m[lo..], who);
  }

  lemma OfferUnasked(m: FoundMap, target: NodeId, id: PeerId, mode: Word, ts: int, who: Option<PeerId>)
    requires Sorted(m)
    ensures Unasked(Offer(m, target, id, mode, ts).0, who)
         <= Unasked(m, who) + Count(Counts(who, id) && TakesIn(m, target, id, ts))
  {
    var d := Dist(target, id.id);
    Bounds(m, d);
    var lo, hi := LowerBound(m, d), UpperBound(m, d);
    var at := Find(m, id, lo, hi);
    if TooFar(m, d, ts) {
    } else if at < hi {
      UnaskedUpdate(m, at, Heard(m[at], mode, ts), who);
    } else {
      UnaskedKept(m, d, ts, who);
      UnaskedAdmit(Kept(m, d, ts), Fresh(target, id, mode, ts), who);
    }
  }

  lemma StepUnasked(s: State, ev: Event, who: Option<PeerId>)
    requires s.Valid() && !s.Idle() && (ev.Turn? ==> ev.now != 0)
    ensures Unasked(Step(s, ev).closest, who) + Count(Asks(s, ev, who))
         <= Unasked(s.closest, who) + Count(Inserts(s, ev, who))
  {
    match ev
    case Spoke(id, mode, ts) => OfferUnasked(s.closest, s.target, id, mode, ts, who);
    case Named(id, mode, ts) =>
    case Turn(now, filler) =>
      if s.status == Querying {
        AsksNearestNeverAsked(s, now, filler);
        if Ask(s, now, filler).1.Some? {
          var n := NextIndex(s.closest, false, s.retryPeriod, now);
          var e := s.closest[n].(val := s.closest[n].val.(lastSend := now));
          UnaskedUpdate(s.closest, n, e, who);
          assert [e][..0] == [] && [s.closest[n]][..0] == [];
        }
      }
  }

  function AskCount(s: State, evs: seq<Event>, who: Option<PeerId>): nat
    requires s.Valid()
  {
    if evs == [] then 0
    else AskCount(s, evs[..|evs| - 1], who) + Count(Asks(Run(s, evs[..|evs| - 1]), evs[|evs| - 1], who))
  }

  function InsertCount(s: State, evs: seq<Event>, who: Option<PeerId>): nat
    requires s.Valid()
  {
    if evs == [] then 0
    else InsertCount(s, evs[..|evs| - 1], who) + Count(Inserts(Run(s, evs[..|evs| - 1]), evs[|evs| - 1], who))
  }

  lemma {:induction false} AsksCovered(s: State, evs: seq<Event>, who: Option<PeerId>)
    requires s.Valid() && !s.Idle()
    requires Shape(s.closest, s.target) && Shape(s.potential, s.target)
    requires forall k :: 0 <= k < |evs| && evs[k].Turn? ==> evs[k].now != 0
    ensures AskCount(s, evs, who) + Unasked(Run(s, evs).closest, who)
         <= Unasked(s.closest, who) + InsertCount(s, evs, who)
  {
    if evs == [] {
    } else {
      var n := |evs| - 1;
      AsksCovered(s, evs[..n], who);
      RunShape(s, evs[..n]);
      StepUnasked(Run(s, evs[..n]), evs[n], who);
    }
  }

  /** Over any run no entry is asked twice: each request to a peer is covered by an entry for
      that very peer, there unasked at the start or inserted since, and not still unasked. */
  lemma AskedAtMostOnce(s: State, evs: seq<Event>, x: PeerId)
    requires s.Valid() && !s.Idle()
    requires Shape(s.closest, s.target) && Shape(s.potential, s.target)
    requires forall k :: 0 <= k < |evs| && evs[k].Turn? ==> evs[k].now != 0
    ensures AskCount(s, evs, Some(x)) + Unasked(Run(s, evs).closest, Some(x))
         <= Unasked(s.closest, Some(x)) + InsertCount(s, evs, Some(x))
    ensures Unasked(s.closest, Some(x)) <= 1
  {
    AsksCovered(s, evs, Some(x));
    UnaskedOnce(s.closest, x);
  }

  /** So the total of all requests is at most that of all entries ever in the list. */
  lemma AskedAtMostTotal(s: State, evs: seq<Event>)
    requires s.Valid() && !s.Idle()
    requires Shape(s.closest, s.target) && Shape(s.potential, s.target)
    requires forall k :: 0 <= k < |evs| && evs[k].Turn? ==> evs[k].now != 0
    ensures AskCount(s, evs, None) + Unasked(Run(s, evs).closest, None)
         <= Unasked(s.closest, None) + InsertCount(s, evs, None)
  {
    AsksCovered(s, evs, None);
  }

  lemma {:induction false} UnaskedOnce(m: FoundMap, x: PeerId)
    requires Distinct(m)
    ensures Unasked(m, Some(x)) <= 1
    ensures (forall i :: 0 <= i < |m| ==> m[i].val.id != x) ==> Unasked(m, Some(x)) == 0
  {
    if m == [] {
    } else {
      UnaskedOnce(m[..|m| - 1], x);
    }
  }

  // ---------------------------------------------------------------- the end of a lookup

  /** A lookup leaves the querying state exactly when every stored peer has been asked and it
      is either past its maximal age, or past its minimal age with a full list all of which
      has answered. */
  lemma FinishesIff(s: State, now: int, filler: NodeId)
    requires s.status == Querying && !s.Idle()
    ensures Ask(s, now, filler).0.status != Querying <==>
              && (forall i :: 0 <= i < |s.closest| ==> s.closest[i].val.lastSend != 0)
              && (now - s.queryTS > 1800
                  || (now - s.queryTS >= 10 && |s.closest| >= 10
                      && forall i :: 0 <= i < |s.closest| ==> s.closest[i].val.lastRecv != 0))
  {
    var q := WithPeriod(s, now);
    assert q.closest == s.closest && q.potential == s.potential && q.queryTS == s.queryTS && q.status == s.status;
    var n := NextIndex(q.closest, q.Idle(), q.retryPeriod, now);
    assert n < |q.closest| <==> exists i :: 0 <= i < |s.closest| && s.closest[i].val.lastSend == 0;
  }

  lemma ResultsIffHead(m: FoundMap, target: NodeId)
    requires Shape(m, target)
    ensures Results(m) != [] <==> m != [] && m[0].val.id.id == target
    ensures forall i :: 0 <= i < |Results(m)| ==> Results(m)[i].id == target && Holds(m, Results(m)[i])
    ensures forall i :: 0 <= i < |m| && m[i].val.id.id == target ==> i < |Results(m)| && Results(m)[i] == m[i].val.id
  {
    Bounds(m, 0);
    if m != [] {
      DistIdentity(target, target, m[0].val.id.id);
    }
    var n := UpperBound(m, 0);
    forall i | 0 <= i < n ensures Results(m)[i].id == target && Holds(m, Results(m)[i]) {
      assert m[..n][i] == m[i];
      DistIdentity(target, target, m[i].val.id.id);
    }
    forall i | 0 <= i < |m| && m[i].val.id.id == target ensures i < n {
      DistIdentity(target, target, m[i].val.id.id);
    }
  }

  /** The verdict is success exactly when the lookup has results at that moment. */
  lemma SucceedsIff(s: State, now: int, filler: NodeId)
    requires s.Valid() && Shape(s.closest, s.target) && s.status == Querying && !s.Idle()
    requires Ask(s, now, filler).0.status != Querying
    ensures Ask(s, now, filler).0.status == Success <==> Results(Ask(s, now, filler).0.closest) != []
  {
    FinishesIff(s, now, filler);
    var q := WithPeriod(s, now);
    assert q.closest == s.closest && q.target == s.target && q.status == s.status;
    assert NextIndex(q.closest, q.Idle(), q.retryPeriod, now) == |q.closest|;
    ResultsIffHead(s.closest, s.target);
  }

  lemma NearestHasTarget(m: FoundMap, target: NodeId, offered: set<PeerId>)
    requires Shape(m, target) && Nearest(m, target, offered)
    ensures Results(m) != [] <==> exists x :: x in offered && x.id == target
  {
    ResultsIffHead(m, target);
    if m != [] {
      DistIdentity(target, target, m[0].val.id.id);
    }
    forall x | x in offered && x.id == target ensures m != [] && m[0].val.id.id == target {
      DistIdentity(target, target, x.id);
    }
  }

  /** The verdict of a lookup that drops no silent peer is the truth: it succeeds if and only
      if a peer with the target's id was ever offered to it. */
  lemma VerdictTrue(o: Origin, evs: seq<Event>, now: int, filler: NodeId)
    requires o.Fits() && NoDrops(o.First(), evs) && !o.First().Idle()
    requires Run(o.First(), evs).status == Querying && Ask(Run(o.First(), evs), now, filler).0.status != Querying
    ensures Ask(Run(o.First(), evs), now, filler).0.status == Success
       <==> exists x :: x in Members(o.start) + Offered(evs) && x.id == o.target
  {
    var q := Run(o.First(), evs);
    InitialNearest(o.target, o.start, o.now);
    RunShape(o.First(), evs);
    RunNearest(o, evs);
    NearestHasTarget(q.closest, o.target, Members(o.start) + Offered(evs));
    SucceedsIff(q, now, filler);
    AskKeepsResults(q, now, filler);
  }

  lemma AskKeepsResults(s: State, now: int, filler: NodeId)
    requires s.Valid() && s.status == Querying && !s.Idle() && Ask(s, now, filler).0.status != Querying
    ensures Ask(s, now, filler).0.closest == s.closest
  {
    FinishesIff(s, now, filler);
    var q := WithPeriod(s, now);
    assert q.closest == s.closest;
    assert NextIndex(q.closest, q.Idle(), q.retryPeriod, now) == |q.closest|;
  }

  /** A verdict is final: no later event changes it or makes the lookup ask again. */
  lemma {:induction false} VerdictFinal(s: State, evs: seq<Event>)
    requires s.Valid() && !s.Idle() && s.status != Querying
    ensures Run(s, evs).status == s.status && !Run(s, evs).Idle() && AskCount(s, evs, None) == 0
  {
    if evs == [] {
    } else {
      VerdictFinal(s, evs[..|evs| - 1]);
    }
  }
}
