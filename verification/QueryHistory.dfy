/** What a lookup records of its peers, told from the events of its run alone: when each was
    last asked and when it last answered; so whom an offer drops, and whom a turn asks. */
module QueryHistory {
  import opened Metric
  import opened Multimap
  import opened Peers
  import opened Query
  import opened QueryTheorems

  // ---------------------------------------------------------------- the events of a peer

  /** The peer sends nodes: bit 1 of the mode. */
  predicate IsReply(ev: Event, x: PeerId) {
    ev.Spoke? && ev.id == x && Bit(ev.mode, 1) == 1
  }

  /** The lookup sends the peer a request. */
  predicate Sends(q: State, ev: Event, x: PeerId) {
    ev.Turn? && var ask := Ask(q, ev.now, ev.filler).1; ask.Some? && ask.value.0 == x
  }

  /** The time of the last reply of x from event m on, 0 if there is none. */
  function LastReply(evs: seq<Event>, m: nat, x: PeerId): int
  {
    if |evs| <= m then 0
    else
      var n := |evs| - 1;
      if IsReply(evs[n], x) then evs[n].ts else LastReply(evs[..n], m, x)
  }

  /** The time of the last request to x from event m on, 0 if there is none. */
  function LastRequest(s: State, evs: seq<Event>, m: nat, x: PeerId): int
    requires s.Valid()
  {
    if |evs| <= m then 0
    else
      var n := |evs| - 1;
      if Sends(Run(s, evs[..n]), evs[n], x) then evs[n].now else LastRequest(s, evs[..n], m, x)
  }

  /** The event that put the present entry of x into the list; 0 if it was there at the start. */
  ghost function Entered(s: State, evs: seq<Event>, x: PeerId): (m: nat)
    requires s.Valid()
    ensures m <= |evs|
  {
    if evs == [] then 0
    else
      var n := |evs| - 1;
      if Holds(Run(s, evs[..n]).closest, x) then Entered(s, evs[..n], x) else n
  }

  // ---------------------------------------------------------------- one event

  /** A held peer is never too far: a list of ten has no room for it beyond ten others. */
  lemma HeldNotTooFar(m: FoundMap, target: NodeId, id: PeerId, ts: int)
    requires Shape(m, target) && Holds(m, id)
    ensures !TooFar(m, Dist(target, id.id), ts)
  {
    Bounds(m, Dist(target, id.id));
    var i :| 0 <= i < |m| && m[i].val.id == id;
    assert i >= LowerBound(m, Dist(target, id.id));
  }

  /** What an offer does to the entries it leaves. */
  lemma OfferEntry(m: FoundMap, target: NodeId, id: PeerId, mode: Word, ts: int, e: Entry<Peer>)
    requires Shape(m, target) && e in Offer(m, target, id, mode, ts).0
    ensures e.val.id != id ==> e in m
    ensures e.val.id == id && !Holds(m, id) ==>
              e.val.lastSend == 0 && e.val.lastRecv == if Bit(mode, 1) == 1 then ts else 0
    ensures e.val.id == id && Holds(m, id) ==> exists f :: f in m && SpokeThen(f, e, Bit(mode, 1) == 1, ts)
  {
    FlagTests(mode);
    FindIsHolds(m, target, id);
    if Holds(m, id) {
      HeldNotTooFar(m, target, id, ts);
      OfferHeard(m, target, id, mode, ts, e);
    } else if !TooFar(m, Dist(target, id.id), ts) {
      OfferFresh(m, target, id, mode, ts, e);
    } else {
      NotInHeld(m, e);
    }
  }

  /** e is f after the peer spoke at ts, with nodes or not. */
  predicate SpokeThen(f: Entry<Peer>, e: Entry<Peer>, reply: bool, ts: int) {
    e.val.id == f.val.id && e.val.lastSend == f.val.lastSend && e.val.lastRecv == if reply then ts else f.val.lastRecv
  }

  lemma OfferHeard(m: FoundMap, target: NodeId, id: PeerId, mode: Word, ts: int, e: Entry<Peer>)
    requires Shape(m, target) && Holds(m, id) && !TooFar(m, Dist(target, id.id), ts)
    requires e in Offer(m, target, id, mode, ts).0
    ensures if e.val.id == id then exists f :: f in m && SpokeThen(f, e, Bit(mode, 1) == 1, ts) else e in m
  {
    FlagTests(mode);
    FindIsHolds(m, target, id);
    var d := Dist(target, id.id);
    Bounds(m, d);
    var at := Find(m, id, LowerBound(m, d), UpperBound(m, d));
    var r := Offer(m, target, id, mode, ts).0;
    var i :| 0 <= i < |r| && r[i] == e;
    assert m[i] in m;
    if i == at {
      assert SpokeThen(m[i], e, Bit(mode, 1) == 1, ts);
    }
  }

  lemma OfferFresh(m: FoundMap, target: NodeId, id: PeerId, mode: Word, ts: int, e: Entry<Peer>)
    requires Shape(m, target) && !Holds(m, id) && !TooFar(m, Dist(target, id.id), ts)
    requires e in Offer(m, target, id, mode, ts).0
    ensures if e.val.id == id then e.val.lastSend == 0 && e.val.lastRecv == if Bit(mode, 1) == 1 then ts else 0
            else e in m
  {
    FlagTests(mode);
    OfferCases(m, target, id, mode, ts);
    var d := Dist(target, id.id);
    AdmitMembers(Kept(m, d, ts), Fresh(target, id, mode, ts));
    if e != Fresh(target, id, mode, ts) {
      KeptMembers(m, d, ts, e);
      var i :| 0 <= i < |m| && m[i] == e;
    }
  }

  /** What a turn does to them. */
  lemma AskEntry(s: State, now: int, filler: NodeId, e: Entry<Peer>)
    requires Distinct(s.closest) && e in Ask(s, now, filler).0.closest
    ensures exists f :: f in s.closest && AskedThen(f, e, Sends(s, Turn(now, filler), f.val.id), now)
  {
    var q := WithPeriod(s, now);
    var r := Ask(s, now, filler).0.closest;
    var i :| 0 <= i < |r| && r[i] == e;
    assert q.closest == s.closest && |r| == |s.closest|;
    var f := s.closest[i];
    assert f in s.closest;
    assert AskedThen(f, e, Sends(s, Turn(now, filler), f.val.id), now);
  }

  /** e is f after a turn in which it was asked, or was not. */
  predicate AskedThen(f: Entry<Peer>, e: Entry<Peer>, sent: bool, now: int) {
    e.val.id == f.val.id && e.val.lastRecv == f.val.lastRecv && e.val.lastSend == if sent then now else f.val.lastSend
  }

  // ---------------------------------------------------------------- the record

  /** The entries for x say when it last answered and when it was last asked. */
  ghost predicate Says(m: FoundMap, x: PeerId, recv: int, send: int)
  {
    forall e :: e in m && e.val.id == x ==> e.val.lastRecv == recv && e.val.lastSend == send
  }

  lemma StepHeld(q: State, ev: Event, x: PeerId, recv: int, send: int)
    requires q.Valid() && Shape(q.closest, q.target) && Holds(q.closest, x) && Says(q.closest, x, recv, send)
    ensures Says(Step(q, ev).closest, x, if IsReply(ev, x) then ev.ts else recv,
                 if Sends(q, ev, x) then ev.now else send)
  {
    forall e | e in Step(q, ev).closest && e.val.id == x
      ensures e.val.lastRecv == (if IsReply(ev, x) then ev.ts else recv)
              && e.val.lastSend == if Sends(q, ev, x) then ev.now else send
    {
      match ev
      case Spoke(id, mode, ts) => OfferEntry(q.closest, q.target, id, mode, ts, e);
      case Named(_, _, _) =>
      case Turn(now, filler) => AskEntry(q, now, filler, e);
    }
  }

  lemma StepNew(q: State, ev: Event, x: PeerId)
    requires q.Valid() && Shape(q.closest, q.target) && !Holds(q.closest, x)
    ensures Says(Step(q, ev).closest, x, if IsReply(ev, x) then ev.ts else 0, 0)
    ensures Holds(Step(q, ev).closest, x) ==> ev.Spoke? && ev.id == x
    ensures !Sends(q, ev, x)
  {
    forall e | e in Step(q, ev).closest && e.val.id == x
      ensures e.val.lastRecv == (if IsReply(ev, x) then ev.ts else 0) && e.val.lastSend == 0
      ensures ev.Spoke? && ev.id == x
    {
      match ev
      case Spoke(id, mode, ts) =>
        OfferEntry(q.closest, q.target, id, mode, ts, e);
        NotInHeld(q.closest, e);
      case Named(_, _, _) => NotInHeld(q.closest, e);
      case Turn(now, filler) =>
        AskHolds(q, now, filler, e);
    }
    InHeld(Step(q, ev).closest, x);
    NoneAsked(q, ev, x);
  }

  lemma AskHolds(q: State, now: int, filler: NodeId, e: Entry<Peer>)
    requires Distinct(q.closest) && e in Ask(q, now, filler).0.closest
    ensures Holds(q.closest, e.val.id)
  {
    AskEntry(q, now, filler, e);
    var f :| f in q.closest && AskedThen(f, e, Sends(q, Turn(now, filler), f.val.id), now);
    NotInHeld(q.closest, f);
  }

  lemma NotInHeld(m: FoundMap, e: Entry<Peer>)
    ensures e in m ==> Holds(m, e.val.id)
  {
  }

  lemma InHeld(m: FoundMap, x: PeerId)
    ensures Holds(m, x) ==> exists e :: e in m && e.val.id == x
  {
    if Holds(m, x) {
      var i :| 0 <= i < |m| && m[i].val.id == x;
      assert m[i] in m;
    }
  }

  lemma NoneAsked(q: State, ev: Event, x: PeerId)
    requires !Holds(q.closest, x)
    ensures !Sends(q, ev, x)
  {
    if ev.Turn? {
      assert WithPeriod(q, ev.now).closest == q.closest;
    }
  }

  lemma FirstSays(o: Origin, x: PeerId)
    ensures Says(o.First().closest, x, 0, 0)
  {
    var es := StartEntries(o.target, o.start, o.now);
    InsertAllKeeps([], es);
    forall e | e in o.First().closest ensures e.val.lastRecv == 0 && e.val.lastSend == 0 {
      assert e in multiset(o.First().closest) && e in multiset(es);
    }
  }

  lemma {:induction false} RunSays(o: Origin, evs: seq<Event>, x: PeerId)
    requires o.Fits()
    ensures var s, m := o.First(), Entered(o.First(), evs, x);
            Says(Run(s, evs).closest, x, LastReply(evs, m, x), LastRequest(s, evs, m, x))
  {
    var s := o.First();
    if evs == [] {
      FirstSays(o, x);
    } else {
      var before, ev := evs[..|evs| - 1], evs[|evs| - 1];
      var q := Run(s, before);
      InitialNearest(o.target, o.start, o.now);
      RunShape(s, before);
      if Holds(q.closest, x) {
        var m := Entered(s, before, x);
        RunSays(o, before, x);
        StepHeld(q, ev, x, LastReply(before, m, x), LastRequest(s, before, m, x));
      } else {
        StepNew(q, ev, x);
      }
    }
  }

  /** Each entry records the time of the peer's last reply, and that of the last request to it,
      since it came in; zero if there was none. */
  lemma EntryRecords(o: Origin, evs: seq<Event>, i: nat)
    requires o.Fits() && i < |Run(o.First(), evs).closest|
    ensures var p := Run(o.First(), evs).closest[i].val;
            var m := Entered(o.First(), evs, p.id);
            p.lastRecv == LastReply(evs, m, p.id) && p.lastSend == LastRequest(o.First(), evs, m, p.id)
  {
    var e := Run(o.First(), evs).closest[i];
    assert e in Run(o.First(), evs).closest;
    RunSays(o, evs, e.val.id);
  }

  lemma SamePrefix(evs: seq<Event>, before: seq<Event>, k: nat)
    requires before <= evs && k <= |before|
    ensures before[..k] == evs[..k] && (k < |before| ==> before[k] == evs[k])
  {
  }

  /** It came in when the peer spoke and was not in the list, or was there at the start, */
  lemma {:induction false} EnteredMeans(o: Origin, evs: seq<Event>, x: PeerId)
    requires o.Fits() && Holds(Run(o.First(), evs).closest, x)
    ensures var m := Entered(o.First(), evs, x);
            if Holds(Run(o.First(), evs[..m]).closest, x) then m == 0
            else m < |evs| && evs[m].Spoke? && evs[m].id == x
  {
    var s := o.First();
    if evs == [] {
      assert evs[..0] == evs;
    } else {
      var before := evs[..|evs| - 1];
      if Holds(Run(s, before).closest, x) {
        EnteredMeans(o, before, x);
        SamePrefix(evs, before, Entered(s, before, x));
      } else {
        InitialNearest(o.target, o.start, o.now);
        RunShape(s, before);
        StepNew(Run(s, before), evs[|evs| - 1], x);
      }
    }
  }

  /** and has been in the list ever since. */
  lemma {:induction false} HeldSince(s: State, evs: seq<Event>, x: PeerId, k: nat)
    requires s.Valid() && Holds(Run(s, evs).closest, x) && Entered(s, evs, x) < k <= |evs|
    ensures Holds(Run(s, evs[..k]).closest, x)
  {
    if k == |evs| {
      assert evs[..k] == evs;
    } else {
      var before := evs[..|evs| - 1];
      HeldSince(s, before, x, k);
      SamePrefix(evs, before, k);
    }
  }

  // ---------------------------------------------------------------- whom an offer drops

  /** At ts the peer owes an answer: the last request to it is more than twenty seconds old and
      no reply has come since. */
  ghost predicate Silent(s: State, evs: seq<Event>, x: PeerId, ts: int)
    requires s.Valid()
  {
    var m := Entered(s, evs, x);
    var sent := LastRequest(s, evs, m, x);
    sent != 0 && ts - sent > 20 && LastReply(evs, m, x) < sent
  }

  ghost predicate Marks(m: FoundMap, silent: PeerId -> bool, ts: int)
  {
    forall i :: 0 <= i < |m| ==> (TimedOut(m[i].val, ts) <==> silent(m[i].val.id))
  }

  /** Ten peers are held, all nearer than the newcomer, none silent. */
  ghost predicate Crowded(m: FoundMap, target: NodeId, id: PeerId, silent: PeerId -> bool)
  {
    |m| == NODES_PER_BUCKET
    && forall i :: 0 <= i < |m| ==> Dist(target, m[i].val.id.id) < Dist(target, id.id) && !silent(m[i].val.id)
  }

  /** The peers held, but for the silent ones nearer than the newcomer. */
  ghost function Staying(m: FoundMap, target: NodeId, id: PeerId, silent: PeerId -> bool): set<PeerId>
  {
    set i | 0 <= i < |m| && !(Dist(target, m[i].val.id.id) < Dist(target, id.id) && silent(m[i].val.id)) :: m[i].val.id
  }

  lemma CrowdedIff(m: FoundMap, target: NodeId, id: PeerId, ts: int, silent: PeerId -> bool)
    requires Shape(m, target) && Marks(m, silent, ts)
    ensures TooFar(m, Dist(target, id.id), ts) <==> Crowded(m, target, id, silent)
  {
    var d := Dist(target, id.id);
    var lo := LowerBound(m, d);
    Bounds(m, d);
    LiveAll(m[..lo], ts);
    if TooFar(m, d, ts) {
      assert lo == |m| && m[..lo] == m;
    }
    if Crowded(m, target, id, silent) {
      AllNearer(m, d);
      assert m[..lo] == m;
    }
  }

  lemma AllNearer(m: FoundMap, d: nat)
    requires Sorted(m) && forall i :: 0 <= i < |m| ==> m[i].key < d
    ensures LowerBound(m, d) == |m|
  {
    Bounds(m, d);
  }

  lemma StayingIs(m: FoundMap, target: NodeId, id: PeerId, ts: int, silent: PeerId -> bool)
    requires Shape(m, target) && Marks(m, silent, ts)
    ensures IdSet(Kept(m, Dist(target, id.id), ts)) == Staying(m, target, id, silent)
  {
    var d := Dist(target, id.id);
    var k := Kept(m, d, ts);
    forall i | 0 <= i < |k| ensures k[i].val.id in Staying(m, target, id, silent) {
      KeptMembers(m, d, ts, k[i]);
    }
    forall i | 0 <= i < |m| && !(m[i].key < d && silent(m[i].val.id)) ensures m[i].val.id in IdSet(k) {
      KeptMembers(m, d, ts, m[i]);
    }
  }

  /** What an offer makes of the list, when silent says who is. */
  ghost predicate Outcome(m: FoundMap, target: NodeId, id: PeerId, silent: PeerId -> bool, r: FoundMap)
  {
    if Holds(m, id) then SamePeers(m, r)
    else if Crowded(m, target, id, silent) then r == m
    else
      && Nearest(r, target, Staying(m, target, id, silent) + {id})
      && forall i :: 0 <= i < |m| && Dist(target, m[i].val.id.id) < Dist(target, id.id) ==>
           (Holds(r, m[i].val.id) <==> !silent(m[i].val.id))
  }

  lemma NearerStays(m: FoundMap, target: NodeId, id: PeerId, mode: Word, ts: int, i: nat)
    requires Shape(m, target) && !Holds(m, id) && !TooFar(m, Dist(target, id.id), ts)
    requires i < |m| && m[i].key < Dist(target, id.id)
    ensures var r := Admit(Kept(m, Dist(target, id.id), ts), Fresh(target, id, mode, ts));
            Holds(r, m[i].val.id) <==> !TimedOut(m[i].val, ts)
  {
    Bounds(m, Dist(target, id.id));
    if TimedOut(m[i].val, ts) {
      SilentIsGone(m, target, id, mode, ts, i);
    } else {
      InsertedKeepsNearer(m, target, id, mode, ts, m[i]);
    }
  }

  lemma ListOutcome(m: FoundMap, target: NodeId, id: PeerId, mode: Word, ts: int, silent: PeerId -> bool)
    requires Shape(m, target) && Marks(m, silent, ts)
    ensures Outcome(m, target, id, silent, Offer(m, target, id, mode, ts).0)
  {
    OfferCases(m, target, id, mode, ts);
    CrowdedIff(m, target, id, ts, silent);
    if !Holds(m, id) && !TooFar(m, Dist(target, id.id), ts) {
      InsertedNearest(m, target, id, mode, ts);
      StayingIs(m, target, id, ts, silent);
      forall i | 0 <= i < |m| && Dist(target, m[i].val.id.id) < Dist(target, id.id)
        ensures Holds(Offer(m, target, id, mode, ts).0, m[i].val.id) <==> !silent(m[i].val.id)
      {
        NearerStays(m, target, id, mode, ts, i);
      }
    }
  }

  ghost function SilentAt(s: State, evs: seq<Event>, ts: int): PeerId -> bool
    requires s.Valid()
  {
    x => Silent(s, evs, x, ts)
  }

  lemma SilentMarks(o: Origin, evs: seq<Event>, ts: int)
    requires o.Fits()
    ensures Marks(Run(o.First(), evs).closest, SilentAt(o.First(), evs, ts), ts)
  {
    var m := Run(o.First(), evs).closest;
    forall i | 0 <= i < |m| ensures TimedOut(m[i].val, ts) <==> Silent(o.First(), evs, m[i].val.id, ts) {
      EntryRecords(o, evs, i);
    }
  }

  /** In any run an offer of a peer that is held keeps all peers; one beyond ten nearer peers
      that are not silent changes nothing; any other drops exactly the nearer peers that are
      silent, and leaves the nearest ten of the rest and the newcomer. */
  lemma OfferOutcome(o: Origin, evs: seq<Event>, id: PeerId, mode: Word, ts: int)
    requires o.Fits()
    ensures Outcome(Run(o.First(), evs).closest, o.target, id, SilentAt(o.First(), evs, ts),
                    Run(o.First(), evs + [Spoke(id, mode, ts)]).closest)
  {
    var q := Run(o.First(), evs);
    InitialNearest(o.target, o.start, o.now);
    RunShape(o.First(), evs);
    SilentMarks(o, evs, ts);
    ListOutcome(q.closest, o.target, id, mode, ts, SilentAt(o.First(), evs, ts));
    assert (evs + [Spoke(id, mode, ts)])[..|evs|] == evs;
  }

  // ---------------------------------------------------------------- under a clock that runs forward

  function TimeOf(ev: Event): int {
    if ev.Turn? then ev.now else ev.ts
  }

  ghost predicate ClockForward(evs: seq<Event>)
  {
    forall i, j :: 0 <= i < j < |evs| ==> TimeOf(evs[i]) <= TimeOf(evs[j])
  }

  /** The last reply is before t if all are. */
  lemma {:induction false} LastReplyBefore(evs: seq<Event>, m: nat, x: PeerId, t: int)
    requires ClockForward(evs) && t > 0
    ensures LastReply(evs, m, x) < t <==> forall j :: m <= j < |evs| && IsReply(evs[j], x) ==> evs[j].ts < t
  {
    if |evs| <= m {
    } else {
      var n := |evs| - 1;
      if IsReply(evs[n], x) {
        forall j | m <= j < n && IsReply(evs[j], x) ensures evs[j].ts <= evs[n].ts {
          assert TimeOf(evs[j]) <= TimeOf(evs[n]);
        }
      } else {
        LastReplyBefore(evs[..n], m, x, t);
        assert forall j :: 0 <= j < n ==> evs[..n][j] == evs[j];
      }
    }
  }

  /** So a peer is silent if and only if it was asked more than twenty seconds ago and no reply
      of it came at or after that time. */
  lemma SilentIff(s: State, evs: seq<Event>, x: PeerId, ts: int)
    requires s.Valid() && ClockForward(evs) && LastRequest(s, evs, Entered(s, evs, x), x) >= 0
    ensures var m := Entered(s, evs, x);
            var sent := LastRequest(s, evs, m, x);
            Silent(s, evs, x, ts) <==>
              sent != 0 && ts - sent > 20 && forall j :: m <= j < |evs| && IsReply(evs[j], x) ==> evs[j].ts < sent
  {
    var m := Entered(s, evs, x);
    if LastRequest(s, evs, m, x) > 0 {
      LastReplyBefore(evs, m, x, LastRequest(s, evs, m, x));
    }
  }

  // ---------------------------------------------------------------- whom a turn asks

  /** Half the age, rounded toward zero. */
  predicate Halves(half: int, age: int) {
    if age >= 0 then 2 * half <= age < 2 * half + 2 else 2 * half - 2 < age <= 2 * half
  }

  /** The period after which an idling lookup asks again: what is stored, unless half the age is
      more; that is stored as a signed 32-bit number. */
  ghost predicate Period(stored: int, age: int, p: int)
  {
    exists half :: Halves(half, age)
      && if half <= stored then p == stored
         else -0x8000_0000 <= p < 0x8000_0000 && (half - p) % 0x1_0000_0000 == 0
  }

  /** It is the larger of the two as long as half the age fits. */
  lemma PeriodIsLarger(stored: int, age: int, p: int)
    requires Period(stored, age, p) && age < 0x1_0000_0000 && stored >= 0
    ensures p >= stored && 2 * p + 2 > age && (p == stored || Halves(p, age))
  {
  }

  /** The entry was never asked, or, while the lookup idles, longer ago than the period. */
  predicate Overdue(e: Entry<Peer>, idle: bool, p: int, now: int) {
    e.val.lastSend == 0 || (idle && now - e.val.lastSend > p)
  }

  lemma PeriodFound(s: State, now: int)
    ensures Period(s.retryPeriod, now - s.queryTS, WithPeriod(s, now).retryPeriod)
  {
    var half := Half(now - s.queryTS);
    assert Halves(half, now - s.queryTS);
  }

  lemma IdleBit(s: State)
    ensures s.Idle() <==> Bit(s.flags, 1) == 1
  {
    FlagTests(s.flags);
  }

  /** A lookup that is not over, or that idles, asks if and only if someone is overdue, and then
      the nearest of those; it marks that one and nothing else. */
  lemma AsksOverdue(s: State, now: int, filler: NodeId) returns (p: int)
    requires s.Valid() && (s.status == Querying || Bit(s.flags, 1) == 1)
    ensures Period(s.retryPeriod, now - s.queryTS, p) && Ask(s, now, filler).0.retryPeriod == p
    ensures Ask(s, now, filler).1.Some? <==>
              exists i :: 0 <= i < |s.closest| && Overdue(s.closest[i], Bit(s.flags, 1) == 1, p, now)
    ensures Ask(s, now, filler).1.Some? ==>
              exists n :: 0 <= n < |s.closest| && AskedNearest(s, now, filler, p, n)
    ensures Ask(s, now, filler).1.None? ==> Ask(s, now, filler).0.closest == s.closest
  {
    IdleBit(s);
    PeriodFound(s, now);
    var q := WithPeriod(s, now);
    p := q.retryPeriod;
    var n := NextIndex(q.closest, q.Idle(), p, now);
    assert q.closest == s.closest && q.Idle() == s.Idle();
    if n < |s.closest| {
      assert Overdue(s.closest[n], Bit(s.flags, 1) == 1, p, now);
      assert AskedNearest(s, now, filler, p, n);
    }
  }

  /** Entry n is the first that is overdue, and is the one asked. */
  ghost predicate AskedNearest(s: State, now: int, filler: NodeId, p: int, n: nat)
    requires n < |s.closest|
  {
    var (r, ask) := Ask(s, now, filler);
    var idle := Bit(s.flags, 1) == 1;
    && ask.Some? && ask.value.0 == s.closest[n].val.id && Overdue(s.closest[n], idle, p, now)
    && (forall i :: 0 <= i < |s.closest| && Overdue(s.closest[i], idle, p, now) ==>
          n <= i && s.closest[n].key <= s.closest[i].key)
    && r.closest == s.closest[n := s.closest[n].(val := s.closest[n].val.(lastSend := now))]
  }

  lemma PeriodUnique(stored: int, age: int, p: int, r: int)
    requires Period(stored, age, p) && Period(stored, age, r)
    ensures p == r
  {
    var g :| Halves(g, age) && if g <= stored then p == stored
             else -0x8000_0000 <= p < 0x8000_0000 && (g - p) % 0x1_0000_0000 == 0;
    var h :| Halves(h, age) && if h <= stored then r == stored
             else -0x8000_0000 <= r < 0x8000_0000 && (h - r) % 0x1_0000_0000 == 0;
    assert g == h;
  }

  /** The lookup is not over, or idles, and someone in its list is overdue. */
  ghost predicate HasSomeone(q: State, now: int)
  {
    && (q.status == Querying || Bit(q.flags, 1) == 1)
    && exists p, i :: 0 <= i < |q.closest| && OverdueNow(q, q.closest[i], now, p)
  }

  /** n is the first of those. */
  ghost predicate FirstOverdue(q: State, now: int, n: nat)
  {
    exists p :: n < |q.closest| && OverdueNow(q, q.closest[n], now, p)
                && forall i :: 0 <= i < n ==> !OverdueNow(q, q.closest[i], now, p)
  }

  /** p is the period now, and the entry is overdue. */
  ghost predicate OverdueNow(q: State, e: Entry<Peer>, now: int, p: int)
  {
    Period(q.retryPeriod, now - q.queryTS, p) && Overdue(e, Bit(q.flags, 1) == 1, p, now)
  }

  /** The id named is the target, or if the lookup is disguised (bit 0), the target as far as the
      first byte in which the peer differs from it, and the filler after that. */
  ghost predicate NamesFor(q: State, filler: NodeId, peer: NodeId, to: NodeId)
  {
    if Bit(q.flags, 0) == 0 then to == q.target
    else forall b :: 0 <= b < KEY_LEN ==> to[b] == if q.target[..b] == peer[..b] then q.target[b] else filler[b]
  }

  /** Such an id is the target or strictly nearer to it than the peer. */
  lemma NamedIsNearer(q: State, filler: NodeId, peer: NodeId, to: NodeId)
    requires NamesFor(q, filler, peer, to)
    ensures to == q.target || (Bit(q.flags, 0) == 1 && Dist(q.target, to) < Dist(q.target, peer))
  {
    if Bit(q.flags, 0) != 0 {
      MidBytes(q.target, peer, filler);
      assert to == MidId(q.target, peer, filler);
      if peer != q.target {
        MidIdNearer(q.target, peer, filler);
      } else {
        assert to == q.target;
      }
    }
  }

  lemma MidBytes(target: NodeId, peer: NodeId, filler: NodeId)
    ensures forall b :: 0 <= b < KEY_LEN ==>
              MidId(target, peer, filler)[b] == if target[..b] == peer[..b] then target[b] else filler[b]
  {
    var n := CommonPrefix(target, peer);
    forall b | 0 <= b < KEY_LEN ensures target[..b] == peer[..b] <==> b <= n {
      if b <= n {
        assert target[..b] == target[..n][..b] && peer[..b] == peer[..n][..b];
      } else {
        assert target[..b][n] != peer[..b][n];
      }
    }
  }

  /** A turn brings a request if and only if the lookup has someone to ask, and it goes to the
      first such peer and names what it should. */
  lemma AskIs(q: State, now: int, filler: NodeId)
    requires q.Valid()
    ensures Ask(q, now, filler).1.Some? <==> HasSomeone(q, now)
    ensures Ask(q, now, filler).1.Some? ==>
              var (peer, to) := Ask(q, now, filler).1.value;
              NamesFor(q, filler, peer.id, to)
              && exists n :: 0 <= n < |q.closest| && FirstOverdue(q, now, n) && peer == q.closest[n].val.id
  {
    IdleBit(q);
    FlagTests(q.flags);
    if q.status == Querying || Bit(q.flags, 1) == 1 {
      var p := AsksOverdue(q, now, filler);
      if HasSomeone(q, now) {
        var r, i :| 0 <= i < |q.closest| && OverdueNow(q, q.closest[i], now, r);
        PeriodUnique(q.retryPeriod, now - q.queryTS, p, r);
      }
      if Ask(q, now, filler).1.Some? {
        var n :| 0 <= n < |q.closest| && AskedNearest(q, now, filler, p, n);
        assert OverdueNow(q, q.closest[n], now, p);
        AskNames(q, now, filler, n);
      }
    }
  }

  lemma AskNames(q: State, now: int, filler: NodeId, n: nat)
    requires n < |q.closest| && Ask(q, now, filler).1.Some? && Ask(q, now, filler).1.value.0 == q.closest[n].val.id
    ensures NamesFor(q, filler, q.closest[n].val.id.id, Ask(q, now, filler).1.value.1)
  {
    FlagTests(q.flags);
    MidBytes(q.target, q.closest[n].val.id.id, filler);
  }

  // ---------------------------------------------------------------- how it concludes

  /** The lookup is old, or has been going for ten seconds and has ten peers that all replied. */
  predicate MayEnd(q: State, age: int) {
    age > 1800
    || (age >= 10 && |q.closest| >= 10 && forall i :: 0 <= i < |q.closest| ==> q.closest[i].val.lastRecv != 0)
  }

  /** x as a signed 32-bit number. */
  predicate Wrapped(x: int, w: int) {
    -0x8000_0000 <= w < 0x8000_0000 && (x - w) % 0x1_0000_0000 == 0
  }

  /** The verdict the two lists give. */
  ghost predicate Judged(s: State, status: Status)
  {
    var head, named := s.closest != [] && s.closest[0].val.id.id == s.target,
                       s.potential != [] && s.potential[0].val.id.id == s.target;
    && (status == Failure <==> s.closest == [])
    && (status == Success <==> head)
    && (status == PeerUnreachable <==> s.closest != [] && !head && named)
    && (status == FoundClosest <==> s.closest != [] && !head && !named)
  }

  lemma VerdictJudged(s: State)
    ensures Judged(s, Verdict(s.target, s.closest, s.potential))
  {
  }

  /** Without a request only status, time and period can change. */
  lemma UnaskedIs(s: State, now: int, filler: NodeId)
    requires (s.status == Querying || Bit(s.flags, 1) == 1) && Ask(s, now, filler).1.None?
    ensures var q := WithPeriod(s, now);
            q == s.(retryPeriod := q.retryPeriod) && Ask(s, now, filler).0 == Concluded(q, now)
  {
    IdleBit(s);
  }

  /** A turn that brings no request ends the lookup if it may end, with the verdict its two lists
      give, and notes how long it took the first time; otherwise it changes nothing but the
      period. */
  lemma ConcludesAs(s: State, now: int, filler: NodeId)
    requires s.status == Querying || Bit(s.flags, 1) == 1
    requires Ask(s, now, filler).1.None?
    ensures var r := Ask(s, now, filler).0;
            && r == s.(status := r.status, searchTime := r.searchTime, retryPeriod := r.retryPeriod)
            && (if MayEnd(s, now - s.queryTS) then
                  Judged(s, r.status)
                  && (if s.status == Querying then Wrapped(now - s.queryTS, r.searchTime)
                      else r.searchTime == s.searchTime)
                else r.status == s.status && r.searchTime == s.searchTime)
  {
    UnaskedIs(s, now, filler);
    VerdictJudged(s);
  }

  /** One that brings a request leaves status and time alone, and a lookup that is over and does
      not idle is not touched at all. */
  lemma AskingLeaves(s: State, now: int, filler: NodeId)
    ensures var (r, ask) := Ask(s, now, filler);
            && (ask.Some? ==> r == s.(closest := r.closest, retryPeriod := r.retryPeriod))
            && (s.status != Querying && Bit(s.flags, 1) == 0 ==> r == s && ask.None?)
  {
    IdleBit(s);
    var q := WithPeriod(s, now);
    assert q == s.(retryPeriod := q.retryPeriod);
  }

  // ---------------------------------------------------------------- how often

  /** The clock at every turn is set, and less than 2^32 seconds after the lookup began. */
  ghost predicate Timely(o: Origin, evs: seq<Event>)
  {
    forall k :: 0 <= k < |evs| && evs[k].Turn? ==> evs[k].now != 0 && evs[k].now - o.now < 0x1_0000_0000
  }

  lemma StepPeriod(s: State, ev: Event)
    requires s.Valid() && s.retryPeriod >= 300 && (ev.Turn? ==> ev.now - s.queryTS < 0x1_0000_0000)
    ensures Step(s, ev).retryPeriod >= 300
  {
    if ev.Turn? && (s.status == Querying || s.Idle()) {
      PeriodFound(s, ev.now);
      PeriodIsLarger(s.retryPeriod, ev.now - s.queryTS, WithPeriod(s, ev.now).retryPeriod);
    }
  }

  lemma {:induction false} RunPeriod(o: Origin, evs: seq<Event>)
    requires o.Fits() && Timely(o, evs)
    ensures Run(o.First(), evs).retryPeriod >= 300
  {
    if evs == [] {
    } else {
      var before := evs[..|evs| - 1];
      RunPeriod(o, before);
      InitialNearest(o.target, o.start, o.now);
      RunShape(o.First(), before);
      StepPeriod(Run(o.First(), before), evs[|evs| - 1]);
    }
  }

  /** While the lookup is younger than ten minutes the period is three hundred seconds. */
  lemma {:induction false} YoungPeriod(o: Origin, evs: seq<Event>)
    requires o.Fits() && forall k :: 0 <= k < |evs| && evs[k].Turn? ==> evs[k].now - o.now < 602
    ensures Run(o.First(), evs).retryPeriod == 300
  {
    if evs == [] {
    } else {
      var before := evs[..|evs| - 1];
      YoungPeriod(o, before);
      InitialNearest(o.target, o.start, o.now);
      RunShape(o.First(), before);
      StepYoung(Run(o.First(), before), evs[|evs| - 1]);
    }
  }

  lemma StepYoung(s: State, ev: Event)
    requires s.Valid() && s.retryPeriod == 300 && (ev.Turn? ==> ev.now - s.queryTS < 602)
    ensures Step(s, ev).retryPeriod == 300
  {
    if ev.Turn? && (s.status == Querying || s.Idle()) {
      PeriodFound(s, ev.now);
    }
  }

  /** A peer that has an entry and was asked before is asked again only when that was more than
      three hundred seconds ago, and longer ago than half the age. */
  lemma AskedAgain(s: State, ev: Event, x: PeerId, recv: int, send: int)
    requires s.Valid() && s.retryPeriod >= 300 && Says(s.closest, x, recv, send) && send != 0
    requires Sends(s, ev, x) && ev.now - s.queryTS < 0x1_0000_0000
    ensures ev.now - send > 300 && 2 * (ev.now - send) > ev.now - s.queryTS
  {
    IdleBit(s);
    var p := AsksOverdue(s, ev.now, ev.filler);
    PeriodIsLarger(s.retryPeriod, ev.now - s.queryTS, p);
    var n :| 0 <= n < |s.closest| && AskedNearest(s, ev.now, ev.filler, p, n);
    assert s.closest[n] in s.closest;
  }

  /** Over any run two requests to one entry are more than three hundred seconds apart, and
      further than half the age of the lookup at the later one. */
  lemma RequestsApart(o: Origin, evs: seq<Event>, x: PeerId)
    requires o.Fits() && Timely(o, evs) && evs != []
    requires var n, s := |evs| - 1, o.First();
             && Holds(Run(s, evs[..n]).closest, x) && Sends(Run(s, evs[..n]), evs[n], x)
             && LastRequest(s, evs[..n], Entered(s, evs[..n], x), x) != 0
    ensures var n, s := |evs| - 1, o.First();
            var gap := evs[n].now - LastRequest(s, evs[..n], Entered(s, evs[..n], x), x);
            gap > 300 && 2 * gap > evs[n].now - o.now
  {
    var before, ev, s := evs[..|evs| - 1], evs[|evs| - 1], o.First();
    var m := Entered(s, before, x);
    RunSays(o, before, x);
    RunPeriod(o, before);
    InitialNearest(o.target, o.start, o.now);
    RunShape(s, before);
    AskedAgain(Run(s, before), ev, x, LastReply(before, m, x), LastRequest(s, before, m, x));
  }

  /** Later than that the stored period wraps around: a peer asked a second ago is asked again. */
  lemma AskedTooSoon(target: NodeId, x: PeerId, filler: NodeId)
    ensures var s := Origin(target, [x], 2, 0).First();
            && Sends(s, Turn(0xFFFF_FFFF, filler), x)
            && Sends(Step(s, Turn(0xFFFF_FFFF, filler)), Turn(0x1_0000_0000, filler), x)
  {
    var s := Origin(target, [x], 2, 0).First();
    var e := Newcomer(target, x, 0, 0);
    assert [x][..0] == [] && StartEntries(target, [x], 0) == [e] && [e][..0] == [];
    assert InsertAll([], [e]) == [e];
    assert s.closest == [e];
    assert Bit(2, 1) == 1 && Bit(2 / 2, 0) == 1;
    OneAsked(s, 0xFFFF_FFFF, filler, e);
    OneAsked(Step(s, Turn(0xFFFF_FFFF, filler)), 0x1_0000_0000, filler, e.(val := e.val.(lastSend := 0xFFFF_FFFF)));
  }

  /** An idling lookup with one entry, overdue. */
  lemma OneAsked(s: State, now: int, filler: NodeId, e: Entry<Peer>)
    requires s.Valid() && s.closest == [e] && Bit(s.flags, 1) == 1
    requires e.val.lastSend == 0 || now - e.val.lastSend > WithPeriod(s, now).retryPeriod
    ensures Sends(s, Turn(now, filler), e.val.id)
    ensures var r := Step(s, Turn(now, filler));
            && r.closest == [e.(val := e.val.(lastSend := now))] && r.flags == s.flags && r.queryTS == s.queryTS
            && r.retryPeriod == WithPeriod(s, now).retryPeriod
  {
    IdleBit(s);
    assert NextIndex([e], true, WithPeriod(s, now).retryPeriod, now) == 0;
  }
}
