/** An iterative lookup: the bounded list of the peers closest to a target, the choice of
    the next peer to ask, and the state machine that ends the lookup. */
module Query {
  import opened Metric
  import opened Multimap
  import opened Peers

  type FoundMap = seq<Entry<Peer>>

  const EXPECTED_REPLY := 20
  const IDLE_RETRY_PERIOD := 300
  const MIN_AGE := 10
  const MAX_AGE := 1800

  const DISGUISE: Word := 1
  const DO_IDLE: Word := 2

  datatype Status = Ready | Querying | Failure | FoundClosest | PeerUnreachable | Success

  /** The fields of a lookup, as a value. */
  datatype State = State(target: NodeId, closest: FoundMap, potential: FoundMap, status: Status,
                         queryTS: int, flags: Word, searchTime: int, retryPeriod: int)
  {
    ghost predicate Valid() {
      Sorted(closest) && Sorted(potential)
    }

    predicate Idle() {
      And(flags, DO_IDLE) != 0
    }
  }

  // ---------------------------------------------------------------- small functions

  /** Asked, not heard from since, and that more than twenty seconds ago. */
  predicate TimedOut(p: Peer, ts: int) {
    p.lastSend != 0 && p.lastRecv < p.lastSend && ts - p.lastSend > EXPECTED_REPLY
  }

  /** The entries that are not timed out, in order. */
  function Live(m: FoundMap, ts: int): (r: FoundMap)
    ensures |r| <= |m|
  {
    if m == [] then []
    else
      var n := |m| - 1;
      Live(m[..n], ts) + if TimedOut(m[n].val, ts) then [] else [m[n]]
  }

  /** The first index in lo..hi that holds the peer, or hi. */
  function Find(m: FoundMap, id: PeerId, lo: nat, hi: nat): (n: nat)
    requires lo <= hi <= |m|
    ensures lo <= n <= hi
    ensures n < hi ==> m[n].val.id == id
    ensures forall i :: lo <= i < n ==> m[i].val.id != id
    decreases hi - lo
  {
    if lo == hi || m[lo].val.id == id then lo else Find(m, id, lo + 1, hi)
  }

  function Newcomer(target: NodeId, id: PeerId, recv: int, found: int): Entry<Peer> {
    Entry(Dist(target, id.id), Peer(id, 0, 0, recv, found))
  }

  /** The entry made for a peer that has just spoken. */
  function Fresh(target: NodeId, id: PeerId, mode: Word, ts: int): Entry<Peer> {
    Newcomer(target, id, if And(mode, RECV_NODES) != 0 then ts else 0, ts)
  }

  function Heard(e: Entry<Peer>, mode: Word, ts: int): Entry<Peer> {
    if And(mode, RECV_NODES) != 0 then e.(val := e.val.(lastRecv := ts)) else e
  }

  /** Reduction to a signed 32-bit field. */
  function Int32(x: int): int {
    var y := x % 0x1_0000_0000;
    if y >= 0x8000_0000 then y - 0x1_0000_0000 else y
  }

  /** Division by two, truncated toward zero. */
  function Half(x: int): int {
    if x < 0 then -(-x / 2) else x / 2
  }

  // ---------------------------------------------------------------- offering a peer

  /** Makes room for one more entry and inserts it. */
  function Admit(m: FoundMap, e: Entry<Peer>): FoundMap {
    Insert(Take(m, NODES_PER_BUCKET - 1), e)
  }

  /** What is left of the list once the timed-out peers nearer than d are dropped. */
  function Kept(m: FoundMap, d: nat, ts: int): FoundMap {
    Live(m[..LowerBound(m, d)], ts) + m[LowerBound(m, d)..]
  }

  predicate TooFar(m: FoundMap, d: nat, ts: int) {
    |Live(m[..LowerBound(m, d)], ts)| >= NODES_PER_BUCKET
  }

  /** The list after a peer has been offered, and whether it was taken in. */
  function Offer(m: FoundMap, target: NodeId, id: PeerId, mode: Word, ts: int): (FoundMap, bool)
    requires Sorted(m)
  {
    var d := Dist(target, id.id);
    Bounds(m, d);
    var lo, hi := LowerBound(m, d), UpperBound(m, d);
    var at := Find(m, id, lo, hi);
    if TooFar(m, d, ts) then (m, false)
    else if at < hi then (m[at := Heard(m[at], mode, ts)], true)
    else (Admit(Kept(m, d, ts), Fresh(target, id, mode, ts)), true)
  }

  /** The list of peers known only by name after one more has been offered, and whether that
      peer is worth a ping. */
  function OfferPotential(m: FoundMap, potential: FoundMap, target: NodeId, id: PeerId, mode: Word, ts: int)
    : (FoundMap, bool)
    requires Sorted(m) && Sorted(potential)
  {
    var d := Dist(target, id.id);
    Bounds(m, d);
    Bounds(potential, d);
    var lo, hi := LowerBound(m, d), UpperBound(m, d);
    if Find(m, id, lo, hi) < hi || (lo == |m| && |m| >= NODES_PER_BUCKET) then (potential, false)
    else
      var plo, phi := LowerBound(potential, d), UpperBound(potential, d);
      var at := Find(potential, id, plo, phi);
      if plo >= NODES_PER_BUCKET then (potential, true)
      else if at < phi then (potential[at := Heard(potential[at], mode, ts)], false)
      else (Admit(potential, Newcomer(target, id, ts, ts)), true)
  }

  // ---------------------------------------------------------------- choosing whom to ask

  predicate ShouldAsk(p: Peer, idle: bool, period: int, now: int) {
    p.lastSend == 0 || (idle && now - p.lastSend > period)
  }

  /** The first peer, nearest first, that is due a request; |m| if none is. */
  function NextIndex(m: FoundMap, idle: bool, period: int, now: int): (n: nat)
    ensures n <= |m|
    ensures n < |m| ==> ShouldAsk(m[n].val, idle, period, now)
    ensures forall i :: 0 <= i < n ==> !ShouldAsk(m[i].val, idle, period, now)
  {
    if m == [] || ShouldAsk(m[0].val, idle, period, now) then 0 else 1 + NextIndex(m[1..], idle, period, now)
  }

  predicate AllReplied(m: FoundMap) {
    forall i :: 0 <= i < |m| ==> m[i].val.lastRecv != 0
  }

  /** The verdict of a finished lookup. */
  function Verdict(target: NodeId, closest: FoundMap, potential: FoundMap): Status {
    if closest == [] then Failure
    else if closest[0].val.id.id == target then Success
    else if potential != [] && potential[0].val.id.id == target then PeerUnreachable
    else FoundClosest
  }

  predicate MayFinish(closest: FoundMap, age: int) {
    age >= MIN_AGE && (age > MAX_AGE || (|closest| >= NODES_PER_BUCKET && AllReplied(closest)))
  }

  function WithPeriod(q: State, now: int): State {
    var half := Half(now - q.queryTS);
    if half > q.retryPeriod then q.(retryPeriod := Int32(half)) else q
  }

  /** One call of the selection loop: the lookup afterwards and the request to send. */
  function Ask(s: State, now: int, filler: NodeId): (State, Option<(PeerId, NodeId)>)
  {
    if s.status != Querying && !s.Idle() then (s, None)
    else
      var q := WithPeriod(s, now);
      var n := NextIndex(q.closest, q.Idle(), q.retryPeriod, now);
      if n < |q.closest| then
        var e := q.closest[n];
        (q.(closest := q.closest[n := e.(val := e.val.(lastSend := now))]),
         Some((e.val.id, if And(q.flags, DISGUISE) != 0 then MidId(q.target, e.val.id.id, filler) else q.target)))
      else (Concluded(q, now), None)
  }

  /** The lookup with no one to ask: it ends if it may. */
  function Concluded(q: State, now: int): State {
    if MayFinish(q.closest, now - q.queryTS) then
      q.(searchTime := if q.status == Querying then Int32(now - q.queryTS) else q.searchTime,
         status := Verdict(q.target, q.closest, q.potential))
    else q
  }

  /** The peers whose distance does not exceed the limit, which is zero. */
  function Results(m: FoundMap): seq<PeerId> {
    Ids(m[..UpperBound(m, 0)])
  }

  function Ids(m: FoundMap): (r: seq<PeerId>)
    ensures |r| == |m|
    ensures forall i :: 0 <= i < |m| ==> r[i] == m[i].val.id
  {
    if m == [] then [] else Ids(m[..|m| - 1]) + [m[|m| - 1].val.id]
  }

  function StartEntries(target: NodeId, start: seq<PeerId>, now: int): (r: FoundMap)
    ensures |r| == |start|
    ensures forall i :: 0 <= i < |r| ==> r[i] == Newcomer(target, start[i], 0, now)
  {
    if start == [] then []
    else StartEntries(target, start[..|start| - 1], now) + [Newcomer(target, start[|start| - 1], 0, now)]
  }

  function Initial(target: NodeId, start: seq<PeerId>, flags: Word, now: int): State {
    State(target, InsertAll([], StartEntries(target, start, now)), [], Querying, now, flags, 0, IDLE_RETRY_PERIOD)
  }

  // ---------------------------------------------------------------- lemmas for the loops

  lemma {:induction false} LiveDropOne(m: FoundMap, p: nat, ts: int)
    requires p < |m| && TimedOut(m[p].val, ts)
    ensures Live(m[..p] + m[p + 1..], ts) == Live(m, ts)
  {
    var n := |m| - 1;
    var r := m[..p] + m[p + 1..];
    if p == n {
      assert r == m[..n];
    } else {
      LiveDropOne(m[..n], p, ts);
      assert r[..|r| - 1] == m[..n][..p] + m[..n][p + 1..];
      assert r[|r| - 1] == m[n];
    }
  }

  lemma {:induction false} LiveAll(m: FoundMap, ts: int)
    ensures (forall i :: 0 <= i < |m| ==> !TimedOut(m[i].val, ts)) <==> |Live(m, ts)| == |m|
    ensures |Live(m, ts)| == |m| ==> Live(m, ts) == m
  {
    if m == [] {
    } else {
      var n := |m| - 1;
      LiveAll(m[..n], ts);
      assert m == m[..n] + [m[n]];
      assert forall i :: 0 <= i < n ==> m[..n][i] == m[i];
    }
  }

  lemma {:induction false} LiveMembers(m: FoundMap, ts: int, e: Entry<Peer>)
    ensures e in Live(m, ts) <==> e in m && !TimedOut(e.val, ts)
  {
    if m == [] {
    } else {
      var n := |m| - 1;
      LiveMembers(m[..n], ts, e);
      assert m == m[..n] + [m[n]];
    }
  }

  lemma {:induction false} LiveSorted(m: FoundMap, ts: int)
    requires Sorted(m)
    ensures Sorted(Live(m, ts))
  {
    if m == [] {
    } else {
      var n := |m| - 1;
      LiveSorted(m[..n], ts);
      forall i | 0 <= i < |Live(m[..n], ts)| ensures Live(m[..n], ts)[i].key <= m[n].key {
        LiveMembers(m[..n], ts, Live(m[..n], ts)[i]);
      }
    }
  }

  lemma KeptSorted(m: FoundMap, d: nat, ts: int)
    requires Sorted(m)
    ensures Sorted(Kept(m, d, ts))
  {
    Bounds(m, d);
    var lo := LowerBound(m, d);
    var live := Live(m[..lo], ts);
    LiveSorted(m[..lo], ts);
    forall i | 0 <= i < |live| ensures live[i].key < d {
      LiveMembers(m[..lo], ts, live[i]);
    }
  }

  lemma TouchSorted(m: FoundMap, at: nat, e: Entry<Peer>)
    requires Sorted(m) && at < |m| && e.key == m[at].key
    ensures Sorted(m[at := e])
  {
  }

  lemma AdmitSorted(m: FoundMap, e: Entry<Peer>)
    requires Sorted(m)
    ensures Sorted(Admit(m, e))
  {
    InsertSorted(Take(m, NODES_PER_BUCKET - 1), e);
  }

  lemma OfferSorted(m: FoundMap, target: NodeId, id: PeerId, mode: Word, ts: int)
    requires Sorted(m)
    ensures Sorted(Offer(m, target, id, mode, ts).0)
  {
    var d := Dist(target, id.id);
    Bounds(m, d);
    var at := Find(m, id, LowerBound(m, d), UpperBound(m, d));
    if at < UpperBound(m, d) {
      TouchSorted(m, at, Heard(m[at], mode, ts));
    }
    KeptSorted(m, d, ts);
    AdmitSorted(Kept(m, d, ts), Fresh(target, id, mode, ts));
  }

  lemma OfferPotentialSorted(m: FoundMap, potential: FoundMap, target: NodeId, id: PeerId, mode: Word, ts: int)
    requires Sorted(m) && Sorted(potential)
    ensures Sorted(OfferPotential(m, potential, target, id, mode, ts).0)
  {
    var d := Dist(target, id.id);
    Bounds(potential, d);
    var at := Find(potential, id, LowerBound(potential, d), UpperBound(potential, d));
    if at < UpperBound(potential, d) {
      TouchSorted(potential, at, Heard(potential[at], mode, ts));
    }
    AdmitSorted(potential, Newcomer(target, id, ts, ts));
  }

  lemma AskSorted(s: State, now: int, filler: NodeId)
    requires s.Valid()
    ensures Ask(s, now, filler).0.Valid()
  {
    var q := WithPeriod(s, now);
    var n := NextIndex(q.closest, q.Idle(), q.retryPeriod, now);
    if n < |q.closest| {
      TouchSorted(q.closest, n, q.closest[n].(val := q.closest[n].val.(lastSend := now)));
    }
  }

  lemma InitialSorted(target: NodeId, start: seq<PeerId>, flags: Word, now: int)
    ensures Initial(target, start, flags, now).Valid()
  {
    InsertAllKeeps([], StartEntries(target, start, now));
  }

  // ---------------------------------------------------------------- the loops

  method StartMap(target: NodeId, start: seq<PeerId>, now: int) returns (m: FoundMap)
    ensures m == InsertAll([], StartEntries(target, start, now))
  {
    m := [];
    for i := 0 to |start|
      invariant m == InsertAll([], StartEntries(target, start[..i], now))
    {
      assert start[..i + 1][..i] == start[..i];
      var e := Newcomer(target, start[i], 0, now);
      assert StartEntries(target, start[..i + 1], now)[..i] == StartEntries(target, start[..i], now);
      m := Insert(m, e);
    }
    assert start[..|start|] == start;
  }

  /** Looks for the peer among the entries lo..hi, which share its distance. */
  method Search(m: FoundMap, id: PeerId, lo: nat, hi: nat) returns (n: nat)
    requires lo <= hi <= |m|
    ensures n == Find(m, id, lo, hi)
  {
    n := lo;
    while n < hi
      invariant lo <= n <= hi
      invariant forall j :: lo <= j < n ==> m[j].val.id != id
    {
      if m[n].val.id == id {
        return;
      }
      n := n + 1;
    }
  }

  /** Walks the list to the first peer due a request, noting whether some peer before it has
      never been heard from. */
  method Select(m: FoundMap, idle: bool, period: int, now: int) returns (n: nat, notFinished: bool)
    ensures n == NextIndex(m, idle, period, now)
    ensures n == |m| ==> (notFinished <==> !AllReplied(m))
  {
    notFinished := false;
    n := 0;
    while n < |m|
      invariant n <= |m|
      invariant forall k :: 0 <= k < n ==> !ShouldAsk(m[k].val, idle, period, now)
      invariant notFinished <==> exists k :: 0 <= k < n && m[k].val.lastRecv == 0
    {
      var queryPeer := m[n].val.lastSend == 0;
      if !queryPeer && idle && now - m[n].val.lastSend > period {
        queryPeer := true;
      }
      if m[n].val.lastRecv == 0 {
        notFinished := true;
      }
      if queryPeer {
        return;
      }
      n := n + 1;
    }
  }

  /** Counts the entries before sit that still count, and those that do not. */
  method CountNear(m: FoundMap, sit: nat, ts: int) returns (i: int, toDrop: int)
    requires sit <= |m|
    ensures i == |Live(m[..sit], ts)| && toDrop == sit - i
  {
    i, toDrop := 0, 0;
    for k := 0 to sit
      invariant i == |Live(m[..k], ts)| && toDrop == k - i
    {
      assert m[..k + 1][..k] == m[..k];
      i := i + 1;
      if TimedOut(m[k].val, ts) {
        i := i - 1;
        toDrop := toDrop + 1;
      }
    }
  }

  /** Erases, toDrop times, the first timed-out entry of the whole list. */
  method DropSilent(m: FoundMap, ghost sit: nat, toDrop: nat, ts: int) returns (r: FoundMap)
    requires sit <= |m| && toDrop == sit - |Live(m[..sit], ts)|
    ensures r == Live(m[..sit], ts) + m[sit..]
  {
    r := m;
    ghost var near, rest := m[..sit], m[sit..];
    for j := 0 to toDrop
      invariant r == near + rest
      invariant Live(near, ts) == Live(m[..sit], ts)
      invariant |near| - |Live(near, ts)| == toDrop - j
    {
      LiveAll(near, ts);
      var k := 0;
      while !TimedOut(r[k].val, ts)
        invariant k < |near|
        invariant forall l :: 0 <= l < k ==> !TimedOut(near[l].val, ts)
        decreases |near| - k
      {
        assert r[k] == near[k];
        k := k + 1;
      }
      LiveDropOne(near, k, ts);
      r := r[..k] + r[k + 1..];
      near := near[..k] + near[k + 1..];
    }
    LiveAll(near, ts);
  }

  /** Erases the farthest entry until there is room for one more. */
  method TrimBack(m: FoundMap) returns (r: FoundMap)
    ensures r == Take(m, NODES_PER_BUCKET - 1)
  {
    r := m;
    while |r| > NODES_PER_BUCKET - 1
      invariant r <= m
      invariant |r| >= NODES_PER_BUCKET - 1 || r == m
    {
      r := r[..|r| - 1];
    }
  }

  class Query {
    const target: NodeId
    const queryTS: int
    const flags: Word
    var closest: FoundMap
    var potential: FoundMap
    var status: Status
    var searchTime: int
    var retryPeriod: int

    function Snapshot(): State
      reads this
    {
      State(target, closest, potential, status, queryTS, flags, searchTime, retryPeriod)
    }

    ghost predicate Valid()
      reads this
    {
      Snapshot().Valid()
    }

    constructor (id: NodeId, start: seq<PeerId>, queryFlags: Word, now: int)
      ensures Valid() && Snapshot() == Initial(id, start, queryFlags, now)
    {
      target, queryTS, flags := id, now, queryFlags;
      potential, status, searchTime, retryPeriod := [], Querying, 0, IDLE_RETRY_PERIOD;
      var m := StartMap(id, start, now);
      InitialSorted(id, start, queryFlags, now);
      closest := m;
    }

    method Result() returns (found: bool, answer: seq<PeerId>)
      requires Valid()
      ensures answer == Results(closest)
      ensures found <==> answer != []
    {
      var eit := UpperBound(closest, 0);
      answer := [];
      for i := 0 to eit
        invariant answer == Ids(closest[..i])
      {
        assert closest[..i + 1][..i] == closest[..i];
        answer := answer + [closest[i].val.id];
      }
      found := eit > 0;
    }

    method NextQuery(now: int, filler: NodeId) returns (r: Option<(PeerId, NodeId)>)
      requires Valid()
      modifies this
      ensures Valid()
      ensures Snapshot() == Ask(old(Snapshot()), now, filler).0
      ensures r == Ask(old(Snapshot()), now, filler).1
    {
      AskSorted(Snapshot(), now, filler);
      if status != Querying && And(flags, DO_IDLE) == 0 {
        return None;
      }
      if Half(now - queryTS) > retryPeriod {
        retryPeriod := Int32(Half(now - queryTS));
      }
      var n, notFinished := Select(closest, And(flags, DO_IDLE) != 0, retryPeriod, now);
      if n < |closest| {
        var p := closest[n].val;
        closest := closest[n := closest[n].(val := p.(lastSend := now))];
        if And(flags, DISGUISE) != 0 {
          return Some((p.id, MidId(target, p.id.id, filler)));
        } else {
          return Some((p.id, target));
        }
      }
      Conclude(now, notFinished);
      return None;
    }

    method Conclude(now: int, notFinished: bool)
      requires Valid() && (notFinished <==> !AllReplied(closest))
      modifies this`status, this`searchTime
      ensures Valid() && Snapshot() == Concluded(old(Snapshot()), now)
    {
      var age := now - queryTS;
      if age < MIN_AGE {
        return;
      }
      if age > MAX_AGE {
      } else if |closest| < NODES_PER_BUCKET || notFinished {
        return;
      }
      if status == Querying {
        searchTime := Int32(now - queryTS);
      }
      if |closest| > 0 {
        if closest[0].val.id.id == target {
          status := Success;
        } else if |potential| > 0 && potential[0].val.id.id == target {
          status := PeerUnreachable;
        } else {
          status := FoundClosest;
        }
      } else {
        status := Failure;
      }
    }

    method AddPeer(id: PeerId, mode: Word, ts: int) returns (taken: bool)
      requires Valid()
      modifies this`closest
      ensures Valid()
      ensures closest == Offer(old(closest), target, id, mode, ts).0
      ensures taken == Offer(old(closest), target, id, mode, ts).1
    {
      OfferSorted(closest, target, id, mode, ts);
      var dist := Dist(target, id.id);
      Bounds(closest, dist);
      var sit, eit := LowerBound(closest, dist), UpperBound(closest, dist);
      var i, toDrop := CountNear(closest, sit, ts);
      if i > NODES_PER_BUCKET - 1 {
        return false;
      }
      var k := Search(closest, id, sit, eit);
      if k < eit {
        if And(mode, RECV_NODES) != 0 {
          closest := closest[k := closest[k].(val := closest[k].val.(lastRecv := ts))];
        }
        return true;
      }
      closest := DropSilent(closest, sit, toDrop, ts);
      closest := TrimBack(closest);
      var e := Newcomer(target, id, 0, ts);
      if And(mode, RECV_NODES) != 0 {
        e := e.(val := e.val.(lastRecv := ts));
      }
      closest := Insert(closest, e);
      return true;
    }

    method AddPotentialPeer(id: PeerId, mode: Word, ts: int) returns (worthy: bool)
      requires Valid()
      modifies this`potential
      ensures Valid()
      ensures potential == OfferPotential(closest, old(potential), target, id, mode, ts).0
      ensures worthy == OfferPotential(closest, old(potential), target, id, mode, ts).1
    {
      OfferPotentialSorted(closest, potential, target, id, mode, ts);
      var dist := Dist(target, id.id);
      Bounds(closest, dist);
      Bounds(potential, dist);
      var sit, eit := LowerBound(closest, dist), UpperBound(closest, dist);
      var k := Search(closest, id, sit, eit);
      worthy := k == eit;
      if sit == |closest| && |closest| >= NODES_PER_BUCKET {
        worthy := false;
      }
      if !worthy {
        return;
      }
      sit, eit := LowerBound(potential, dist), UpperBound(potential, dist);
      if sit > NODES_PER_BUCKET - 1 {
        return true;
      }
      k := Search(potential, id, sit, eit);
      if k < eit {
        if And(mode, RECV_NODES) != 0 {
          potential := potential[k := potential[k].(val := potential[k].val.(lastRecv := ts))];
        }
        return false;
      }
      potential := TrimBack(potential);
      potential := Insert(potential, Newcomer(target, id, ts, ts));
      return true;
    }
  }
}
