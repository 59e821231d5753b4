/** Taking a received packet apart: the classifier, the field extractors, and the part of the
    packet handler that decides what each message type must carry. */
module Receive {
  import opened Metric
  import opened Peers
  import opened Bencode
  import opened BencodeTheorems
  import opened Msgs

  datatype Kind =
    | KUnknown | KPing | KPong | KFindNode | KReplyNode | KGetHash | KReplyHash | KReplyNear
    | KPostHash | KNewConn | KReplyNewConn | KBroadcastConn | KAskConn | KReplyConn

  // ---------------------------------------------------------------- lookups

  /** The value under a key, compared as C strings. */
  function Lookup(d: seq<Pair>, key: CString): Option<BeNode> {
    if d == [] then None
    else if CStr(d[0].key) == key then Some(d[0].val)
    else Lookup(d[1..], key)
  }

  /** The first entry under the key is the one found. */
  lemma {:induction false} LookupFirst(d: seq<Pair>, key: CString, i: nat)
    requires i <= |d| && forall j :: 0 <= j < i ==> CStr(d[j].key) != key
    requires i < |d| ==> CStr(d[i].key) == key
    ensures Lookup(d, key) == if i < |d| then Some(d[i].val) else None
    decreases i
  {
    if i == 0 {
    } else {
      LookupFirst(d[1..], key, i - 1);
    }
  }

  function DictNode(n: BeNode, key: CString): Option<BeNode> {
    if n.Dict? then Lookup(n.d, key) else None
  }

  predicate MatchString(n: BeNode, s: CString) {
    n.Str? && n.s == s
  }

  /** What the classifier dereferences without a check is there: the node that says query or
      reply, a body in it, and for a query the node that names it. */
  predicate Classifiable(n: BeNode) {
    && DictNode(n, K_Y).Some?
    && !DictNode(n, K_Y).value.NullStr?
    && (StartsWith(DictNode(n, K_Y).value, 113) ==> DictNode(n, K_Q).Some?)
  }

  lemma OneByteRead(s: Bytes, p: nat)
    requires p + 2 < |s| && s[p] == 49 && s[p + 1] == COLON
    ensures ReadStr(s, p) == (Some([s[p + 2]]), p + 3)
  {
    assert DigitsEnd(s, p) == p + 1 && DigitsValue(s, p, p) == 0;
    assert s[p + 2..p + 3] == [s[p + 2]];
  }

  lemma BodyMissing(s: Bytes, p: nat)
    requires p + 1 < |s| < p + 9 && s[p] == 57 && s[p + 1] == LOWER_E
    ensures Read(s, p) == (Some(NullStr), p + 1)
  {
    assert DigitsEnd(s, p) == p + 1 && DigitsValue(s, p, p) == 0;
  }

  lemma OneEntryRead(s: Bytes, x: BeNode, q: nat)
    requires 4 < |s| && s[0] == LOWER_D && s[1] == 49 && s[2] == COLON && s[3] == 121
    requires Read(s, 4) == (Some(x), q) && At(s, q) == LOWER_E
    ensures Read(s, 0) == (Some(Dict([Pair([121], x)])), q + 1)
    ensures DictNode(Dict([Pair([121], x)]), K_Y) == Some(x)
  {
    OneByteRead(s, 1);
    assert ReadDict(s, q, [Pair([121], x)]) == (Some(Dict([Pair([121], x)])), q + 1);
    assert [] + [Pair([121], x)] == [Pair([121], x)];
    CStrWhole([121]);
  }

  /** Three packets that are read whole and cannot be classified: one without that node, */
  lemma NoType()
    ensures Read([100, 101], 0) == (Some(Dict([])), 2) && !Classifiable(Dict([]))
  {
  }

  /** one in which it has no body, */
  lemma NoTypeBody()
    ensures var n := Dict([Pair([121], NullStr)]);
            Read([100, 49, 58, 121, 57, 101], 0) == (Some(n), 6) && !Classifiable(n)
  {
    var s: Bytes := [100, 49, 58, 121, 57, 101];
    BodyMissing(s, 4);
    OneEntryRead(s, NullStr, 5);
  }

  /** and a query without a name. */
  lemma NoQueryName()
    ensures var n := Dict([Pair([121], Str([113]))]);
            Read([100, 49, 58, 121, 49, 58, 113, 101], 0) == (Some(n), 8) && !Classifiable(n)
  {
    var s: Bytes := [100, 49, 58, 121, 49, 58, 113, 101];
    OneByteRead(s, 4);
    OneEntryRead(s, Str([113]), 7);
    CStrWhole([121]);
  }

  predicate StartsWith(n: BeNode, b: Byte) {
    n.Str? && n.s != [] && n.s[0] == b
  }

  /** beMsgType. */
  function MsgType(n: BeNode): Kind
    requires Classifiable(n)
  {
    var y := DictNode(n, K_Y).value;
    if StartsWith(y, 113) then
      var q := DictNode(n, K_Q).value;
      if MatchString(q, K_PING) then KPing
      else if MatchString(q, K_FIND_NODE) then KFindNode
      else if MatchString(q, K_GET_PEERS) then KGetHash
      else if MatchString(q, K_ANNOUNCE_PEER) then KPostHash
      else if MatchString(q, K_NEWCONN) then KNewConn
      else if MatchString(q, K_BRCONN) then KBroadcastConn
      else if MatchString(q, K_ASKCONN) then KAskConn
      else KUnknown
    else if StartsWith(y, 114) then
      match DictNode(n, K_R)
      case None => KUnknown
      case Some(reply) =>
        var token := DictNode(reply, K_TOKEN).Some?;
        if DictNode(reply, K_ID).None? then KUnknown
        else if token && DictNode(reply, K_VALUES).Some? then KReplyHash
        else if token && DictNode(reply, K_NODES).Some? then KReplyNear
        else if DictNode(reply, K_NODES).Some? then KReplyNode
        else if DictNode(reply, K_NEWCONN).Some? then KReplyNewConn
        else if DictNode(reply, K_ASKCONN).Some? then KReplyConn
        else KPong
    else KUnknown
  }

  // ---------------------------------------------------------------- extractors

  function StrOf(n: BeNode): Bytes {
    if n.Str? then n.s else []
  }

  function GetNodeId(n: BeNode): Option<NodeId> {
    if n.Str? && |n.s| == KEY_LEN then Some(n.s) else None
  }

  function GetBdId(n: BeNode): Option<PeerId> {
    if n.Str? then DecodeNodeId(n.s) else None
  }

  function GetListBdIds(n: BeNode): seq<PeerId> {
    if n.Str? then DecodeNodes(n.s) else []
  }

  function LeadingStrings(l: seq<BeNode>): seq<Bytes> {
    if l == [] || (!l[0].Str? && !l[0].NullStr?) then [] else [StrOf(l[0])] + LeadingStrings(l[1..])
  }

  function GetListStrings(n: BeNode): seq<Bytes> {
    if n.List? then LeadingStrings(n.l) else []
  }

  function GetUInt32(n: BeNode): Option<Word> {
    if n.Int? then Some(n.i % 0x1_0000_0000) else None
  }

  // ---------------------------------------------------------------- the packet handler

  /** What the handler hands on; a field it leaves unset is None or empty. */
  datatype Packet = Packet(kind: Kind, from: Addr, tid: Bytes, id: Option<NodeId>, version: Option<Bytes>,
                           target: Option<NodeId>, nodes: seq<PeerId>, values: seq<Bytes>, token: Bytes,
                           port: Option<Word>, myself: Option<PeerId>,
                           node: Option<NodeId>, peerNode: Option<NodeId>, peer: Option<PeerId>)

  function Bare(kind: Kind, from: Addr, tid: Bytes, id: Option<NodeId>): Packet {
    Packet(kind, from, tid, id, None, None, [], [], [], None, None, None, None, None)
  }

  /** The body of recvPkt up to the dispatch: None when it drops the packet. The token a
      reply carries is looked for but never read: the handler reads the transaction id again
      in its place. */
  function Handle(n: BeNode, from: Addr): Option<Packet>
    requires Classifiable(n)
  {
    var kind := MsgType(n);
    var query := StartsWith(DictNode(n, K_Y).value, 113);
    if kind == KUnknown then None
    else
      match DictNode(n, K_T)
      case None => None
      case Some(t) =>
        match DictNode(n, if query then K_A else K_R)
        case None => None
        case Some(data) =>
          match DictNode(data, K_ID)
          case None => None
          case Some(idNode) => Fields(kind, n, data, Bare(kind, from, StrOf(t), GetNodeId(idNode)))
  }

  function Fields(kind: Kind, n: BeNode, data: BeNode, p: Packet): Option<Packet>
  {
    match kind
    case KPong =>
      (match DictNode(n, K_V)
       case None => Some(p)
       case Some(v) => Some(p.(version := Some(StrOf(v)))))
    case KFindNode =>
      (match DictNode(data, K_TARGET)
       case None => None
       case Some(x) => Some(p.(target := GetNodeId(x))))
    case KGetHash =>
      (match DictNode(data, K_INFO_HASH)
       case None => None
       case Some(x) => Some(p.(target := GetNodeId(x))))
    case KPostHash =>
      (match (DictNode(data, K_INFO_HASH), DictNode(data, K_TOKEN), DictNode(data, K_PORT))
       case (Some(x), Some(_), Some(port)) => Some(p.(target := GetNodeId(x), port := GetUInt32(port)))
       case _ => None)
    case KReplyNode =>
      (match DictNode(data, K_NODES)
       case None => None
       case Some(x) => Some(p.(nodes := GetListBdIds(x))))
    case KReplyNear =>
      (match (DictNode(data, K_NODES), DictNode(data, K_TOKEN))
       case (Some(x), Some(_)) => Some(p.(nodes := GetListBdIds(x)))
       case _ => None)
    case KReplyHash =>
      (match (DictNode(data, K_VALUES), DictNode(data, K_TOKEN))
       case (Some(x), Some(_)) => Some(p.(values := GetListStrings(x)))
       case _ => None)
    case KReplyNewConn =>
      (match (DictNode(data, K_NEWCONN), DictNode(data, K_PID))
       case (Some(_), Some(pid)) => if GetBdId(pid).None? then None else Some(p.(myself := GetBdId(pid)))
       case _ => None)
    case KBroadcastConn =>
      (match (DictNode(data, K_NID), DictNode(data, K_PID))
       case (Some(nid), Some(pid)) =>
         if GetNodeId(nid).None? || GetNodeId(pid).None? then None
         else Some(p.(node := GetNodeId(nid), peerNode := GetNodeId(pid)))
       case _ => None)
    case KAskConn =>
      (match (DictNode(data, K_NID), DictNode(data, K_PID))
       case (Some(nid), Some(pid)) =>
         if GetNodeId(nid).None? || GetBdId(pid).None? then None
         else Some(p.(node := GetNodeId(nid), peer := GetBdId(pid)))
       case _ => None)
    case _ => Some(p)
  }

  // ---------------------------------------------------------------- what is dropped

  ghost predicate Has(n: BeNode, key: CString)
  {
    DictNode(n, key).Some?
  }

  /** There is a string of that many bytes, or of at least that many. */
  ghost predicate HasString(n: BeNode, key: CString, least: nat, most: nat)
  {
    Has(n, key) && DictNode(n, key).value.Str? && least <= |DictNode(n, key).value.s| <= most
  }

  /** The fields a packet of the kind must carry. */
  ghost predicate CarriesFields(kind: Kind, data: BeNode)
  {
    match kind
    case KFindNode => Has(data, K_TARGET)
    case KGetHash => Has(data, K_INFO_HASH)
    case KPostHash => Has(data, K_INFO_HASH) && Has(data, K_TOKEN) && Has(data, K_PORT)
    case KReplyNode => Has(data, K_NODES)
    case KReplyNear => Has(data, K_NODES) && Has(data, K_TOKEN)
    case KReplyHash => Has(data, K_VALUES) && Has(data, K_TOKEN)
    case KReplyNewConn =>
      Has(data, K_NEWCONN) && Has(data, K_PID) && DictNode(data, K_PID).value.Str?
      && |DictNode(data, K_PID).value.s| >= 26
    case KBroadcastConn => HasString(data, K_NID, 20, 20) && HasString(data, K_PID, 20, 20)
    case KAskConn =>
      HasString(data, K_NID, 20, 20) && Has(data, K_PID) && DictNode(data, K_PID).value.Str?
      && |DictNode(data, K_PID).value.s| >= 26
    case _ => true
  }

  lemma FieldsIff(kind: Kind, n: BeNode, data: BeNode, p: Packet)
    ensures Fields(kind, n, data, p).Some? <==> CarriesFields(kind, data)
  {
  }

  /** A packet is handed on if and only if it is of a known kind, has a transaction id, a body
      with the sender's id, and the fields of its kind. */
  lemma HandedOnIff(n: BeNode, from: Addr)
    requires Classifiable(n)
    ensures Handle(n, from).Some? <==>
              var query := StartsWith(DictNode(n, K_Y).value, 113);
              var body := DictNode(n, if query then K_A else K_R);
              && MsgType(n) != KUnknown && Has(n, K_T) && body.Some? && Has(body.value, K_ID)
              && CarriesFields(MsgType(n), body.value)
  {
    var body := DictNode(n, if StartsWith(DictNode(n, K_Y).value, 113) then K_A else K_R);
    if Has(n, K_T) && body.Some? && Has(body.value, K_ID) {
      FieldsIff(MsgType(n), n, body.value, Bare(MsgType(n), from, StrOf(DictNode(n, K_T).value),
                                                GetNodeId(DictNode(body.value, K_ID).value)));
    }
  }

  /** A query is told by its name, and is unknown under any other; so is what is neither. */
  lemma QueryKind(n: BeNode)
    requires Classifiable(n) && !StartsWith(DictNode(n, K_Y).value, 114)
    ensures if StartsWith(DictNode(n, K_Y).value, 113) then
              var k, q := MsgType(n), DictNode(n, K_Q).value;
              && (k == KPing <==> q == Str(K_PING))
              && (k == KFindNode <==> q == Str(K_FIND_NODE))
              && (k == KGetHash <==> q == Str(K_GET_PEERS))
              && (k == KPostHash <==> q == Str(K_ANNOUNCE_PEER))
              && (k == KNewConn <==> q == Str(K_NEWCONN))
              && (k == KBroadcastConn <==> q == Str(K_BRCONN))
              && (k == KAskConn <==> q == Str(K_ASKCONN))
              && k in {KPing, KFindNode, KGetHash, KPostHash, KNewConn, KBroadcastConn, KAskConn, KUnknown}
            else MsgType(n) == KUnknown
  {
    TopWords();
    QueryWords();
  }

  /** A reply is told by what its body has: values before nodes, each with a token; then nodes
      alone, then the two answers of the rendezvous. */
  lemma ReplyKind(n: BeNode)
    requires Classifiable(n) && StartsWith(DictNode(n, K_Y).value, 114)
    ensures var k, r := MsgType(n), DictNode(n, K_R);
            if r.None? || !Has(r.value, K_ID) then k == KUnknown
            else
              var b := r.value;
              && (k == KReplyHash <==> Has(b, K_TOKEN) && Has(b, K_VALUES))
              && (k == KReplyNear <==> Has(b, K_TOKEN) && !Has(b, K_VALUES) && Has(b, K_NODES))
              && (k == KReplyNode <==> !Has(b, K_TOKEN) && Has(b, K_NODES))
              && (k == KReplyNewConn <==> !(Has(b, K_TOKEN) && Has(b, K_VALUES)) && !Has(b, K_NODES)
                                          && Has(b, K_NEWCONN))
              && (k == KReplyConn <==> !(Has(b, K_TOKEN) && Has(b, K_VALUES)) && !Has(b, K_NODES)
                                       && !Has(b, K_NEWCONN) && Has(b, K_ASKCONN))
              && (k == KPong <==> !(Has(b, K_TOKEN) && Has(b, K_VALUES)) && !Has(b, K_NODES)
                                  && !Has(b, K_NEWCONN) && !Has(b, K_ASKCONN))
  {
  }

  // ---------------------------------------------------------------- what should arrive

  function KindOf(m: Message): Kind {
    match m
    case Ping(_, _) => KPing
    case Pong(_, _, _) => KPong
    case FindNode(_, _, _) => KFindNode
    case ReplyNodes(_, _, _) => KReplyNode
    case GetPeers(_, _, _) => KGetHash
    case ReplyHash(_, _, _, _) => KReplyHash
    case ReplyClosest(_, _, _, _) => KReplyNear
    case Announce(_, _, _, _, _) => KPostHash
    case ReplyAnnounce(_, _) => KPong
    case AskMyIp(_, _) => KNewConn
    case ReplyMyIp(_, _, _, _) => KReplyNewConn
    case BroadcastConn(_, _, _, _) => KBroadcastConn
    case AskConn(_, _, _, _) => KAskConn
    case ReplyConn(_, _, _) => KReplyConn
  }

  /** The packet a message should turn into: every field that was put in, except tokens. */
  function Expected(m: Message, from: Addr): Packet {
    Filled(m, Bare(KindOf(m), from, m.tid, Some(m.id)))
  }

  function Filled(m: Message, p: Packet): Packet {
    match m
    case Pong(_, _, vid) => p.(version := Some(vid))
    case FindNode(_, _, target) => p.(target := Some(target))
    case ReplyNodes(_, _, nodes) => p.(nodes := nodes)
    case GetPeers(_, _, infoHash) => p.(target := Some(infoHash))
    case ReplyHash(_, _, _, values) => p.(values := values)
    case ReplyClosest(_, _, _, nodes) => p.(nodes := nodes)
    case Announce(_, _, infoHash, port, _) => p.(target := Some(infoHash), port := Some(port))
    case ReplyMyIp(_, _, peer, _) => p.(myself := Some(peer))
    case BroadcastConn(_, _, nodeId, peerId) => p.(node := Some(nodeId), peerNode := Some(peerId))
    case AskConn(_, _, nodeId, peer) => p.(node := Some(nodeId), peer := Some(peer))
    case _ => p
  }

  // ---------------------------------------------------------------- compact encodings invert

  lemma PeerAddrInverse(a: Addr)
    ensures DecodePeerAddr(EncodePeerAddr(a)) == a
  {
    var b := EncodePeerAddr(a);
    assert b[..4] == Le4(a.ip);
    Le4Inverse(a.ip, Le4(a.ip));
  }

  lemma NodeIdInverse(p: PeerId, suffix: Bytes)
    ensures DecodeNodeId(EncodeNodeId(p) + suffix) == Some(p)
  {
    var b := EncodeNodeId(p) + suffix;
    assert b[..KEY_LEN] == p.id;
    assert b[KEY_LEN..COMPACT_NODE_LEN] == EncodePeerAddr(p.addr);
    PeerAddrInverse(p.addr);
  }

  lemma {:induction false} EncodeNodesFirst(nodes: seq<PeerId>)
    requires nodes != []
    ensures EncodeNodes(nodes) == EncodeNodeId(nodes[0]) + EncodeNodes(nodes[1..])
  {
    var n := |nodes| - 1;
    if n == 0 {
    } else {
      EncodeNodesFirst(nodes[..n]);
      assert nodes[..n][1..] == nodes[1..][..n - 1];
    }
  }

  /** A list of contacts survives the compact encoding, in order. */
  lemma {:induction false} NodesInverse(nodes: seq<PeerId>)
    ensures DecodeNodes(EncodeNodes(nodes)) == nodes
  {
    if nodes == [] {
    } else {
      EncodeNodesFirst(nodes);
      var b := EncodeNodes(nodes);
      NodeIdInverse(nodes[0], EncodeNodes(nodes[1..]));
      assert b[COMPACT_NODE_LEN..] == EncodeNodes(nodes[1..]);
      NodesInverse(nodes[1..]);
    }
  }

  /** Bytes that do not make up a whole contact are left over. */
  lemma {:induction false} NodesThenTail(nodes: seq<PeerId>, tail: Bytes)
    requires |tail| < 26
    ensures DecodeNodes(EncodeNodes(nodes) + tail) == nodes
  {
    if nodes == [] {
      assert EncodeNodes(nodes) + tail == tail;
    } else {
      EncodeNodesFirst(nodes);
      var b := EncodeNodes(nodes) + tail;
      Regroup(EncodeNodeId(nodes[0]), EncodeNodes(nodes[1..]), tail);
      NodeIdInverse(nodes[0], EncodeNodes(nodes[1..]) + tail);
      assert b[COMPACT_NODE_LEN..] == EncodeNodes(nodes[1..]) + tail;
      NodesThenTail(nodes[1..], tail);
    }
  }

  /** A list of values is read up to the first item that is no string; one without a body is
      read as empty. */
  lemma {:induction false} StringsThenOther(l: seq<BeNode>, n: nat)
    requires n <= |l| && forall i :: 0 <= i < n ==> l[i].Str? || l[i].NullStr?
    requires n < |l| ==> !l[n].Str? && !l[n].NullStr?
    ensures var r := GetListStrings(List(l));
            |r| == n && forall i :: 0 <= i < n ==> r[i] == if l[i].Str? then l[i].s else []
    decreases n
  {
    if n == 0 {
    } else {
      StringsThenOther(l[1..], n - 1);
    }
  }

  lemma {:induction false} StringsInverse(values: seq<Bytes>)
    ensures LeadingStrings(StrList(values)) == values
  {
    if values == [] {
    } else {
      assert StrList(values)[1..] == StrList(values[1..]);
      StringsInverse(values[1..]);
    }
  }

  /** The same, as the extractors see it. */
  lemma NodesRead(nodes: seq<PeerId>)
    ensures GetListBdIds(Str(EncodeNodes(nodes))) == nodes
  {
    NodesInverse(nodes);
  }

  lemma StringsRead(values: seq<Bytes>)
    ensures GetListStrings(List(StrList(values))) == values
  {
    StringsInverse(values);
  }

  lemma PeerRead(peer: PeerId)
    ensures GetBdId(Str(EncodeNodeId(peer))) == Some(peer)
  {
    NodeIdInverse(peer, []);
    assert EncodeNodeId(peer) + [] == EncodeNodeId(peer);
  }

  // ---------------------------------------------------------------- every message is recovered

  /** Length and first byte tell the words of the protocol apart. */
  lemma TopWords()
    ensures |K_A| == |K_R| == |K_T| == |K_Y| == |K_Q| == |K_V| == |K_N| == 1
    ensures K_A[0] == 97 && K_R[0] == 114 && K_T[0] == 116 && K_Y[0] == 121
    ensures K_Q[0] == 113 && K_V[0] == 118 && K_N[0] == 110
  {
  }

  lemma BodyWords()
    ensures |K_ID| == 2 && |K_TARGET| == 6 && |K_NODES| == 5 && |K_INFO_HASH| == 9 && |K_TOKEN| == 5
    ensures |K_VALUES| == 6 && |K_PORT| == 4 && |K_NEWCONN| == 7 && |K_PID| == 3 && |K_NID| == 3 && |K_ASKCONN| == 7
    ensures K_TARGET[0] == 116 && K_NODES[0] == 110 && K_TOKEN[0] == 116 && K_VALUES[0] == 118
    ensures K_NEWCONN[0] == 110 && K_PID[0] == 112 && K_NID[0] == 110 && K_ASKCONN[0] == 97
  {
  }

  lemma QueryWords()
    ensures |K_PING| == 4 && |K_FIND_NODE| == 9 && |K_GET_PEERS| == 9 && |K_ANNOUNCE_PEER| == 13
    ensures |K_NEWCONN| == 7 && |K_BRCONN| == 6 && |K_ASKCONN| == 7
    ensures K_FIND_NODE[0] == 102 && K_GET_PEERS[0] == 103 && K_NEWCONN[0] == 110 && K_ASKCONN[0] == 97
  {
  }

  // Where a key is found in a dictionary of one to four entries.

  lemma Lookup1(a: CString, w: BeNode, key: CString)
    ensures Lookup([Pair(a, w)], key) == if a == key then Some(w) else None
  {
    CStrWhole(a);
    assert [Pair(a, w)][1..] == [];
  }

  lemma Lookup2(a: CString, w: BeNode, b: CString, x: BeNode, key: CString)
    ensures Lookup([Pair(a, w), Pair(b, x)], key) == if a == key then Some(w) else if b == key then Some(x) else None
  {
    CStrWhole(a);
    assert [Pair(a, w), Pair(b, x)][1..] == [Pair(b, x)];
    Lookup1(b, x, key);
  }

  lemma Lookup3(a: CString, w: BeNode, b: CString, x: BeNode, c: CString, y: BeNode, key: CString)
    ensures Lookup([Pair(a, w), Pair(b, x), Pair(c, y)], key) ==
        if a == key then Some(w) else if b == key then Some(x) else if c == key then Some(y) else None
  {
    CStrWhole(a);
    assert [Pair(a, w), Pair(b, x), Pair(c, y)][1..] == [Pair(b, x), Pair(c, y)];
    Lookup2(b, x, c, y, key);
  }

  lemma Lookup4(a: CString, w: BeNode, b: CString, x: BeNode, c: CString, y: BeNode, d: CString, z: BeNode,
      key: CString)
    ensures Lookup([Pair(a, w), Pair(b, x), Pair(c, y), Pair(d, z)], key) ==
        if a == key then Some(w) else if b == key then Some(x) else if c == key then Some(y)
        else if d == key then Some(z) else None
  {
    CStrWhole(a);
    assert [Pair(a, w), Pair(b, x), Pair(c, y), Pair(d, z)][1..] == [Pair(b, x), Pair(c, y), Pair(d, z)];
    Lookup3(b, x, c, y, d, z, key);
  }

  lemma LookupAny1(a: CString, w: BeNode)
    ensures forall key: CString :: Lookup([Pair(a, w)], key) == if a == key then Some(w) else None
  {
    forall key: CString ensures Lookup([Pair(a, w)], key) == if a == key then Some(w) else None {
      Lookup1(a, w, key);
    }
  }

  lemma LookupAny2(a: CString, w: BeNode, b: CString, x: BeNode)
    ensures forall key: CString ::
              Lookup([Pair(a, w), Pair(b, x)], key) ==
                if a == key then Some(w) else if b == key then Some(x) else None
  {
    forall key: CString ensures Lookup([Pair(a, w), Pair(b, x)], key) ==
        if a == key then Some(w) else if b == key then Some(x) else None {
      Lookup2(a, w, b, x, key);
    }
  }

  lemma LookupAny3(a: CString, w: BeNode, b: CString, x: BeNode, c: CString, y: BeNode)
    ensures forall key: CString ::
              Lookup([Pair(a, w), Pair(b, x), Pair(c, y)], key) ==
                if a == key then Some(w) else if b == key then Some(x) else if c == key then Some(y) else None
  {
    forall key: CString ensures Lookup([Pair(a, w), Pair(b, x), Pair(c, y)], key) ==
        if a == key then Some(w) else if b == key then Some(x) else if c == key then Some(y) else None {
      Lookup3(a, w, b, x, c, y, key);
    }
  }

  lemma LookupAny4(a: CString, w: BeNode, b: CString, x: BeNode, c: CString, y: BeNode, d: CString, z: BeNode)
    ensures forall key: CString ::
              Lookup([Pair(a, w), Pair(b, x), Pair(c, y), Pair(d, z)], key) ==
                if a == key then Some(w) else if b == key then Some(x) else if c == key then Some(y)
                else if d == key then Some(z) else None
  {
    forall key: CString ensures Lookup([Pair(a, w), Pair(b, x), Pair(c, y), Pair(d, z)], key) ==
        if a == key then Some(w) else if b == key then Some(x) else if c == key then Some(y)
        else if d == key then Some(z) else None {
      Lookup4(a, w, b, x, c, y, d, z, key);
    }
  }

  /** What the top level of a message's tree answers. */
  ghost predicate TopFacts(m: Message)
  {
    var n := Tree(m);
    && DictNode(n, K_Y) == Some(Str(if IsQuery(m) then K_Q else K_R))
    && DictNode(n, K_T) == Some(Str(m.tid))
    && DictNode(n, if IsQuery(m) then K_A else K_R) == Some(Dict(Body(m)))
    && (IsQuery(m) ==> DictNode(n, K_Q) == Some(Str(NameText(m))))
    && (m.Pong? ==> DictNode(n, K_V) == Some(Str(m.vid)))
    && (m.ReplyAnnounce? ==> DictNode(n, K_V) == None)
  }

  lemma TopQuery(m: Message)
    requires IsQuery(m)
    ensures TopFacts(m)
  {
    TopWords();
    if m.FindNode? || m.GetPeers? {
      LookupAny4(K_A, Dict(Body(m)), K_T, Str(m.tid), K_Y, Str(K_Q), K_Q, Str(NameText(m)));
    } else {
      LookupAny4(K_A, Dict(Body(m)), K_Q, Str(NameText(m)), K_T, Str(m.tid), K_Y, Str(K_Q));
    }
  }

  lemma TopReply(m: Message)
    requires !IsQuery(m)
    ensures TopFacts(m)
  {
    TopWords();
    var t, body := Str(m.tid), Dict(Body(m));
    if m.Pong? {
      LookupAny4(K_R, body, K_T, t, K_Y, Str(K_R), K_V, Str(m.vid));
    } else if m.ReplyAnnounce? {
      LookupAny3(K_R, body, K_T, t, K_Y, Str(K_R));
    } else if m.ReplyMyIp? || m.ReplyConn? {
      LookupAny4(K_R, body, K_T, t, K_Y, Str(K_R), K_N, Str(if m.started then K_Y else K_N));
    } else {
      LookupAny3(K_T, t, K_Y, Str(K_R), K_R, body);
    }
  }

  lemma TopShape(m: Message)
    ensures TopFacts(m)
  {
    if IsQuery(m) {
      TopQuery(m);
    } else {
      TopReply(m);
    }
  }

  lemma BodyId(m: Message)
    ensures DictNode(Dict(Body(m)), K_ID) == Some(Str(m.id))
  {
    assert Body(m)[0] == Pair(K_ID, Str(m.id));
    CStrWhole(K_ID);
  }

  lemma QueryType(m: Message)
    requires IsQuery(m) && TopFacts(m)
    ensures Classifiable(Tree(m)) && MsgType(Tree(m)) == KindOf(m)
  {
    TopWords();
    QueryWords();
  }

  /** Which of the telling keys a reply's body holds. */
  lemma ReplyBody(m: Message)
    requires !IsQuery(m)
    ensures var b := Dict(Body(m));
            && (DictNode(b, K_TOKEN).Some? <==> m.ReplyHash? || m.ReplyClosest?)
            && (DictNode(b, K_VALUES).Some? <==> m.ReplyHash?)
            && (DictNode(b, K_NODES).Some? <==> m.ReplyNodes? || m.ReplyClosest?)
            && (DictNode(b, K_NEWCONN).Some? <==> m.ReplyMyIp?)
            && (DictNode(b, K_ASKCONN).Some? <==> m.ReplyConn?)
  {
    BodyWords();
    var id := Str(m.id);
    match m
    case Pong(_, _, _) => LookupAny1(K_ID, id);
    case ReplyAnnounce(_, _) => LookupAny1(K_ID, id);
    case ReplyNodes(_, _, nodes) => LookupAny2(K_ID, id, K_NODES, Str(EncodeNodes(nodes)));
    case ReplyHash(_, _, token, values) =>
      LookupAny3(K_ID, id, K_TOKEN, Str(token), K_VALUES, List(StrList(values)));
    case ReplyClosest(_, _, token, nodes) =>
      LookupAny3(K_ID, id, K_TOKEN, Str(token), K_NODES, Str(EncodeNodes(nodes)));
    case ReplyMyIp(_, _, peer, _) =>
      LookupAny3(K_ID, id, K_NEWCONN, Str(K_HELLO), K_PID, Str(EncodeNodeId(peer)));
    case ReplyConn(_, _, _) => LookupAny2(K_ID, id, K_ASKCONN, Str(K_HELLO));
  }

  lemma ReplyType(m: Message)
    requires !IsQuery(m) && TopFacts(m)
    ensures Classifiable(Tree(m)) && MsgType(Tree(m)) == KindOf(m)
  {
    TopWords();
    BodyId(m);
    ReplyBody(m);
  }

  /** beMsgType gives every message its own type, an announce reply the type of a pong. */
  lemma TypeRecovered(m: Message)
    ensures Classifiable(Tree(m)) && MsgType(Tree(m)) == KindOf(m)
  {
    TopShape(m);
    if IsQuery(m) {
      QueryType(m);
    } else {
      ReplyType(m);
    }
  }

  ghost predicate FieldsFilled(m: Message, p: Packet)
  {
    Fields(KindOf(m), Tree(m), Dict(Body(m)), p) == Some(Filled(m, p))
  }

  lemma FindNodeFields(m: Message, p: Packet)
    requires m.FindNode?
    ensures FieldsFilled(m, p)
  {
    BodyWords();
    LookupAny2(K_ID, Str(m.id), K_TARGET, Str(m.target));
  }

  lemma GetPeersFields(m: Message, p: Packet)
    requires m.GetPeers?
    ensures FieldsFilled(m, p)
  {
    BodyWords();
    LookupAny2(K_ID, Str(m.id), K_INFO_HASH, Str(m.infoHash));
  }

  lemma AnnounceFields(m: Message, p: Packet)
    requires m.Announce?
    ensures FieldsFilled(m, p)
  {
    BodyWords();
    LookupAny4(K_ID, Str(m.id), K_INFO_HASH, Str(m.infoHash), K_PORT, Int(m.port), K_TOKEN, Str(m.token));
  }

  lemma BroadcastConnFields(m: Message, p: Packet)
    requires m.BroadcastConn?
    ensures FieldsFilled(m, p)
  {
    BodyWords();
    LookupAny3(K_ID, Str(m.id), K_NID, Str(m.nodeId), K_PID, Str(m.peerId));
  }

  lemma AskConnFields(m: Message, p: Packet)
    requires m.AskConn?
    ensures FieldsFilled(m, p)
  {
    BodyWords();
    LookupAny3(K_ID, Str(m.id), K_NID, Str(m.nodeId), K_PID, Str(EncodeNodeId(m.peer)));
    PeerRead(m.peer);
  }

  lemma ReplyNodesFields(m: Message, p: Packet)
    requires m.ReplyNodes?
    ensures FieldsFilled(m, p)
  {
    BodyWords();
    LookupAny2(K_ID, Str(m.id), K_NODES, Str(EncodeNodes(m.nodes)));
    NodesRead(m.nodes);
  }

  lemma ReplyHashFields(m: Message, p: Packet)
    requires m.ReplyHash?
    ensures FieldsFilled(m, p)
  {
    BodyWords();
    LookupAny3(K_ID, Str(m.id), K_TOKEN, Str(m.token), K_VALUES, List(StrList(m.values)));
    StringsRead(m.values);
  }

  lemma ReplyClosestFields(m: Message, p: Packet)
    requires m.ReplyClosest?
    ensures FieldsFilled(m, p)
  {
    BodyWords();
    LookupAny3(K_ID, Str(m.id), K_TOKEN, Str(m.token), K_NODES, Str(EncodeNodes(m.nodes)));
    NodesRead(m.nodes);
  }

  lemma ReplyMyIpFields(m: Message, p: Packet)
    requires m.ReplyMyIp?
    ensures FieldsFilled(m, p)
  {
    BodyWords();
    LookupAny3(K_ID, Str(m.id), K_NEWCONN, Str(K_HELLO), K_PID, Str(EncodeNodeId(m.peer)));
    PeerRead(m.peer);
  }

  /** Every field that was put in is found again. */
  lemma NoFields(m: Message, p: Packet)
    requires m.Ping? || m.AskMyIp? || m.ReplyConn?
    ensures FieldsFilled(m, p)
  {
  }

  lemma VersionField(m: Message, p: Packet)
    requires m.Pong? || m.ReplyAnnounce?
    ensures FieldsFilled(m, p)
  {
    TopShape(m);
  }

  lemma FieldsRecovered(m: Message, p: Packet)
    ensures FieldsFilled(m, p)
  {
    match m
    case Ping(_, _) => NoFields(m, p);
    case AskMyIp(_, _) => NoFields(m, p);
    case ReplyConn(_, _, _) => NoFields(m, p);
    case Pong(_, _, _) => VersionField(m, p);
    case ReplyAnnounce(_, _) => VersionField(m, p);
    case FindNode(_, _, _) => FindNodeFields(m, p);
    case GetPeers(_, _, _) => GetPeersFields(m, p);
    case Announce(_, _, _, _, _) => AnnounceFields(m, p);
    case BroadcastConn(_, _, _, _) => BroadcastConnFields(m, p);
    case AskConn(_, _, _, _) => AskConnFields(m, p);
    case ReplyNodes(_, _, _) => ReplyNodesFields(m, p);
    case ReplyHash(_, _, _, _) => ReplyHashFields(m, p);
    case ReplyClosest(_, _, _, _) => ReplyClosestFields(m, p);
    case ReplyMyIp(_, _, _, _) => ReplyMyIpFields(m, p);
  }

  /** The handler hands on every field that was put into a message, except a token. */
  lemma HandleRecovers(m: Message, from: Addr)
    ensures Classifiable(Tree(m)) && Handle(Tree(m), from) == Some(Expected(m, from))
  {
    TopShape(m);
    TopWords();
    TypeRecovered(m);
    BodyId(m);
    FieldsRecovered(m, Bare(KindOf(m), from, m.tid, Some(m.id)));
  }

  // ---------------------------------------------------------------- over the wire

  predicate IsWord(k: Bytes) {
    forall i :: 0 <= i < |k| ==> k[i] != 0
  }

  lemma WordWhole(k: Bytes)
    requires IsWord(k)
    ensures CStr(k) == k
  {
    CStrWhole(k);
  }

  lemma WordsPrintable(d: seq<Pair>)
    requires forall i :: 0 <= i < |d| ==> IsWord(d[i].key) && Printable(d[i].val)
    ensures Printable(Dict(d))
  {
    forall i | 0 <= i < |d| ensures CStr(d[i].key) == d[i].key {
      WordWhole(d[i].key);
    }
  }

  lemma BodyPrintable(m: Message)
    ensures Printable(Dict(Body(m)))
  {
    if m.ReplyHash? {
      assert Printable(List(StrList(m.values)));
    }
    WordsPrintable(Body(m));
  }

  lemma QueryPrintable(m: Message)
    requires IsQuery(m)
    ensures Printable(Tree(m))
  {
    BodyPrintable(m);
    WordsPrintable(Tree(m).d);
  }

  lemma ReplyPrintable(m: Message)
    requires !IsQuery(m)
    ensures Printable(Tree(m))
  {
    BodyPrintable(m);
    WordsPrintable(Tree(m).d);
  }

  lemma TreePrintable(m: Message)
    ensures Printable(Tree(m))
  {
    if IsQuery(m) {
      QueryPrintable(m);
    } else {
      ReplyPrintable(m);
    }
  }

  /** Every message, printed, followed by any trailer, read and handled, arrives as it was
      sent. */
  lemma MessageRecovered(m: Message, from: Addr, trailer: Bytes)
    requires |Enc(Tree(m)) + trailer| <= LLONG_MAX
    ensures Read(Enc(Tree(m)) + trailer, 0) == (Some(Tree(m)), |Enc(Tree(m))|)
    ensures Classifiable(Tree(m)) && Handle(Tree(m), from) == Some(Expected(m, from))
  {
    TreePrintable(m);
    ReadAfterPrint(Tree(m), trailer);
    HandleRecovers(m, from);
  }

  /** The token of a reply or an announcement reaches the dispatcher exactly when it is empty. */
  lemma TokenRecoveredIff(m: Message, from: Addr)
    requires m.ReplyHash? || m.ReplyClosest? || m.Announce?
    ensures Classifiable(Tree(m))
    ensures Handle(Tree(m), from).Some? && (Handle(Tree(m), from).value.token == m.token <==> m.token == [])
  {
    HandleRecovers(m, from);
  }

  /** So a reply's token is lost. */
  lemma TokenLost(id: NodeId, from: Addr)
    ensures var m := ReplyHash([1], id, [2], []);
            Classifiable(Tree(m)) && Handle(Tree(m), from).Some? && Handle(Tree(m), from).value.token == []
  {
    HandleRecovers(ReplyHash([1], id, [2], []), from);
  }

  /** What the packet does not carry: the token, and whether a connection was started. */
  function Forget(m: Message): Message {
    match m
    case ReplyHash(tid, id, _, values) => ReplyHash(tid, id, [], values)
    case ReplyClosest(tid, id, _, nodes) => ReplyClosest(tid, id, [], nodes)
    case Announce(tid, id, infoHash, port, _) => Announce(tid, id, infoHash, port, [])
    case ReplyMyIp(tid, id, peer, _) => ReplyMyIp(tid, id, peer, false)
    case ReplyConn(tid, id, _) => ReplyConn(tid, id, false)
    case _ => m
  }

  /** The message a packet was, read off the packet alone. */
  function Sent(p: Packet): Option<Message> {
    if p.id.None? then None
    else
      var id := p.id.value;
      match p.kind
      case KUnknown => None
      case KPing => Some(Ping(p.tid, id))
      case KPong => Some(if p.version.Some? then Pong(p.tid, id, p.version.value) else ReplyAnnounce(p.tid, id))
      case KFindNode => if p.target.Some? then Some(FindNode(p.tid, id, p.target.value)) else None
      case KReplyNode => Some(ReplyNodes(p.tid, id, p.nodes))
      case KGetHash => if p.target.Some? then Some(GetPeers(p.tid, id, p.target.value)) else None
      case KReplyHash => Some(ReplyHash(p.tid, id, [], p.values))
      case KReplyNear => Some(ReplyClosest(p.tid, id, [], p.nodes))
      case KPostHash =>
        if p.target.Some? && p.port.Some? then Some(Announce(p.tid, id, p.target.value, p.port.value, [])) else None
      case KNewConn => Some(AskMyIp(p.tid, id))
      case KReplyNewConn => if p.myself.Some? then Some(ReplyMyIp(p.tid, id, p.myself.value, false)) else None
      case KBroadcastConn =>
        if p.node.Some? && p.peerNode.Some? then Some(BroadcastConn(p.tid, id, p.node.value, p.peerNode.value))
        else None
      case KAskConn =>
        if p.node.Some? && p.peer.Some? then Some(AskConn(p.tid, id, p.node.value, p.peer.value)) else None
      case KReplyConn => Some(ReplyConn(p.tid, id, false))
  }

  lemma SentExpected(m: Message, from: Addr)
    ensures Sent(Expected(m, from)) == Some(Forget(m))
  {
  }

  /** Nothing else is lost: the packet alone gives back the message, less that. */
  lemma NothingElseLost(m: Message, from: Addr)
    ensures Classifiable(Tree(m)) && Handle(Tree(m), from).Some?
    ensures Sent(Handle(Tree(m), from).value) == Some(Forget(m))
  {
    HandleRecovers(m, from);
    SentExpected(m, from);
  }

  /** A packet sealed with room to spare is accepted, whatever the token, and still reads as the
      message it was. */
  lemma OpensSealed(m: Message, from: Addr, avail: nat, token: Word)
    requires |Enc(Tree(m))| + 11 <= avail <= LLONG_MAX
    ensures var packet := Sealed(Enc(Tree(m)), avail, token);
            && Accepted(packet) && |packet| == |Enc(Tree(m))| + 8 && Read(packet, 0).0 == Some(Tree(m))
            && Classifiable(Tree(m)) && Handle(Tree(m), from) == Some(Expected(m, from))
  {
    var text := Enc(Tree(m));
    var trailer := Le4(Checksum(text)) + Le4(token);
    SealedAccepted(text, avail, token);
    Regroup(text, Le4(Checksum(text)), Le4(token));
    MessageRecovered(m, from, trailer);
  }

  method SealAndOpen(m: Message, from: Addr, msg: array<Byte>, avail: nat, token: Word) returns (valid: bool, n: nat)
    requires avail <= msg.Length <= LLONG_MAX && |Enc(Tree(m))| + 11 <= avail
    modifies msg
    ensures valid && n == |Enc(Tree(m))| + 8 <= msg.Length
    ensures Read(msg[..n], 0).0 == Some(Tree(m))
    ensures Classifiable(Tree(m)) && Handle(Tree(m), from) == Some(Expected(m, from))
  {
    var blen := Print(Tree(m), msg, avail);
    OpensSealed(m, from, avail, token);
    n := Ecrypt(msg, blen, avail, token);
    valid := Decrypt(msg[..n]);
  }
}
