/** The fourteen messages of the wire protocol: how each is built, and how a received packet
    is classified and taken apart. */
module Msgs {
  import opened Metric
  import opened Peers
  import opened Bencode

  function Text(x: string): (b: CString)
    requires forall i :: 0 <= i < |x| ==> 0 < x[i] as int < 256
    ensures |b| == |x|
    ensures forall i :: 0 <= i < |x| ==> b[i] == x[i] as int
  {
    seq(|x|, i requires 0 <= i < |x| => x[i] as int)
  }

  // ---------------------------------------------------------------- the words of the protocol

  const K_ID: CString := Text("id")
  const K_TARGET: CString := Text("target")
  const K_NODES: CString := Text("nodes")
  const K_INFO_HASH: CString := Text("info_hash")
  const K_TOKEN: CString := Text("token")
  const K_VALUES: CString := Text("values")
  const K_PORT: CString := Text("port")
  const K_NEWCONN: CString := Text("newconn")
  const K_PID: CString := Text("pid")
  const K_NID: CString := Text("nid")
  const K_ASKCONN: CString := Text("askconn")
  const K_A: CString := Text("a")
  const K_R: CString := Text("r")
  const K_T: CString := Text("t")
  const K_Y: CString := Text("y")
  const K_Q: CString := Text("q")
  const K_V: CString := Text("v")
  const K_N: CString := Text("n")
  const K_PING: CString := Text("ping")
  const K_FIND_NODE: CString := Text("find_node")
  const K_GET_PEERS: CString := Text("get_peers")
  const K_ANNOUNCE_PEER: CString := Text("announce_peer")
  const K_BRCONN: CString := Text("brconn")
  const K_HELLO: CString := Text("hello")

  // ---------------------------------------------------------------- compact encodings

  const COMPACT_NODE_LEN: nat := 26
  const COMPACT_PEER_LEN: nat := 6

  /** A word as it lies in memory, low byte first. */
  function Le4(w: Word): (b: Bytes)
    ensures |b| == 4
  {
    [w % 256, w / 256 % 256, w / 256 / 256 % 256, w / 256 / 256 / 256]
  }

  function FromLe4(b: Bytes): (w: Word)
    requires |b| == 4
  {
    b[0] as int + 256 * (b[1] as int + 256 * (b[2] as int + 256 * b[3] as int))
  }

  function EncodePeerAddr(a: Addr): (b: Bytes)
    ensures |b| == COMPACT_PEER_LEN
  {
    Le4(a.ip) + [a.port % 256, a.port / 256]
  }

  function DecodePeerAddr(b: Bytes): Addr
    requires |b| == COMPACT_PEER_LEN
  {
    Addr(FromLe4(b[..4]), b[4] as int + 256 * b[5] as int)
  }

  /** Address and port lie in the six bytes as in memory, low byte first. */
  lemma PeerAddrBytes(a: Addr)
    ensures var b := EncodePeerAddr(a);
            && b[0] as int + 0x100 * b[1] as int + 0x1_0000 * b[2] as int + 0x100_0000 * b[3] as int == a.ip
            && b[4] as int + 0x100 * b[5] as int == a.port
  {
    Digits4(a.ip);
  }

  /** The twenty bytes of the id come first. */
  lemma NodeIdBytes(p: PeerId)
    ensures EncodeNodeId(p)[..20] == p.id && EncodeNodeId(p)[20..] == EncodePeerAddr(p.addr)
  {
  }

  function EncodeNodeId(p: PeerId): (b: Bytes)
    ensures |b| == COMPACT_NODE_LEN
  {
    p.id + EncodePeerAddr(p.addr)
  }

  function DecodeNodeId(b: Bytes): Option<PeerId> {
    if |b| < COMPACT_NODE_LEN then None
    else Some(PeerId(b[..KEY_LEN], DecodePeerAddr(b[KEY_LEN..COMPACT_NODE_LEN])))
  }

  function EncodeNodes(nodes: seq<PeerId>): (b: Bytes)
    ensures |b| == COMPACT_NODE_LEN * |nodes|
  {
    if nodes == [] then [] else EncodeNodes(nodes[..|nodes| - 1]) + EncodeNodeId(nodes[|nodes| - 1])
  }

  /** As many whole contacts as the string holds. */
  function DecodeNodes(b: Bytes): seq<PeerId>
    decreases |b|
  {
    if |b| < COMPACT_NODE_LEN then []
    else [DecodeNodeId(b).value] + DecodeNodes(b[COMPACT_NODE_LEN..])
  }

  function StrList(values: seq<Bytes>): (l: seq<BeNode>)
    ensures |l| == |values| && forall i :: 0 <= i < |l| ==> l[i] == Str(values[i])
  {
    seq(|values|, i requires 0 <= i < |values| => Str(values[i]))
  }

  // ---------------------------------------------------------------- messages and their trees

  datatype Message =
    | Ping(tid: Bytes, id: NodeId)
    | Pong(tid: Bytes, id: NodeId, vid: Bytes)
    | FindNode(tid: Bytes, id: NodeId, target: NodeId)
    | ReplyNodes(tid: Bytes, id: NodeId, nodes: seq<PeerId>)
    | GetPeers(tid: Bytes, id: NodeId, infoHash: NodeId)
    | ReplyHash(tid: Bytes, id: NodeId, token: Bytes, values: seq<Bytes>)
    | ReplyClosest(tid: Bytes, id: NodeId, token: Bytes, nodes: seq<PeerId>)
    | Announce(tid: Bytes, id: NodeId, infoHash: NodeId, port: Word, token: Bytes)
    | ReplyAnnounce(tid: Bytes, id: NodeId)
    | AskMyIp(tid: Bytes, id: NodeId)
    | ReplyMyIp(tid: Bytes, id: NodeId, peer: PeerId, started: bool)
    | BroadcastConn(tid: Bytes, id: NodeId, nodeId: NodeId, peerId: NodeId)
    | AskConn(tid: Bytes, id: NodeId, nodeId: NodeId, peer: PeerId)
    | ReplyConn(tid: Bytes, id: NodeId, started: bool)

  /** The body of a message: its "a" or "r" dictionary. */
  function Body(m: Message): seq<Pair> {
    var id := Pair(K_ID, Str(m.id));
    match m
    case Ping(_, _) => [id]
    case Pong(_, _, _) => [id]
    case FindNode(_, _, target) => [id, Pair(K_TARGET, Str(target))]
    case ReplyNodes(_, _, nodes) => [id, Pair(K_NODES, Str(EncodeNodes(nodes)))]
    case GetPeers(_, _, infoHash) => [id, Pair(K_INFO_HASH, Str(infoHash))]
    case ReplyHash(_, _, token, values) => [id, Pair(K_TOKEN, Str(token)), Pair(K_VALUES, List(StrList(values)))]
    case ReplyClosest(_, _, token, nodes) => [id, Pair(K_TOKEN, Str(token)), Pair(K_NODES, Str(EncodeNodes(nodes)))]
    case Announce(_, _, infoHash, port, token) =>
      [id, Pair(K_INFO_HASH, Str(infoHash)), Pair(K_PORT, Int(port)), Pair(K_TOKEN, Str(token))]
    case ReplyAnnounce(_, _) => [id]
    case AskMyIp(_, _) => [id]
    case ReplyMyIp(_, _, peer, _) => [id, Pair(K_NEWCONN, Str(K_HELLO)), Pair(K_PID, Str(EncodeNodeId(peer)))]
    case BroadcastConn(_, _, nodeId, peerId) => [id, Pair(K_NID, Str(nodeId)), Pair(K_PID, Str(peerId))]
    case AskConn(_, _, nodeId, peer) => [id, Pair(K_NID, Str(nodeId)), Pair(K_PID, Str(EncodeNodeId(peer)))]
    case ReplyConn(_, _, _) => [id, Pair(K_ASKCONN, Str(K_HELLO))]
  }

  predicate IsQuery(m: Message) {
    m.Ping? || m.FindNode? || m.GetPeers? || m.Announce? || m.AskMyIp? || m.BroadcastConn? || m.AskConn?
  }

  /** The whole message, keys in the order its builder adds them. */
  function Tree(m: Message): BeNode {
    var t, body := Pair(K_T, Str(m.tid)), Dict(Body(m));
    var y := Pair(K_Y, Str(if IsQuery(m) then K_Q else K_R));
    match m
    case FindNode(_, _, _) => Dict([Pair(K_A, body), t, y, Pair(K_Q, Str(K_FIND_NODE))])
    case GetPeers(_, _, _) => Dict([Pair(K_A, body), t, y, Pair(K_Q, Str(K_GET_PEERS))])
    case Pong(_, _, vid) => Dict([Pair(K_R, body), t, y, Pair(K_V, Str(vid))])
    case ReplyAnnounce(_, _) => Dict([Pair(K_R, body), t, y])
    case ReplyMyIp(_, _, _, started) => Dict([Pair(K_R, body), t, y, Pair(K_N, Str(if started then K_Y else K_N))])
    case ReplyConn(_, _, started) => Dict([Pair(K_R, body), t, y, Pair(K_N, Str(if started then K_Y else K_N))])
    case ReplyNodes(_, _, _) => Dict([t, y, Pair(K_R, body)])
    case ReplyHash(_, _, _, _) => Dict([t, y, Pair(K_R, body)])
    case ReplyClosest(_, _, _, _) => Dict([t, y, Pair(K_R, body)])
    case _ => Dict([Pair(K_A, body), Pair(K_Q, Str(NameText(m))), t, y])
  }

  function NameText(m: Message): CString {
    match m
    case Ping(_, _) => K_PING
    case FindNode(_, _, _) => K_FIND_NODE
    case GetPeers(_, _, _) => K_GET_PEERS
    case Announce(_, _, _, _, _) => K_ANNOUNCE_PEER
    case AskMyIp(_, _) => K_NEWCONN
    case BroadcastConn(_, _, _, _) => K_BRCONN
    case AskConn(_, _, _, _) => K_ASKCONN
    case _ => []
  }

  // ---------------------------------------------------------------- the builders

  method MakeCompactIdList(nodes: seq<PeerId>) returns (n: BeNode)
    ensures n == Str(EncodeNodes(nodes))
  {
    var cni: Bytes := [];
    for i := 0 to |nodes|
      invariant cni == EncodeNodes(nodes[..i])
    {
      assert nodes[..i + 1][..i] == nodes[..i];
      cni := cni + EncodeNodeId(nodes[i]);
    }
    assert nodes[..|nodes|] == nodes;
    n := Str(cni);
  }

  method MakeCompactPeerIds(values: seq<Bytes>) returns (n: BeNode)
    ensures n == List(StrList(values))
  {
    n := List([]);
    for i := 0 to |values|
      invariant n == List(StrList(values[..i]))
    {
      assert StrList(values[..i + 1]) == StrList(values[..i]) + [Str(values[i])];
      n := AddList(n, Str(values[i]));
    }
    assert values[..|values|] == values;
  }

  /** The printer, from the start of the buffer. */
  method Print(n: BeNode, msg: array<Byte>, avail: nat) returns (blen: nat)
    requires avail <= msg.Length && |Enc(n)| < avail
    modifies msg
    ensures blen == |Enc(n)| && msg[..blen] == Enc(n)
  {
    blen := Encode(n, msg, 0, avail);
    assert msg[..0 + blen] == [] + Enc(n);
  }

  method CreatePingMsg(tid: Bytes, id: NodeId, msg: array<Byte>, avail: nat) returns (blen: nat)
    requires avail <= msg.Length && |Enc(Tree(Ping(tid, id)))| < avail
    modifies msg
    ensures blen == |Enc(Tree(Ping(tid, id)))|
    ensures msg[..blen] == Enc(Tree(Ping(tid, id)))
  {
    var body := AddKeypair(Dict([]), K_ID, Str(id));
    assert body.d == Body(Ping(tid, id));
    var dict := AddKeypair(Dict([]), K_A, body);
    dict := AddKeypair(dict, K_Q, Str(K_PING));
    dict := AddKeypair(dict, K_T, Str(tid));
    dict := AddKeypair(dict, K_Y, Str(K_Q));
    assert dict.d == Tree(Ping(tid, id)).d;
    blen := Print(dict, msg, avail);
  }

  method ResponsePingMsg(tid: Bytes, id: NodeId, vid: Bytes, msg: array<Byte>, avail: nat) returns (blen: nat)
    requires avail <= msg.Length && |Enc(Tree(Pong(tid, id, vid)))| < avail
    modifies msg
    ensures blen == |Enc(Tree(Pong(tid, id, vid)))|
    ensures msg[..blen] == Enc(Tree(Pong(tid, id, vid)))
  {
    var body := AddKeypair(Dict([]), K_ID, Str(id));
    assert body.d == Body(Pong(tid, id, vid));
    var dict := AddKeypair(Dict([]), K_R, body);
    dict := AddKeypair(dict, K_T, Str(tid));
    dict := AddKeypair(dict, K_Y, Str(K_R));
    dict := AddKeypair(dict, K_V, Str(vid));
    assert dict.d == Tree(Pong(tid, id, vid)).d;
    blen := Print(dict, msg, avail);
  }

  method FindNodeMsg(tid: Bytes, id: NodeId, target: NodeId, msg: array<Byte>, avail: nat) returns (blen: nat)
    requires avail <= msg.Length && |Enc(Tree(FindNode(tid, id, target)))| < avail
    modifies msg
    ensures blen == |Enc(Tree(FindNode(tid, id, target)))|
    ensures msg[..blen] == Enc(Tree(FindNode(tid, id, target)))
  {
    var body := AddKeypair(Dict([]), K_ID, Str(id));
    body := AddKeypair(body, K_TARGET, Str(target));
    assert body.d == Body(FindNode(tid, id, target));
    var dict := AddKeypair(Dict([]), K_A, body);
    dict := AddKeypair(dict, K_T, Str(tid));
    dict := AddKeypair(dict, K_Y, Str(K_Q));
    dict := AddKeypair(dict, K_Q, Str(K_FIND_NODE));
    assert dict.d == Tree(FindNode(tid, id, target)).d;
    blen := Print(dict, msg, avail);
  }

  method RespNodeMsg(tid: Bytes, id: NodeId, nodes: seq<PeerId>, msg: array<Byte>, avail: nat) returns (blen: nat)
    requires avail <= msg.Length && |Enc(Tree(ReplyNodes(tid, id, nodes)))| < avail
    modifies msg
    ensures blen == |Enc(Tree(ReplyNodes(tid, id, nodes)))|
    ensures msg[..blen] == Enc(Tree(ReplyNodes(tid, id, nodes)))
  {
    var peers := MakeCompactIdList(nodes);
    var body := AddKeypair(Dict([]), K_ID, Str(id));
    body := AddKeypair(body, K_NODES, peers);
    assert body.d == Body(ReplyNodes(tid, id, nodes));
    var dict := AddKeypair(Dict([]), K_T, Str(tid));
    dict := AddKeypair(dict, K_Y, Str(K_R));
    dict := AddKeypair(dict, K_R, body);
    assert dict.d == Tree(ReplyNodes(tid, id, nodes)).d;
    blen := Print(dict, msg, avail);
  }

  method GetPeersMsg(tid: Bytes, id: NodeId, infoHash: NodeId, msg: array<Byte>, avail: nat) returns (blen: nat)
    requires avail <= msg.Length && |Enc(Tree(GetPeers(tid, id, infoHash)))| < avail
    modifies msg
    ensures blen == |Enc(Tree(GetPeers(tid, id, infoHash)))|
    ensures msg[..blen] == Enc(Tree(GetPeers(tid, id, infoHash)))
  {
    var body := AddKeypair(Dict([]), K_ID, Str(id));
    body := AddKeypair(body, K_INFO_HASH, Str(infoHash));
    assert body.d == Body(GetPeers(tid, id, infoHash));
    var dict := AddKeypair(Dict([]), K_A, body);
    dict := AddKeypair(dict, K_T, Str(tid));
    dict := AddKeypair(dict, K_Y, Str(K_Q));
    dict := AddKeypair(dict, K_Q, Str(K_GET_PEERS));
    assert dict.d == Tree(GetPeers(tid, id, infoHash)).d;
    blen := Print(dict, msg, avail);
  }

  method PeersReplyHashMsg(tid: Bytes, id: NodeId, token: Bytes, values: seq<Bytes>, msg: array<Byte>, avail: nat)
    returns (blen: nat)
    requires avail <= msg.Length && |Enc(Tree(ReplyHash(tid, id, token, values)))| < avail
    modifies msg
    ensures blen == |Enc(Tree(ReplyHash(tid, id, token, values)))|
    ensures msg[..blen] == Enc(Tree(ReplyHash(tid, id, token, values)))
  {
    var valuesNode := MakeCompactPeerIds(values);
    var body := AddKeypair(Dict([]), K_ID, Str(id));
    body := AddKeypair(body, K_TOKEN, Str(token));
    body := AddKeypair(body, K_VALUES, valuesNode);
    assert body.d == Body(ReplyHash(tid, id, token, values));
    var dict := AddKeypair(Dict([]), K_T, Str(tid));
    dict := AddKeypair(dict, K_Y, Str(K_R));
    dict := AddKeypair(dict, K_R, body);
    assert dict.d == Tree(ReplyHash(tid, id, token, values)).d;
    blen := Print(dict, msg, avail);
  }

  method PeersReplyClosestMsg(tid: Bytes, id: NodeId, token: Bytes, nodes: seq<PeerId>, msg: array<Byte>, avail: nat)
    returns (blen: nat)
    requires avail <= msg.Length && |Enc(Tree(ReplyClosest(tid, id, token, nodes)))| < avail
    modifies msg
    ensures blen == |Enc(Tree(ReplyClosest(tid, id, token, nodes)))|
    ensures msg[..blen] == Enc(Tree(ReplyClosest(tid, id, token, nodes)))
  {
    var peers := MakeCompactIdList(nodes);
    var body := AddKeypair(Dict([]), K_ID, Str(id));
    body := AddKeypair(body, K_TOKEN, Str(token));
    body := AddKeypair(body, K_NODES, peers);
    assert body.d == Body(ReplyClosest(tid, id, token, nodes));
    var dict := AddKeypair(Dict([]), K_T, Str(tid));
    dict := AddKeypair(dict, K_Y, Str(K_R));
    dict := AddKeypair(dict, K_R, body);
    assert dict.d == Tree(ReplyClosest(tid, id, token, nodes)).d;
    blen := Print(dict, msg, avail);
  }

  method AnnouncePeersMsg(tid: Bytes, id: NodeId, infoHash: NodeId, port: Word, token: Bytes, msg: array<Byte>,
      avail: nat)
    returns (blen: nat)
    requires avail <= msg.Length && |Enc(Tree(Announce(tid, id, infoHash, port, token)))| < avail
    modifies msg
    ensures blen == |Enc(Tree(Announce(tid, id, infoHash, port, token)))|
    ensures msg[..blen] == Enc(Tree(Announce(tid, id, infoHash, port, token)))
  {
    var body := AddKeypair(Dict([]), K_ID, Str(id));
    body := AddKeypair(body, K_INFO_HASH, Str(infoHash));
    body := AddKeypair(body, K_PORT, Int(port));
    body := AddKeypair(body, K_TOKEN, Str(token));
    assert body.d == Body(Announce(tid, id, infoHash, port, token));
    var dict := AddKeypair(Dict([]), K_A, body);
    dict := AddKeypair(dict, K_Q, Str(K_ANNOUNCE_PEER));
    dict := AddKeypair(dict, K_T, Str(tid));
    dict := AddKeypair(dict, K_Y, Str(K_Q));
    assert dict.d == Tree(Announce(tid, id, infoHash, port, token)).d;
    blen := Print(dict, msg, avail);
  }

  method ReplyAnnounceMsg(tid: Bytes, id: NodeId, msg: array<Byte>, avail: nat) returns (blen: nat)
    requires avail <= msg.Length && |Enc(Tree(ReplyAnnounce(tid, id)))| < avail
    modifies msg
    ensures blen == |Enc(Tree(ReplyAnnounce(tid, id)))|
    ensures msg[..blen] == Enc(Tree(ReplyAnnounce(tid, id)))
  {
    var body := AddKeypair(Dict([]), K_ID, Str(id));
    assert body.d == Body(ReplyAnnounce(tid, id));
    var dict := AddKeypair(Dict([]), K_R, body);
    dict := AddKeypair(dict, K_T, Str(tid));
    dict := AddKeypair(dict, K_Y, Str(K_R));
    assert dict.d == Tree(ReplyAnnounce(tid, id)).d;
    blen := Print(dict, msg, avail);
  }

  method AskMyIpMsg(tid: Bytes, id: NodeId, msg: array<Byte>, avail: nat) returns (blen: nat)
    requires avail <= msg.Length && |Enc(Tree(AskMyIp(tid, id)))| < avail
    modifies msg
    ensures blen == |Enc(Tree(AskMyIp(tid, id)))|
    ensures msg[..blen] == Enc(Tree(AskMyIp(tid, id)))
  {
    var body := AddKeypair(Dict([]), K_ID, Str(id));
    assert body.d == Body(AskMyIp(tid, id));
    var dict := AddKeypair(Dict([]), K_A, body);
    dict := AddKeypair(dict, K_Q, Str(K_NEWCONN));
    dict := AddKeypair(dict, K_T, Str(tid));
    dict := AddKeypair(dict, K_Y, Str(K_Q));
    assert dict.d == Tree(AskMyIp(tid, id)).d;
    blen := Print(dict, msg, avail);
  }

  method ReplyMyIpMsg(tid: Bytes, id: NodeId, peer: PeerId, started: bool, msg: array<Byte>, avail: nat)
    returns (blen: nat)
    requires avail <= msg.Length && |Enc(Tree(ReplyMyIp(tid, id, peer, started)))| < avail
    modifies msg
    ensures blen == |Enc(Tree(ReplyMyIp(tid, id, peer, started)))|
    ensures msg[..blen] == Enc(Tree(ReplyMyIp(tid, id, peer, started)))
  {
    var body := AddKeypair(Dict([]), K_ID, Str(id));
    body := AddKeypair(body, K_NEWCONN, Str(K_HELLO));
    body := AddKeypair(body, K_PID, Str(EncodeNodeId(peer)));
    assert body.d == Body(ReplyMyIp(tid, id, peer, started));
    var dict := AddKeypair(Dict([]), K_R, body);
    dict := AddKeypair(dict, K_T, Str(tid));
    dict := AddKeypair(dict, K_Y, Str(K_R));
    dict := AddKeypair(dict, K_N, Str(if started then K_Y else K_N));
    assert dict.d == Tree(ReplyMyIp(tid, id, peer, started)).d;
    blen := Print(dict, msg, avail);
  }

  method BroadcastConnMsg(tid: Bytes, id: NodeId, nodeId: NodeId, peerId: NodeId, msg: array<Byte>, avail: nat)
    returns (blen: nat)
    requires avail <= msg.Length && |Enc(Tree(BroadcastConn(tid, id, nodeId, peerId)))| < avail
    modifies msg
    ensures blen == |Enc(Tree(BroadcastConn(tid, id, nodeId, peerId)))|
    ensures msg[..blen] == Enc(Tree(BroadcastConn(tid, id, nodeId, peerId)))
  {
    var body := AddKeypair(Dict([]), K_ID, Str(id));
    body := AddKeypair(body, K_NID, Str(nodeId));
    body := AddKeypair(body, K_PID, Str(peerId));
    assert body.d == Body(BroadcastConn(tid, id, nodeId, peerId));
    var dict := AddKeypair(Dict([]), K_A, body);
    dict := AddKeypair(dict, K_Q, Str(K_BRCONN));
    dict := AddKeypair(dict, K_T, Str(tid));
    dict := AddKeypair(dict, K_Y, Str(K_Q));
    assert dict.d == Tree(BroadcastConn(tid, id, nodeId, peerId)).d;
    blen := Print(dict, msg, avail);
  }

  method AskConnMsg(tid: Bytes, id: NodeId, nodeId: NodeId, peer: PeerId, msg: array<Byte>, avail: nat)
    returns (blen: nat)
    requires avail <= msg.Length && |Enc(Tree(AskConn(tid, id, nodeId, peer)))| < avail
    modifies msg
    ensures blen == |Enc(Tree(AskConn(tid, id, nodeId, peer)))|
    ensures msg[..blen] == Enc(Tree(AskConn(tid, id, nodeId, peer)))
  {
    var body := AddKeypair(Dict([]), K_ID, Str(id));
    body := AddKeypair(body, K_NID, Str(nodeId));
    body := AddKeypair(body, K_PID, Str(EncodeNodeId(peer)));
    assert body.d == Body(AskConn(tid, id, nodeId, peer));
    var dict := AddKeypair(Dict([]), K_A, body);
    dict := AddKeypair(dict, K_Q, Str(K_ASKCONN));
    dict := AddKeypair(dict, K_T, Str(tid));
    dict := AddKeypair(dict, K_Y, Str(K_Q));
    assert dict.d == Tree(AskConn(tid, id, nodeId, peer)).d;
    blen := Print(dict, msg, avail);
  }

  method ReplyConnMsg(tid: Bytes, id: NodeId, started: bool, msg: array<Byte>, avail: nat) returns (blen: nat)
    requires avail <= msg.Length && |Enc(Tree(ReplyConn(tid, id, started)))| < avail
    modifies msg
    ensures blen == |Enc(Tree(ReplyConn(tid, id, started)))|
    ensures msg[..blen] == Enc(Tree(ReplyConn(tid, id, started)))
  {
    var body := AddKeypair(Dict([]), K_ID, Str(id));
    body := AddKeypair(body, K_ASKCONN, Str(K_HELLO));
    assert body.d == Body(ReplyConn(tid, id, started));
    var dict := AddKeypair(Dict([]), K_R, body);
    dict := AddKeypair(dict, K_T, Str(tid));
    dict := AddKeypair(dict, K_Y, Str(K_R));
    dict := AddKeypair(dict, K_N, Str(if started then K_Y else K_N));
    assert dict.d == Tree(ReplyConn(tid, id, started)).d;
    blen := Print(dict, msg, avail);
  }

  // ---------------------------------------------------------------- the trailer

  /** A byte as the machine's char, which is signed. */
  function SignedChar(b: Byte): int {
    if b >= 128 then b as int - 256 else b
  }

  function CharSum(s: Bytes): int {
    if s == [] then 0 else CharSum(s[..|s| - 1]) + SignedChar(s[|s| - 1])
  }

  /** The sum of the length and the bytes, on 32 bits, less one wrap. */
  function Checksum(s: Bytes): Word {
    (|s| + CharSum(s)) % 0x1_0000_0000 % 0xFFFF_FFFF
  }

  function ByteSum(s: Bytes): nat {
    if s == [] then 0 else ByteSum(s[..|s| - 1]) + s[|s| - 1]
  }

  ghost function HighBytes(s: Bytes): set<nat> {
    set i: nat | i < |s| && s[i] >= 128
  }

  /** The checksum is the length and the sum of the bytes, those from 128 on counted as chars,
      256 less. */
  lemma ChecksumIs(s: Bytes)
    ensures Checksum(s) == (|s| + ByteSum(s) - 256 * |HighBytes(s)|) % 0x1_0000_0000 % 0xFFFF_FFFF
  {
    SumIs(s);
  }

  lemma {:induction false} SumIs(s: Bytes)
    ensures CharSum(s) == ByteSum(s) - 256 * |HighBytes(s)|
  {
    if s == [] {
    } else {
      SumIs(s[..|s| - 1]);
      HighLast(s);
    }
  }

  lemma HighLast(s: Bytes)
    requires s != []
    ensures |HighBytes(s)| == |HighBytes(s[..|s| - 1])| + if s[|s| - 1] >= 128 then 1 else 0
  {
    var n: nat := |s| - 1;
    assert forall i :: 0 <= i < n ==> s[..n][i] == s[i];
    assert HighBytes(s) == if s[n] >= 128 then HighBytes(s[..n]) + {n} else HighBytes(s[..n]);
  }

  /** A body changed in one byte has another checksum, unless the two sums are the two numbers
      that the last reduction takes for one. */
  lemma ChangeNoticed(s: Bytes, i: nat, b: Byte)
    requires i < |s| && b != s[i]
    ensures var x, y := (|s| + CharSum(s)) % 0x1_0000_0000, (|s| + CharSum(s[i := b])) % 0x1_0000_0000;
            Checksum(s) == Checksum(s[i := b]) <==> (x == 0 && y == 0xFFFF_FFFF) || (x == 0xFFFF_FFFF && y == 0)
  {
    var x, y := (|s| + CharSum(s)) % 0x1_0000_0000, (|s| + CharSum(s[i := b])) % 0x1_0000_0000;
    SumChanged(s, i, b);
    SmallChange(|s| + CharSum(s), SignedChar(b) - SignedChar(s[i]));
    TakenForOne(x, y);
  }

  lemma TakenForOne(x: Word, y: Word)
    requires x != y
    ensures x % 0xFFFF_FFFF == y % 0xFFFF_FFFF <==> (x == 0 && y == 0xFFFF_FFFF) || (x == 0xFFFF_FFFF && y == 0)
  {
    LastReduction(x);
    LastReduction(y);
  }

  lemma LastReduction(x: Word)
    ensures x % 0xFFFF_FFFF == if x == 0xFFFF_FFFF then 0 else x
  {
  }

  lemma {:induction false} SumChanged(s: Bytes, i: nat, b: Byte)
    requires i < |s|
    ensures CharSum(s[i := b]) == CharSum(s) + (SignedChar(b) - SignedChar(s[i]))
  {
    var n := |s| - 1;
    if i == n {
      assert s[i := b][..n] == s[..n];
    } else {
      SumChanged(s[..n], i, b);
      assert s[i := b][..n] == s[..n][i := b];
    }
  }

  lemma SmallChange(x: int, d: int)
    requires -256 < d < 256 && d != 0
    ensures x % 0x1_0000_0000 != (x + d) % 0x1_0000_0000
  {
  }

  lemma ModStep(x: int, y: int)
    ensures (x % 0x1_0000_0000 + y) % 0x1_0000_0000 == (x + y) % 0x1_0000_0000
  {
  }

  /** Adds the chars of a buffer to a 32-bit sum. */
  method SumChars(s: Bytes, start: int) returns (sum: Word)
    ensures sum == (start + CharSum(s)) % 0x1_0000_0000
  {
    sum := start % 0x1_0000_0000;
    for i := 0 to |s|
      invariant sum == (start + CharSum(s[..i])) % 0x1_0000_0000
    {
      assert s[..i + 1][..i] == s[..i];
      ModStep(start + CharSum(s[..i]), SignedChar(s[i]));
      sum := (sum + SignedChar(s[i])) % 0x1_0000_0000;
    }
    assert s[..|s|] == s;
  }

  /** How many bytes of a word one of the sealing loops writes from `at` on: the loop moves its
      position and its index together and stops when the sum of the two reaches avail. */
  function Written(at: nat, avail: nat): (k: nat)
    ensures k <= 4
    ensures forall j :: 0 <= j < k ==> at + 2 * j < avail
    ensures k < 4 ==> at + 2 * k >= avail
  {
    if at + 6 < avail then 4
    else if at + 4 < avail then 3
    else if at + 2 < avail then 2
    else if at < avail then 1
    else 0
  }

  /** The body and as much of the trailer as is written. */
  function Sealed(body: Bytes, avail: nat, token: Word): Bytes {
    var k := Written(|body|, avail);
    body + Le4(Checksum(body))[..k] + Le4(token)[..Written(|body| + k, avail)]
  }

  method PutWord(msg: array<Byte>, at: nat, avail: nat, w: Word) returns (i: nat)
    requires at <= msg.Length && avail <= msg.Length
    modifies msg
    ensures i == at + Written(at, avail) <= msg.Length
    ensures msg[..i] == old(msg[..at]) + Le4(w)[..Written(at, avail)]
    ensures forall k :: i <= k < msg.Length ==> msg[k] == old(msg[k])
  {
    i := at;
    var c, j := Le4(w), 0;
    while j < 4 && i + j < avail
      invariant 0 <= j <= 4 && i == at + j <= msg.Length
      invariant forall l :: 0 <= l < j ==> at + 2 * l < avail
      invariant msg[..i] == old(msg[..at]) + c[..j]
      invariant forall k :: i <= k < msg.Length ==> msg[k] == old(msg[k])
    {
      msg[i] := c[j];
      i, j := i + 1, j + 1;
    }
    assert j == Written(at, avail);
  }

  /** bitdht_ecrypt: appends the checksum and a token. All eight bytes are written only when
      there is room for three more. */
  method Ecrypt(msg: array<Byte>, size: nat, avail: nat, token: Word) returns (n: nat)
    requires size <= msg.Length && avail <= msg.Length
    modifies msg
    ensures n <= msg.Length && msg[..n] == Sealed(old(msg[..size]), avail, token)
    ensures msg[n..] == old(msg[n..])
    ensures n == size + 8 <==> size + 11 <= avail
  {
    var sum := SumChars(msg[..size], size);
    var i := PutWord(msg, size, avail, sum % 0xFFFF_FFFF);
    n := PutWord(msg, i, avail, token);
    assert msg[n..] == old(msg[n..]);
  }

  /** Whether the four bytes before the token are the checksum of what precedes them. */
  predicate Accepted(msg: Bytes) {
    |msg| >= 8 && msg[|msg| - 8..|msg| - 4] == Le4(Checksum(msg[..|msg| - 8]))
  }

  /** bitdht_decrypt's verdict. */
  method Decrypt(msg: Bytes) returns (valid: bool)
    requires |msg| >= 8
    ensures valid <==> Accepted(msg)
  {
    var i := |msg| - 8;
    var sum := SumChars(msg[..i], 0);
    ModStep(CharSum(msg[..i]), i);
    sum := (sum + i) % 0x1_0000_0000;
    sum := sum % 0xFFFF_FFFF;
    var c := FromLe4(msg[i..i + 4]);
    Le4Inverse(sum, msg[i..i + 4]);
    valid := c == sum;
  }

  lemma SealedAccepted(body: Bytes, avail: nat, token: Word)
    requires |body| + 11 <= avail
    ensures Sealed(body, avail, token) == body + Le4(Checksum(body)) + Le4(token)
    ensures Accepted(Sealed(body, avail, token))
  {
    var r := Sealed(body, avail, token);
    assert Le4(Checksum(body))[..4] == Le4(Checksum(body)) && Le4(token)[..4] == Le4(token);
    assert r[..|r| - 8] == body && r[|r| - 8..|r| - 4] == Le4(Checksum(body));
  }

  /** With less room than that, for every size there is a body whose packet is refused. */
  lemma RefusedBody(size: nat, avail: nat, token: Word) returns (body: Bytes)
    requires avail < size + 11
    ensures |body| == size && !Accepted(Sealed(body, avail, token))
  {
    var zeros: Bytes := seq(size, _ => 0);
    body := zeros;
    var k := Written(size, avail);
    var n := size + k + Written(size + k, avail);
    if n >= 8 {
      var p := n - 8;
      var c := Le4(Checksum(zeros[..p]));
      body := zeros[p := if c[0] == 0 then 1 else 0];
      var r := Sealed(body, avail, token);
      assert r[..p] == zeros[..p];
      assert r[p..p + 4][0] == body[p];
    }
  }

  /** Every body of a size is accepted once sealed if and only if there is room for its trailer
      and three bytes more. */
  lemma SealedAcceptedIff(size: nat, avail: nat, token: Word)
    ensures (forall body: Bytes :: |body| == size ==> Accepted(Sealed(body, avail, token))) <==> size + 11 <= avail
  {
    if size + 11 <= avail {
      forall body: Bytes | |body| == size ensures Accepted(Sealed(body, avail, token)) {
        SealedAccepted(body, avail, token);
      }
    } else {
      var body := RefusedBody(size, avail, token);
    }
  }

  /** One byte of body and ten of room for the trailer: the packet is eight bytes long and is
      refused. */
  lemma TightRoomRefused(token: Word)
    ensures |Sealed([0], 11, token)| == 8 && !Accepted(Sealed([0], 11, token))
  {
    var r := Sealed([0], 11, token);
    assert [0][..0] == [] && [0][..1] == [0];
    assert CharSum([0]) == 0 && Checksum([0]) == 1 && Checksum([]) == 0;
    assert r[..0] == [] && r[0..4][1] == 1;
  }

  lemma Le4Inverse(w: Word, b: Bytes)
    requires |b| == 4
    ensures FromLe4(Le4(w)) == w
    ensures FromLe4(b) == w <==> b == Le4(w)
  {
    Digits4(w);
    if FromLe4(b) == w {
      Digits4Unique(b[0], b[1], b[2], b[3], w);
      assert b == [b[0], b[1], b[2], b[3]];
    }
  }

  lemma Digits4(w: Word)
    ensures w % 256 + 256 * (w / 256 % 256 + 256 * (w / 256 / 256 % 256 + 256 * (w / 256 / 256 / 256))) == w
  {
  }

  lemma Digits4Unique(a: Byte, b: Byte, c: Byte, d: Byte, w: Word)
    requires a as int + 256 * (b as int + 256 * (c as int + 256 * d as int)) == w
    ensures a == w % 256 && b == w / 256 % 256 && c == w / 256 / 256 % 256 && d == w / 256 / 256 / 256
  {
  }
}
