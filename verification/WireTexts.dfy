/** The texts of the fourteen messages, byte for byte. */
module WireTexts {
  import opened Metric
  import opened Bencode
  import opened Msgs

  // ---------------------------------------------------------------- the texts

  /** The bytes of a literal. */
  function W(x: string): (b: Bytes)
    ensures |b| == |x|
  {
    seq(|x|, i requires 0 <= i < |x| => if x[i] as int < 256 then x[i] as int else 0)
  }

  /** A string with its length in front. */
  function Counted(x: Bytes): Bytes {
    Decimal(|x|) + W(":") + x
  }

  function Cat(parts: seq<Bytes>): Bytes {
    if parts == [] then [] else parts[0] + Cat(parts[1..])
  }

  function CountedAll(xs: seq<Bytes>): seq<Bytes> {
    seq(|xs|, i requires 0 <= i < |xs| => Counted(xs[i]))
  }

  /** A dictionary, given the texts of its entries, and a list, given those of its items. */
  function D(entries: seq<Bytes>): Bytes {
    W("d") + Cat(entries) + W("e")
  }

  function L(items: seq<Bytes>): Bytes {
    W("l") + Cat(items) + W("e")
  }

  /** What a message carries: the sender's id first. */
  function Carried(m: Message): seq<Bytes> {
    var id := W("2:id20:") + m.id;
    match m
    case Ping(_, _) => [id]
    case Pong(_, _, _) => [id]
    case FindNode(_, _, target) => [id, W("6:target20:") + target]
    case ReplyNodes(_, _, nodes) => [id, W("5:nodes") + Counted(EncodeNodes(nodes))]
    case GetPeers(_, _, infoHash) => [id, W("9:info_hash20:") + infoHash]
    case ReplyHash(_, _, token, values) =>
      [id, W("5:token") + Counted(token), W("6:values") + L(CountedAll(values))]
    case ReplyClosest(_, _, token, nodes) =>
      [id, W("5:token") + Counted(token), W("5:nodes") + Counted(EncodeNodes(nodes))]
    case Announce(_, _, infoHash, port, token) =>
      [id, W("9:info_hash20:") + infoHash, W("4:port") + (W("i") + Decimal(port) + W("e")),
       W("5:token") + Counted(token)]
    case ReplyAnnounce(_, _) => [id]
    case AskMyIp(_, _) => [id]
    case ReplyMyIp(_, _, peer, _) => [id, W("7:newconn5:hello"), W("3:pid26:") + EncodeNodeId(peer)]
    case BroadcastConn(_, _, nodeId, peerId) => [id, W("3:nid20:") + nodeId, W("3:pid20:") + peerId]
    case AskConn(_, _, nodeId, peer) => [id, W("3:nid20:") + nodeId, W("3:pid26:") + EncodeNodeId(peer)]
    case ReplyConn(_, _, _) => [id, W("7:askconn5:hello")]
  }

  function TextOf(m: Message): Bytes {
    var a, r := W("1:a") + D(Carried(m)), W("1:r") + D(Carried(m));
    var t := W("1:t") + Counted(m.tid);
    var asks, tells := W("1:y1:q"), W("1:y1:r");
    match m
    case Ping(_, _) => D([a, W("1:q4:ping"), t, asks])
    case Announce(_, _, _, _, _) => D([a, W("1:q13:announce_peer"), t, asks])
    case AskMyIp(_, _) => D([a, W("1:q7:newconn"), t, asks])
    case BroadcastConn(_, _, _, _) => D([a, W("1:q6:brconn"), t, asks])
    case AskConn(_, _, _, _) => D([a, W("1:q7:askconn"), t, asks])
    case FindNode(_, _, _) => D([a, t, asks, W("1:q9:find_node")])
    case GetPeers(_, _, _) => D([a, t, asks, W("1:q9:get_peers")])
    case Pong(_, _, vid) => D([r, t, tells, W("1:v") + Counted(vid)])
    case ReplyAnnounce(_, _) => D([r, t, tells])
    case ReplyMyIp(_, _, _, started) => D([r, t, tells, if started then W("1:n1:y") else W("1:n1:n")])
    case ReplyConn(_, _, started) => D([r, t, tells, if started then W("1:n1:y") else W("1:n1:n")])
    case ReplyNodes(_, _, _) => D([t, tells, r])
    case ReplyHash(_, _, _, _) => D([t, tells, r])
    case ReplyClosest(_, _, _, _) => D([t, tells, r])
  }

  // ---------------------------------------------------------------- what the printer writes

  ghost predicate Prints(d: seq<Pair>, texts: seq<Bytes>)
  {
    |texts| == |d| && forall i :: 0 <= i < |d| ==> EncPair(d[i]) == texts[i]
  }

  lemma {:induction false} PairsCat(d: seq<Pair>, texts: seq<Bytes>)
    requires Prints(d, texts)
    ensures EncPairs(d) == Cat(texts)
  {
    if d == [] {
    } else {
      PairsCat(d[1..], texts[1..]);
    }
  }

  lemma DictText(d: seq<Pair>, texts: seq<Bytes>)
    requires Prints(d, texts)
    ensures Enc(Dict(d)) == D(texts)
  {
    PairsCat(d, texts);
  }

  lemma {:induction false} ListCat(l: seq<BeNode>, texts: seq<Bytes>)
    requires |texts| == |l| && forall i :: 0 <= i < |l| ==> Enc(l[i]) == texts[i]
    ensures EncAll(l) == Cat(texts)
  {
    if l == [] {
    } else {
      ListCat(l[1..], texts[1..]);
    }
  }

  lemma Decimals()
    ensures Decimal(1) == [49] && Decimal(2) == [50] && Decimal(3) == [51] && Decimal(4) == [52] && Decimal(5) == [53]
    ensures Decimal(6) == [54] && Decimal(7) == [55] && Decimal(9) == [57]
    ensures Decimal(13) == [49, 51] && Decimal(20) == [50, 48] && Decimal(26) == [50, 54]
  {
  }

  lemma KeyPair(k: CString, v: BeNode)
    ensures EncPair(Pair(k, v)) == StrText(k) + Enc(v)
  {
    CStrWhole(k);
  }

  /** A key and a word. */
  lemma WordPair(k: CString, w: CString, text: Bytes)
    requires StrText(k) + StrText(w) == text
    ensures EncPair(Pair(k, Str(w))) == text
  {
    KeyPair(k, Str(w));
  }

  /** A key and a string of known length. */
  lemma SizedPair(k: CString, x: Bytes, text: CString)
    requires StrText(k) + (Decimal(|x|) + [COLON]) == text
    ensures EncPair(Pair(k, Str(x))) == text + x
  {
    KeyPair(k, Str(x));
    Regroup(StrText(k), Decimal(|x|) + [COLON], x);
  }

  lemma CountedPair(k: CString, x: Bytes, text: CString)
    requires StrText(k) == text
    ensures EncPair(Pair(k, Str(x))) == text + Counted(x)
  {
    KeyPair(k, Str(x));
  }

  // ---------------------------------------------------------------- the entries

  lemma KeyTexts()
    ensures StrText(K_A) == W("1:a") && StrText(K_R) == W("1:r") && StrText(K_T) == W("1:t")
    ensures StrText(K_V) == W("1:v") && StrText(K_NODES) == W("5:nodes") && StrText(K_TOKEN) == W("5:token")
    ensures StrText(K_VALUES) == W("6:values") && StrText(K_PORT) == W("4:port")
  {
    Decimals();
  }

  lemma IdTexts()
    ensures StrText(K_ID) + (Decimal(20) + [COLON]) == W("2:id20:")
    ensures StrText(K_TARGET) + (Decimal(20) + [COLON]) == W("6:target20:")
    ensures StrText(K_INFO_HASH) + (Decimal(20) + [COLON]) == W("9:info_hash20:")
    ensures StrText(K_NID) + (Decimal(20) + [COLON]) == W("3:nid20:")
    ensures StrText(K_PID) + (Decimal(20) + [COLON]) == W("3:pid20:")
    ensures StrText(K_PID) + (Decimal(26) + [COLON]) == W("3:pid26:")
  {
    Decimals();
  }

  lemma TypeTexts()
    ensures StrText(K_Y) + StrText(K_Q) == W("1:y1:q") && StrText(K_Y) + StrText(K_R) == W("1:y1:r")
    ensures StrText(K_N) + StrText(K_Y) == W("1:n1:y") && StrText(K_N) + StrText(K_N) == W("1:n1:n")
  {
    Decimals();
  }

  lemma HelloTexts()
    ensures StrText(K_NEWCONN) + StrText(K_HELLO) == W("7:newconn5:hello")
    ensures StrText(K_ASKCONN) + StrText(K_HELLO) == W("7:askconn5:hello")
  {
    Decimals();
  }

  lemma ConnNameTexts()
    ensures StrText(K_Q) + StrText(K_NEWCONN) == W("1:q7:newconn")
    ensures StrText(K_Q) + StrText(K_BRCONN) == W("1:q6:brconn")
    ensures StrText(K_Q) + StrText(K_ASKCONN) == W("1:q7:askconn")
  {
    Decimals();
  }

  lemma NameTexts()
    ensures StrText(K_Q) + StrText(K_PING) == W("1:q4:ping")
    ensures StrText(K_Q) + StrText(K_FIND_NODE) == W("1:q9:find_node")
  {
    Decimals();
  }

  lemma GetPeersText()
    ensures StrText(K_Q) + StrText(K_GET_PEERS) == W("1:q9:get_peers")
  {
    Decimals();
  }

  lemma AnnounceText()
    ensures StrText(K_Q) + StrText(K_ANNOUNCE_PEER) == W("1:q13:announce_peer")
  {
    Decimals();
  }

  // ---------------------------------------------------------------- the bodies

  lemma IdPair(m: Message)
    ensures EncPair(Pair(K_ID, Str(m.id))) == W("2:id20:") + m.id
  {
    IdTexts();
    SizedPair(K_ID, m.id, W("2:id20:"));
  }

  lemma TargetPairs(x: NodeId)
    ensures EncPair(Pair(K_TARGET, Str(x))) == W("6:target20:") + x
    ensures EncPair(Pair(K_INFO_HASH, Str(x))) == W("9:info_hash20:") + x
  {
    IdTexts();
    SizedPair(K_TARGET, x, W("6:target20:"));
    SizedPair(K_INFO_HASH, x, W("9:info_hash20:"));
  }

  lemma ConnPairs(x: NodeId, y: NodeId, p: PeerId)
    ensures EncPair(Pair(K_NID, Str(x))) == W("3:nid20:") + x
    ensures EncPair(Pair(K_PID, Str(y))) == W("3:pid20:") + y
    ensures EncPair(Pair(K_PID, Str(EncodeNodeId(p)))) == W("3:pid26:") + EncodeNodeId(p)
  {
    IdTexts();
    SizedPair(K_NID, x, W("3:nid20:"));
    SizedPair(K_PID, y, W("3:pid20:"));
    SizedPair(K_PID, EncodeNodeId(p), W("3:pid26:"));
  }

  lemma StringPairs(x: Bytes)
    ensures EncPair(Pair(K_NODES, Str(x))) == W("5:nodes") + Counted(x)
    ensures EncPair(Pair(K_TOKEN, Str(x))) == W("5:token") + Counted(x)
    ensures EncPair(Pair(K_T, Str(x))) == W("1:t") + Counted(x)
    ensures EncPair(Pair(K_V, Str(x))) == W("1:v") + Counted(x)
  {
    KeyTexts();
    Marks();
    CountedPair(K_NODES, x, W("5:nodes"));
    CountedPair(K_TOKEN, x, W("5:token"));
    CountedPair(K_T, x, W("1:t"));
    CountedPair(K_V, x, W("1:v"));
  }

  lemma PortPair(port: Word)
    ensures EncPair(Pair(K_PORT, Int(port))) == W("4:port") + (W("i") + Decimal(port) + W("e"))
  {
    KeyTexts();
    Marks();
    KeyPair(K_PORT, Int(port));
  }

  lemma ValuesPair(values: seq<Bytes>)
    ensures EncPair(Pair(K_VALUES, List(StrList(values)))) == W("6:values") + L(CountedAll(values))
  {
    KeyTexts();
    Marks();
    KeyPair(K_VALUES, List(StrList(values)));
    ListCat(StrList(values), CountedAll(values));
  }

  lemma Marks()
    ensures W(":") == [COLON] && W("i") == [LOWER_I] && W("l") == [LOWER_L]
    ensures W("d") == [LOWER_D] && W("e") == [LOWER_E]
  {
  }

  lemma PrintsOne(a: Pair, x: Bytes)
    requires EncPair(a) == x
    ensures Prints([a], [x])
  {
  }

  lemma PrintsTwo(a: Pair, b: Pair, x: Bytes, y: Bytes)
    requires EncPair(a) == x && EncPair(b) == y
    ensures Prints([a, b], [x, y])
  {
  }

  lemma PrintsThree(a: Pair, b: Pair, c: Pair, x: Bytes, y: Bytes, z: Bytes)
    requires EncPair(a) == x && EncPair(b) == y && EncPair(c) == z
    ensures Prints([a, b, c], [x, y, z])
  {
  }

  lemma PrintsFour(a: Pair, b: Pair, c: Pair, e: Pair, x: Bytes, y: Bytes, z: Bytes, w: Bytes)
    requires EncPair(a) == x && EncPair(b) == y && EncPair(c) == z && EncPair(e) == w
    ensures Prints([a, b, c, e], [x, y, z, w])
  {
  }

  lemma TargetText(m: Message)
    requires m.FindNode? || m.GetPeers?
    ensures Prints(Body(m), Carried(m))
  {
    var x := if m.FindNode? then m.target else m.infoHash;
    var k := if m.FindNode? then K_TARGET else K_INFO_HASH;
    var text := if m.FindNode? then W("6:target20:") else W("9:info_hash20:");
    IdPair(m);
    TargetPairs(x);
    PrintsTwo(Pair(K_ID, Str(m.id)), Pair(k, Str(x)), W("2:id20:") + m.id, text + x);
  }

  lemma BroadcastText(m: Message)
    requires m.BroadcastConn?
    ensures Prints(Body(m), Carried(m))
  {
    IdPair(m);
    ConnPairs(m.nodeId, m.peerId, PeerId(m.nodeId, ZERO_ADDR));
    PrintsThree(Pair(K_ID, Str(m.id)), Pair(K_NID, Str(m.nodeId)), Pair(K_PID, Str(m.peerId)),
                W("2:id20:") + m.id, W("3:nid20:") + m.nodeId, W("3:pid20:") + m.peerId);
  }

  lemma AskConnText(m: Message)
    requires m.AskConn?
    ensures Prints(Body(m), Carried(m))
  {
    IdPair(m);
    ConnPairs(m.nodeId, m.nodeId, m.peer);
    PrintsThree(Pair(K_ID, Str(m.id)), Pair(K_NID, Str(m.nodeId)), Pair(K_PID, Str(EncodeNodeId(m.peer))),
                W("2:id20:") + m.id, W("3:nid20:") + m.nodeId, W("3:pid26:") + EncodeNodeId(m.peer));
  }

  lemma NodesText(m: Message)
    requires m.ReplyNodes?
    ensures Prints(Body(m), Carried(m))
  {
    var x := EncodeNodes(m.nodes);
    IdPair(m);
    StringPairs(x);
    PrintsTwo(Pair(K_ID, Str(m.id)), Pair(K_NODES, Str(x)), W("2:id20:") + m.id, W("5:nodes") + Counted(x));
  }

  lemma ClosestText(m: Message)
    requires m.ReplyClosest?
    ensures Prints(Body(m), Carried(m))
  {
    var x := EncodeNodes(m.nodes);
    IdPair(m);
    StringPairs(x);
    StringPairs(m.token);
    PrintsThree(Pair(K_ID, Str(m.id)), Pair(K_TOKEN, Str(m.token)), Pair(K_NODES, Str(x)),
                W("2:id20:") + m.id, W("5:token") + Counted(m.token), W("5:nodes") + Counted(x));
  }

  lemma ValuesText(m: Message)
    requires m.ReplyHash?
    ensures Prints(Body(m), Carried(m))
  {
    IdPair(m);
    StringPairs(m.token);
    ValuesPair(m.values);
    PrintsThree(Pair(K_ID, Str(m.id)), Pair(K_TOKEN, Str(m.token)), Pair(K_VALUES, List(StrList(m.values))),
                W("2:id20:") + m.id, W("5:token") + Counted(m.token), W("6:values") + L(CountedAll(m.values)));
  }

  lemma PortText(m: Message)
    requires m.Announce?
    ensures Prints(Body(m), Carried(m))
  {
    IdPair(m);
    TargetPairs(m.infoHash);
    StringPairs(m.token);
    PortPair(m.port);
    PrintsFour(Pair(K_ID, Str(m.id)), Pair(K_INFO_HASH, Str(m.infoHash)), Pair(K_PORT, Int(m.port)),
               Pair(K_TOKEN, Str(m.token)), W("2:id20:") + m.id, W("9:info_hash20:") + m.infoHash,
               W("4:port") + (W("i") + Decimal(m.port) + W("e")), W("5:token") + Counted(m.token));
  }

  lemma MyIpText(m: Message)
    requires m.ReplyMyIp?
    ensures Prints(Body(m), Carried(m))
  {
    IdPair(m);
    HelloPair(K_NEWCONN);
    ConnPairs(m.peer.id, m.peer.id, m.peer);
    PrintsThree(Pair(K_ID, Str(m.id)), Pair(K_NEWCONN, Str(K_HELLO)), Pair(K_PID, Str(EncodeNodeId(m.peer))),
                W("2:id20:") + m.id, W("7:newconn5:hello"), W("3:pid26:") + EncodeNodeId(m.peer));
  }

  lemma ReplyConnText(m: Message)
    requires m.ReplyConn?
    ensures Prints(Body(m), Carried(m))
  {
    IdPair(m);
    HelloPair(K_ASKCONN);
    PrintsTwo(Pair(K_ID, Str(m.id)), Pair(K_ASKCONN, Str(K_HELLO)), W("2:id20:") + m.id, W("7:askconn5:hello"));
  }

  lemma IdText(m: Message)
    requires m.Ping? || m.Pong? || m.ReplyAnnounce? || m.AskMyIp?
    ensures Prints(Body(m), Carried(m))
  {
    IdPair(m);
    PrintsOne(Pair(K_ID, Str(m.id)), W("2:id20:") + m.id);
  }

  lemma BodyText(m: Message)
    ensures Prints(Body(m), Carried(m))
  {
    match m
    case FindNode(_, _, _) => TargetText(m);
    case GetPeers(_, _, _) => TargetText(m);
    case BroadcastConn(_, _, _, _) => BroadcastText(m);
    case AskConn(_, _, _, _) => AskConnText(m);
    case ReplyNodes(_, _, _) => NodesText(m);
    case ReplyClosest(_, _, _, _) => ClosestText(m);
    case ReplyHash(_, _, _, _) => ValuesText(m);
    case Announce(_, _, _, _, _) => PortText(m);
    case ReplyMyIp(_, _, _, _) => MyIpText(m);
    case ReplyConn(_, _, _) => ReplyConnText(m);
    case _ => IdText(m);
  }

  lemma HelloPair(k: CString)
    requires k == K_NEWCONN || k == K_ASKCONN
    ensures k == K_NEWCONN ==> EncPair(Pair(k, Str(K_HELLO))) == W("7:newconn5:hello")
    ensures k == K_ASKCONN ==> EncPair(Pair(k, Str(K_HELLO))) == W("7:askconn5:hello")
  {
    HelloTexts();
    KeyPair(k, Str(K_HELLO));
  }

  // ---------------------------------------------------------------- the messages

  lemma WrapPair(m: Message)
    ensures EncPair(Pair(K_A, Dict(Body(m)))) == W("1:a") + D(Carried(m))
    ensures EncPair(Pair(K_R, Dict(Body(m)))) == W("1:r") + D(Carried(m))
  {
    BodyText(m);
    DictText(Body(m), Carried(m));
    KeyTexts();
    KeyPair(K_A, Dict(Body(m)));
    KeyPair(K_R, Dict(Body(m)));
  }

  lemma TypePairs(started: bool)
    ensures EncPair(Pair(K_Y, Str(K_Q))) == W("1:y1:q") && EncPair(Pair(K_Y, Str(K_R))) == W("1:y1:r")
    ensures EncPair(Pair(K_N, Str(if started then K_Y else K_N))) == if started then W("1:n1:y") else W("1:n1:n")
  {
    TypeTexts();
    WordPair(K_Y, K_Q, W("1:y1:q"));
    WordPair(K_Y, K_R, W("1:y1:r"));
    if started {
      WordPair(K_N, K_Y, W("1:n1:y"));
    } else {
      WordPair(K_N, K_N, W("1:n1:n"));
    }
  }

  /** The name of a query, as text. */
  function NameOf(m: Message): Bytes {
    match m
    case Ping(_, _) => W("1:q4:ping")
    case FindNode(_, _, _) => W("1:q9:find_node")
    case GetPeers(_, _, _) => W("1:q9:get_peers")
    case Announce(_, _, _, _, _) => W("1:q13:announce_peer")
    case AskMyIp(_, _) => W("1:q7:newconn")
    case BroadcastConn(_, _, _, _) => W("1:q6:brconn")
    case _ => W("1:q7:askconn")
  }

  lemma NamePair(m: Message)
    requires IsQuery(m)
    ensures EncPair(Pair(K_Q, Str(NameText(m)))) == NameOf(m)
  {
    if m.Ping? || m.FindNode? {
      NameTexts();
    } else if m.GetPeers? {
      GetPeersText();
    } else if m.Announce? {
      AnnounceText();
    } else {
      ConnNameTexts();
    }
    WordPair(K_Q, NameText(m), NameOf(m));
  }

  lemma FindText(m: Message)
    requires m.FindNode? || m.GetPeers?
    ensures Enc(Tree(m)) == TextOf(m)
  {
    var a, q := Pair(K_A, Dict(Body(m))), Pair(K_Q, Str(NameText(m)));
    var t, y := Pair(K_T, Str(m.tid)), Pair(K_Y, Str(K_Q));
    var at, tt := W("1:a") + D(Carried(m)), W("1:t") + Counted(m.tid);
    WrapPair(m);
    StringPairs(m.tid);
    TypePairs(true);
    NamePair(m);
    PrintsFour(a, t, y, q, at, tt, W("1:y1:q"), NameOf(m));
    DictText([a, t, y, q], [at, tt, W("1:y1:q"), NameOf(m)]);
  }

  lemma QueryText(m: Message)
    requires IsQuery(m) && !m.FindNode? && !m.GetPeers?
    ensures Enc(Tree(m)) == TextOf(m)
  {
    var a, q := Pair(K_A, Dict(Body(m))), Pair(K_Q, Str(NameText(m)));
    var t, y := Pair(K_T, Str(m.tid)), Pair(K_Y, Str(K_Q));
    var at, tt := W("1:a") + D(Carried(m)), W("1:t") + Counted(m.tid);
    WrapPair(m);
    StringPairs(m.tid);
    TypePairs(true);
    NamePair(m);
    PrintsFour(a, q, t, y, at, NameOf(m), tt, W("1:y1:q"));
    DictText([a, q, t, y], [at, NameOf(m), tt, W("1:y1:q")]);
  }

  lemma TopReplyText(m: Message)
    requires !IsQuery(m)
    ensures Enc(Tree(m)) == TextOf(m)
  {
    var r, t, y := Pair(K_R, Dict(Body(m))), Pair(K_T, Str(m.tid)), Pair(K_Y, Str(K_R));
    var rt, tt := W("1:r") + D(Carried(m)), W("1:t") + Counted(m.tid);
    WrapPair(m);
    StringPairs(m.tid);
    TypePairs(true);
    if m.ReplyNodes? || m.ReplyHash? || m.ReplyClosest? {
      PrintsThree(t, y, r, tt, W("1:y1:r"), rt);
      DictText([t, y, r], [tt, W("1:y1:r"), rt]);
    } else if m.ReplyAnnounce? {
      PrintsThree(r, t, y, rt, tt, W("1:y1:r"));
      DictText([r, t, y], [rt, tt, W("1:y1:r")]);
    } else if m.Pong? {
      StringPairs(m.vid);
      var v := Pair(K_V, Str(m.vid));
      PrintsFour(r, t, y, v, rt, tt, W("1:y1:r"), W("1:v") + Counted(m.vid));
      DictText([r, t, y, v], [rt, tt, W("1:y1:r"), W("1:v") + Counted(m.vid)]);
    } else {
      TypePairs(m.started);
      var n := Pair(K_N, Str(if m.started then K_Y else K_N));
      var nt := if m.started then W("1:n1:y") else W("1:n1:n");
      PrintsFour(r, t, y, n, rt, tt, W("1:y1:r"), nt);
      DictText([r, t, y, n], [rt, tt, W("1:y1:r"), nt]);
    }
  }

  /** Every message is printed as this text. */
  lemma MessageText(m: Message)
    ensures Enc(Tree(m)) == TextOf(m)
  {
    if m.FindNode? || m.GetPeers? {
      FindText(m);
    } else if IsQuery(m) {
      QueryText(m);
    } else {
      TopReplyText(m);
    }
  }
}
