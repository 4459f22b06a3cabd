/** Wire messages and their constructors and checks (src/messages/util.rs). */
module Messages {
  import opened Ids
  import opened Peers
  import opened Tables
  import opened Nearest
  import opened Lookups

  datatype Option<+T> = None | Some(value: T)

  /** A byte string, told apart by whether it is valid UTF-8. */
  datatype Text = Utf8(text: string) | NotUtf8

  datatype ProtoPeer = ProtoPeer(id: seq<Byte>, addrs: Text)

  datatype MessageType = STORE | FIND_VALUE | FIND_NODE | PING

  datatype ErrorCode = OK | INTERNAL_ERROR | NOT_FOUND | BAD_REQUEST

  datatype Message = Message(kind: MessageType, key: seq<Byte>, value: seq<Byte>, closerPeers: seq<ProtoPeer>,
                             myself: Option<ProtoPeer>, code: ErrorCode)

  /** What a remote call yields. */
  datatype RpcResult = IoError | Response(message: Message)

  /** The remote procedures of a node. */
  datatype Rpc = StoreRpc | FindNodeRpc | FindValueRpc | PingRpc

  const EMPTY: Message := Message(STORE, [], [], [], None, OK)

  predicate Decodable(p: ProtoPeer) {
    |p.id| >= 16 && p.addrs.Utf8?
  }

  function ProtoPeerToPeer(p: ProtoPeer): Peer
    requires Decodable(p)
  {
    Peer(KeyFromBytes(p.id), p.addrs.text)
  }

  /** The key of a request; None for the panic on fewer than 16 bytes. */
  function ReadKey(key: seq<Byte>): Option<Id> {
    if |key| >= 16 then Some(KeyFromBytes(key)) else None
  }

  function ProtoPeerFromPeer(p: Peer): (r: ProtoPeer)
    ensures Decodable(r)
  {
    ProtoPeer(KeyToBytes(p.id), Utf8(p.address))
  }

  function CreateFindNodeRequest(target: Id, myself: Peer): Message {
    EMPTY.(kind := FIND_NODE, key := KeyToBytes(target), myself := Some(ProtoPeerFromPeer(myself)))
  }

  function CreateFindValueRequest(key: Id, myself: Peer): Message {
    EMPTY.(kind := FIND_VALUE, key := KeyToBytes(key), myself := Some(ProtoPeerFromPeer(myself)))
  }

  function CreatePingRequest(myself: Peer): Message {
    EMPTY.(kind := PING, myself := Some(ProtoPeerFromPeer(myself)))
  }

  function CreateStoreRequest(myself: Peer, key: Id, value: seq<Byte>): Message {
    EMPTY.(kind := STORE, key := KeyToBytes(key), value := value, myself := Some(ProtoPeerFromPeer(myself)))
  }

  /** None for success, the error's code otherwise. */
  function ValidateStoreResult(r: RpcResult): Option<ErrorCode> {
    match r
    case Response(m) => if m.code != OK then Some(m.code) else None
    case IoError => Some(INTERNAL_ERROR)
  }

  /** The first success counts; with none, the last error, or code OK if there was no request. */
  function StoreOutcome(results: seq<RpcResult>): Option<ErrorCode> {
    if results == [] then Some(OK)
    else if exists i :: 0 <= i < |results| && ValidateStoreResult(results[i]).None? then None
    else ValidateStoreResult(results[|results| - 1])
  }

  function CreateInvalidResponse(): Message {
    EMPTY.(code := BAD_REQUEST)
  }

  function CreateStoreResponse(success: bool): Message {
    EMPTY.(kind := STORE, code := if success then OK else INTERNAL_ERROR)
  }

  function CreateFindValueResponse(key: seq<Byte>, value: seq<Byte>): Message {
    EMPTY.(key := key, value := value)
  }

  function CreateFindNodeResponse(peers: seq<Peer>): Message {
    EMPTY.(closerPeers := EncodeAll(peers))
  }

  method BuildFindNodeResponse(peers: seq<Peer>) returns (m: Message)
    ensures m == CreateFindNodeResponse(peers)
  {
    m := EMPTY;
    var i := 0;
    while i < |peers|
      invariant i <= |peers|
      invariant m == EMPTY.(closerPeers := EncodeAll(peers)[..i])
    {
      m := m.(closerPeers := m.closerPeers + [ProtoPeerFromPeer(peers[i])]);
      i := i + 1;
    }
    assert EncodeAll(peers)[..i] == EncodeAll(peers);
  }

  function CreatePingResponse(): Message {
    EMPTY
  }

  predicate ValidateRequest(m: Message) {
    && m.myself.Some?
    && |m.myself.value.id| != 0
    && m.myself.value.addrs != Utf8("")
    && m.myself.value.addrs.Utf8?
  }

  function Sender(m: Message): Peer
    requires m.myself.Some? && Decodable(m.myself.value)
  {
    ProtoPeerToPeer(m.myself.value)
  }

  function EncodeAll(ps: seq<Peer>): (r: seq<ProtoPeer>)
    ensures |r| == |ps| && forall i :: 0 <= i < |ps| ==> r[i] == ProtoPeerFromPeer(ps[i])
  {
    if ps == [] then [] else [ProtoPeerFromPeer(ps[0])] + EncodeAll(ps[1..])
  }

  predicate AllDecodable(m: Message) {
    forall i :: 0 <= i < |m.closerPeers| ==> Decodable(m.closerPeers[i])
  }

  function DecodeAll(ps: seq<ProtoPeer>): (r: seq<Peer>)
    requires forall i :: 0 <= i < |ps| ==> Decodable(ps[i])
    ensures |r| == |ps| && forall i :: 0 <= i < |ps| ==> r[i] == ProtoPeerToPeer(ps[i])
  {
    if ps == [] then [] else [ProtoPeerToPeer(ps[0])] + DecodeAll(ps[1..])
  }

  /** The lookup reads a result without a panic: it decodes peers only beside an empty value. */
  predicate Legible(r: RpcResult) {
    r.Response? && r.message.value == [] ==> AllDecodable(r.message)
  }

  /** How the lookup reads a result. */
  function ToReply(r: RpcResult): Reply
    requires Legible(r)
  {
    match r
    case IoError => Failed
    case Response(m) => Answer(m.value, if m.value != [] then [] else DecodeAll(m.closerPeers))
  }

  // ---------- what the encoding keeps ----------

  // Encoding a peer loses nothing, so different peers never look alike on the wire.
  lemma PeerRoundTrip(p: Peer, q: Peer)
    ensures ProtoPeerToPeer(ProtoPeerFromPeer(p)) == p
    ensures ProtoPeerFromPeer(p) == ProtoPeerFromPeer(q) <==> p == q
  {
    KeyRoundTrip(p.id, [], []);
    KeyRoundTrip(q.id, [], []);
  }

  lemma ListRoundTrip(ps: seq<Peer>)
    ensures AllDecodable(CreateFindNodeResponse(ps))
    ensures DecodeAll(EncodeAll(ps)) == ps
  {
    var r := EncodeAll(ps);
    forall i | 0 <= i < |ps|
      ensures ProtoPeerToPeer(r[i]) == ps[i]
    {
      PeerRoundTrip(ps[i], ps[i]);
    }
  }

  /** The server reads the sender back. */
  predicate NamesSender(m: Message, me: Peer) {
    m.myself.Some? && Decodable(m.myself.value) && ProtoPeerToPeer(m.myself.value) == me
  }

  /** The requests a node makes about a key. */
  function RequestsAbout(me: Peer, key: Id, value: seq<Byte>): set<Message> {
    {CreateStoreRequest(me, key, value), CreateFindNodeRequest(key, me),
     CreateFindValueRequest(key, me), CreatePingRequest(me)}
  }

  // A request passes the server's check exactly when the sender has an address, and then
  // the server reads back what was asked.
  lemma RequestsAreValid(me: Peer, key: Id, value: seq<Byte>)
    ensures forall m :: m in RequestsAbout(me, key, value) ==>
              (ValidateRequest(m) <==> me.address != "") && NamesSender(m, me)
    ensures ReadKey(CreateStoreRequest(me, key, value).key) == Some(key)
    ensures ReadKey(CreateFindNodeRequest(key, me).key) == ReadKey(CreateFindValueRequest(key, me).key) == Some(key)
    ensures CreateStoreRequest(me, key, value).value == value
    ensures CreateStoreRequest(me, key, value).kind == STORE && CreateFindNodeRequest(key, me).kind == FIND_NODE
    ensures CreateFindValueRequest(key, me).kind == FIND_VALUE && CreatePingRequest(me).kind == PING
  {
    PeerRoundTrip(me, me);
    KeyRoundTrip(key, [], []);
  }

  // A result counts as success exactly when it is a reply with code OK; any other yields the
  // code of the reply, or an internal error when there was none.
  lemma StoreResultIff(r: RpcResult)
    ensures ValidateStoreResult(r).None? <==> exists m :: r == Response(m) && m.code == OK
    ensures forall code :: ValidateStoreResult(r) == Some(code) <==>
              (r.IoError? && code == INTERNAL_ERROR) || exists m :: r == Response(m) && m.code == code != OK
  {
    if r.Response? {
      assert r == Response(r.message);
    }
  }

  // The lookup reads a reply by its value and peers alone, whatever its other fields say.
  lemma CodeIsIgnored(m: Message, code: ErrorCode, key: seq<Byte>)
    ensures Legible(Response(m.(code := code, key := key))) <==> Legible(Response(m))
    ensures Legible(Response(m)) ==> ToReply(Response(m.(code := code, key := key))) == ToReply(Response(m))
  {
  }

  // Every peer list a server sends is what the lookup needs: readable, duplicate-free,
  // at most k long and nearest first.
  lemma ServedListsAreClean(t: Table, target: Id)
    requires Layout(t)
    ensures var m := CreateFindNodeResponse(NearestPeers(t, target, t.k));
            && AllDecodable(m)
            && NoDup(DecodeAll(m.closerPeers)) && |m.closerPeers| <= t.k
            && Sorted(DecodeAll(m.closerPeers), target, NearestFirst)
            && RepliesNoDup([ToReply(Response(m))])
  {
    AnswerShape(t, target, t.k);
    ListRoundTrip(NearestPeers(t, target, t.k));
  }
}
