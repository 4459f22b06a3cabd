/** A network of nodes: request handlers as lock-delimited steps over each node's shared
    table and store, clients, and messages that may be lost. */
module Network {
  import opened Ids
  import opened Peers
  import opened Tables
  import opened Histories
  import opened Nearest
  import opened Lookups
  import opened Messages

  type Bytes = seq<Byte>

  datatype Lock = Free | HeldBy(call: nat)

  /** `log` records the peers offered to the table, in the order the table lock was held. */
  datatype Node = Node(k: nat, local: Peer, table: Table, store: map<Bytes, Bytes>,
                       tableLock: Lock, storeLock: Lock, log: seq<Peer>)

  /** Where a request is: under way, between two awaits of its handler, or answered. */
  datatype Pc = Sent | Start | WantTable | HasTable | WantStore | HasStore | Done(reply: Message)

  /** `result` is what the caller gets to see, `consumed` whether its loop took it. */
  datatype Call = Call(owner: nat, to: string, rpc: Rpc, message: Message, pc: Pc,
                       result: Option<RpcResult>, consumed: bool)

  datatype Stage = CheckStore | AskTable | Looping(initial: seq<Peer>, replies: seq<Reply>) | Answered(value: Bytes)

  datatype Client =
    | Storing(me: Peer, key: Id, value: Bytes, first: nat, count: nat, error: Option<Option<ErrorCode>>)
    | Finding(me: Peer, home: string, key: Id, alpha: nat, stage: Stage)
    | Probing(me: Peer, target: Id)

  datatype Put = Put(call: nat, node: string, key: Bytes, value: Bytes)

  /** `given` holds every pair ever passed to `store`, `puts` every put ever executed. */
  datatype Net = Net(nodes: map<string, Node>, calls: seq<Call>, clients: seq<Client>,
                     given: set<(Id, Bytes)>, puts: set<Put>)

  datatype Step =
    | Join(at: string, k: nat, id: Id)
    | Offer(at: string, peers: seq<Peer>)
    | PutStart(at: string, key: Id, value: Bytes)
    | PutEnd(client: nat)
    | GetStart(at: string, key: Id, alpha: nat)
    | GetLocal(client: nat)
    | GetNearest(client: nat)
    | GetReceive(client: nat, call: nat)
    | Probe(at: string, ping: bool, target: Id, to: string)
    | Arrive(call: nat)
    | Validate(call: nat)
    | LockTable(call: nat)
    | UseTable(call: nat)
    | LockStore(call: nat)
    | UseStore(call: nat)
    | Return(call: nat)
    | Lose(call: nat)

  const INIT: Net := Net(map[], [], [], {}, {})

  // ---------- the invariant ----------

  predicate Known(given: set<(Id, Bytes)>, key: Bytes, value: Bytes) {
    |key| == 16 && (KeyFromBytes(key), value) in given
  }

  ghost predicate NodeOk(s: Net, a: string)
    requires a in s.nodes
  {
    var n := s.nodes[a];
    && a != "" && n.local.address == a && n.k >= 1
    && Layout(New(n.k, n.local))
    && n.table == Run(New(n.k, n.local), n.log)
    && forall key :: key in n.store ==> Known(s.given, key, n.store[key])
  }

  /** A call carries the request its owner makes. */
  predicate RequestOf(client: Client, call: Call) {
    match client
    case Storing(me, key, value, _, _, _) => call.rpc.StoreRpc? && call.message == CreateStoreRequest(me, key, value)
    case Finding(me, _, key, _, _) =>
      (call.rpc.FindValueRpc? || call.rpc.FindNodeRpc?) && call.message == CreateFindValueRequest(key, me)
    case Probing(me, target) =>
      || (call.rpc.FindNodeRpc? && call.message == CreateFindNodeRequest(target, me))
      || (call.rpc.PingRpc? && call.message == CreatePingRequest(me))
  }

  /** What every reply to call c satisfies. */
  ghost predicate ReplyOk(s: Net, c: nat, m: Message)
    requires c < |s.calls|
  {
    var call := s.calls[c];
    && AllDecodable(m)
    && NoDup(DecodeAll(m.closerPeers))
    && (m.closerPeers != [] ==>
          && call.to in s.nodes && |m.closerPeers| <= s.nodes[call.to].k
          && |call.message.key| >= 16 && Sorted(DecodeAll(m.closerPeers), KeyFromBytes(call.message.key), NearestFirst))
    && (m.value != [] ==> Known(s.given, call.message.key, m.value))
    && (call.rpc.StoreRpc? && m.code == OK ==> Put(c, call.to, call.message.key, call.message.value) in s.puts)
  }

  ghost predicate CallOk(s: Net, c: nat)
    requires c < |s.calls|
  {
    var call := s.calls[c];
    && call.owner < |s.clients| && RequestOf(s.clients[call.owner], call)
    && (!call.pc.Sent? ==> call.to in s.nodes)
    && (call.pc.WantStore? || call.pc.HasStore? ==> call.rpc.StoreRpc? || call.rpc.FindValueRpc?)
    && (call.pc.Done? ==> ReplyOk(s, c, call.pc.reply))
    && (call.result.Some? && call.result.value.Response? ==> ReplyOk(s, c, call.result.value.message))
  }

  ghost predicate ClientOk(s: Net, o: nat)
    requires o < |s.clients|
  {
    match s.clients[o]
    case Storing(me, key, value, first, count, error) =>
      && (key, value) in s.given
      && first + count <= |s.calls|
      && (forall c :: first <= c < first + count ==> s.calls[c].owner == o)
      && (error.Some? ==>
            && (forall c :: first <= c < first + count ==> s.calls[c].result.Some?)
            && (count == 0 ==> error.value == Some(OK))
            && (error.value.None? <==>
                  exists c :: first <= c < first + count && ValidateStoreResult(s.calls[c].result.value).None?))
    case Finding(me, home, key, alpha, stage) =>
      && home in s.nodes
      && StageOk(s.given, key, stage)
    case Probing(_, _) => true
  }

  ghost predicate StageOk(given: set<(Id, Bytes)>, key: Id, stage: Stage) {
    && (stage.Answered? ==> (key, stage.value) in given)
    && (stage.Looping? ==> NoDup(stage.initial) && RepliesNoDup(stage.replies)
                           && forall i :: 0 <= i < |stage.replies| ==> ReplyKnown(given, key, stage.replies[i]))
  }

  predicate ReplyKnown(given: set<(Id, Bytes)>, key: Id, r: Reply) {
    r.Answer? && r.value != [] ==> (key, r.value) in given
  }

  /** A held lock is held by a handler of that node which is inside its critical section. */
  predicate NodeLocks(s: Net, a: string)
    requires a in s.nodes
  {
    var n := s.nodes[a];
    && (n.tableLock.HeldBy? ==> n.tableLock.call < |s.calls| && s.calls[n.tableLock.call].to == a
                                && s.calls[n.tableLock.call].pc.HasTable?)
    && (n.storeLock.HeldBy? ==> n.storeLock.call < |s.calls| && s.calls[n.storeLock.call].to == a
                                && s.calls[n.storeLock.call].pc.HasStore?)
  }

  predicate CallLocks(s: Net, c: nat)
    requires c < |s.calls|
  {
    var call := s.calls[c];
    && (call.pc.HasTable? ==> call.to in s.nodes && s.nodes[call.to].tableLock == HeldBy(c))
    && (call.pc.HasStore? ==> call.to in s.nodes && s.nodes[call.to].storeLock == HeldBy(c))
  }

  ghost predicate Locks(s: Net) {
    && (forall a {:trigger NodeLocks(s, a)} :: a in s.nodes ==> NodeLocks(s, a))
    && (forall c {:trigger CallLocks(s, c)} :: 0 <= c < |s.calls| ==> CallLocks(s, c))
  }

  ghost predicate Inv(s: Net) {
    && (forall a {:trigger NodeOk(s, a)} :: a in s.nodes ==> NodeOk(s, a))
    && (forall c {:trigger CallOk(s, c)} :: 0 <= c < |s.calls| ==> CallOk(s, c))
    && (forall o {:trigger ClientOk(s, o)} :: 0 <= o < |s.clients| ==> ClientOk(s, o))
    && Locks(s)
  }

  // ---------- steps ----------

  function Requests(owner: nat, peers: seq<Peer>, rpc: Rpc, message: Message): (r: seq<Call>)
    ensures |r| == |peers|
    ensures forall i :: 0 <= i < |peers| ==> r[i] == Call(owner, peers[i].address, rpc, message, Sent, None, false)
  {
    seq(|peers|, i requires 0 <= i < |peers| => Call(owner, peers[i].address, rpc, message, Sent, None, false))
  }

  predicate TableFree(s: Net, a: string) {
    a in s.nodes && s.nodes[a].tableLock.Free?
  }

  predicate AtPc(s: Net, c: nat, pc: Pc) {
    c < |s.calls| && s.calls[c].pc == pc
  }

  function Finder(s: Net, o: nat): Lookup
    requires o < |s.clients| && s.clients[o].Finding? && s.clients[o].stage.Looping?
  {
    var f := s.clients[o];
    DeliverAll(Begin(f.key, f.alpha, f.stage.initial), f.stage.replies)
  }

  predicate Enabled(s: Net, step: Step) {
    match step
    case Join(at, k, _) => at != "" && at !in s.nodes && k >= 1
    case Offer(at, _) => TableFree(s, at)
    case PutStart(at, _, _) => TableFree(s, at)
    case PutEnd(o) =>
      && o < |s.clients| && s.clients[o].Storing? && s.clients[o].error.None?
      && forall c :: s.clients[o].first <= c < s.clients[o].first + s.clients[o].count
                     ==> c < |s.calls| && s.calls[c].result.Some?
    case GetStart(at, _, _) => at in s.nodes
    case GetLocal(o) =>
      && o < |s.clients| && s.clients[o].Finding? && s.clients[o].stage.CheckStore?
      && s.clients[o].home in s.nodes && s.nodes[s.clients[o].home].storeLock.Free?
    case GetNearest(o) =>
      && o < |s.clients| && s.clients[o].Finding? && s.clients[o].stage.AskTable?
      && TableFree(s, s.clients[o].home)
    case GetReceive(o, c) =>
      && o < |s.clients| && s.clients[o].Finding? && s.clients[o].stage.Looping? && Waiting(Finder(s, o))
      && c < |s.calls| && s.calls[c].owner == o && s.calls[c].result.Some? && !s.calls[c].consumed
    case Probe(at, _, _, _) => at in s.nodes
    case Arrive(c) => AtPc(s, c, Sent) && s.calls[c].to in s.nodes
    case Validate(c) => AtPc(s, c, Start)
    case LockTable(c) => AtPc(s, c, WantTable) && TableFree(s, s.calls[c].to)
    case UseTable(c) => AtPc(s, c, HasTable)
    case LockStore(c) => AtPc(s, c, WantStore) && s.calls[c].to in s.nodes && s.nodes[s.calls[c].to].storeLock.Free?
    case UseStore(c) => AtPc(s, c, HasStore)
    case Return(c) => c < |s.calls| && s.calls[c].pc.Done? && s.calls[c].result.None?
    case Lose(c) => c < |s.calls| && s.calls[c].result.None?
  }

  function SetCall(s: Net, c: nat, call: Call): Net
    requires c < |s.calls|
  {
    s.(calls := s.calls[c := call])
  }

  function SetClient(s: Net, o: nat, client: Client): Net
    requires o < |s.clients|
  {
    s.(clients := s.clients[o := client])
  }

  /** The critical section on the table: the sender is offered, and a find-node answered. */
  function TableSection(n: Node, call: Call): (r: (Node, Pc))
    requires Layout(n.table) && call.message.myself.Some? && Decodable(call.message.myself.value)
    requires call.rpc.FindNodeRpc? ==> |call.message.key| >= 16
    ensures if call.rpc.PingRpc? || call.rpc.FindNodeRpc? then r.1.Done? else r.1.WantStore?
  {
    var t := Updated(n.table, Sender(call.message)).table;
    UpdateRefinesEager(n.table, Sender(call.message));
    var pc := match call.rpc
      case PingRpc => Done(CreatePingResponse())
      case FindNodeRpc => Done(CreateFindNodeResponse(NearestPeers(t, KeyFromBytes(call.message.key), t.k)))
      case _ => WantStore;
    (n.(table := t, log := n.log + [Sender(call.message)], tableLock := Free), pc)
  }

  /** The critical section on the store; a miss goes on as a find-node from its start. */
  function StoreSection(n: Node, call: Call): (Node, Rpc, Pc) {
    var free := n.(storeLock := Free);
    if call.rpc.StoreRpc? then
      (free.(store := n.store[call.message.key := call.message.value]), call.rpc, Done(CreateStoreResponse(true)))
    else if call.message.key in n.store then
      (free, call.rpc, Done(CreateFindValueResponse(call.message.key, n.store[call.message.key])))
    else (free, FindNodeRpc, Start)
  }

  function ResultsOf(calls: seq<Call>): (r: seq<RpcResult>)
    requires forall i :: 0 <= i < |calls| ==> calls[i].result.Some?
    ensures |r| == |calls| && forall i :: 0 <= i < |calls| ==> r[i] == calls[i].result.value
  {
    seq(|calls|, i requires 0 <= i < |calls| => calls[i].result.value)
  }

  ghost predicate Ready(s: Net, step: Step) {
    Inv(s) && Enabled(s, step)
  }

  lemma CallFacts(s: Net, c: nat)
    requires Inv(s) && c < |s.calls|
    ensures CallOk(s, c) && CallLocks(s, c)
    ensures var m := s.calls[c].message;
            && m.myself.Some? && Decodable(m.myself.value)
            && (s.calls[c].rpc.FindNodeRpc? || s.calls[c].rpc.FindValueRpc? ==> |m.key| == 16)
    ensures !s.calls[c].pc.Sent? ==>
              s.calls[c].to in s.nodes && NodeOk(s, s.calls[c].to) && NodeLocks(s, s.calls[c].to)
              && Layout(s.nodes[s.calls[c].to].table)
  {
    assert CallOk(s, c) && CallLocks(s, c);
  }

  // A node joins with an empty table and store.
  function DoJoin(s: Net, at: string, k: nat, id: Id): Net {
    s.(nodes := s.nodes[at := Node(k, Peer(id, at), New(k, Peer(id, at)), map[], Free, Free, [])])
  }

  // Bootstrapping offers peers under one lock.
  ghost function DoOffer(s: Net, at: string, peers: seq<Peer>): Net
    requires at in s.nodes && Layout(s.nodes[at].table)
  {
    var n := s.nodes[at];
    s.(nodes := s.nodes[at := n.(table := Run(n.table, peers), log := n.log + peers)])
  }

  // `store` reads the k nearest peers and sends them all the same request.
  function DoPutStart(s: Net, at: string, key: Id, value: Bytes): Net
    requires at in s.nodes && s.nodes[at].table.buckets != []
  {
    var n := s.nodes[at];
    var peers := NearestPeers(n.table, key, n.k);
    s.(given := s.given + {(key, value)},
       clients := s.clients + [Storing(n.local, key, value, |s.calls|, |peers|, None)],
       calls := s.calls + Requests(|s.clients|, peers, StoreRpc, CreateStoreRequest(n.local, key, value)))
  }

  // `store` returns once every request has a result.
  function DoPutEnd(s: Net, o: nat): Net
    requires Enabled(s, PutEnd(o)) && s.clients[o].first + s.clients[o].count <= |s.calls|
  {
    var p := s.clients[o];
    SetClient(s, o, p.(error := Some(StoreOutcome(ResultsOf(s.calls[p.first..p.first + p.count])))))
  }

  function DoGetLocal(s: Net, o: nat): Net
    requires Enabled(s, GetLocal(o))
  {
    var f := s.clients[o];
    var store := s.nodes[f.home].store;
    SetClient(s, o, f.(stage := if KeyToBytes(f.key) in store then Answered(store[KeyToBytes(f.key)]) else AskTable))
  }

  // The first candidates, and a query to each peer the loop spawns before its first wait.
  function DoGetNearest(s: Net, o: nat): Net
    requires Enabled(s, GetNearest(o)) && s.nodes[s.clients[o].home].table.buckets != []
  {
    var f := s.clients[o];
    var n := s.nodes[f.home];
    var u := SetClient(s, o, f.(stage := Looping(NearestPeers(n.table, f.key, n.k), [])));
    u.(calls := s.calls + Requests(o, Finder(u, o).queried, FindValueRpc, CreateFindValueRequest(f.key, f.me)))
  }

  lemma QueriedGrows(s: Lookup, r: Reply)
    ensures s.queried <= Deliver(s, r).queried
  {
    if Waiting(s) {
      HeadKeepsWork(Receive(s, r));
    }
  }

  // One result is taken from the channel; the queries it triggers go out.
  function DoGetReceive(s: Net, o: nat, c: nat): Net
    requires Enabled(s, GetReceive(o, c))
    requires s.calls[c].result.value.Response? ==> AllDecodable(s.calls[c].result.value.message)
  {
    var f := s.clients[o];
    var r := ToReply(s.calls[c].result.value);
    QueriedGrows(Finder(s, o), r);
    var before, after := Finder(s, o).queried, Deliver(Finder(s, o), r).queried;
    s.(clients := s.clients[o := f.(stage := Looping(f.stage.initial, f.stage.replies + [r]))],
       calls := s.calls[c := s.calls[c].(consumed := true)]
                + Requests(o, after[|before|..], FindValueRpc, CreateFindValueRequest(f.key, f.me)))
  }

  function DoProbe(s: Net, at: string, ping: bool, target: Id, to: string): Net
    requires at in s.nodes
  {
    var me := s.nodes[at].local;
    var m := if ping then CreatePingRequest(me) else CreateFindNodeRequest(target, me);
    s.(clients := s.clients + [Probing(me, target)],
       calls := s.calls + [Call(|s.clients|, to, if ping then PingRpc else FindNodeRpc, m, Sent, None, false)])
  }

  function DoLockTable(s: Net, c: nat): Net
    requires Enabled(s, LockTable(c))
  {
    var a := s.calls[c].to;
    SetCall(s, c, s.calls[c].(pc := HasTable)).(nodes := s.nodes[a := s.nodes[a].(tableLock := HeldBy(c))])
  }

  function DoUseTable(s: Net, c: nat, n: Node, pc: Pc): Net
    requires c < |s.calls|
  {
    SetCall(s, c, s.calls[c].(pc := pc)).(nodes := s.nodes[s.calls[c].to := n])
  }

  function DoLockStore(s: Net, c: nat): Net
    requires Enabled(s, LockStore(c))
  {
    var a := s.calls[c].to;
    SetCall(s, c, s.calls[c].(pc := HasStore)).(nodes := s.nodes[a := s.nodes[a].(storeLock := HeldBy(c))])
  }

  function DoUseStore(s: Net, c: nat): Net
    requires c < |s.calls| && s.calls[c].to in s.nodes
  {
    var a := s.calls[c].to;
    var call := s.calls[c];
    var (n, rpc, pc) := StoreSection(s.nodes[a], call);
    SetCall(s, c, call.(rpc := rpc, pc := pc)).(
      nodes := s.nodes[a := n],
      puts := if call.rpc.StoreRpc? then s.puts + {Put(c, a, call.message.key, call.message.value)} else s.puts)
  }

  lemma NodeFacts(s: Net, a: string)
    requires Inv(s) && a in s.nodes
    ensures NodeOk(s, a) && NodeLocks(s, a) && Layout(s.nodes[a].table) && s.nodes[a].table.k == s.nodes[a].k
  {
    assert NodeOk(s, a) && NodeLocks(s, a);
  }

  // The critical section on the table, as a whole.
  ghost function AfterTable(s: Net, c: nat): Net
    requires Inv(s) && c < |s.calls| && s.calls[c].to in s.nodes && !s.calls[c].pc.Sent?
  {
    CallFacts(s, c);
    var (n, pc) := TableSection(s.nodes[s.calls[c].to], s.calls[c]);
    DoUseTable(s, c, n, pc)
  }

  ghost function Apply(s: Net, step: Step): Net
    requires Ready(s, step)
  {
    match step
    case Join(at, k, id) => DoJoin(s, at, k, id)
    case Offer(at, peers) =>
      NodeFacts(s, at);
      DoOffer(s, at, peers)
    case PutStart(at, key, value) =>
      NodeFacts(s, at);
      DoPutStart(s, at, key, value)
    case PutEnd(o) =>
      assert ClientOk(s, o);
      DoPutEnd(s, o)
    case GetStart(at, key, alpha) =>
      s.(clients := s.clients + [Finding(s.nodes[at].local, at, key, alpha, CheckStore)])
    case GetLocal(o) => DoGetLocal(s, o)
    case GetNearest(o) =>
      NodeFacts(s, s.clients[o].home);
      DoGetNearest(s, o)
    case GetReceive(o, c) =>
      CallFacts(s, c);
      DoGetReceive(s, o, c)
    case Probe(at, ping, target, to) => DoProbe(s, at, ping, target, to)
    case Arrive(c) => SetCall(s, c, s.calls[c].(pc := Start))
    case Validate(c) =>
      var pc := if ValidateRequest(s.calls[c].message) then WantTable else Done(CreateInvalidResponse());
      SetCall(s, c, s.calls[c].(pc := pc))
    case LockTable(c) => DoLockTable(s, c)
    case UseTable(c) =>
      CallFacts(s, c);
      AfterTable(s, c)
    case LockStore(c) => DoLockStore(s, c)
    case UseStore(c) =>
      CallFacts(s, c);
      DoUseStore(s, c)
    case Return(c) => SetCall(s, c, s.calls[c].(result := Some(Response(s.calls[c].pc.reply))))
    case Lose(c) => SetCall(s, c, s.calls[c].(result := Some(IoError)))
  }

  // ---------- what no step undoes ----------

  predicate SameRequest(a: Call, b: Call) {
    && a.owner == b.owner && a.to == b.to && a.message == b.message
    && (a.rpc == b.rpc || (a.rpc.FindValueRpc? && b.rpc.FindNodeRpc?))
    && (a.result.Some? ==> b.result == a.result)
  }

  predicate SameClient(a: Client, b: Client) {
    match a
    case Storing(me, key, value, first, count, _) =>
      b.Storing? && b.me == me && b.key == key && b.value == value && b.first == first && b.count == count
    case Finding(me, home, key, alpha, _) =>
      b.Finding? && b.me == me && b.home == home && b.key == key && b.alpha == alpha
    case Probing(_, _) => a == b
  }

  ghost predicate Grows(s: Net, u: Net) {
    && s.given <= u.given && s.puts <= u.puts
    && |s.calls| <= |u.calls| && |s.clients| <= |u.clients|
    && (forall a :: a in s.nodes ==> a in u.nodes && u.nodes[a].k == s.nodes[a].k)
    && (forall c :: 0 <= c < |s.calls| ==> SameRequest(s.calls[c], u.calls[c]))
    && (forall o :: 0 <= o < |s.clients| ==> SameClient(s.clients[o], u.clients[o]))
  }

  lemma ReplyKept(s: Net, u: Net, c: nat, m: Message)
    requires Grows(s, u) && c < |s.calls| && ReplyOk(s, c, m)
    ensures ReplyOk(u, c, m)
  {
    assert SameRequest(s.calls[c], u.calls[c]);
  }

  lemma CallKept(s: Net, u: Net, c: nat)
    requires Grows(s, u) && c < |s.calls| && CallOk(s, c)
    requires u.calls[c].pc == s.calls[c].pc && u.calls[c].result == s.calls[c].result
    requires u.calls[c].rpc == s.calls[c].rpc
    ensures CallOk(u, c)
  {
    var call := s.calls[c];
    assert SameRequest(call, u.calls[c]) && SameClient(s.clients[call.owner], u.clients[call.owner]);
    if call.pc.Done? {
      ReplyKept(s, u, c, call.pc.reply);
    }
    if call.result.Some? && call.result.value.Response? {
      ReplyKept(s, u, c, call.result.value.message);
    }
  }

  lemma ClientKept(s: Net, u: Net, o: nat)
    requires Grows(s, u) && o < |s.clients| && u.clients[o] == s.clients[o] && ClientOk(s, o)
    ensures ClientOk(u, o)
  {
    if s.clients[o].Storing? {
      var p := s.clients[o];
      forall c | p.first <= c < p.first + p.count
        ensures u.calls[c].owner == o && (s.calls[c].result.Some? ==> u.calls[c].result == s.calls[c].result)
      {
        assert SameRequest(s.calls[c], u.calls[c]);
      }
    }
  }

  lemma NodeKept(s: Net, u: Net, a: string)
    requires s.given <= u.given && a in s.nodes && a in u.nodes && u.nodes[a].k == s.nodes[a].k
    requires u.nodes[a].local == s.nodes[a].local && u.nodes[a].table == s.nodes[a].table
    requires u.nodes[a].log == s.nodes[a].log && u.nodes[a].store == s.nodes[a].store
    requires NodeOk(s, a)
    ensures NodeOk(u, a)
  {
  }

  /** Everything outside the touched parts is as before. */
  ghost predicate Untouched(s: Net, u: Net, nodes: set<string>, calls: set<nat>, clients: set<nat>) {
    && (forall a :: a in u.nodes && a !in nodes ==> a in s.nodes && u.nodes[a] == s.nodes[a])
    && (forall c: nat :: c < |u.calls| && c !in calls ==> c < |s.calls| && u.calls[c] == s.calls[c])
    && (forall o: nat :: o < |u.clients| && o !in clients ==> o < |s.clients| && u.clients[o] == s.clients[o])
  }

  // It is enough to look at what a step touched.
  lemma Frame(s: Net, u: Net, nodes: set<string>, calls: set<nat>, clients: set<nat>)
    requires Inv(s) && Grows(s, u) && Untouched(s, u, nodes, calls, clients) && Locks(u)
    requires forall a {:trigger NodeOk(u, a)} :: a in nodes && a in u.nodes ==> NodeOk(u, a)
    requires forall c {:trigger CallOk(u, c)} :: c in calls && c < |u.calls| ==> CallOk(u, c)
    requires forall o {:trigger ClientOk(u, o)} :: o in clients && o < |u.clients| ==> ClientOk(u, o)
    ensures Inv(u)
  {
    forall a | a in u.nodes
      ensures NodeOk(u, a)
    {
      if a !in nodes {
        assert NodeOk(s, a);
        NodeKept(s, u, a);
      }
    }
    forall c | 0 <= c < |u.calls|
      ensures CallOk(u, c)
    {
      if c !in calls {
        assert CallOk(s, c);
        CallKept(s, u, c);
      }
    }
    forall o | 0 <= o < |u.clients|
      ensures ClientOk(u, o)
    {
      if o !in clients {
        assert ClientOk(s, o);
        ClientKept(s, u, o);
      }
    }
  }

  // Steps that take or free no lock keep the lock discipline.
  lemma LocksKept(s: Net, u: Net)
    requires Locks(s)
    requires |s.calls| <= |u.calls| && forall a :: a in s.nodes ==> a in u.nodes
    requires forall a :: a in u.nodes ==>
                 if a in s.nodes then
                   && u.nodes[a].tableLock == s.nodes[a].tableLock
                   && u.nodes[a].storeLock == s.nodes[a].storeLock
                 else u.nodes[a].tableLock.Free? && u.nodes[a].storeLock.Free?
    requires forall c :: 0 <= c < |u.calls| ==>
                 if c < |s.calls| then
                   && u.calls[c].to == s.calls[c].to
                   && u.calls[c].pc.HasTable? == s.calls[c].pc.HasTable?
                   && u.calls[c].pc.HasStore? == s.calls[c].pc.HasStore?
                 else u.calls[c].pc.Sent?
    ensures Locks(u)
  {
    forall a | a in u.nodes
      ensures NodeLocks(u, a)
    {
      if a in s.nodes {
        assert NodeLocks(s, a);
      }
    }
    forall c | 0 <= c < |u.calls|
      ensures CallLocks(u, c)
    {
      if c < |s.calls| {
        assert CallLocks(s, c);
      }
    }
  }

  /** The locks of the node after the section, given where the handler was and is. */
  predicate Handed(n: Node, m: Node, before: Pc, after: Pc, c: nat) {
    && m.tableLock == (if after.HasTable? then HeldBy(c) else if before.HasTable? then Free else n.tableLock)
    && m.storeLock == (if after.HasStore? then HeldBy(c) else if before.HasStore? then Free else n.storeLock)
    && (after.HasTable? && !before.HasTable? ==> n.tableLock.Free?)
    && (after.HasStore? && !before.HasStore? ==> n.storeLock.Free?)
  }

  // A handler entering or leaving a critical section of its own node.
  lemma LocksMoved(s: Net, u: Net, c: nat)
    requires Locks(s) && c < |s.calls| == |u.calls| && s.calls[c].to in s.nodes
    requires u.nodes.Keys == s.nodes.Keys
    requires forall a :: a in s.nodes && a != s.calls[c].to ==> u.nodes[a] == s.nodes[a]
    requires forall d :: 0 <= d < |s.calls| && d != c ==> u.calls[d] == s.calls[d]
    requires u.calls[c].to == s.calls[c].to
    requires Handed(s.nodes[s.calls[c].to], u.nodes[s.calls[c].to], s.calls[c].pc, u.calls[c].pc, c)
    ensures Locks(u)
  {
    forall a | a in u.nodes
      ensures NodeLocks(u, a)
    {
      assert NodeLocks(s, a);
    }
    forall d | 0 <= d < |u.calls|
      ensures CallLocks(u, d)
    {
      assert CallLocks(s, d) && CallLocks(s, c);
    }
  }

  // ---------- steps on one call ----------

  lemma SetCallKeeps(s: Net, c: nat, call: Call)
    requires Inv(s) && c < |s.calls|
    requires SameRequest(s.calls[c], call) && call.rpc == s.calls[c].rpc
    requires call.pc.HasTable? == s.calls[c].pc.HasTable? && call.pc.HasStore? == s.calls[c].pc.HasStore?
    requires !call.pc.Sent? ==> call.to in s.nodes
    requires call.pc.WantStore? ==> s.calls[c].pc.WantStore?
    requires call.pc.Done? ==> ReplyOk(s, c, call.pc.reply)
    requires call.result.Some? && call.result.value.Response? ==> ReplyOk(s, c, call.result.value.message)
    ensures Inv(SetCall(s, c, call))
  {
    var u := SetCall(s, c, call);
    LocksKept(s, u);
    assert CallOk(u, c) by {
      assert CallOk(s, c);
      if call.pc.Done? {
        ReplyKept(s, u, c, call.pc.reply);
      }
      if call.result.Some? && call.result.value.Response? {
        ReplyKept(s, u, c, call.result.value.message);
      }
    }
    Frame(s, u, {}, {c}, {});
  }

  lemma EmptyReply(s: Net, c: nat, m: Message)
    requires c < |s.calls| && m.closerPeers == [] && m.value == [] && (s.calls[c].rpc.StoreRpc? ==> m.code != OK)
    ensures ReplyOk(s, c, m)
  {
  }

  lemma PreserveArrive(s: Net, c: nat)
    requires Ready(s, Arrive(c))
    ensures Inv(Apply(s, Arrive(c)))
  {
    CallFacts(s, c);
    SetCallKeeps(s, c, s.calls[c].(pc := Start));
  }

  lemma PreserveValidate(s: Net, c: nat)
    requires Ready(s, Validate(c))
    ensures Inv(Apply(s, Validate(c)))
  {
    CallFacts(s, c);
    EmptyReply(s, c, CreateInvalidResponse());
    SetCallKeeps(s, c, Apply(s, Validate(c)).calls[c]);
  }

  lemma PreserveReturn(s: Net, c: nat)
    requires Ready(s, Return(c))
    ensures Inv(Apply(s, Return(c)))
  {
    CallFacts(s, c);
    SetCallKeeps(s, c, s.calls[c].(result := Some(Response(s.calls[c].pc.reply))));
  }

  lemma PreserveLose(s: Net, c: nat)
    requires Ready(s, Lose(c))
    ensures Inv(Apply(s, Lose(c)))
  {
    CallFacts(s, c);
    SetCallKeeps(s, c, s.calls[c].(result := Some(IoError)));
  }

  // ---------- critical sections ----------

  /** u differs from s in call c and the node it is addressed to. */
  ghost predicate Section(s: Net, u: Net, c: nat) {
    && c < |s.calls| == |u.calls| && s.calls[c].to in s.nodes && s.calls[c].to in u.nodes
    && u == s.(calls := s.calls[c := u.calls[c]], puts := u.puts,
               nodes := s.nodes[s.calls[c].to := u.nodes[s.calls[c].to]])
    && s.puts <= u.puts && u.nodes[s.calls[c].to].k == s.nodes[s.calls[c].to].k
    && SameRequest(s.calls[c], u.calls[c]) && u.calls[c].result == s.calls[c].result
  }

  lemma SectionGrows(s: Net, u: Net, c: nat)
    requires Section(s, u, c)
    ensures Grows(s, u) && Untouched(s, u, {s.calls[c].to}, {c}, {})
  {
  }

  lemma SectionKeeps(s: Net, u: Net, c: nat)
    requires Inv(s) && Section(s, u, c)
    requires Handed(s.nodes[s.calls[c].to], u.nodes[s.calls[c].to], s.calls[c].pc, u.calls[c].pc, c)
    requires NodeOk(u, s.calls[c].to) && RequestOf(s.clients[CallOwner(s, c)], u.calls[c])
    requires u.calls[c].pc.WantStore? || u.calls[c].pc.HasStore? ==>
               u.calls[c].rpc.StoreRpc? || u.calls[c].rpc.FindValueRpc?
    requires u.calls[c].pc.Done? ==> ReplyOk(u, c, u.calls[c].pc.reply)
    ensures Inv(u)
  {
    SectionGrows(s, u, c);
    LocksMoved(s, u, c);
    assert CallOk(s, c);
    assert CallOk(u, c) by {
      if s.calls[c].result.Some? && s.calls[c].result.value.Response? {
        ReplyKept(s, u, c, s.calls[c].result.value.message);
      }
    }
    Frame(s, u, {s.calls[c].to}, {c}, {});
  }

  ghost function CallOwner(s: Net, c: nat): (o: nat)
    requires Inv(s) && c < |s.calls|
    ensures o < |s.clients|
  {
    assert CallOk(s, c);
    s.calls[c].owner
  }

  lemma PreserveLockTable(s: Net, c: nat)
    requires Ready(s, LockTable(c))
    ensures Inv(DoLockTable(s, c))
  {
    CallFacts(s, c);
    NodeKept(s, DoLockTable(s, c), s.calls[c].to);
    SectionKeeps(s, DoLockTable(s, c), c);
  }

  lemma PreserveLockStore(s: Net, c: nat)
    requires Ready(s, LockStore(c))
    ensures Inv(DoLockStore(s, c))
  {
    CallFacts(s, c);
    NodeKept(s, DoLockStore(s, c), s.calls[c].to);
    SectionKeeps(s, DoLockStore(s, c), c);
  }

  lemma TableReply(s: Net, c: nat, t: Table)
    requires c < |s.calls| && s.calls[c].rpc.FindNodeRpc? && |s.calls[c].message.key| >= 16
    requires Layout(t) && s.calls[c].to in s.nodes && t.k == s.nodes[s.calls[c].to].k
    ensures ReplyOk(s, c, CreateFindNodeResponse(NearestPeers(t, KeyFromBytes(s.calls[c].message.key), t.k)))
  {
    ServedListsAreClean(t, KeyFromBytes(s.calls[c].message.key));
  }

  lemma TableSectionNode(s: Net, u: Net, a: string, p: Peer)
    requires a in s.nodes && a in u.nodes && NodeOk(s, a) && s.given <= u.given
    requires Layout(s.nodes[a].table)
    requires u.nodes[a] == s.nodes[a].(table := Updated(s.nodes[a].table, p).table,
                                       log := s.nodes[a].log + [p], tableLock := Free)
    ensures NodeOk(u, a) && Layout(u.nodes[a].table) && u.nodes[a].table.k == u.nodes[a].k
  {
    var n := s.nodes[a];
    RunSnoc(New(n.k, n.local), n.log, p);
  }

  lemma PreserveUseTable(s: Net, c: nat)
    requires Ready(s, UseTable(c))
    ensures Inv(Apply(s, UseTable(c)))
  {
    CallFacts(s, c);
    var call := s.calls[c];
    var (n, pc) := TableSection(s.nodes[call.to], call);
    var u := DoUseTable(s, c, n, pc);
    TableSectionNode(s, u, call.to, Sender(call.message));
    if call.rpc.PingRpc? {
      EmptyReply(u, c, CreatePingResponse());
    } else if call.rpc.FindNodeRpc? {
      TableReply(u, c, n.table);
    }
    SectionKeeps(s, u, c);
  }

  lemma StoreSectionNode(s: Net, c: nat)
    requires Inv(s) && AtPc(s, c, HasStore) && s.calls[c].to in s.nodes
    ensures NodeOk(DoUseStore(s, c), s.calls[c].to)
  {
    var call := s.calls[c];
    CallFacts(s, c);
    assert ClientOk(s, call.owner);
    if call.rpc.StoreRpc? {
      KeyRoundTrip(s.clients[call.owner].key, [], []);
    }
  }

  lemma PreserveUseStore(s: Net, c: nat)
    requires Ready(s, UseStore(c))
    ensures Inv(Apply(s, UseStore(c)))
  {
    CallFacts(s, c);
    var u := DoUseStore(s, c);
    StoreSectionNode(s, c);
    SectionKeeps(s, u, c);
  }

  // ---------- steps on nodes and clients ----------

  lemma PreserveJoin(s: Net, at: string, k: nat, id: Id)
    requires Ready(s, Join(at, k, id))
    ensures Inv(DoJoin(s, at, k, id))
  {
    var u := DoJoin(s, at, k, id);
    NewLayout(k, Peer(id, at));
    assert NodeOk(u, at);
    LocksKept(s, u);
    Frame(s, u, {at}, {}, {});
  }

  lemma PreserveOffer(s: Net, at: string, peers: seq<Peer>)
    requires Ready(s, Offer(at, peers))
    ensures Inv(Apply(s, Offer(at, peers)))
  {
    NodeFacts(s, at);
    var n := s.nodes[at];
    var u := DoOffer(s, at, peers);
    RunAppend(New(n.k, n.local), n.log, peers);
    assert NodeOk(u, at);
    LocksKept(s, u);
    Frame(s, u, {at}, {}, {});
  }

  /** u is s with the requests of a client added. */
  ghost predicate Sends(s: Net, u: Net, o: nat, new': seq<Call>) {
    && u.nodes == s.nodes && u.puts == s.puts && s.given <= u.given
    && |u.calls| == |s.calls| + |new'| && u.calls[|s.calls|..] == new'
    && (forall c :: 0 <= c < |s.calls| ==> u.calls[c] == s.calls[c].(consumed := u.calls[c].consumed))
    && o <= |s.clients| && |u.clients| == (if o < |s.clients| then |s.clients| else o + 1)
    && (forall p :: 0 <= p < |s.clients| && p != o ==> u.clients[p] == s.clients[p])
    && (o < |s.clients| ==> SameClient(s.clients[o], u.clients[o]))
    && (forall i :: 0 <= i < |new'| ==> new'[i].owner == o && new'[i].pc.Sent? && new'[i].result.None?
                                        && RequestOf(u.clients[o], new'[i]))
  }

  lemma SendsGrows(s: Net, u: Net, o: nat, new': seq<Call>)
    requires Sends(s, u, o, new')
    ensures Grows(s, u)
  {
  }

  lemma SendsKeeps(s: Net, u: Net, o: nat, new': seq<Call>)
    requires Inv(s) && Sends(s, u, o, new') && ClientOk(u, o)
    ensures Inv(u)
  {
    SendsGrows(s, u, o, new');
    assert forall c :: |s.calls| <= c < |u.calls| ==> u.calls[c] == u.calls[|s.calls|..][c - |s.calls|];
    LocksKept(s, u);
    forall c | 0 <= c < |u.calls|
      ensures CallOk(u, c)
    {
      if c < |s.calls| {
        assert CallOk(s, c);
        CallKept(s, u, c);
      }
    }
    forall p | 0 <= p < |u.clients|
      ensures ClientOk(u, p)
    {
      if p != o {
        assert ClientOk(s, p);
        ClientKept(s, u, p);
      }
    }
    forall a | a in u.nodes
      ensures NodeOk(u, a)
    {
      assert NodeOk(s, a);
      NodeKept(s, u, a);
    }
  }

  lemma PutStartSends(s: Net, at: string, key: Id, value: Bytes)
    requires Ready(s, PutStart(at, key, value))
    ensures var u := Apply(s, PutStart(at, key, value));
            Sends(s, u, |s.clients|, u.calls[|s.calls|..])
  {
    NodeFacts(s, at);
    var n := s.nodes[at];
    var new' := Requests(|s.clients|, NearestPeers(n.table, key, n.k), StoreRpc,
                         CreateStoreRequest(n.local, key, value));
    assert (s.calls + new')[|s.calls|..] == new';
  }

  lemma PreservePutStart(s: Net, at: string, key: Id, value: Bytes)
    requires Ready(s, PutStart(at, key, value))
    ensures Inv(Apply(s, PutStart(at, key, value)))
  {
    PutStartSends(s, at, key, value);
    var u := Apply(s, PutStart(at, key, value));
    assert ClientOk(u, |s.clients|);
    SendsKeeps(s, u, |s.clients|, u.calls[|s.calls|..]);
  }

  lemma PreserveGetStart(s: Net, at: string, key: Id, alpha: nat)
    requires Ready(s, GetStart(at, key, alpha))
    ensures Inv(Apply(s, GetStart(at, key, alpha)))
  {
    var u := Apply(s, GetStart(at, key, alpha));
    assert ClientOk(u, |s.clients|);
    SendsKeeps(s, u, |s.clients|, []);
  }

  lemma PreserveProbe(s: Net, at: string, ping: bool, target: Id, to: string)
    requires Ready(s, Probe(at, ping, target, to))
    ensures Inv(DoProbe(s, at, ping, target, to))
  {
    var u := DoProbe(s, at, ping, target, to);
    assert ClientOk(u, |s.clients|);
    SendsKeeps(s, u, |s.clients|, [u.calls[|s.calls|]]);
  }

  lemma PreserveGetLocal(s: Net, o: nat)
    requires Ready(s, GetLocal(o))
    ensures Inv(DoGetLocal(s, o))
  {
    var u := DoGetLocal(s, o);
    var f := s.clients[o];
    NodeFacts(s, f.home);
    KeyRoundTrip(f.key, [], []);
    assert ClientOk(s, o);
    assert ClientOk(u, o);
    SendsKeeps(s, u, o, []);
  }

  // A lookup that moves on and sends queries to the given peers.
  lemma QueriesKeep(s: Net, u: Net, o: nat, stage: Stage, peers: seq<Peer>)
    requires Inv(s) && o < |s.clients| && s.clients[o].Finding? && |u.calls| == |s.calls| + |peers|
    requires u == s.(clients := s.clients[o := s.clients[o].(stage := stage)], calls := u.calls)
    requires forall c :: 0 <= c < |s.calls| ==> u.calls[c] == s.calls[c].(consumed := u.calls[c].consumed)
    requires u.calls[|s.calls|..]
          == Requests(o, peers, FindValueRpc, CreateFindValueRequest(s.clients[o].key, s.clients[o].me))
    requires StageOk(s.given, s.clients[o].key, stage) && stage.Looping?
    ensures Inv(u)
  {
    assert ClientOk(s, o);
    assert ClientOk(u, o);
    SendsKeeps(s, u, o, u.calls[|s.calls|..]);
  }

  lemma PreserveGetNearest(s: Net, o: nat)
    requires Ready(s, GetNearest(o))
    ensures Inv(Apply(s, GetNearest(o)))
  {
    var f := s.clients[o];
    NodeFacts(s, f.home);
    var n := s.nodes[f.home];
    var u := DoGetNearest(s, o);
    AnswerShape(n.table, f.key, n.k);
    var queried := Begin(f.key, f.alpha, NearestPeers(n.table, f.key, n.k)).queried;
    assert u.calls[|s.calls|..] == Requests(o, queried, FindValueRpc, CreateFindValueRequest(f.key, f.me));
    QueriesKeep(s, u, o, u.clients[o].stage, queried);
  }

  lemma ReceivedReply(s: Net, o: nat, c: nat)
    requires Ready(s, GetReceive(o, c))
    ensures s.calls[c].result.value.Response? ==> AllDecodable(s.calls[c].result.value.message)
    ensures var r := ToReply(s.calls[c].result.value);
            ReplyKnown(s.given, s.clients[o].key, r) && (r.Answer? ==> NoDup(r.peers))
  {
    CallFacts(s, c);
    KeyRoundTrip(s.clients[o].key, [], []);
  }

  lemma StageSnoc(given: set<(Id, Bytes)>, key: Id, initial: seq<Peer>, replies: seq<Reply>, r: Reply)
    requires StageOk(given, key, Looping(initial, replies))
    requires ReplyKnown(given, key, r) && (r.Answer? ==> NoDup(r.peers))
    ensures StageOk(given, key, Looping(initial, replies + [r]))
  {
  }

  lemma PreserveGetReceive(s: Net, o: nat, c: nat)
    requires Ready(s, GetReceive(o, c))
    ensures Inv(Apply(s, GetReceive(o, c)))
  {
    ReceivedReply(s, o, c);
    var f := s.clients[o];
    assert ClientOk(s, o);
    var r := ToReply(s.calls[c].result.value);
    StageSnoc(s.given, f.key, f.stage.initial, f.stage.replies, r);
    QueriedGrows(Finder(s, o), r);
    var u := DoGetReceive(s, o, c);
    var spawned := Deliver(Finder(s, o), r).queried[|Finder(s, o).queried|..];
    assert u.calls[|s.calls|..] == Requests(o, spawned, FindValueRpc, CreateFindValueRequest(f.key, f.me));
    QueriesKeep(s, u, o, u.clients[o].stage, spawned);
  }

  // ---------- the end of a store ----------

  lemma OutcomeMeaning(calls: seq<Call>, first: nat, count: nat)
    requires first + count <= |calls| && forall c :: first <= c < first + count ==> calls[c].result.Some?
    ensures StoreOutcome(ResultsOf(calls[first..first + count])).None? <==>
            exists c :: first <= c < first + count && ValidateStoreResult(calls[c].result.value).None?
  {
    var mine := ResultsOf(calls[first..first + count]);
    if c :| first <= c < first + count && ValidateStoreResult(calls[c].result.value).None? {
      assert mine[c - first] == calls[c].result.value;
    } else {
      assert forall i :: 0 <= i < |mine| ==> mine[i] == calls[first + i].result.value;
    }
  }

  lemma PreservePutEnd(s: Net, o: nat)
    requires Ready(s, PutEnd(o))
    ensures Inv(Apply(s, PutEnd(o)))
  {
    assert ClientOk(s, o);
    var p := s.clients[o];
    var u := DoPutEnd(s, o);
    OutcomeMeaning(s.calls, p.first, p.count);
    assert ClientOk(u, o);
    SendsKeeps(s, u, o, []);
  }

  // ---------- every step keeps the invariant ----------

  lemma Preserve(s: Net, step: Step)
    requires Ready(s, step)
    ensures Inv(Apply(s, step))
  {
    match step
    case Join(at, k, id) => PreserveJoin(s, at, k, id);
    case Offer(at, peers) => PreserveOffer(s, at, peers);
    case PutStart(at, key, value) => PreservePutStart(s, at, key, value);
    case PutEnd(o) => PreservePutEnd(s, o);
    case GetStart(at, key, alpha) => PreserveGetStart(s, at, key, alpha);
    case GetLocal(o) => PreserveGetLocal(s, o);
    case GetNearest(o) => PreserveGetNearest(s, o);
    case GetReceive(o, c) => PreserveGetReceive(s, o, c);
    case Probe(at, ping, target, to) => PreserveProbe(s, at, ping, target, to);
    case Arrive(c) => PreserveArrive(s, c);
    case Validate(c) => PreserveValidate(s, c);
    case LockTable(c) => PreserveLockTable(s, c);
    case UseTable(c) => PreserveUseTable(s, c);
    case LockStore(c) => PreserveLockStore(s, c);
    case UseStore(c) => PreserveUseStore(s, c);
    case Return(c) => PreserveReturn(s, c);
    case Lose(c) => PreserveLose(s, c);
  }

  /** The state after a schedule; steps that are not enabled when their turn comes do nothing. */
  ghost function Reach(steps: seq<Step>): (s: Net)
    ensures Inv(s)
  {
    if steps == [] then INIT
    else
      var s := Reach(steps[..|steps| - 1]);
      var step := steps[|steps| - 1];
      if Enabled(s, step) then
        Preserve(s, step);
        Apply(s, step)
      else s
  }
}
