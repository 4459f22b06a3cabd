/** Where the peers come from that a network works with: every peer a node, a reply or a
    lookup ever holds was introduced by a node that joined or by a list offered at bootstrap. */
module Origins {
  import opened Ids
  import opened Peers
  import opened Tables
  import opened Histories
  import opened Nearest
  import opened Lookups
  import opened Messages
  import opened Network

  // ---------- the network ----------

  ghost predicate PeersIn(m: Message, u: set<Peer>) {
    forall i :: 0 <= i < |m.closerPeers| && Decodable(m.closerPeers[i]) ==> ProtoPeerToPeer(m.closerPeers[i]) in u
  }

  ghost predicate NodesFrom(nodes: map<string, Node>, u: set<Peer>) {
    forall a :: a in nodes ==> nodes[a].local in u && Within(nodes[a].log, u)
  }

  ghost predicate CallFrom(call: Call, u: set<Peer>) {
    && (call.pc.Done? ==> PeersIn(call.pc.reply, u))
    && (call.result.Some? && call.result.value.Response? ==> PeersIn(call.result.value.message, u))
  }

  ghost predicate CallsFrom(calls: seq<Call>, u: set<Peer>) {
    forall c :: 0 <= c < |calls| ==> CallFrom(calls[c], u)
  }

  ghost predicate StageFrom(stage: Stage, u: set<Peer>) {
    stage.Looping? ==>
      Within(stage.initial, u) && forall i :: 0 <= i < |stage.replies| ==> Inside(stage.replies[i], u)
  }

  ghost predicate ClientFrom(client: Client, u: set<Peer>) {
    client.me in u && (client.Finding? ==> StageFrom(client.stage, u))
  }

  ghost predicate ClientsFrom(clients: seq<Client>, u: set<Peer>) {
    forall o :: 0 <= o < |clients| ==> ClientFrom(clients[o], u)
  }

  /** All peers the network holds are in u. */
  ghost predicate From(s: Net, u: set<Peer>) {
    NodesFrom(s.nodes, u) && CallsFrom(s.calls, u) && ClientsFrom(s.clients, u)
  }

  lemma FromLarger(s: Net, u: set<Peer>, v: set<Peer>)
    requires From(s, u) && u <= v
    ensures From(s, v)
  {
  }

  /** The peers a step brings in from outside. */
  function Brings(step: Step): set<Peer> {
    match step
    case Join(at, _, id) => {Peer(id, at)}
    case Offer(_, peers) => set p | p in peers
    case _ => {}
  }

  // ---------- what the steps pass on ----------

  lemma AnswersFrom(s: Net, a: string, target: Id, u: set<Peer>)
    requires Inv(s) && From(s, u) && a in s.nodes
    ensures s.nodes[a].table.buckets != []
    ensures Within(NearestPeers(s.nodes[a].table, target, s.nodes[a].k), u)
  {
    NodeFacts(s, a);
    var n := s.nodes[a];
    AnswerShape(n.table, target, n.k);
    forall p | p in NearestPeers(n.table, target, n.k)
      ensures p in u
    {
      RunAddsOnly(n.k, n.local, n.log, p);
    }
  }

  lemma SenderFrom(s: Net, c: nat, u: set<Peer>)
    requires Inv(s) && From(s, u) && c < |s.calls|
    ensures s.calls[c].message.myself.Some? && Decodable(s.calls[c].message.myself.value)
    ensures Sender(s.calls[c].message) in u
  {
    CallFacts(s, c);
    PeerRoundTrip(s.clients[s.calls[c].owner].me, s.clients[s.calls[c].owner].me);
  }

  lemma ReplyFrom(peers: seq<Peer>, u: set<Peer>)
    requires Within(peers, u)
    ensures PeersIn(CreateFindNodeResponse(peers), u)
  {
    forall i | 0 <= i < |peers|
      ensures ProtoPeerToPeer(EncodeAll(peers)[i]) in u
    {
      PeerRoundTrip(peers[i], peers[i]);
      assert peers[i] in peers;
    }
  }

  lemma ReceivedFrom(call: Call, u: set<Peer>)
    requires CallFrom(call, u) && call.result.Some?
    requires call.result.value.Response? ==> AllDecodable(call.result.value.message)
    ensures Inside(ToReply(call.result.value), u)
  {
    if call.result.value.Response? {
      forall p | p in DecodeAll(call.result.value.message.closerPeers)
        ensures p in u
      {
      }
    }
  }

  lemma TableFrom(s: Net, c: nat, u: set<Peer>)
    requires Ready(s, UseTable(c)) && From(s, u)
    ensures From(Apply(s, UseTable(c)), u)
  {
    CallFacts(s, c);
    SenderFrom(s, c, u);
    var call := s.calls[c];
    var old' := s.nodes[call.to];
    var (n, pc) := TableSection(old', call);
    assert NodesFrom(s.nodes[call.to := n], u);
    assert CallFrom(call.(pc := pc), u) by {
      if call.rpc.FindNodeRpc? {
        SectionAnswers(old', call, u);
      }
    }
  }

  lemma SectionAnswers(n: Node, call: Call, u: set<Peer>)
    requires Layout(n.table) && n.k >= 1
    requires Layout(New(n.k, n.local)) && n.table == Run(New(n.k, n.local), n.log)
    requires call.message.myself.Some? && Decodable(call.message.myself.value) && call.rpc.FindNodeRpc?
    requires |call.message.key| >= 16 && Within(n.log, u) && Sender(call.message) in u
    ensures PeersIn(TableSection(n, call).1.reply, u)
  {
    UpdateRefinesEager(n.table, Sender(call.message));
    var t := Updated(n.table, Sender(call.message)).table;
    var peers := NearestPeers(t, KeyFromBytes(call.message.key), t.k);
    AnswerShape(t, KeyFromBytes(call.message.key), t.k);
    forall p | p in peers
      ensures p in u
    {
      UpdateAddsOnly(n.table, Sender(call.message), p);
      RunAddsOnly(n.k, n.local, n.log, p);
    }
    ReplyFrom(peers, u);
  }

  lemma NearestFrom(s: Net, o: nat, u: set<Peer>)
    requires Ready(s, GetNearest(o)) && From(s, u)
    ensures From(Apply(s, GetNearest(o)), u)
  {
    AnswersFrom(s, s.clients[o].home, s.clients[o].key, u);
  }

  lemma StageGrows(stage: Stage, r: Reply, u: set<Peer>)
    requires stage.Looping? && StageFrom(stage, u) && Inside(r, u)
    ensures StageFrom(Looping(stage.initial, stage.replies + [r]), u)
  {
  }

  lemma ReceiveFrom(s: Net, o: nat, c: nat, u: set<Peer>)
    requires Ready(s, GetReceive(o, c)) && From(s, u)
    ensures From(Apply(s, GetReceive(o, c)), u)
  {
    CallFacts(s, c);
    ReceivedFrom(s.calls[c], u);
    StageGrows(s.clients[o].stage, ToReply(s.calls[c].result.value), u);
    var v := DoGetReceive(s, o, c);
    var taken := s.calls[c := s.calls[c].(consumed := true)];
    assert CallsFrom(taken, u);
    assert v.calls == taken + v.calls[|s.calls|..];
    SentFrom(taken, v.calls[|s.calls|..], u);
  }

  lemma JoinFrom(s: Net, at: string, k: nat, id: Id, u: set<Peer>)
    requires Ready(s, Join(at, k, id)) && From(s, u) && Peer(id, at) in u
    ensures From(DoJoin(s, at, k, id), u)
  {
  }

  lemma OfferFrom(s: Net, at: string, peers: seq<Peer>, u: set<Peer>)
    requires Ready(s, Offer(at, peers)) && From(s, u) && Within(peers, u)
    ensures From(Apply(s, Offer(at, peers)), u)
  {
    assert NodesFrom(Apply(s, Offer(at, peers)).nodes, u);
  }

  lemma SentFrom(calls: seq<Call>, new': seq<Call>, u: set<Peer>)
    requires CallsFrom(calls, u) && forall i :: 0 <= i < |new'| ==> new'[i].pc.Sent? && new'[i].result.None?
    ensures CallsFrom(calls + new', u)
  {
  }

  lemma StartFrom(s: Net, step: Step, u: set<Peer>)
    requires Ready(s, step) && From(s, u) && (step.PutStart? || step.GetStart? || step.Probe?)
    ensures From(Apply(s, step), u)
  {
    var v := Apply(s, step);
    assert v.calls == s.calls + v.calls[|s.calls|..];
    SentFrom(s.calls, v.calls[|s.calls|..], u);
  }

  lemma StoreFrom(s: Net, c: nat, u: set<Peer>)
    requires Ready(s, UseStore(c)) && From(s, u)
    ensures From(Apply(s, UseStore(c)), u)
  {
    CallFacts(s, c);
    var call := s.calls[c];
    var (n, rpc, pc) := StoreSection(s.nodes[call.to], call);
    assert pc.Done? ==> pc.reply.closerPeers == [];
    assert CallFrom(call, u);
    assert CallFrom(call.(rpc := rpc, pc := pc), u);
  }

  lemma LockStepFrom(s: Net, step: Step, u: set<Peer>)
    requires Ready(s, step) && From(s, u) && (step.LockTable? || step.LockStore?)
    ensures From(Apply(s, step), u)
  {
    var c := step.call;
    assert CallFrom(s.calls[c].(pc := HasTable), u) && CallFrom(s.calls[c].(pc := HasStore), u);
  }

  lemma CallStepFrom(s: Net, step: Step, u: set<Peer>)
    requires Ready(s, step) && From(s, u) && (step.Arrive? || step.Validate? || step.Return? || step.Lose?)
    ensures From(Apply(s, step), u)
  {
    assert CallFrom(s.calls[step.call], u);
    assert CallFrom(Apply(s, step).calls[step.call], u);
  }

  lemma ClientStepFrom(s: Net, step: Step, u: set<Peer>)
    requires Ready(s, step) && From(s, u) && (step.PutEnd? || step.GetLocal?)
    ensures From(Apply(s, step), u)
  {
    assert ClientFrom(Apply(s, step).clients[step.client], u);
  }

  // No step makes up a peer.
  lemma StepFrom(s: Net, step: Step, u: set<Peer>)
    requires Ready(s, step) && From(s, u) && Brings(step) <= u
    ensures From(Apply(s, step), u)
  {
    match step
    case Join(at, k, id) => JoinFrom(s, at, k, id, u);
    case Offer(at, peers) => OfferFrom(s, at, peers, u);
    case PutStart(_, _, _) => StartFrom(s, step, u);
    case GetStart(_, _, _) => StartFrom(s, step, u);
    case Probe(_, _, _, _) => StartFrom(s, step, u);
    case PutEnd(_) => ClientStepFrom(s, step, u);
    case GetLocal(_) => ClientStepFrom(s, step, u);
    case UseTable(c) => TableFrom(s, c, u);
    case UseStore(c) => StoreFrom(s, c, u);
    case GetNearest(o) => NearestFrom(s, o, u);
    case GetReceive(o, c) => ReceiveFrom(s, o, c, u);
    case LockTable(_) => LockStepFrom(s, step, u);
    case LockStore(_) => LockStepFrom(s, step, u);
    case _ => CallStepFrom(s, step, u);
  }

  // ---------- every reachable state ----------

  /** The peers brought in by the steps of a schedule that took effect. */
  ghost function Introduced(steps: seq<Step>): set<Peer> {
    if steps == [] then {}
    else
      var n := |steps| - 1;
      Introduced(steps[..n]) + if Enabled(Reach(steps[..n]), steps[n]) then Brings(steps[n]) else {}
  }

  lemma {:induction false} ReachFrom(steps: seq<Step>)
    ensures From(Reach(steps), Introduced(steps))
  {
    if steps != [] {
      var n := |steps| - 1;
      ReachFrom(steps[..n]);
      FromLarger(Reach(steps[..n]), Introduced(steps[..n]), Introduced(steps));
      if Enabled(Reach(steps[..n]), steps[n]) {
        StepFrom(Reach(steps[..n]), steps[n], Introduced(steps));
      }
    }
  }

  /** The lookup of client o is in its loop. */
  predicate Looks(s: Net, o: nat) {
    o < |s.clients| && s.clients[o].Finding? && s.clients[o].stage.Looping?
  }

  lemma FinderIsClean(s: Net, o: nat, u: set<Peer>)
    requires Inv(s) && From(s, u) && Looks(s, o)
    ensures NoDup(Work(Finder(s, o))) && Within(Work(Finder(s, o)), u)
    ensures Finder(s, o).received <= |u|
  {
    var f := s.clients[o];
    assert ClientOk(s, o) && ClientFrom(f, u);
    QueryOnce(f.key, f.alpha, f.stage.initial, f.stage.replies);
    WorkWithin(f.key, f.alpha, f.stage.initial, f.stage.replies, u);
    ReplyBound(f.key, f.alpha, f.stage.initial, f.stage.replies, u);
  }

  // Servers send no duplicates and no invented peers, so no lookup in the network ever
  // queries a peer twice or one that was not introduced, and the replies it handles are
  // at most as many as the peers introduced so far.
  lemma LookupsAreClean(steps: seq<Step>, o: nat)
    requires Looks(Reach(steps), o)
    ensures NoDup(Work(Finder(Reach(steps), o)))
    ensures Within(Work(Finder(Reach(steps), o)), Introduced(steps))
    ensures Finder(Reach(steps), o).received <= |Introduced(steps)|
  {
    ReachFrom(steps);
    FinderIsClean(Reach(steps), o, Introduced(steps));
  }

  // Nor does any routing table or any reply hold a peer that was not introduced.
  lemma TablesAndRepliesAreClean(steps: seq<Step>, a: string, c: nat, p: Peer)
    ensures a in Reach(steps).nodes && p in Members(Reach(steps).nodes[a].table.buckets) ==> p in Introduced(steps)
    ensures c < |Reach(steps).calls| ==> CallFrom(Reach(steps).calls[c], Introduced(steps))
  {
    var s := Reach(steps);
    ReachFrom(steps);
    if a in s.nodes {
      NodeFacts(s, a);
      RunAddsOnly(s.nodes[a].k, s.nodes[a].local, s.nodes[a].log, p);
    }
  }
}
