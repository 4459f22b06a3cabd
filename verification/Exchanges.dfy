/** Who is asked what, and what becomes of the answers: in every reachable state the calls of
    a client are those its own loop made, and what the loop has handled are their results. */
module Exchanges {
  import opened Ids
  import opened Peers
  import opened Nearest
  import opened Lookups
  import opened Messages
  import opened Network
  import opened Guarantees

  // ---------- a put is always acknowledged ----------

  /** A reply reaches its caller as the handler made it. */
  ghost predicate Unaltered(call: Call) {
    call.result.Some? && call.result.value.Response? ==> call.pc == Done(call.result.value.message)
  }

  ghost predicate Acknowledged(calls: seq<Call>, p: Put) {
    p.call < |calls| && calls[p.call].pc.Done? && calls[p.call].pc.reply.code == OK
  }

  ghost predicate Faithful(s: Net) {
    && (forall c :: 0 <= c < |s.calls| ==> Unaltered(s.calls[c]))
    && forall p :: p in s.puts ==> Acknowledged(s.calls, p)
  }

  lemma OneCallFaithful(s: Net, u: Net, c: nat)
    requires Faithful(s) && c < |s.calls| == |u.calls| && u.puts == s.puts && u.calls == s.calls[c := u.calls[c]]
    requires Unaltered(u.calls[c]) && (s.calls[c].pc.Done? ==> u.calls[c].pc == s.calls[c].pc)
    ensures Faithful(u)
  {
  }

  lemma MoreCallsFaithful(s: Net, u: Net)
    requires Faithful(s) && u.puts == s.puts && |s.calls| <= |u.calls|
    requires forall c :: 0 <= c < |s.calls| ==> u.calls[c].pc == s.calls[c].pc && u.calls[c].result == s.calls[c].result
    requires forall c :: |s.calls| <= c < |u.calls| ==> u.calls[c].result.None?
    ensures Faithful(u)
  {
  }

  lemma StoreFaithful(s: Net, c: nat)
    requires Ready(s, UseStore(c)) && Faithful(s)
    ensures Faithful(Apply(s, UseStore(c)))
  {
    CallFacts(s, c);
    var u := DoUseStore(s, c);
    OneCallFaithful(s, u.(puts := s.puts), c);
  }

  lemma TableFaithful(s: Net, c: nat)
    requires Ready(s, UseTable(c)) && Faithful(s)
    ensures Faithful(Apply(s, UseTable(c)))
  {
    CallFacts(s, c);
    var (n, pc) := TableSection(s.nodes[s.calls[c].to], s.calls[c]);
    OneCallFaithful(s, DoUseTable(s, c, n, pc), c);
  }

  lemma CallFaithful(s: Net, step: Step)
    requires Ready(s, step) && Faithful(s)
    requires step.Arrive? || step.Validate? || step.Return? || step.Lose?
    ensures Faithful(Apply(s, step))
  {
    OneCallFaithful(s, Apply(s, step), step.call);
  }

  lemma LockFaithful(s: Net, step: Step)
    requires Ready(s, step) && Faithful(s) && (step.LockTable? || step.LockStore?)
    ensures Faithful(Apply(s, step))
  {
    OneCallFaithful(s, Apply(s, step), step.call);
  }

  lemma StartFaithful(s: Net, step: Step)
    requires Ready(s, step) && Faithful(s) && (step.PutStart? || step.Probe?)
    ensures Faithful(Apply(s, step))
  {
    MoreCallsFaithful(s, Apply(s, step));
  }

  lemma NearestFaithful(s: Net, o: nat)
    requires Ready(s, GetNearest(o)) && Faithful(s)
    ensures Faithful(Apply(s, GetNearest(o)))
  {
    MoreCallsFaithful(s, Apply(s, GetNearest(o)));
  }

  lemma ReceiveFaithful(s: Net, o: nat, c: nat)
    requires Ready(s, GetReceive(o, c)) && Faithful(s)
    ensures Faithful(Apply(s, GetReceive(o, c)))
  {
    MoreCallsFaithful(s, Apply(s, GetReceive(o, c)));
  }

  lemma QuietFaithful(s: Net, step: Step)
    requires Ready(s, step) && Faithful(s)
    requires step.Join? || step.Offer? || step.PutEnd? || step.GetStart? || step.GetLocal?
    ensures Faithful(Apply(s, step))
  {
    assert Apply(s, step).calls == s.calls;
  }

  lemma StepFaithful(s: Net, step: Step)
    requires Ready(s, step) && Faithful(s)
    ensures Faithful(Apply(s, step))
  {
    match step
    case UseStore(c) => StoreFaithful(s, c);
    case UseTable(c) => TableFaithful(s, c);
    case LockTable(_) => LockFaithful(s, step);
    case LockStore(_) => LockFaithful(s, step);
    case Arrive(_) => CallFaithful(s, step);
    case Validate(_) => CallFaithful(s, step);
    case Return(_) => CallFaithful(s, step);
    case Lose(_) => CallFaithful(s, step);
    case PutStart(_, _, _) => StartFaithful(s, step);
    case GetNearest(o) => NearestFaithful(s, o);
    case GetReceive(o, c) => ReceiveFaithful(s, o, c);
    case Probe(_, _, _, _) => StartFaithful(s, step);
    case _ => QuietFaithful(s, step);
  }

  lemma {:induction false} ReachFaithful(steps: seq<Step>)
    ensures Faithful(Reach(steps))
  {
    if steps != [] {
      var n := |steps| - 1;
      ReachFaithful(steps[..n]);
      if Enabled(Reach(steps[..n]), steps[n]) {
        StepFaithful(Reach(steps[..n]), steps[n]);
      }
    }
  }

  /** Call c of a store got an answer, and its node has executed the put it asked for. */
  predicate AnsweredPut(s: Net, o: nat, c: nat)
    requires o < |s.clients| && s.clients[o].Storing?
  {
    var p := s.clients[o];
    && p.first <= c < p.first + p.count && c < |s.calls|
    && s.calls[c].result.Some? && s.calls[c].result.value.Response?
    && Put(c, s.calls[c].to, KeyToBytes(p.key), p.value) in s.puts
  }

  lemma SucceedsIff(s: Net, o: nat)
    requires Inv(s) && Faithful(s) && o < |s.clients| && s.clients[o].Storing? && s.clients[o].error.Some?
    ensures s.clients[o].error.value.None? <==> exists c :: AnsweredPut(s, o, c)
  {
    var p := s.clients[o];
    OutcomeIsExact(s, o);
    if p.error.value.None? {
      var c :| p.first <= c < p.first + p.count && ValidateStoreResult(s.calls[c].result.value).None?;
      ValidatedPut(s, c);
      assert AnsweredPut(s, o, c);
    }
    if c: nat :| AnsweredPut(s, o, c) {
      assert Acknowledged(s.calls, Put(c, s.calls[c].to, KeyToBytes(p.key), p.value));
      assert Unaltered(s.calls[c]);
      assert ValidateStoreResult(s.calls[c].result.value).None?;
    }
  }

  // A store that has returned succeeded exactly if one of the nodes it asked has executed
  // the put and its answer arrived.
  lemma StoreSucceedsIff(steps: seq<Step>, o: nat)
    requires o < |Reach(steps).clients| && Reach(steps).clients[o].Storing? && Reach(steps).clients[o].error.Some?
    ensures Reach(steps).clients[o].error.value.None? <==> exists c :: AnsweredPut(Reach(steps), o, c)
  {
    ReachFaithful(steps);
    SucceedsIff(Reach(steps), o);
  }

  // ---------- whom a client asks ----------

  function Addresses(ps: seq<Peer>): (r: seq<string>)
    ensures |r| == |ps| && forall i :: 0 <= i < |ps| ==> r[i] == ps[i].address
  {
    seq(|ps|, i requires 0 <= i < |ps| => ps[i].address)
  }

  /** Where the calls of client o go, in the order they were made. */
  function AskedBy(calls: seq<Call>, o: nat): seq<string> {
    if calls == [] then []
    else
      var n := |calls| - 1;
      AskedBy(calls[..n], o) + if calls[n].owner == o then [calls[n].to] else []
  }

  /** How the loop reads the result of a call. */
  function ReadResult(call: Call): Reply {
    if call.result.Some? && Legible(call.result.value) then ToReply(call.result.value) else Failed
  }

  /** How many of the results that client o has taken read y. */
  function TakenBy(calls: seq<Call>, o: nat, y: Reply): nat {
    if calls == [] then 0
    else
      var n := |calls| - 1;
      TakenBy(calls[..n], o, y) + Share(calls[n], o, y)
  }

  function Share(call: Call, o: nat, y: Reply): nat {
    if call.owner == o && call.consumed && ReadResult(call) == y then 1 else 0
  }

  lemma {:induction false} AskedUpdate(calls: seq<Call>, c: nat, call: Call, o: nat)
    requires c < |calls| && call.owner == calls[c].owner && call.to == calls[c].to
    ensures AskedBy(calls[c := call], o) == AskedBy(calls, o)
  {
    var n := |calls| - 1;
    if c < n {
      AskedUpdate(calls[..n], c, call, o);
      assert calls[c := call][..n] == calls[..n][c := call];
    } else {
      assert calls[c := call][..n] == calls[..n];
    }
  }

  lemma {:induction false} TakenUpdate(calls: seq<Call>, c: nat, call: Call, o: nat, y: Reply)
    requires c < |calls|
    ensures TakenBy(calls[c := call], o, y) == TakenBy(calls, o, y) + Share(call, o, y) - Share(calls[c], o, y)
  {
    var n := |calls| - 1;
    if c < n {
      TakenUpdate(calls[..n], c, call, o, y);
      assert calls[c := call][..n] == calls[..n][c := call];
    } else {
      assert calls[c := call][..n] == calls[..n];
    }
  }

  lemma {:induction false} AskedAppend(calls: seq<Call>, owner: nat, peers: seq<Peer>, rpc: Rpc, m: Message, o: nat)
    ensures AskedBy(calls + Requests(owner, peers, rpc, m), o)
         == AskedBy(calls, o) + (if o == owner then Addresses(peers) else [])
  {
    if peers == [] {
      assert calls + Requests(owner, peers, rpc, m) == calls;
    } else {
      var n := |peers| - 1;
      AskedAppend(calls, owner, peers[..n], rpc, m, o);
      RequestsSnoc(calls, owner, peers, rpc, m);
      AddressesSnoc(AskedBy(calls, o), peers);
      AskedSnoc(calls + Requests(owner, peers[..n], rpc, m),
                Call(owner, peers[n].address, rpc, m, Sent, None, false), o, Failed);
    }
  }

  lemma {:induction false} TakenAppend(calls: seq<Call>, owner: nat, peers: seq<Peer>, rpc: Rpc, m: Message,
                                       o: nat, y: Reply)
    ensures TakenBy(calls + Requests(owner, peers, rpc, m), o, y) == TakenBy(calls, o, y)
  {
    if peers == [] {
      assert calls + Requests(owner, peers, rpc, m) == calls;
    } else {
      var n := |peers| - 1;
      TakenAppend(calls, owner, peers[..n], rpc, m, o, y);
      RequestsSnoc(calls, owner, peers, rpc, m);
      AskedSnoc(calls + Requests(owner, peers[..n], rpc, m),
                Call(owner, peers[n].address, rpc, m, Sent, None, false), o, y);
    }
  }

  lemma RequestsSnoc(calls: seq<Call>, owner: nat, peers: seq<Peer>, rpc: Rpc, m: Message)
    requires peers != []
    ensures calls + Requests(owner, peers, rpc, m)
         == calls + Requests(owner, peers[..|peers| - 1], rpc, m)
            + [Call(owner, peers[|peers| - 1].address, rpc, m, Sent, None, false)]
  {
  }

  lemma AskedSnoc(calls: seq<Call>, call: Call, o: nat, y: Reply)
    ensures AskedBy(calls + [call], o) == AskedBy(calls, o) + (if call.owner == o then [call.to] else [])
    ensures TakenBy(calls + [call], o, y) == TakenBy(calls, o, y) + Share(call, o, y)
  {
    assert (calls + [call])[..|calls|] == calls;
  }

  lemma AddressesSnoc(before: seq<string>, peers: seq<Peer>)
    requires peers != []
    ensures before + Addresses(peers) == before + Addresses(peers[..|peers| - 1]) + [peers[|peers| - 1].address]
  {
  }

  lemma AddressesJoin(a: seq<Peer>, b: seq<Peer>)
    requires a <= b
    ensures Addresses(b) == Addresses(a) + Addresses(b[|a|..])
  {
  }

  /** The lookup of client o has asked the peers it counts as queried, one call each, in that
      order, and has handled the reply y as often as its own calls yielded it. */
  ghost predicate Exchanged(s: Net, o: nat, y: Reply) {
    if o >= |s.clients| then AskedBy(s.calls, o) == [] && TakenBy(s.calls, o, y) == 0
    else if !s.clients[o].Finding? then true
    else if s.clients[o].stage.Looping? then
      && AskedBy(s.calls, o) == Addresses(Finder(s, o).queried)
      && TakenBy(s.calls, o, y) == multiset(s.clients[o].stage.replies)[y]
    else AskedBy(s.calls, o) == [] && TakenBy(s.calls, o, y) == 0
  }

  ghost predicate TakenHaveResults(s: Net) {
    forall c :: 0 <= c < |s.calls| && s.calls[c].consumed ==> s.calls[c].result.Some?
  }

  // What a result adds: one reply handled, and a call to each peer that is queried for it.
  lemma ReceiveCalls(s: Net, o: nat, c: nat, p: nat, y: Reply)
    requires Ready(s, GetReceive(o, c))
    requires s.calls[c].result.value.Response? ==> AllDecodable(s.calls[c].result.value.message)
    ensures var r := ToReply(s.calls[c].result.value);
            var u := DoGetReceive(s, o, c);
            && Finder(s, o).queried <= Deliver(Finder(s, o), r).queried
            && AskedBy(u.calls, p)
               == AskedBy(s.calls, p)
                  + (if p == o then Addresses(Deliver(Finder(s, o), r).queried[|Finder(s, o).queried|..]) else [])
            && TakenBy(u.calls, p, y) == TakenBy(s.calls, p, y) + (if p == o && r == y then 1 else 0)
  {
    var f := s.clients[o];
    var r := ToReply(s.calls[c].result.value);
    QueriedGrows(Finder(s, o), r);
    var spawned := Deliver(Finder(s, o), r).queried[|Finder(s, o).queried|..];
    var taken := s.calls[c := s.calls[c].(consumed := true)];
    AskedUpdate(s.calls, c, taken[c], p);
    TakenUpdate(s.calls, c, taken[c], p, y);
    AskedAppend(taken, o, spawned, FindValueRpc, CreateFindValueRequest(f.key, f.me), p);
    TakenAppend(taken, o, spawned, FindValueRpc, CreateFindValueRequest(f.key, f.me), p, y);
  }

  lemma OwnReceive(s: Net, o: nat, c: nat, y: Reply)
    requires Ready(s, GetReceive(o, c)) && Exchanged(s, o, y)
    ensures Exchanged(Apply(s, GetReceive(o, c)), o, y)
  {
    CallFacts(s, c);
    ReceiveCalls(s, o, c, o, y);
    var f := s.clients[o];
    var r := ToReply(s.calls[c].result.value);
    AddressesJoin(Finder(s, o).queried, Deliver(Finder(s, o), r).queried);
    assert (f.stage.replies + [r])[..|f.stage.replies|] == f.stage.replies;
    assert Finder(DoGetReceive(s, o, c), o) == Deliver(Finder(s, o), r);
  }

  /** As far as client p can tell, nothing has happened. */
  ghost predicate Unnoticed(s: Net, u: Net, p: nat, y: Reply) {
    && AskedBy(u.calls, p) == AskedBy(s.calls, p) && TakenBy(u.calls, p, y) == TakenBy(s.calls, p, y)
    && |s.clients| <= |u.clients|
    && (p < |s.clients| ==> u.clients[p] == s.clients[p])
    && (|s.clients| <= p < |u.clients| ==>
          !u.clients[p].Finding? || (u.clients[p].stage.CheckStore? && AskedBy(s.calls, p) == []))
  }

  lemma UnnoticedExchanges(s: Net, u: Net, p: nat, y: Reply)
    requires Unnoticed(s, u, p, y) && Exchanged(s, p, y)
    ensures Exchanged(u, p, y)
  {
  }

  lemma OthersReceive(s: Net, o: nat, c: nat, p: nat, y: Reply)
    requires Ready(s, GetReceive(o, c)) && p != o && Exchanged(s, p, y)
    ensures Exchanged(Apply(s, GetReceive(o, c)), p, y)
  {
    CallFacts(s, c);
    ReceiveCalls(s, o, c, p, y);
    UnnoticedExchanges(s, DoGetReceive(s, o, c), p, y);
  }

  lemma NearestCalls(s: Net, o: nat, p: nat, y: Reply)
    requires Ready(s, GetNearest(o)) && s.nodes[s.clients[o].home].table.buckets != []
    ensures var u := DoGetNearest(s, o);
            && AskedBy(u.calls, p) == AskedBy(s.calls, p) + (if p == o then Addresses(Finder(u, o).queried) else [])
            && TakenBy(u.calls, p, y) == TakenBy(s.calls, p, y)
  {
    var f := s.clients[o];
    var u := DoGetNearest(s, o);
    AskedAppend(s.calls, o, Finder(u, o).queried, FindValueRpc, CreateFindValueRequest(f.key, f.me), p);
    TakenAppend(s.calls, o, Finder(u, o).queried, FindValueRpc, CreateFindValueRequest(f.key, f.me), p, y);
  }

  lemma NearestExchanges(s: Net, o: nat, p: nat, y: Reply)
    requires Ready(s, GetNearest(o)) && Exchanged(s, p, y)
    ensures Exchanged(Apply(s, GetNearest(o)), p, y)
  {
    NodeFacts(s, s.clients[o].home);
    NearestCalls(s, o, p, y);
    if p != o {
      UnnoticedExchanges(s, DoGetNearest(s, o), p, y);
    }
  }

  lemma PutAsks(s: Net, at: string, key: Id, value: Bytes, p: nat, y: Reply)
    requires Ready(s, PutStart(at, key, value))
    ensures var u := Apply(s, PutStart(at, key, value));
            var n := s.nodes[at];
            && n.table.buckets != []
            && AskedBy(u.calls, p) == AskedBy(s.calls, p)
                                      + (if p == |s.clients| then Addresses(NearestPeers(n.table, key, n.k)) else [])
            && TakenBy(u.calls, p, y) == TakenBy(s.calls, p, y)
  {
    NodeFacts(s, at);
    var n := s.nodes[at];
    var peers := NearestPeers(n.table, key, n.k);
    AskedAppend(s.calls, |s.clients|, peers, StoreRpc, CreateStoreRequest(n.local, key, value), p);
    TakenAppend(s.calls, |s.clients|, peers, StoreRpc, CreateStoreRequest(n.local, key, value), p, y);
  }

  lemma PutExchanges(s: Net, at: string, key: Id, value: Bytes, p: nat, y: Reply)
    requires Ready(s, PutStart(at, key, value)) && Exchanged(s, p, y)
    ensures Exchanged(Apply(s, PutStart(at, key, value)), p, y)
  {
    PutAsks(s, at, key, value, p, y);
    if p != |s.clients| {
      UnnoticedExchanges(s, Apply(s, PutStart(at, key, value)), p, y);
    }
  }

  lemma ProbeAsks(s: Net, step: Step, p: nat, y: Reply)
    requires Ready(s, step) && step.Probe? && p != |s.clients|
    ensures var u := Apply(s, step);
            && AskedBy(u.calls, p) == AskedBy(s.calls, p) && TakenBy(u.calls, p, y) == TakenBy(s.calls, p, y)
            && |u.clients| == |s.clients| + 1 && (p < |s.clients| ==> u.clients[p] == s.clients[p])
  {
    AskedSnoc(s.calls, Apply(s, step).calls[|s.calls|], p, y);
  }

  lemma ProbeExchanges(s: Net, step: Step, p: nat, y: Reply)
    requires Ready(s, step) && step.Probe? && Exchanged(s, p, y)
    ensures Exchanged(Apply(s, step), p, y)
  {
    if p == |s.clients| {
      assert Apply(s, step).clients[p].Probing?;
    } else {
      ProbeAsks(s, step, p, y);
      UnnoticedExchanges(s, Apply(s, step), p, y);
    }
  }

  /** Call c has moved on; for its caller nothing has changed, but perhaps there is a result. */
  ghost predicate Moved(s: Net, u: Net, c: nat) {
    && c < |s.calls| == |u.calls| && u.calls == s.calls[c := u.calls[c]] && u.clients == s.clients
    && u.calls[c].owner == s.calls[c].owner && u.calls[c].to == s.calls[c].to
    && u.calls[c].consumed == s.calls[c].consumed
    && (s.calls[c].result.Some? ==> u.calls[c].result == s.calls[c].result)
  }

  lemma SectionsMove(s: Net, step: Step)
    requires Ready(s, step) && (step.UseTable? || step.UseStore?)
    ensures Moved(s, Apply(s, step), step.call)
  {
    CallFacts(s, step.call);
  }

  lemma LocksMove(s: Net, step: Step)
    requires Ready(s, step) && (step.LockTable? || step.LockStore?)
    ensures Moved(s, Apply(s, step), step.call)
  {
  }

  lemma OthersMove(s: Net, step: Step)
    requires Ready(s, step) && (step.Arrive? || step.Validate? || step.Return? || step.Lose?)
    ensures Moved(s, Apply(s, step), step.call)
  {
  }

  predicate MovesCall(step: Step) {
    || step.UseTable? || step.UseStore? || step.LockTable? || step.LockStore?
    || step.Arrive? || step.Validate? || step.Return? || step.Lose?
  }

  lemma CallMoves(s: Net, step: Step)
    requires Ready(s, step) && MovesCall(step)
    ensures Moved(s, Apply(s, step), step.call)
  {
    if step.UseTable? || step.UseStore? {
      SectionsMove(s, step);
    } else if step.LockTable? || step.LockStore? {
      LocksMove(s, step);
    } else {
      OthersMove(s, step);
    }
  }

  lemma MovedAsks(s: Net, u: Net, c: nat, p: nat, y: Reply)
    requires Moved(s, u, c) && TakenHaveResults(s)
    ensures AskedBy(u.calls, p) == AskedBy(s.calls, p) && TakenBy(u.calls, p, y) == TakenBy(s.calls, p, y)
    ensures TakenHaveResults(u)
  {
    AskedUpdate(s.calls, c, u.calls[c], p);
    TakenUpdate(s.calls, c, u.calls[c], p, y);
  }

  // Neither the way of a call nor what is taken changes while it is under way.
  lemma CallExchanges(s: Net, step: Step, p: nat, y: Reply)
    requires Ready(s, step) && MovesCall(step) && TakenHaveResults(s) && Exchanged(s, p, y)
    ensures Exchanged(Apply(s, step), p, y)
  {
    CallMoves(s, step);
    MovedAsks(s, Apply(s, step), step.call, p, y);
    UnnoticedExchanges(s, Apply(s, step), p, y);
  }

  /** Calls were made and taken, the latter only with a result. */
  ghost predicate Takes(s: Net, u: Net) {
    && |s.calls| <= |u.calls|
    && (forall c :: 0 <= c < |s.calls| ==>
          u.calls[c].result == s.calls[c].result
          && (u.calls[c].consumed ==> s.calls[c].consumed || s.calls[c].result.Some?))
    && forall c :: |s.calls| <= c < |u.calls| ==> !u.calls[c].consumed
  }

  lemma TakesKeeps(s: Net, u: Net)
    requires Takes(s, u) && TakenHaveResults(s)
    ensures TakenHaveResults(u)
  {
  }

  lemma StartTakes(s: Net, step: Step)
    requires Ready(s, step) && (step.PutStart? || step.Probe?)
    ensures Takes(s, Apply(s, step))
  {
  }

  lemma NearestTakes(s: Net, o: nat)
    requires Ready(s, GetNearest(o))
    ensures Takes(s, Apply(s, GetNearest(o)))
  {
  }

  lemma ReceiveTakes(s: Net, o: nat, c: nat)
    requires Ready(s, GetReceive(o, c))
    ensures Takes(s, Apply(s, GetReceive(o, c)))
  {
  }

  lemma QuietTakes(s: Net, step: Step)
    requires Ready(s, step) && (step.Join? || step.Offer? || step.PutEnd? || step.GetStart? || step.GetLocal?)
    ensures Takes(s, Apply(s, step))
  {
    assert Apply(s, step).calls == s.calls;
  }

  lemma ClientTakes(s: Net, step: Step)
    requires Ready(s, step) && !MovesCall(step)
    ensures Takes(s, Apply(s, step))
  {
    match step
    case PutStart(_, _, _) => StartTakes(s, step);
    case Probe(_, _, _, _) => StartTakes(s, step);
    case GetNearest(o) => NearestTakes(s, o);
    case GetReceive(o, c) => ReceiveTakes(s, o, c);
    case Join(_, _, _) => QuietTakes(s, step);
    case Offer(_, _) => QuietTakes(s, step);
    case PutEnd(_) => QuietTakes(s, step);
    case GetStart(_, _, _) => QuietTakes(s, step);
    case GetLocal(_) => QuietTakes(s, step);
  }

  lemma StepTakes(s: Net, step: Step)
    requires Ready(s, step) && TakenHaveResults(s)
    ensures TakenHaveResults(Apply(s, step))
  {
    if MovesCall(step) {
      CallMoves(s, step);
      MovedAsks(s, Apply(s, step), step.call, 0, Failed);
    } else {
      ClientTakes(s, step);
      TakesKeeps(s, Apply(s, step));
    }
  }

  lemma StepExchanges(s: Net, step: Step, p: nat, y: Reply)
    requires Ready(s, step) && Exchanged(s, p, y) && TakenHaveResults(s)
    ensures Exchanged(Apply(s, step), p, y)
  {
    match step
    case PutStart(at, key, value) => PutExchanges(s, at, key, value, p, y);
    case Probe(_, _, _, _) => ProbeExchanges(s, step, p, y);
    case GetNearest(o) => NearestExchanges(s, o, p, y);
    case GetReceive(o, c) =>
      if o == p {
        OwnReceive(s, o, c, y);
      } else {
        OthersReceive(s, o, c, p, y);
      }
    case GetStart(_, _, _) => QuietExchanges(s, step, p, y);
    case GetLocal(o) => LocalExchanges(s, o, p, y);
    case Join(_, _, _) => QuietExchanges(s, step, p, y);
    case Offer(_, _) => QuietExchanges(s, step, p, y);
    case PutEnd(_) => QuietExchanges(s, step, p, y);
    case _ => CallExchanges(s, step, p, y);
  }

  lemma QuietExchanges(s: Net, step: Step, p: nat, y: Reply)
    requires Ready(s, step) && Exchanged(s, p, y)
    requires step.GetStart? || step.Join? || step.Offer? || step.PutEnd?
    ensures Exchanged(Apply(s, step), p, y)
  {
    assert Apply(s, step).calls == s.calls;
    if step.PutEnd? && step.client == p {
      assert !Apply(s, step).clients[p].Finding?;
    } else {
      UnnoticedExchanges(s, Apply(s, step), p, y);
    }
  }

  lemma LocalExchanges(s: Net, o: nat, p: nat, y: Reply)
    requires Ready(s, GetLocal(o)) && Exchanged(s, p, y)
    ensures Exchanged(DoGetLocal(s, o), p, y)
  {
    assert DoGetLocal(s, o).calls == s.calls;
    if p != o {
      UnnoticedExchanges(s, DoGetLocal(s, o), p, y);
    }
  }

  // Every lookup asks exactly the peers it counts as queried and handles exactly the results
  // of these calls that it has taken.
  lemma {:induction false} LookupsAreExchanges(steps: seq<Step>, o: nat, y: Reply)
    ensures Exchanged(Reach(steps), o, y) && TakenHaveResults(Reach(steps))
  {
    if steps != [] {
      var n := |steps| - 1;
      LookupsAreExchanges(steps[..n], o, y);
      if Enabled(Reach(steps[..n]), steps[n]) {
        StepExchanges(Reach(steps[..n]), steps[n], o, y);
        StepTakes(Reach(steps[..n]), steps[n]);
      }
    }
  }

  // ---------- how a client started ----------

  /** The step started client o: a store that asks the k peers nearest to its key in the
      table of its node at that time. */
  ghost predicate StartsStore(before: seq<Step>, step: Step, o: nat, client: Client, asked: seq<string>) {
    && step.PutStart? && Enabled(Reach(before), step) && |Reach(before).clients| == o
    && var n := Reach(before).nodes[step.at];
       && n.table.buckets != []
       && client.Storing? && client.me == n.local && client.key == step.key && client.value == step.value
       && client.count == |asked|
       && asked == Addresses(NearestPeers(n.table, step.key, n.k))
  }

  /** The store of client o goes on asking whom it asked. */
  ghost predicate StillAsks(s: Net, u: Net, o: nat)
    requires o < |s.clients|
  {
    && o < |u.clients| && s.clients[o].Storing? && u.clients[o].Storing?
    && u.clients[o].(error := None) == s.clients[o].(error := None)
    && AskedBy(u.calls, o) == AskedBy(s.calls, o)
  }

  lemma StartsAsk(s: Net, step: Step, o: nat)
    requires Ready(s, step) && o < |s.clients| && s.clients[o].Storing? && (step.PutStart? || step.Probe?)
    ensures StillAsks(s, Apply(s, step), o)
  {
    if step.PutStart? {
      PutAsks(s, step.at, step.key, step.value, o, Failed);
    } else {
      AskedSnoc(s.calls, Apply(s, step).calls[|s.calls|], o, Failed);
    }
  }

  lemma NearestAsk(s: Net, p: nat, o: nat)
    requires Ready(s, GetNearest(p)) && o < |s.clients| && s.clients[o].Storing?
    ensures StillAsks(s, Apply(s, GetNearest(p)), o)
  {
    NodeFacts(s, s.clients[p].home);
    NearestCalls(s, p, o, Failed);
  }

  lemma ReceiveAsk(s: Net, p: nat, c: nat, o: nat)
    requires Ready(s, GetReceive(p, c)) && o < |s.clients| && s.clients[o].Storing?
    ensures StillAsks(s, Apply(s, GetReceive(p, c)), o)
  {
    CallFacts(s, c);
    ReceiveCalls(s, p, c, o, Failed);
  }

  lemma CallsAsk(s: Net, step: Step, o: nat)
    requires Ready(s, step) && MovesCall(step) && TakenHaveResults(s) && o < |s.clients| && s.clients[o].Storing?
    ensures StillAsks(s, Apply(s, step), o)
  {
    CallMoves(s, step);
    MovedAsks(s, Apply(s, step), step.call, o, Failed);
  }

  lemma OthersUnchanged(s: Net, step: Step, o: nat)
    requires Ready(s, step) && TakenHaveResults(s) && o < |s.clients| && s.clients[o].Storing?
    ensures StillAsks(s, Apply(s, step), o)
  {
    match step
    case PutStart(_, _, _) => StartsAsk(s, step, o);
    case Probe(_, _, _, _) => StartsAsk(s, step, o);
    case GetNearest(p) => NearestAsk(s, p, o);
    case GetReceive(p, c) => ReceiveAsk(s, p, c, o);
    case GetStart(_, _, _) =>
    case GetLocal(_) =>
    case Join(_, _, _) =>
    case Offer(_, _) =>
    case PutEnd(p) => assert ClientOk(s, p);
    case _ => CallsAsk(s, step, o);
  }

  lemma OnlyPutStores(s: Net, step: Step, o: nat)
    requires Ready(s, step) && o == |s.clients| < |Apply(s, step).clients| && Apply(s, step).clients[o].Storing?
    ensures step.PutStart?
  {
  }

  lemma StoreBegins(s: Net, at: string, key: Id, value: Bytes)
    requires Ready(s, PutStart(at, key, value)) && Exchanged(s, |s.clients|, Failed)
    ensures var n := s.nodes[at];
            var u := Apply(s, PutStart(at, key, value));
            var o := |s.clients|;
            && n.table.buckets != [] && |u.clients| == o + 1 && u.clients[o].Storing?
            && u.clients[o].me == n.local && u.clients[o].key == key && u.clients[o].value == value
            && AskedBy(u.calls, o) == Addresses(NearestPeers(n.table, key, n.k))
            && u.clients[o].count == |AskedBy(u.calls, o)|
  {
    PutAsks(s, at, key, value, |s.clients|, Failed);
  }

  ghost predicate WasStarted(steps: seq<Step>, o: nat, client: Client, asked: seq<string>) {
    exists before, step :: before + [step] <= steps && StartsStore(before, step, o, client, asked)
  }

  /** The store of client o asks the peers nearest to its key when it started. */
  ghost predicate AsksNearest(steps: seq<Step>, s: Net, o: nat)
    requires o < |s.clients| && s.clients[o].Storing?
  {
    WasStarted(steps, o, s.clients[o].(error := None), AskedBy(s.calls, o))
  }

  lemma StartedEarlier(steps: seq<Step>, step: Step, o: nat, client: Client, asked: seq<string>)
    requires WasStarted(steps, o, client, asked)
    ensures WasStarted(steps + [step], o, client, asked)
  {
    var before, first :| before + [first] <= steps && StartsStore(before, first, o, client, asked);
    assert before + [first] <= steps + [step];
  }

  lemma StartsNow(steps: seq<Step>, step: Step, o: nat)
    requires Enabled(Reach(steps), step) && o == |Reach(steps).clients| && Exchanged(Reach(steps), o, Failed)
    requires o < |Apply(Reach(steps), step).clients| && Apply(Reach(steps), step).clients[o].Storing?
    ensures AsksNearest(steps + [step], Apply(Reach(steps), step), o)
  {
    var u := Apply(Reach(steps), step);
    OnlyPutStores(Reach(steps), step, o);
    StoreBegins(Reach(steps), step.at, step.key, step.value);
    assert StartsStore(steps, step, o, u.clients[o].(error := None), AskedBy(u.calls, o));
  }

  lemma AsksOn(steps: seq<Step>, step: Step, s: Net, o: nat)
    requires Ready(s, step) && TakenHaveResults(s)
    requires o < |s.clients| && s.clients[o].Storing? && AsksNearest(steps, s, o)
    ensures o < |Apply(s, step).clients| && Apply(s, step).clients[o].Storing?
    ensures AsksNearest(steps + [step], Apply(s, step), o)
  {
    OthersUnchanged(s, step, o);
    StartedEarlier(steps, step, o, s.clients[o].(error := None), AskedBy(s.calls, o));
  }

  lemma StepAsks(steps: seq<Step>, step: Step, o: nat)
    requires var s := Reach(steps);
             Enabled(s, step) && Exchanged(s, o, Failed) && TakenHaveResults(s)
             && (o < |s.clients| && s.clients[o].Storing? ==> AsksNearest(steps, s, o))
    ensures var u := Apply(Reach(steps), step);
            o < |u.clients| && u.clients[o].Storing? ==> AsksNearest(steps + [step], u, o)
  {
    var s := Reach(steps);
    KindKept(s, step, o);
    if o < |s.clients| {
      if s.clients[o].Storing? {
        AsksOn(steps, step, s, o);
      }
    } else if o < |Apply(s, step).clients| && Apply(s, step).clients[o].Storing? {
      StartsNow(steps, step, o);
    }
  }

  lemma KindKept(s: Net, step: Step, o: nat)
    requires Ready(s, step)
    ensures |s.clients| <= |Apply(s, step).clients| <= |s.clients| + 1
    ensures o < |s.clients| ==> (Apply(s, step).clients[o].Storing? <==> s.clients[o].Storing?)
  {
  }

  ghost predicate EachStoreAsks(steps: seq<Step>, o: nat) {
    o < |Reach(steps).clients| && Reach(steps).clients[o].Storing? ==> AsksNearest(steps, Reach(steps), o)
  }

  lemma AsksSnoc(before: seq<Step>, step: Step, o: nat)
    requires EachStoreAsks(before, o)
    ensures EachStoreAsks(before + [step], o)
  {
    LookupsAreExchanges(before, o, Failed);
    var s := Reach(before);
    if Enabled(s, step) {
      ReachSnoc(before, step);
      StepAsks(before, step, o);
    } else {
      assert (before + [step])[..|before|] == before;
      if o < |s.clients| && s.clients[o].Storing? {
        StartedEarlier(before, step, o, s.clients[o].(error := None), AskedBy(s.calls, o));
      }
    }
  }

  // Every store asks exactly the k peers nearest to its key at its start, one call each.
  lemma {:induction false} StoresAskNearest(steps: seq<Step>, o: nat)
    ensures EachStoreAsks(steps, o)
  {
    if steps != [] {
      var n := |steps| - 1;
      assert steps[..n] + [steps[n]] == steps;
      StoresAskNearest(steps[..n], o);
      AsksSnoc(steps[..n], steps[n], o);
    }
  }

  // A lookup looks at home first: it returns what its node stores under the key, and asks
  // others exactly if that is nothing.
  lemma LocalFirst(s: Net, o: nat, v: Bytes)
    requires Ready(s, GetLocal(o))
    ensures var f := s.clients[o];
            var store := s.nodes[f.home].store;
            var stage := Apply(s, GetLocal(o)).clients[o].stage;
            && (stage == Answered(v) <==> KeyToBytes(f.key) in store && store[KeyToBytes(f.key)] == v)
            && (stage == AskTable <==> KeyToBytes(f.key) !in store)
  {
  }

  /** Client o is in its loop, with these first candidates. */
  predicate LoopsFrom(s: Net, o: nat, initial: seq<Peer>) {
    o < |s.clients| && s.clients[o].Finding? && s.clients[o].stage.Looping? && s.clients[o].stage.initial == initial
  }

  ghost predicate NearestAtHome(s: Net, o: nat, initial: seq<Peer>) {
    && o < |s.clients| && s.clients[o].Finding? && s.clients[o].home in s.nodes
    && var n := s.nodes[s.clients[o].home];
       n.table.buckets != [] && initial == NearestPeers(n.table, s.clients[o].key, n.k)
  }

  lemma LoopBegins(s: Net, step: Step, o: nat, initial: seq<Peer>)
    requires Ready(s, step) && LoopsFrom(Apply(s, step), o, initial)
    ensures LoopsFrom(s, o, initial) || (step == GetNearest(o) && NearestAtHome(s, o, initial))
  {
    if step == GetNearest(o) {
      NodeFacts(s, s.clients[o].home);
    }
  }

  ghost predicate WasBegun(steps: seq<Step>, o: nat, initial: seq<Peer>) {
    exists before :: before + [GetNearest(o)] <= steps && NearestAtHome(Reach(before), o, initial)
  }

  lemma BegunEarlier(steps: seq<Step>, step: Step, o: nat, initial: seq<Peer>)
    requires WasBegun(steps, o, initial)
    ensures WasBegun(steps + [step], o, initial)
  {
    var before :| before + [GetNearest(o)] <= steps && NearestAtHome(Reach(before), o, initial);
    assert before + [GetNearest(o)] <= steps + [step];
  }

  lemma BeginsNow(steps: seq<Step>, o: nat, initial: seq<Peer>)
    requires NearestAtHome(Reach(steps), o, initial)
    ensures WasBegun(steps + [GetNearest(o)], o, initial)
  {
  }

  // Every lookup's first candidates are the k peers nearest to its key in the table of its
  // node when it entered its loop.
  lemma {:induction false} LookupsStartNearest(steps: seq<Step>, o: nat, initial: seq<Peer>)
    requires LoopsFrom(Reach(steps), o, initial)
    ensures WasBegun(steps, o, initial)
  {
    var before, step := steps[..|steps| - 1], steps[|steps| - 1];
    assert steps == before + [step];
    if Enabled(Reach(before), step) {
      LoopBegins(Reach(before), step, o, initial);
    }
    if LoopsFrom(Reach(before), o, initial) {
      LookupsStartNearest(before, o, initial);
      BegunEarlier(before, step, o, initial);
    } else {
      BeginsNow(before, o, initial);
    }
  }
}
