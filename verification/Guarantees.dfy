/** What the network guarantees in every reachable state, under any interleaving of
    handlers and clients and any loss of messages. */
module Guarantees {
  import opened Ids
  import opened Peers
  import opened Tables
  import opened Histories
  import opened Lookups
  import opened Messages
  import opened Network

  // ---------- provenance ----------

  /** After this schedule the step is a `store` call for the key and value. */
  ghost predicate Gives(before: seq<Step>, step: Step, key: Id, value: Bytes) {
    step.PutStart? && step.key == key && step.value == value && Enabled(Reach(before), step)
  }

  ghost predicate GivenBy(steps: seq<Step>, key: Id, value: Bytes) {
    exists before, step :: before + [step] <= steps && Gives(before, step, key, value)
  }

  lemma GivenStep(s: Net, step: Step)
    requires Ready(s, step)
    ensures Apply(s, step).given == s.given + if step.PutStart? then {(step.key, step.value)} else {}
  {
  }

  lemma GivenEarlier(before: seq<Step>, step: Step, key: Id, value: Bytes)
    requires GivenBy(before, key, value)
    ensures GivenBy(before + [step], key, value)
  {
    var first, then' :| first + [then'] <= before && Gives(first, then', key, value);
    assert first + [then'] <= before + [step];
  }

  lemma GivenNow(before: seq<Step>, step: Step, key: Id, value: Bytes)
    requires Enabled(Reach(before), step)
    requires (key, value) in Apply(Reach(before), step).given && (key, value) !in Reach(before).given
    ensures GivenBy(before + [step], key, value)
  {
    GivenStep(Reach(before), step);
    assert Gives(before, step, key, value);
  }

  lemma {:induction false} GivenMeaning(steps: seq<Step>, key: Id, value: Bytes)
    requires (key, value) in Reach(steps).given
    ensures GivenBy(steps, key, value)
  {
    var before, step := steps[..|steps| - 1], steps[|steps| - 1];
    assert before + [step] == steps;
    if (key, value) in Reach(before).given {
      GivenMeaning(before, key, value);
      GivenEarlier(before, step, key, value);
    } else {
      GivenNow(before, step, key, value);
    }
  }

  // Every stored value was passed to `store` for that key before.
  lemma StoredWasGiven(steps: seq<Step>, a: string, key: Bytes)
    requires a in Reach(steps).nodes && key in Reach(steps).nodes[a].store
    ensures |key| == 16 && GivenBy(steps, KeyFromBytes(key), Reach(steps).nodes[a].store[key])
  {
    assert NodeOk(Reach(steps), a);
    GivenMeaning(steps, KeyFromBytes(key), Reach(steps).nodes[a].store[key]);
  }

  // So was every value in a reply, on its way or delivered, for the key it answers.
  lemma RepliedWasGiven(steps: seq<Step>, c: nat, m: Message)
    requires c < |Reach(steps).calls| && m.value != []
    requires Reach(steps).calls[c].pc == Done(m) || Reach(steps).calls[c].result == Some(Response(m))
    ensures |Reach(steps).calls[c].message.key| == 16
    ensures GivenBy(steps, KeyFromBytes(Reach(steps).calls[c].message.key), m.value)
  {
    CallFacts(Reach(steps), c);
    GivenMeaning(steps, KeyFromBytes(Reach(steps).calls[c].message.key), m.value);
  }

  /** What `find_value` has returned, if it has. */
  function Returned(s: Net, o: nat): Option<Phase>
    requires o < |s.clients| && s.clients[o].Finding?
  {
    match s.clients[o].stage
    case Answered(v) => Some(Found(v))
    case Looping(_, _) => if Finder(s, o).phase.Running? then None else Some(Finder(s, o).phase)
    case _ => None
  }

  // And so was every value `find_value` returns.
  lemma FoundWasGiven(steps: seq<Step>, o: nat, value: Bytes)
    requires o < |Reach(steps).clients| && Reach(steps).clients[o].Finding?
    requires Returned(Reach(steps), o) == Some(Found(value))
    ensures GivenBy(steps, Reach(steps).clients[o].key, value)
  {
    var s := Reach(steps);
    var f := s.clients[o];
    assert ClientOk(s, o);
    if f.stage.Looping? {
      FoundWasAnswered(f.key, f.alpha, f.stage.initial, f.stage.replies);
    }
    GivenMeaning(steps, f.key, value);
  }

  // ---------- stores ----------

  predicate Holds(s: Net, p: Put) {
    p.node in s.nodes && p.key in s.nodes[p.node].store && s.nodes[p.node].store[p.key] == p.value
  }

  /** After this schedule call p.call can make its put, and then its node holds the value. */
  ghost predicate PutsNext(before: seq<Step>, p: Put) {
    var s := Reach(before);
    Enabled(s, UseStore(p.call)) && Holds(Apply(s, UseStore(p.call)), p)
  }

  ghost predicate ExecutedPut(steps: seq<Step>, p: Put) {
    exists before :: before + [UseStore(p.call)] <= steps && PutsNext(before, p)
  }

  lemma PutStep(s: Net, step: Step, p: Put)
    requires Ready(s, step) && p in Apply(s, step).puts && p !in s.puts
    ensures step == UseStore(p.call) && Holds(Apply(s, step), p)
  {
  }

  lemma ReachSnoc(steps: seq<Step>, step: Step)
    requires Enabled(Reach(steps), step)
    ensures Reach(steps + [step]) == Apply(Reach(steps), step)
  {
    assert (steps + [step])[..|steps|] == steps;
  }

  lemma PutEarlier(before: seq<Step>, step: Step, p: Put)
    requires ExecutedPut(before, p)
    ensures ExecutedPut(before + [step], p)
  {
    var first :| first + [UseStore(p.call)] <= before && PutsNext(first, p);
    assert first + [UseStore(p.call)] <= before + [step];
  }

  lemma PutNow(before: seq<Step>, step: Step, p: Put)
    requires Enabled(Reach(before), step) && p in Apply(Reach(before), step).puts && p !in Reach(before).puts
    ensures ExecutedPut(before + [step], p)
  {
    PutStep(Reach(before), step, p);
    assert PutsNext(before, p);
  }

  ghost predicate IfPutExecuted(steps: seq<Step>, p: Put) {
    p in Reach(steps).puts ==> ExecutedPut(steps, p)
  }

  lemma PutSnoc(before: seq<Step>, step: Step, p: Put)
    requires IfPutExecuted(before, p)
    ensures IfPutExecuted(before + [step], p)
  {
    if p in Reach(before).puts {
      PutEarlier(before, step, p);
    } else if Enabled(Reach(before), step) {
      ReachSnoc(before, step);
      if p in Apply(Reach(before), step).puts {
        PutNow(before, step, p);
      }
    } else {
      assert (before + [step])[..|before|] == before;
    }
  }

  lemma {:induction false} PutMeaning(steps: seq<Step>, p: Put)
    ensures IfPutExecuted(steps, p)
  {
    if steps != [] {
      var n := |steps| - 1;
      assert steps[..n] + [steps[n]] == steps;
      PutMeaning(steps[..n], p);
      PutSnoc(steps[..n], steps[n], p);
    }
  }

  /** What `store` has learned when it returns: all its calls have results, and it succeeds
      exactly when one of them validates. */
  ghost predicate ExactOutcome(s: Net, o: nat)
    requires o < |s.clients| && s.clients[o].Storing? && s.clients[o].error.Some?
  {
    var p := s.clients[o];
    && p.first + p.count <= |s.calls|
    && (forall c :: p.first <= c < p.first + p.count ==> s.calls[c].owner == o && s.calls[c].result.Some?)
    && (p.error.value.None? <==>
          exists c :: p.first <= c < p.first + p.count && ValidateStoreResult(s.calls[c].result.value).None?)
    && (p.count == 0 ==> p.error.value == Some(OK))
  }

  lemma ValidatedPut(s: Net, c: nat)
    requires Inv(s) && c < |s.calls| && s.calls[c].result.Some? && ValidateStoreResult(s.calls[c].result.value).None?
    requires s.clients[CallOwner(s, c)].Storing?
    ensures var p := s.clients[s.calls[c].owner];
            Put(c, s.calls[c].to, KeyToBytes(p.key), p.value) in s.puts
  {
    assert CallOk(s, c);
  }

  lemma OutcomeIsExact(s: Net, o: nat)
    requires Inv(s) && o < |s.clients| && s.clients[o].Storing? && s.clients[o].error.Some?
    ensures ExactOutcome(s, o)
    ensures var p := s.clients[o];
            p.error.value.None? ==>
              exists c :: p.first <= c < p.first + p.count
                          && Put(c, s.calls[c].to, KeyToBytes(p.key), p.value) in s.puts
  {
    var p := s.clients[o];
    assert ClientOk(s, o);
    if p.error.value.None? {
      var c :| p.first <= c < p.first + p.count && ValidateStoreResult(s.calls[c].result.value).None?;
      ValidatedPut(s, c);
    }
  }

  // `store` succeeds exactly when a reply validates, and then some node it asked has
  // executed the put of exactly that key and value; with nobody to ask it fails.
  lemma StoreOutcomeIsExact(steps: seq<Step>, o: nat)
    requires o < |Reach(steps).clients| && Reach(steps).clients[o].Storing? && Reach(steps).clients[o].error.Some?
    ensures ExactOutcome(Reach(steps), o)
    ensures var s := Reach(steps);
            var p := s.clients[o];
            p.error.value.None? ==>
              exists c :: p.first <= c < p.first + p.count
                          && ExecutedPut(steps, Put(c, s.calls[c].to, KeyToBytes(p.key), p.value))
  {
    var s := Reach(steps);
    var p := s.clients[o];
    OutcomeIsExact(s, o);
    if p.error.value.None? {
      var c :| p.first <= c < p.first + p.count && Put(c, s.calls[c].to, KeyToBytes(p.key), p.value) in s.puts;
      PutMeaning(steps, Put(c, s.calls[c].to, KeyToBytes(p.key), p.value));
    }
  }

  // ---------- lookups ----------

  /** The calls of client o whose result its loop has not taken yet. */
  function Outstanding(calls: seq<Call>, o: nat): nat {
    if calls == [] then 0
    else
      var n := |calls| - 1;
      Outstanding(calls[..n], o) + if calls[n].owner == o && !calls[n].consumed then 1 else 0
  }

  lemma {:induction false} OutstandingUpdate(calls: seq<Call>, c: nat, call: Call, o: nat)
    requires c < |calls| && call.owner == calls[c].owner
    ensures Outstanding(calls[c := call], o)
         == Outstanding(calls, o)
            + (if call.owner == o && !call.consumed then 1 else 0)
            - (if calls[c].owner == o && !calls[c].consumed then 1 else 0)
  {
    var n := |calls| - 1;
    if c < n {
      OutstandingUpdate(calls[..n], c, call, o);
      assert calls[c := call][..n] == calls[..n][c := call];
    } else {
      assert calls[c := call][..n] == calls[..n];
    }
  }

  lemma {:induction false} OutstandingAppend(calls: seq<Call>, new': seq<Call>, owner: nat, o: nat)
    requires forall i :: 0 <= i < |new'| ==> new'[i].owner == owner && !new'[i].consumed
    ensures Outstanding(calls + new', o) == Outstanding(calls, o) + if o == owner then |new'| else 0
  {
    if new' == [] {
      assert calls + new' == calls;
    } else {
      var n := |new'| - 1;
      OutstandingAppend(calls, new'[..n], owner, o);
      assert (calls + new')[..|calls + new'| - 1] == calls + new'[..n];
    }
  }

  /** How many results a client's loop is still to take. */
  function Pending(s: Net, o: nat): nat
    requires o < |s.clients| && s.clients[o].Finding?
  {
    if s.clients[o].stage.Looping? then Finder(s, o).inProgress else 0
  }

  ghost predicate Accounted(s: Net, o: nat) {
    if o < |s.clients| then s.clients[o].Finding? ==> Outstanding(s.calls, o) == Pending(s, o)
    else Outstanding(s.calls, o) == 0
  }

  // What the channel hands over leaves the account, what the loop spawns enters it.
  lemma ReceiveCounts(s: Net, o: nat, c: nat)
    requires Ready(s, GetReceive(o, c)) && Accounted(s, o)
    requires s.calls[c].result.value.Response? ==> AllDecodable(s.calls[c].result.value.message)
    ensures var r := ToReply(s.calls[c].result.value);
            Outstanding(DoGetReceive(s, o, c).calls, o) == Deliver(Finder(s, o), r).inProgress
  {
    var f := s.clients[o];
    var r := ToReply(s.calls[c].result.value);
    FlowControl(f.key, f.alpha, f.stage.initial, f.stage.replies);
    DeliverFlow(Finder(s, o), r);
    QueriedGrows(Finder(s, o), r);
    var spawned := Deliver(Finder(s, o), r).queried[|Finder(s, o).queried|..];
    OutstandingUpdate(s.calls, c, s.calls[c].(consumed := true), o);
    OutstandingAppend(s.calls[c := s.calls[c].(consumed := true)],
                      Requests(o, spawned, FindValueRpc, CreateFindValueRequest(f.key, f.me)), o, o);
  }

  lemma ReceiveAccounts(s: Net, o: nat, c: nat)
    requires Ready(s, GetReceive(o, c)) && Accounted(s, o)
    ensures Accounted(Apply(s, GetReceive(o, c)), o)
  {
    CallFacts(s, c);
    ReceiveCounts(s, o, c);
    var f := s.clients[o];
    var r := ToReply(s.calls[c].result.value);
    assert (f.stage.replies + [r])[..|f.stage.replies|] == f.stage.replies;
    assert Finder(DoGetReceive(s, o, c), o) == Deliver(Finder(s, o), r);
  }

  lemma OthersReceive(s: Net, o: nat, c: nat, p: nat)
    requires Ready(s, GetReceive(o, c)) && Accounted(s, p) && p != o
    ensures Accounted(Apply(s, GetReceive(o, c)), p)
  {
    CallFacts(s, c);
    var f := s.clients[o];
    var r := ToReply(s.calls[c].result.value);
    QueriedGrows(Finder(s, o), r);
    var spawned := Deliver(Finder(s, o), r).queried[|Finder(s, o).queried|..];
    OutstandingUpdate(s.calls, c, s.calls[c].(consumed := true), p);
    OutstandingAppend(s.calls[c := s.calls[c].(consumed := true)],
                      Requests(o, spawned, FindValueRpc, CreateFindValueRequest(f.key, f.me)), o, p);
  }

  lemma NearestCounts(s: Net, o: nat, p: nat)
    requires Ready(s, GetNearest(o)) && s.nodes[s.clients[o].home].table.buckets != []
    ensures var u := DoGetNearest(s, o);
            Outstanding(u.calls, p) == Outstanding(s.calls, p) + if p == o then Finder(u, o).inProgress else 0
  {
    var f := s.clients[o];
    var u := DoGetNearest(s, o);
    FlowControl(f.key, f.alpha, u.clients[o].stage.initial, []);
    OutstandingAppend(s.calls, Requests(o, Finder(u, o).queried, FindValueRpc, CreateFindValueRequest(f.key, f.me)),
                      o, p);
  }

  // A client that has not moved and whose calls are as many as before.
  lemma SameAccount(s: Net, u: Net, p: nat)
    requires Accounted(s, p) && Outstanding(u.calls, p) == Outstanding(s.calls, p)
    requires |u.clients| == |s.clients| && (p < |s.clients| ==> u.clients[p] == s.clients[p])
    ensures Accounted(u, p)
  {
  }

  lemma OwnNearest(s: Net, o: nat)
    requires Ready(s, GetNearest(o)) && s.nodes[s.clients[o].home].table.buckets != [] && Accounted(s, o)
    ensures Accounted(DoGetNearest(s, o), o)
  {
    NearestCounts(s, o, o);
    assert Pending(s, o) == 0;
  }

  lemma NearestAccounts(s: Net, o: nat, p: nat)
    requires Ready(s, GetNearest(o)) && Accounted(s, p)
    ensures Accounted(Apply(s, GetNearest(o)), p)
  {
    NodeFacts(s, s.clients[o].home);
    if p == o {
      OwnNearest(s, o);
    } else {
      NearestCounts(s, o, p);
      SameAccount(s, DoGetNearest(s, o), p);
    }
  }

  lemma PutAccounts(s: Net, at: string, key: Id, value: Bytes, p: nat)
    requires Ready(s, PutStart(at, key, value)) && Accounted(s, p)
    ensures Accounted(Apply(s, PutStart(at, key, value)), p)
  {
    NodeFacts(s, at);
    var n := s.nodes[at];
    OutstandingAppend(s.calls, Requests(|s.clients|, Nearest.NearestPeers(n.table, key, n.k), StoreRpc,
                                        CreateStoreRequest(n.local, key, value)), |s.clients|, p);
  }

  lemma StartAccounts(s: Net, step: Step, p: nat)
    requires Ready(s, step) && Accounted(s, p) && (step.PutStart? || step.Probe? || step.GetStart?)
    ensures Accounted(Apply(s, step), p)
  {
    var o := |s.clients|;
    match step
    case PutStart(at, key, value) => PutAccounts(s, at, key, value, p);
    case Probe(at, ping, target, to) =>
      var u := DoProbe(s, at, ping, target, to);
      OutstandingAppend(s.calls, [u.calls[|s.calls|]], o, p);
    case _ =>
  }

  lemma CallStepAccounts(s: Net, step: Step, p: nat)
    requires Ready(s, step) && Accounted(s, p)
    requires step.Arrive? || step.Validate? || step.LockTable? || step.UseTable? || step.LockStore? || step.UseStore?
             || step.Return? || step.Lose?
    ensures Accounted(Apply(s, step), p)
  {
    var u := Apply(s, step);
    var c := step.call;
    OutstandingUpdate(s.calls, c, u.calls[c], p);
    assert u.calls == s.calls[c := u.calls[c]];
  }

  lemma StepAccounts(s: Net, step: Step, p: nat)
    requires Ready(s, step) && Accounted(s, p)
    ensures Accounted(Apply(s, step), p)
  {
    match step
    case PutStart(_, _, _) => StartAccounts(s, step, p);
    case GetStart(_, _, _) => StartAccounts(s, step, p);
    case Probe(_, _, _, _) => StartAccounts(s, step, p);
    case GetNearest(o) => NearestAccounts(s, o, p);
    case GetReceive(o, c) =>
      if o == p {
        ReceiveAccounts(s, o, c);
      } else {
        OthersReceive(s, o, c, p);
      }
    case Join(_, _, _) =>
    case Offer(at, _) => NodeFacts(s, at);
    case PutEnd(o) => assert ClientOk(s, o);
    case GetLocal(o) =>
    case _ => CallStepAccounts(s, step, p);
  }

  // A lookup counts exactly the queries whose result it has not taken, so one that waits
  // always waits for a call it really made.
  lemma {:induction false} LookupsAreAccounted(steps: seq<Step>, o: nat)
    ensures Accounted(Reach(steps), o)
  {
    if steps != [] {
      LookupsAreAccounted(steps[..|steps| - 1], o);
      if Enabled(Reach(steps[..|steps| - 1]), steps[|steps| - 1]) {
        StepAccounts(Reach(steps[..|steps| - 1]), steps[|steps| - 1], o);
      }
    }
  }

  lemma {:induction false} OutstandingExists(calls: seq<Call>, o: nat) returns (c: nat)
    requires Outstanding(calls, o) > 0
    ensures c < |calls| && calls[c].owner == o && !calls[c].consumed
  {
    var n := |calls| - 1;
    if calls[n].owner == o && !calls[n].consumed {
      c := n;
    } else {
      c := OutstandingExists(calls[..n], o);
    }
  }

  /** The result of call c can be taken by client o now, or the call can be lost. */
  predicate Awaited(s: Net, o: nat, c: nat) {
    c < |s.calls| && s.calls[c].owner == o && (Enabled(s, GetReceive(o, c)) || Enabled(s, Lose(c)))
  }

  predicate StillRunning(s: Net, o: nat) {
    o < |s.clients| && s.clients[o].Finding? && s.clients[o].stage.Looping? && Finder(s, o).phase.Running?
  }

  lemma RunningWaits(s: Net, o: nat)
    requires StillRunning(s, o) && s.clients[o].alpha >= 1
    ensures Waiting(Finder(s, o))
  {
    var f := s.clients[o];
    FlowControl(f.key, f.alpha, f.stage.initial, f.stage.replies);
  }

  lemma CanReceive(s: Net, o: nat) returns (c: nat)
    requires StillRunning(s, o) && Waiting(Finder(s, o)) && Accounted(s, o)
    ensures Awaited(s, o, c)
  {
    c := OutstandingExists(s.calls, o);
    if s.calls[c].result.None? {
      assert Enabled(s, Lose(c));
    } else {
      assert Enabled(s, GetReceive(o, c));
    }
  }

  // A running lookup is never stuck: it can take a result now, or one of its calls can
  // still be lost and thereby deliver an error.
  lemma RunningIsNeverStuck(steps: seq<Step>, o: nat) returns (c: nat)
    requires StillRunning(Reach(steps), o) && Reach(steps).clients[o].alpha >= 1
    ensures Awaited(Reach(steps), o, c)
  {
    LookupsAreAccounted(steps, o);
    RunningWaits(Reach(steps), o);
    c := CanReceive(Reach(steps), o);
  }

  // ---------- handlers ----------

  // A lock is held exactly by the handler inside its critical section.
  lemma TableLockHolder(s: Net, a: string, c: nat)
    requires Inv(s) && a in s.nodes
    ensures s.nodes[a].tableLock == HeldBy(c) <==> c < |s.calls| && s.calls[c].to == a && s.calls[c].pc.HasTable?
  {
    assert NodeLocks(s, a);
    assert c < |s.calls| ==> CallLocks(s, c);
  }

  lemma StoreLockHolder(s: Net, a: string, c: nat)
    requires Inv(s) && a in s.nodes
    ensures s.nodes[a].storeLock == HeldBy(c) <==> c < |s.calls| && s.calls[c].to == a && s.calls[c].pc.HasStore?
  {
    assert NodeLocks(s, a);
    assert c < |s.calls| ==> CallLocks(s, c);
  }

  // No handler ever holds two locks, of its own node or any other.
  lemma AtMostOneLock(steps: seq<Step>, c: nat, a: string, b: string)
    requires a in Reach(steps).nodes && b in Reach(steps).nodes
    ensures !(Reach(steps).nodes[a].tableLock == HeldBy(c) && Reach(steps).nodes[b].storeLock == HeldBy(c))
    ensures Reach(steps).nodes[a].tableLock == HeldBy(c) && Reach(steps).nodes[b].tableLock == HeldBy(c) ==> a == b
    ensures Reach(steps).nodes[a].storeLock == HeldBy(c) && Reach(steps).nodes[b].storeLock == HeldBy(c) ==> a == b
  {
    TableLockHolder(Reach(steps), a, c);
    TableLockHolder(Reach(steps), b, c);
    StoreLockHolder(Reach(steps), a, c);
    StoreLockHolder(Reach(steps), b, c);
  }

  // The table is well-formed throughout, and is the fold of the offered peers in the
  // order in which their handlers held the lock.
  lemma TableIsFold(steps: seq<Step>, a: string)
    requires a in Reach(steps).nodes
    ensures var n := Reach(steps).nodes[a];
            Layout(n.table) && Layout(New(n.k, n.local)) && n.table == Run(New(n.k, n.local), n.log)
  {
    NodeFacts(Reach(steps), a);
  }

  /** The peers a step offers to node a's table. */
  function OfferedTo(s: Net, step: Step, a: string): seq<Peer>
    requires Inv(s) && Enabled(s, step)
  {
    match step
    case Offer(at, peers) => if at == a then peers else []
    case UseTable(c) =>
      CallFacts(s, c);
      if s.calls[c].to == a then [Sender(s.calls[c].message)] else []
    case _ => []
  }

  // The log is written by critical sections and offers alone, and only at its end.
  lemma LogStep(s: Net, step: Step, a: string)
    requires Ready(s, step) && a in s.nodes
    ensures a in Apply(s, step).nodes && Apply(s, step).nodes[a].log == s.nodes[a].log + OfferedTo(s, step, a)
  {
  }

  predicate HandlerStep(step: Step) {
    step.Validate? || step.LockTable? || step.UseTable? || step.LockStore? || step.UseStore?
  }

  /** A bound on the steps a handler has left; a find-value may still become a find-node. */
  function Left(call: Call): nat {
    match call.pc
    case Start => 5 + Again(call)
    case WantTable => 4 + Again(call)
    case HasTable => 3 + Again(call)
    case WantStore => 2 + Again(call)
    case HasStore => 1 + Again(call)
    case _ => 0
  }

  function Again(call: Call): nat {
    if call.rpc.FindValueRpc? then 6 else 0
  }

  function AllLeft(calls: seq<Call>): nat {
    if calls == [] then 0 else AllLeft(calls[..|calls| - 1]) + Left(calls[|calls| - 1])
  }

  lemma {:induction false} AllLeftUpdate(calls: seq<Call>, c: nat, call: Call)
    requires c < |calls|
    ensures AllLeft(calls[c := call]) == AllLeft(calls) - Left(calls[c]) + Left(call)
    ensures AllLeft(calls) >= Left(calls[c])
  {
    var n := |calls| - 1;
    if c < n {
      AllLeftUpdate(calls[..n], c, call);
      assert calls[c := call][..n] == calls[..n][c := call];
    } else {
      assert calls[c := call][..n] == calls[..n];
    }
  }

  lemma Shrinks(calls: seq<Call>, c: nat, call: Call)
    requires c < |calls| && Left(call) < Left(calls[c])
    ensures AllLeft(calls[c := call]) < AllLeft(calls)
  {
    AllLeftUpdate(calls, c, call);
  }

  lemma TableShrinks(s: Net, c: nat)
    requires Ready(s, UseTable(c))
    ensures AllLeft(Apply(s, UseTable(c)).calls) < AllLeft(s.calls)
  {
    CallFacts(s, c);
    var (n, pc) := TableSection(s.nodes[s.calls[c].to], s.calls[c]);
    LeaveTable(s.calls, c, pc);
  }

  lemma LeaveTable(calls: seq<Call>, c: nat, pc: Pc)
    requires c < |calls| && calls[c].pc.HasTable? && (pc.Done? || pc.WantStore?)
    ensures AllLeft(calls[c := calls[c].(pc := pc)]) < AllLeft(calls)
  {
    Shrinks(calls, c, calls[c].(pc := pc));
  }

  lemma StoreShrinks(s: Net, c: nat)
    requires Ready(s, UseStore(c))
    ensures AllLeft(Apply(s, UseStore(c)).calls) < AllLeft(s.calls)
  {
    CallFacts(s, c);
    var (n, rpc, pc) := StoreSection(s.nodes[s.calls[c].to], s.calls[c]);
    LeaveStore(s.calls, c, rpc, pc);
  }

  // Looking a value up in vain starts a find-node, which does not look again.
  lemma LeaveStore(calls: seq<Call>, c: nat, rpc: Rpc, pc: Pc)
    requires c < |calls| && calls[c].pc.HasStore? && (calls[c].rpc.StoreRpc? || calls[c].rpc.FindValueRpc?)
    requires (rpc == calls[c].rpc && pc.Done?) || (calls[c].rpc.FindValueRpc? && rpc.FindNodeRpc? && pc.Start?)
    ensures AllLeft(calls[c := calls[c].(rpc := rpc, pc := pc)]) < AllLeft(calls)
  {
    Shrinks(calls, c, calls[c].(rpc := rpc, pc := pc));
  }

  lemma HandlerStepsShrink(s: Net, step: Step)
    requires Ready(s, step) && HandlerStep(step)
    ensures AllLeft(Apply(s, step).calls) < AllLeft(s.calls)
  {
    match step
    case UseTable(c) => TableShrinks(s, c);
    case UseStore(c) => StoreShrinks(s, c);
    case Validate(c) => Shrinks(s.calls, c, Apply(s, step).calls[c]);
    case LockTable(c) => Shrinks(s.calls, c, DoLockTable(s, c).calls[c]);
    case LockStore(c) => Shrinks(s.calls, c, DoLockStore(s, c).calls[c]);
  }

  lemma {:induction false} LeftExists(calls: seq<Call>) returns (c: nat)
    requires AllLeft(calls) > 0
    ensures c < |calls| && Left(calls[c]) > 0
  {
    var n := |calls| - 1;
    if Left(calls[n]) > 0 {
      c := n;
    } else {
      c := LeftExists(calls[..n]);
    }
  }

  // As long as any handler is unfinished, some handler can move: there is no deadlock.
  lemma NoDeadlock(s: Net) returns (step: Step)
    requires Inv(s) && AllLeft(s.calls) > 0
    ensures HandlerStep(step) && Enabled(s, step)
  {
    var c := LeftExists(s.calls);
    CallFacts(s, c);
    var n := s.nodes[s.calls[c].to];
    match s.calls[c].pc
    case Start => step := Validate(c);
    case WantTable => step := if n.tableLock.Free? then LockTable(c) else UseTable(n.tableLock.call);
    case HasTable => step := UseTable(c);
    case WantStore => step := if n.storeLock.Free? then LockStore(c) else UseStore(n.storeLock.call);
    case HasStore => step := UseStore(c);
  }

  lemma HandlersMove(steps: seq<Step>) returns (step: Step)
    requires Backlog(steps) > 0
    ensures HandlerStep(step)
    ensures Backlog(steps + [step]) < Backlog(steps)
  {
    step := NoDeadlock(Reach(steps));
    HandlerStepsShrink(Reach(steps), step);
    ReachSnoc(steps, step);
  }

  ghost function Backlog(steps: seq<Step>): nat {
    AllLeft(Reach(steps).calls)
  }

  predicate HandlersOnly(steps: seq<Step>) {
    forall step :: step in steps ==> HandlerStep(step)
  }

  lemma Prepend(steps: seq<Step>, step: Step, rest: seq<Step>)
    requires HandlerStep(step) && HandlersOnly(rest)
    ensures steps + ([step] + rest) == steps + [step] + rest && HandlersOnly([step] + rest)
  {
  }

  // From every reachable state all handlers finish by their own steps alone.
  lemma {:induction false} HandlersFinish(steps: seq<Step>) returns (more: seq<Step>)
    ensures |more| <= Backlog(steps)
    ensures HandlersOnly(more)
    ensures Backlog(steps + more) == 0
    decreases Backlog(steps)
  {
    if Backlog(steps) == 0 {
      more := [];
      assert steps + more == steps;
    } else {
      var step := HandlersMove(steps);
      var rest := HandlersFinish(steps + [step]);
      Prepend(steps, step, rest);
      more := [step] + rest;
    }
  }
}
