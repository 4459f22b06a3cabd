/** Every lookup and store can return: from every reachable state the network can bring it to its end
    by itself, with nothing new asked and nothing lost on its way to or from a node. */
module Progress {
  import opened Peers
  import opened Lookups
  import opened Messages
  import opened Network
  import opened Guarantees
  import opened Uninterrupted
  import opened Origins

  /** A step that asks nothing new and loses only what is addressed to nobody. */
  predicate Fair(s: Net, step: Step) {
    || step.GetLocal? || step.GetNearest? || step.GetReceive? || step.PutEnd?
    || step.Arrive? || HandlerStep(step) || step.Return?
    || (step.Lose? && step.call < |s.calls| && s.calls[step.call].to !in s.nodes)
  }

  // ---------- the handlers come to rest ----------

  /** Only handlers have moved: the callers see nothing of it. */
  ghost predicate Quiet(s: Net, u: Net) {
    && u.clients == s.clients && u.nodes.Keys == s.nodes.Keys && |u.calls| == |s.calls|
    && forall c :: 0 <= c < |s.calls| ==> QuietCall(s.calls[c], u.calls[c])
  }

  predicate QuietCall(a: Call, b: Call) {
    b == a.(rpc := b.rpc, pc := b.pc) && (a.pc.Sent? <==> b.pc.Sent?)
  }

  lemma OneCallIsQuiet(s: Net, u: Net, c: nat)
    requires c < |s.calls| == |u.calls| && u.calls == s.calls[c := u.calls[c]] && QuietCall(s.calls[c], u.calls[c])
    requires u.clients == s.clients && u.nodes.Keys == s.nodes.Keys
    ensures Quiet(s, u)
  {
  }

  lemma TableIsQuiet(s: Net, c: nat)
    requires Ready(s, UseTable(c))
    ensures Quiet(s, Apply(s, UseTable(c)))
  {
    CallFacts(s, c);
    var (n, pc) := TableSection(s.nodes[s.calls[c].to], s.calls[c]);
    OneCallIsQuiet(s, DoUseTable(s, c, n, pc), c);
  }

  lemma StoreIsQuiet(s: Net, c: nat)
    requires Ready(s, UseStore(c))
    ensures Quiet(s, Apply(s, UseStore(c)))
  {
    CallFacts(s, c);
    OneCallIsQuiet(s, DoUseStore(s, c), c);
  }

  lemma HandlerIsQuiet(s: Net, step: Step)
    requires Ready(s, step) && HandlerStep(step)
    ensures Quiet(s, Apply(s, step))
  {
    match step
    case UseTable(c) => TableIsQuiet(s, c);
    case UseStore(c) => StoreIsQuiet(s, c);
    case Validate(c) => OneCallIsQuiet(s, Apply(s, step), c);
    case LockTable(c) => OneCallIsQuiet(s, DoLockTable(s, c), c);
    case LockStore(c) => OneCallIsQuiet(s, DoLockStore(s, c), c);
  }

  lemma QuietTwice(s: Net, t: Net, u: Net)
    requires Quiet(s, t) && Quiet(t, u)
    ensures Quiet(s, u)
  {
    forall c | 0 <= c < |s.calls|
      ensures QuietCall(s.calls[c], u.calls[c])
    {
      assert QuietCall(s.calls[c], t.calls[c]) && QuietCall(t.calls[c], u.calls[c]);
    }
  }

  /** No handler is between its start and its reply, so all locks are free. */
  predicate AtRest(s: Net) {
    && (forall c :: 0 <= c < |s.calls| ==> s.calls[c].pc.Sent? || s.calls[c].pc.Done?)
    && forall a :: a in s.nodes ==> s.nodes[a].tableLock.Free? && s.nodes[a].storeLock.Free?
  }

  lemma NothingLeft(s: Net)
    requires Inv(s) && AllLeft(s.calls) == 0
    ensures AtRest(s)
  {
    forall c | 0 <= c < |s.calls|
      ensures s.calls[c].pc.Sent? || s.calls[c].pc.Done?
    {
      AllLeftUpdate(s.calls, c, s.calls[c]);
    }
    forall a | a in s.nodes
      ensures s.nodes[a].tableLock.Free? && s.nodes[a].storeLock.Free?
    {
      assert NodeLocks(s, a);
    }
  }

  lemma {:induction false} Rest(s: Net) returns (more: seq<Step>, u: Net)
    requires Inv(s)
    ensures Leads(s, more, u, Fair) && Inv(u) && Quiet(s, u) && AtRest(u)
    decreases AllLeft(s.calls)
  {
    if AllLeft(s.calls) == 0 {
      NothingLeft(s);
      more, u := [], s;
    } else {
      var step, t := OneMoves(s);
      var rest;
      rest, u := Rest(t);
      QuietTwice(s, t, u);
      LeadsCons(s, step, rest, u, Fair);
      more := [step] + rest;
    }
  }

  lemma OneMoves(s: Net) returns (step: Step, t: Net)
    requires Inv(s) && AllLeft(s.calls) > 0
    ensures Ready(s, step) && Fair(s, step) && t == Apply(s, step)
    ensures Inv(t) && Quiet(s, t) && AllLeft(t.calls) < AllLeft(s.calls)
  {
    step := NoDeadlock(s);
    HandlerStepsShrink(s, step);
    HandlerIsQuiet(s, step);
    Preserve(s, step);
    t := Apply(s, step);
  }

  // ---------- a call gets its result ----------

  /** As far as callers can tell, only the result of call c has been added. */
  predicate Answers(s: Net, c: nat, u: Net) {
    && u.clients == s.clients && u.nodes.Keys == s.nodes.Keys && c < |s.calls| == |u.calls|
    && u.calls[c].owner == s.calls[c].owner && u.calls[c].consumed == s.calls[c].consumed
    && u.calls[c].result.Some? && ResultsKept(s, u)
  }

  predicate ResultsKept(s: Net, u: Net) {
    && |s.calls| <= |u.calls|
    && forall d :: 0 <= d < |s.calls| && s.calls[d].result.Some? ==> u.calls[d].result == s.calls[d].result
  }

  lemma QuietKeepsResults(s: Net, u: Net)
    requires Quiet(s, u)
    ensures ResultsKept(s, u)
  {
    assert forall d :: 0 <= d < |s.calls| ==> QuietCall(s.calls[d], u.calls[d]);
  }

  // A call to nobody fails; any other arrives, is handled and returns.
  lemma CallReturns(s: Net, c: nat) returns (more: seq<Step>, u: Net)
    requires Inv(s) && c < |s.calls| && s.calls[c].result.None?
    ensures Leads(s, more, u, Fair) && Inv(u) && Answers(s, c, u)
  {
    if s.calls[c].pc.Sent? && s.calls[c].to !in s.nodes {
      LeadsOne(s, Lose(c), Fair);
      PreserveLose(s, c);
      more, u := [Lose(c)], Apply(s, Lose(c));
    } else if s.calls[c].pc.Sent? {
      more, u := SentReturns(s, c);
    } else {
      more, u := HandledReturns(s, c);
    }
  }

  lemma SentReturns(s: Net, c: nat) returns (more: seq<Step>, u: Net)
    requires Inv(s) && c < |s.calls| && s.calls[c].result.None? && s.calls[c].pc.Sent? && s.calls[c].to in s.nodes
    ensures Leads(s, more, u, Fair) && Inv(u) && Answers(s, c, u)
  {
    var t := SetCall(s, c, s.calls[c].(pc := Start));
    PreserveArrive(s, c);
    var rest;
    rest, u := HandledReturns(t, c);
    LeadsCons(s, Arrive(c), rest, u, Fair);
    more := [Arrive(c)] + rest;
  }

  lemma HandledReturns(s: Net, c: nat) returns (more: seq<Step>, u: Net)
    requires Inv(s) && c < |s.calls| && s.calls[c].result.None? && !s.calls[c].pc.Sent?
    ensures Leads(s, more, u, Fair) && Inv(u) && Answers(s, c, u)
  {
    var first, t := Rest(s);
    assert QuietCall(s.calls[c], t.calls[c]);
    QuietKeepsResults(s, t);
    LeadsOne(t, Return(c), Fair);
    PreserveReturn(t, c);
    u := Apply(t, Return(c));
    LeadsAppend(s, first, t, [Return(c)], u, Fair);
    more := first + [Return(c)];
  }

  // ---------- a lookup comes to its end ----------

  /** The lookup of client o, with everything that holds of it in reachable states. */
  ghost predicate Watched(s: Net, o: nat, u: set<Peer>) {
    Inv(s) && Accounted(s, o) && From(s, u) && o < |s.clients| && s.clients[o].Finding? && s.clients[o].alpha >= 1
  }

  lemma FairKeepsClient(s: Net, step: Step, o: nat)
    requires Ready(s, step) && Fair(s, step) && o < |s.clients|
    ensures o < |Apply(s, step).clients| && SameClient(s.clients[o], Apply(s, step).clients[o])
  {
  }

  lemma FairKeeps(s: Net, step: Step, o: nat, u: set<Peer>)
    requires Ready(s, step) && Fair(s, step) && Watched(s, o, u)
    ensures Watched(Apply(s, step), o, u)
  {
    Preserve(s, step);
    StepAccounts(s, step, o);
    StepFrom(s, step, u);
    FairKeepsClient(s, step, o);
  }

  lemma {:induction false} LeadsKeeps(s: Net, steps: seq<Step>, t: Net, o: nat, u: set<Peer>)
    requires Leads(s, steps, t, Fair) && Watched(s, o, u)
    ensures Watched(t, o, u)
    decreases |steps|
  {
    if steps != [] {
      FairKeeps(s, steps[0], o, u);
      LeadsKeeps(Apply(s, steps[0]), steps[1..], t, o, u);
    }
  }

  // An outstanding call of a running lookup can be brought to its result.
  lemma ResultArrives(s: Net, o: nat, u: set<Peer>) returns (more: seq<Step>, t: Net, c: nat)
    requires Watched(s, o, u) && StillRunning(s, o)
    ensures Leads(s, more, t, Fair) && Watched(t, o, u) && t.clients == s.clients && Enabled(t, GetReceive(o, c))
  {
    RunningWaits(s, o);
    c := OutstandingExists(s.calls, o);
    if s.calls[c].result.Some? {
      more, t := [], s;
    } else {
      more, t := CallReturns(s, c);
      LeadsKeeps(s, more, t, o, u);
    }
  }

  lemma ReceiveDelivers(s: Net, o: nat, c: nat, u: set<Peer>)
    requires Ready(s, GetReceive(o, c)) && From(s, u)
    ensures var v := Apply(s, GetReceive(o, c));
            && Looks(v, o)
            && exists r :: Inside(r, u) && Finder(v, o) == Deliver(Finder(s, o), r)
  {
    CallFacts(s, c);
    var r := ToReply(s.calls[c].result.value);
    ReceivedFrom(s.calls[c], u);
    var f := s.clients[o];
    assert (f.stage.replies + [r])[..|f.stage.replies|] == f.stage.replies;
    assert Finder(DoGetReceive(s, o, c), o) == Deliver(Finder(s, o), r);
  }

  // One result handled: the lookup is nearer to its end.
  lemma LookupAdvances(s: Net, o: nat, u: set<Peer>) returns (more: seq<Step>, t: Net)
    requires Watched(s, o, u) && StillRunning(s, o)
    ensures Leads(s, more, t, Fair) && Watched(t, o, u) && Looks(t, o)
    ensures Lower(Finder(t, o), Finder(s, o), u)
  {
    var first, v, c := ResultArrives(s, o, u);
    var step := GetReceive(o, c);
    LeadsOne(v, step, Fair);
    FairKeeps(v, step, o, u);
    t := Apply(v, step);
    LeadsAppend(s, first, v, [step], t, Fair);
    more := first + [step];
    ReceiveDelivers(v, o, c, u);
    FinderIsClean(v, o, u);
    var r :| Inside(r, u) && Finder(t, o) == Deliver(Finder(v, o), r);
    ReplyLowers(Finder(v, o), r, u);
    assert Finder(v, o) == Finder(s, o);
  }

  ghost predicate Lower(a: Lookup, b: Lookup, u: set<Peer>) {
    Unseen(a, u) < Unseen(b, u) || (Unseen(a, u) == Unseen(b, u) && Busy(a) < Busy(b))
  }

  lemma {:induction false} LoopReturns(s: Net, o: nat, u: set<Peer>) returns (more: seq<Step>, t: Net)
    requires Watched(s, o, u) && Looks(s, o)
    ensures Leads(s, more, t, Fair) && Watched(t, o, u) && Returned(t, o).Some?
    decreases Unseen(Finder(s, o), u), Busy(Finder(s, o))
  {
    if StillRunning(s, o) {
      var first, v := LookupAdvances(s, o, u);
      var rest;
      rest, t := LoopReturns(v, o, u);
      LeadsAppend(s, first, v, rest, t, Fair);
      more := first + rest;
    } else {
      more, t := [], s;
    }
  }

  lemma TableStageReturns(s: Net, o: nat, u: set<Peer>) returns (more: seq<Step>, t: Net)
    requires Watched(s, o, u) && s.clients[o].stage.AskTable?
    ensures Leads(s, more, t, Fair) && Watched(t, o, u) && Returned(t, o).Some?
  {
    var first, v := Rest(s);
    LeadsKeeps(s, first, v, o, u);
    assert ClientOk(v, o);
    var step := GetNearest(o);
    FairKeeps(v, step, o, u);
    var rest;
    rest, t := LoopReturns(Apply(v, step), o, u);
    LeadsCons(v, step, rest, t, Fair);
    LeadsAppend(s, first, v, [step] + rest, t, Fair);
    more := first + ([step] + rest);
  }

  lemma StoreStageReturns(s: Net, o: nat, u: set<Peer>) returns (more: seq<Step>, t: Net)
    requires Watched(s, o, u) && s.clients[o].stage.CheckStore?
    ensures Leads(s, more, t, Fair) && Watched(t, o, u) && Returned(t, o).Some?
  {
    var first, v := Rest(s);
    LeadsKeeps(s, first, v, o, u);
    assert ClientOk(v, o);
    var step := GetLocal(o);
    FairKeeps(v, step, o, u);
    var rest, w := [], DoGetLocal(v, o);
    t := w;
    if w.clients[o].stage.AskTable? {
      rest, t := TableStageReturns(w, o, u);
    }
    LeadsCons(v, step, rest, t, Fair);
    LeadsAppend(s, first, v, [step] + rest, t, Fair);
    more := first + ([step] + rest);
  }

  // From every reachable state every lookup can be brought to its return by fair steps.
  lemma LookupsCanReturn(steps: seq<Step>, o: nat) returns (more: seq<Step>)
    requires o < |Reach(steps).clients| && Reach(steps).clients[o].Finding? && Reach(steps).clients[o].alpha >= 1
    ensures Leads(Reach(steps), more, Reach(steps + more), Fair)
    ensures o < |Reach(steps + more).clients| && Reach(steps + more).clients[o].Finding?
    ensures Returned(Reach(steps + more), o).Some?
  {
    LookupsAreAccounted(steps, o);
    ReachFrom(steps);
    var t;
    more, t := StateReturns(Reach(steps), o, Introduced(steps));
    LeadsReaches(steps, more, t, Fair);
  }

  lemma StateReturns(s: Net, o: nat, u: set<Peer>) returns (more: seq<Step>, t: Net)
    requires Watched(s, o, u)
    ensures Leads(s, more, t, Fair) && Watched(t, o, u) && Returned(t, o).Some?
  {
    match s.clients[o].stage
    case Answered(_) => more, t := [], s;
    case CheckStore => more, t := StoreStageReturns(s, o, u);
    case AskTable => more, t := TableStageReturns(s, o, u);
    case Looping(_, _) => more, t := LoopReturns(s, o, u);
  }

  // ---------- a store comes to its end ----------

  predicate Resolved(s: Net, first: nat, count: nat) {
    first + count <= |s.calls| && forall c :: first <= c < first + count ==> s.calls[c].result.Some?
  }

  lemma OneMoreResolved(s: Net, u: Net, first: nat, count: nat)
    requires Resolved(s, first, count) && ResultsKept(s, u) && first + count < |u.calls|
    requires u.calls[first + count].result.Some?
    ensures Resolved(u, first, count + 1)
  {
  }

  lemma NextReturns(s: Net, first: nat, count: nat) returns (more: seq<Step>, u: Net)
    requires Inv(s) && Resolved(s, first, count) && first + count < |s.calls|
    ensures Leads(s, more, u, Fair) && Inv(u) && u.clients == s.clients && |s.calls| == |u.calls|
    ensures Resolved(u, first, count + 1)
  {
    if s.calls[first + count].result.Some? {
      more, u := [], s;
    } else {
      more, u := CallReturns(s, first + count);
    }
    OneMoreResolved(s, u, first, count);
  }

  lemma {:induction false} AllReturn(s: Net, first: nat, count: nat) returns (more: seq<Step>, u: Net)
    requires Inv(s) && first + count <= |s.calls|
    ensures Leads(s, more, u, Fair) && Inv(u) && u.clients == s.clients && |s.calls| == |u.calls|
    ensures Resolved(u, first, count)
    decreases count
  {
    if count == 0 {
      more, u := [], s;
    } else {
      var begin, t := AllReturn(s, first, count - 1);
      var rest;
      rest, u := NextReturns(t, first, count - 1);
      LeadsAppend(s, begin, t, rest, u, Fair);
      more := begin + rest;
    }
  }

  /** What a `store` has returned, if it has: an error code, or none for success. */
  function Stored(s: Net, o: nat): Option<Option<ErrorCode>>
    requires o < |s.clients| && s.clients[o].Storing?
  {
    s.clients[o].error
  }

  lemma StoreReturns(s: Net, o: nat) returns (more: seq<Step>, u: Net)
    requires Inv(s) && o < |s.clients| && s.clients[o].Storing?
    ensures Leads(s, more, u, Fair) && o < |u.clients| && u.clients[o].Storing? && Stored(u, o).Some?
  {
    if s.clients[o].error.Some? {
      more, u := [], s;
    } else {
      assert ClientOk(s, o);
      var begin, t := AllReturn(s, s.clients[o].first, s.clients[o].count);
      assert ClientOk(t, o);
      LeadsOne(t, PutEnd(o), Fair);
      u := DoPutEnd(t, o);
      LeadsAppend(s, begin, t, [PutEnd(o)], u, Fair);
      more := begin + [PutEnd(o)];
    }
  }

  // From every reachable state every `store` can be brought to its return by fair steps.
  lemma StoresCanReturn(steps: seq<Step>, o: nat) returns (more: seq<Step>)
    requires o < |Reach(steps).clients| && Reach(steps).clients[o].Storing?
    ensures Leads(Reach(steps), more, Reach(steps + more), Fair)
    ensures o < |Reach(steps + more).clients| && Reach(steps + more).clients[o].Storing?
    ensures Stored(Reach(steps + more), o).Some?
  {
    var u;
    more, u := StoreReturns(Reach(steps), o);
    LeadsReaches(steps, more, u, Fair);
  }
}
