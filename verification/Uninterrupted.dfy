/** A handler that runs its steps without interruption does what the request does in one go. */
module Uninterrupted {
  import opened Tables
  import opened Messages
  import opened Servers
  import opened Network
  import opened Guarantees

  /** The steps are enabled and allowed one after the other from s on, and end in u. */
  ghost predicate Leads(s: Net, steps: seq<Step>, u: Net, allowed: (Net, Step) -> bool)
    decreases |steps|
  {
    if steps == [] then s == u
    else Ready(s, steps[0]) && allowed(s, steps[0]) && Leads(Apply(s, steps[0]), steps[1..], u, allowed)
  }

  lemma LeadsCons(s: Net, step: Step, rest: seq<Step>, u: Net, allowed: (Net, Step) -> bool)
    requires Ready(s, step) && allowed(s, step) && Leads(Apply(s, step), rest, u, allowed)
    ensures Leads(s, [step] + rest, u, allowed)
  {
    assert ([step] + rest)[1..] == rest;
  }

  lemma LeadsOne(s: Net, step: Step, allowed: (Net, Step) -> bool)
    requires Ready(s, step) && allowed(s, step)
    ensures Leads(s, [step], Apply(s, step), allowed)
  {
    LeadsCons(s, step, [], Apply(s, step), allowed);
    assert [step] + [] == [step];
  }

  lemma {:induction false} LeadsAppend(s: Net, a: seq<Step>, t: Net, b: seq<Step>, u: Net, allowed: (Net, Step) -> bool)
    requires Leads(s, a, t, allowed) && Leads(t, b, u, allowed)
    ensures Leads(s, a + b, u, allowed)
    decreases |a|
  {
    if a == [] {
      assert a + b == b;
    } else {
      LeadsAppend(Apply(s, a[0]), a[1..], t, b, u, allowed);
      LeadsCons(s, a[0], a[1..] + b, u, allowed);
      Regrouped(a, b);
    }
  }

  lemma Regrouped(a: seq<Step>, b: seq<Step>)
    requires a != []
    ensures [a[0]] + (a[1..] + b) == a + b
  {
  }

  lemma ReachesNext(steps: seq<Step>, more: seq<Step>, u: Net, allowed: (Net, Step) -> bool)
    requires more != [] && Leads(Reach(steps), more, u, allowed)
    ensures Leads(Reach(steps + [more[0]]), more[1..], u, allowed)
  {
    ReachSnoc(steps, more[0]);
  }

  lemma Regroup(steps: seq<Step>, more: seq<Step>)
    requires more != []
    ensures steps + [more[0]] + more[1..] == steps + more
  {
  }

  // What follows a schedule in this way is again reached by a schedule.
  lemma {:induction false} LeadsReaches(steps: seq<Step>, more: seq<Step>, u: Net, allowed: (Net, Step) -> bool)
    requires Leads(Reach(steps), more, u, allowed)
    ensures Reach(steps + more) == u
    decreases |more|
  {
    if more == [] {
      assert steps + more == steps;
    } else {
      ReachesNext(steps, more, u, allowed);
      LeadsReaches(steps + [more[0]], more[1..], u, allowed);
      Regroup(steps, more);
    }
  }

  /** Steps of call c's handler only. */
  function OfCall(c: nat): (Net, Step) -> bool {
    (s: Net, step: Step) => HandlerStep(step) && step.call == c
  }

  /** Call c is at pc, and its node is idle. */
  ghost predicate Alone(s: Net, c: nat, pc: Pc) {
    && Inv(s) && AtPc(s, c, pc) && s.calls[c].to in s.nodes
    && s.nodes[s.calls[c].to].tableLock.Free? && s.nodes[s.calls[c].to].storeLock.Free?
  }

  function TableSteps(c: nat, rest: seq<Step>): seq<Step> {
    [Validate(c)] + ([LockTable(c)] + ([UseTable(c)] + rest))
  }

  function StoreSteps(c: nat, rest: seq<Step>): seq<Step> {
    [LockStore(c)] + ([UseStore(c)] + rest)
  }

  // Taking a lock changes nothing that the critical section, which frees it, can see.
  lemma LockUnseen(n: Node, call: Call, c: nat)
    requires Layout(n.table) && call.message.myself.Some? && Decodable(call.message.myself.value)
    requires call.rpc.FindNodeRpc? ==> |call.message.key| >= 16
    ensures TableSection(n.(tableLock := HeldBy(c)), call.(pc := HasTable)) == TableSection(n, call)
  {
  }

  lemma LockedIsReady(s: Net, c: nat)
    requires Alone(s, c, WantTable)
    ensures Ready(DoLockTable(s, c), UseTable(c)) && Inv(Apply(DoLockTable(s, c), UseTable(c)))
  {
    PreserveLockTable(s, c);
    PreserveUseTable(DoLockTable(s, c), c);
  }

  lemma UseOverwritesLock(s: Net, c: nat, n: Node, pc: Pc)
    requires Enabled(s, LockTable(c))
    ensures DoUseTable(DoLockTable(s, c), c, n, pc) == DoUseTable(s, c, n, pc)
  {
  }

  lemma LockedTable(s: Net, c: nat)
    requires Alone(s, c, WantTable)
    ensures Ready(DoLockTable(s, c), UseTable(c))
    ensures Apply(DoLockTable(s, c), UseTable(c)) == AfterTable(s, c) && Inv(AfterTable(s, c))
  {
    CallFacts(s, c);
    LockedIsReady(s, c);
    LockUnseen(s.nodes[s.calls[c].to], s.calls[c], c);
    var (n, pc) := TableSection(s.nodes[s.calls[c].to], s.calls[c]);
    UseOverwritesLock(s, c, n, pc);
  }

  // The check and the critical section on the table.
  lemma TableTrip(s: Net, c: nat, rest: seq<Step>, u: Net)
    requires Alone(s, c, Start) && ValidateRequest(s.calls[c].message)
    requires Leads(AfterTable(s, c), rest, u, OfCall(c))
    ensures Leads(s, TableSteps(c, rest), u, OfCall(c))
  {
    var s1 := SetCall(s, c, s.calls[c].(pc := WantTable));
    PreserveValidate(s, c);
    LockedTable(s1, c);
    assert AfterTable(s1, c) == AfterTable(s, c);
    LeadsCons(DoLockTable(s1, c), UseTable(c), rest, u, OfCall(c));
    LeadsCons(s1, LockTable(c), [UseTable(c)] + rest, u, OfCall(c));
    LeadsCons(s, Validate(c), [LockTable(c)] + ([UseTable(c)] + rest), u, OfCall(c));
  }

  lemma LockedStore(s: Net, c: nat)
    requires Alone(s, c, WantStore)
    ensures Ready(DoLockStore(s, c), UseStore(c))
    ensures Apply(DoLockStore(s, c), UseStore(c)) == DoUseStore(s, c) && Inv(DoUseStore(s, c))
  {
    PreserveLockStore(s, c);
    PreserveUseStore(DoLockStore(s, c), c);
    assert DoUseStore(DoLockStore(s, c), c) == DoUseStore(s, c);
  }

  // The critical section on the store.
  lemma StoreTrip(s: Net, c: nat, rest: seq<Step>, u: Net)
    requires Alone(s, c, WantStore) && Leads(DoUseStore(s, c), rest, u, OfCall(c))
    ensures Leads(s, StoreSteps(c, rest), u, OfCall(c))
  {
    LockedStore(s, c);
    LeadsCons(DoLockStore(s, c), UseStore(c), rest, u, OfCall(c));
    LeadsCons(s, LockStore(c), [UseStore(c)] + rest, u, OfCall(c));
  }

  lemma AfterTableAlone(s: Net, c: nat)
    requires Alone(s, c, Start) && ValidateRequest(s.calls[c].message)
    ensures var t := AfterTable(s, c);
            Alone(t, c, t.calls[c].pc)
  {
    PreserveValidate(s, c);
    var s1 := SetCall(s, c, s.calls[c].(pc := WantTable));
    LockedTable(s1, c);
    assert AfterTable(s1, c) == AfterTable(s, c);
  }

  lemma AfterStoreAlone(s: Net, c: nat)
    requires Alone(s, c, WantStore)
    ensures var t := DoUseStore(s, c);
            Alone(t, c, t.calls[c].pc)
  {
    LockedStore(s, c);
  }

  /** All of the net but what call c's handler may change. */
  ghost predicate OnlyCall(s: Net, c: nat, u: Net)
    requires c < |s.calls|
  {
    && |u.calls| == |s.calls| && u.calls == s.calls[c := u.calls[c]]
    && s.calls[c].to in u.nodes && u.nodes == s.nodes[s.calls[c].to := u.nodes[s.calls[c].to]]
    && u.clients == s.clients && u.given == s.given
  }

  lemma OnlyCallTwice(s: Net, c: nat, v: Net, u: Net)
    requires c < |s.calls| && OnlyCall(s, c, v) && OnlyCall(v, c, u) && v.calls[c].to == s.calls[c].to
    ensures OnlyCall(s, c, u)
  {
  }

  /** The handler of call c has finished in u as `Serve` says, and only it has acted. */
  ghost predicate ServedFrom(s: Net, c: nat, u: Net)
    requires Inv(s) && c < |s.calls| && s.calls[c].to in s.nodes && !s.calls[c].pc.Sent?
  {
    CallFacts(s, c);
    var a := s.calls[c].to;
    && OnlyCall(s, c, u) && u.calls[c].pc.Done?
    && Served(u.nodes[a].table, u.nodes[a].store, Some(u.calls[c].pc.reply))
       == Serve(s.calls[c].rpc, s.nodes[a].table, s.nodes[a].store, s.calls[c].message)
  }

  /** The table's critical section, seen from outside. */
  ghost predicate SenderOffered(s: Net, c: nat, t: Net)
    requires Inv(s) && c < |s.calls| && s.calls[c].to in s.nodes && !s.calls[c].pc.Sent?
  {
    CallFacts(s, c);
    var a := s.calls[c].to;
    && |t.calls| == |s.calls| && a in t.nodes
    && t == s.(nodes := s.nodes[a := t.nodes[a]], calls := s.calls[c := s.calls[c].(pc := t.calls[c].pc)])
    && t.nodes[a].table == Updated(s.nodes[a].table, Sender(s.calls[c].message)).table
    && t.nodes[a].store == s.nodes[a].store
  }

  lemma TableOffers(s: Net, c: nat)
    requires Alone(s, c, Start)
    ensures SenderOffered(s, c, AfterTable(s, c))
  {
    CallFacts(s, c);
  }

  lemma TableServes(s: Net, c: nat)
    requires Alone(s, c, Start) && ValidateRequest(s.calls[c].message)
    ensures var t := AfterTable(s, c);
            if s.calls[c].rpc.StoreRpc? || s.calls[c].rpc.FindValueRpc? then t.calls[c].pc == WantStore
            else ServedFrom(s, c, t)
  {
    CallFacts(s, c);
    TableOffers(s, c);
  }

  // From its start to its reply, a handler left alone does what `Serve` says.
  lemma RunsAlone(s: Net, c: nat) returns (steps: seq<Step>, u: Net)
    requires Alone(s, c, Start)
    ensures Leads(s, steps, u, OfCall(c)) && ServedFrom(s, c, u)
  {
    if !ValidateRequest(s.calls[c].message) {
      steps, u := RunsRefusal(s, c);
    } else if s.calls[c].rpc.PingRpc? || s.calls[c].rpc.FindNodeRpc? {
      TableServes(s, c);
      u := AfterTable(s, c);
      steps := TableSteps(c, []);
      TableTrip(s, c, [], u);
      } else if Hit(s, c) {
      steps, u := RunsHit(s, c);
    } else {
      steps, u := RunsMiss(s, c);
    }
  }

  lemma RunsRefusal(s: Net, c: nat) returns (steps: seq<Step>, u: Net)
    requires Alone(s, c, Start) && !ValidateRequest(s.calls[c].message)
    ensures Leads(s, steps, u, OfCall(c)) && ServedFrom(s, c, u)
    ensures steps == [Validate(c)]
  {
    u := Apply(s, Validate(c));
    steps := [Validate(c)];
    PreserveValidate(s, c);
    LeadsCons(s, Validate(c), [], u, OfCall(c));
    assert steps + [] == steps;
  }

  predicate Hit(s: Net, c: nat)
    requires AtPc(s, c, Start) && s.calls[c].to in s.nodes
  {
    s.calls[c].rpc.StoreRpc? || (s.calls[c].rpc.FindValueRpc? && s.calls[c].message.key in s.nodes[s.calls[c].to].store)
  }

  lemma StoreServes(s: Net, c: nat)
    requires Alone(s, c, Start) && ValidateRequest(s.calls[c].message) && Hit(s, c)
    ensures ServedFrom(s, c, DoUseStore(AfterTable(s, c), c))
  {
    CallFacts(s, c);
    TableOffers(s, c);
    var t := AfterTable(s, c);
    var u := DoUseStore(t, c);
    assert OnlyCall(s, c, u) by {
      OnlyCallTwice(s, c, t, u);
    }
    var n := s.nodes[s.calls[c].to];
    assert t.nodes[s.calls[c].to].table == Greet(n.table, s.calls[c].message);
  }

  lemma RunsHit(s: Net, c: nat) returns (steps: seq<Step>, u: Net)
    requires Alone(s, c, Start) && ValidateRequest(s.calls[c].message) && Hit(s, c)
    ensures Leads(s, steps, u, OfCall(c)) && ServedFrom(s, c, u)
  {
    TableServes(s, c);
    StoreServes(s, c);
    AfterTableAlone(s, c);
    u := DoUseStore(AfterTable(s, c), c);
    StoreTrip(AfterTable(s, c), c, [], u);
    TableTrip(s, c, StoreSteps(c, []), u);
    steps := TableSteps(c, StoreSteps(c, []));
  }

  /** A find-value that missed: the sender was offered, and a find-node is about to start. */
  ghost predicate Missed(s: Net, c: nat, v: Net)
    requires Inv(s) && c < |s.calls| && s.calls[c].to in s.nodes && !s.calls[c].pc.Sent?
  {
    CallFacts(s, c);
    var a := s.calls[c].to;
    && a in v.nodes && v == s.(nodes := v.nodes, calls := s.calls[c := s.calls[c].(rpc := FindNodeRpc, pc := Start)])
    && v.nodes == s.nodes[a := v.nodes[a]]
    && v.nodes[a].table == Updated(s.nodes[a].table, Sender(s.calls[c].message)).table
    && v.nodes[a].store == s.nodes[a].store
  }

  lemma MissStarts(s: Net, c: nat)
    requires Alone(s, c, Start) && ValidateRequest(s.calls[c].message) && s.calls[c].rpc.FindValueRpc? && !Hit(s, c)
    ensures Alone(AfterTable(s, c), c, WantStore)
    ensures var v := DoUseStore(AfterTable(s, c), c);
            Alone(v, c, Start) && Missed(s, c, v)
  {
    TableServes(s, c);
    TableOffers(s, c);
    AfterTableAlone(s, c);
    AfterStoreAlone(AfterTable(s, c), c);
  }

  lemma MissServes(s: Net, c: nat, v: Net)
    requires Alone(s, c, Start) && ValidateRequest(s.calls[c].message) && s.calls[c].rpc.FindValueRpc? && !Hit(s, c)
    requires Alone(v, c, Start) && Missed(s, c, v)
    ensures ServedFrom(s, c, AfterTable(v, c))
  {
    CallFacts(s, c);
    TableServes(v, c);
    assert OnlyCall(s, c, AfterTable(v, c)) by {
      OnlyCallTwice(s, c, v, AfterTable(v, c));
    }
    var n := s.nodes[s.calls[c].to];
    MissIsFindNode(n.table, n.store, s.calls[c].message);
  }

  lemma RunsMiss(s: Net, c: nat) returns (steps: seq<Step>, u: Net)
    requires Alone(s, c, Start) && ValidateRequest(s.calls[c].message) && s.calls[c].rpc.FindValueRpc? && !Hit(s, c)
    ensures Leads(s, steps, u, OfCall(c)) && ServedFrom(s, c, u)
  {
    MissStarts(s, c);
    var v := DoUseStore(AfterTable(s, c), c);
    MissServes(s, c, v);
    u := AfterTable(v, c);
    steps := RunsTwice(s, c);
  }

  // The steps of a miss: table, store, and table again.
  lemma RunsTwice(s: Net, c: nat) returns (steps: seq<Step>)
    requires Alone(s, c, Start) && ValidateRequest(s.calls[c].message) && Alone(AfterTable(s, c), c, WantStore)
    requires Alone(DoUseStore(AfterTable(s, c), c), c, Start)
    ensures Leads(s, steps, AfterTable(DoUseStore(AfterTable(s, c), c), c), OfCall(c))
  {
    var t := AfterTable(s, c);
    var v := DoUseStore(t, c);
    var last := TableSteps(c, []);
    var u := AfterTable(v, c);
    TableTrip(v, c, [], u);
    StoreTrip(t, c, last, u);
    TableTrip(s, c, StoreSteps(c, last), u);
    steps := TableSteps(c, StoreSteps(c, last));
  }
}
