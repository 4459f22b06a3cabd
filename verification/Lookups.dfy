/** The iterative lookup (src/client.rs:96-155) as a state machine: up to alpha queries in
    flight, replies in any order and with any content. */
module Lookups {
  import opened Ids
  import opened Peers
  import opened Tables

  /** What one query delivers; an answer without a value carries an empty one. */
  datatype Reply = Failed | Answer(value: seq<Byte>, peers: seq<Peer>)

  datatype Phase = Running | Found(value: seq<Byte>) | NotFound

  /** `received` counts the replies taken from the channel; the rest are the loop's variables. */
  datatype Lookup = Lookup(key: Id, alpha: nat, candidates: seq<Peer>, queried: seq<Peer>,
                           inProgress: nat, received: nat, phase: Phase)

  function Reverse(s: seq<Peer>): (r: seq<Peer>)
    ensures |r| == |s|
  {
    if s == [] then [] else Reverse(s[1..]) + [s[0]]
  }

  /** How many queries the inner loop spawns. */
  function Quota(s: Lookup): (n: nat)
    ensures n <= |s.candidates|
  {
    if s.inProgress < s.alpha then Min(s.alpha - s.inProgress, |s.candidates|) else 0
  }

  /** After sorting, the last `Quota` candidates are popped one by one and queried. */
  function Spawned(s: Lookup): Lookup {
    var sorted := Sort(s.candidates, s.key, FarthestFirst);
    var m := |sorted| - Quota(s);
    s.(candidates := sorted[..m],
       queried := s.queried + Reverse(sorted[m..]),
       inProgress := s.inProgress + Quota(s))
  }

  /** From the loop head to the wait for a reply. */
  function Head(s: Lookup): Lookup {
    if s.candidates == [] then s.(phase := NotFound) else Spawned(s)
  }

  /** The peers of a reply that are neither queried nor candidates yet. */
  function FreshPeers(s: Lookup, peers: seq<Peer>): seq<Peer> {
    Filter(peers, Unknown(s.queried, s.candidates))
  }

  function Unknown(queried: seq<Peer>, candidates: seq<Peer>): Peer -> bool {
    p => p !in queried && p !in candidates
  }

  function Receive(s: Lookup, r: Reply): Lookup
    requires s.inProgress > 0
  {
    var u := s.(inProgress := s.inProgress - 1, received := s.received + 1);
    match r
    case Failed => u
    case Answer(value, peers) =>
      if value != [] then u.(phase := Found(value))
      else u.(candidates := s.candidates + FreshPeers(s, peers))
  }

  predicate Waiting(s: Lookup) {
    s.phase.Running? && s.inProgress > 0
  }

  /** One reply arrives: it is handled, and the loop runs to its next wait or ends. */
  function Deliver(s: Lookup, r: Reply): Lookup {
    if !Waiting(s) then s
    else
      var u := Receive(s, r);
      if u.phase.Found? then u else Head(u)
  }

  function Begin(key: Id, alpha: nat, initial: seq<Peer>): Lookup {
    Head(Lookup(key, alpha, initial, [], 0, 0, Running))
  }

  function DeliverAll(s: Lookup, rs: seq<Reply>): Lookup {
    if rs == [] then s else Deliver(DeliverAll(s, rs[..|rs| - 1]), rs[|rs| - 1])
  }

  // ---------- flow control ----------

  /** Holds whenever the lookup waits or has ended. */
  ghost predicate Flow(s: Lookup) {
    && s.inProgress + s.received == |s.queried|
    && s.inProgress <= s.alpha
    && (s.phase.Running? ==> (s.inProgress == s.alpha || s.candidates == []) && (s.alpha >= 1 ==> s.inProgress >= 1))
    && (s.phase.NotFound? ==> s.candidates == [])
  }

  lemma HeadFlow(s: Lookup)
    requires s.inProgress + s.received == |s.queried| && s.inProgress <= s.alpha
    requires s.phase.Running?
    ensures Flow(Head(s))
  {
  }

  // Throughout any run the counter is queries spawned minus replies received, never above
  // alpha, and positive at every wait; with replies left over only when all are in flight.
  lemma {:induction false} FlowControl(key: Id, alpha: nat, initial: seq<Peer>, rs: seq<Reply>)
    ensures var s := DeliverAll(Begin(key, alpha, initial), rs);
            && Flow(s) && s.key == key && s.alpha == alpha && s.received <= |rs|
            && (alpha >= 1 && s.phase.Running? ==> s.received == |rs|)
  {
    if rs == [] {
      HeadFlow(Lookup(key, alpha, initial, [], 0, 0, Running));
    } else {
      FlowControl(key, alpha, initial, rs[..|rs| - 1]);
      DeliverFlow(DeliverAll(Begin(key, alpha, initial), rs[..|rs| - 1]), rs[|rs| - 1]);
    }
  }

  lemma DeliverFlow(s: Lookup, r: Reply)
    requires Flow(s)
    ensures var d := Deliver(s, r);
            && Flow(d) && d.key == s.key && d.alpha == s.alpha
            && d.received == (if Waiting(s) then s.received + 1 else s.received)
  {
    if Waiting(s) {
      var u := Receive(s, r);
      assert u.queried == s.queried && u.inProgress + u.received == |u.queried|;
      if u.phase.Running? {
        HeadFlow(u);
      }
    }
  }

  /** Gave up while queries were in flight. */
  predicate GaveUpEarly(s: Lookup) {
    s.phase.NotFound? && s.inProgress > 0
  }

  /** Whatever arrives, the lookup gives up only after every query was answered. */
  ghost predicate Conclusive(key: Id, alpha: nat, initial: seq<Peer>) {
    forall rs :: !GaveUpEarly(DeliverAll(Begin(key, alpha, initial), rs))
  }

  // Whether giving up is conclusive can be told before the lookup starts.
  lemma ConclusiveIff(key: Id, alpha: nat, initial: seq<Peer>)
    ensures Conclusive(key, alpha, initial) <==> alpha <= 1 || initial == []
  {
    if alpha <= 1 || initial == [] {
      forall rs
        ensures !GaveUpEarly(DeliverAll(Begin(key, alpha, initial), rs))
      {
        if initial == [] {
          NothingToAsk(key, alpha, rs);
        } else if alpha == 1 {
          SingleIsConclusive(key, initial, rs);
        } else {
          WithoutAlpha(key, initial, rs);
        }
      }
    } else {
      var rs := GivesUpEarly(key, alpha, initial);
    }
  }

  // With alpha above one and a peer to ask, some replies make the lookup give up early: if
  // there is only one peer, it names another twice; from then on every query fails.
  lemma GivesUpEarly(key: Id, alpha: nat, initial: seq<Peer>) returns (rs: seq<Reply>)
    requires alpha >= 2 && initial != []
    ensures GaveUpEarly(DeliverAll(Begin(key, alpha, initial), rs))
  {
    var b := Begin(key, alpha, initial);
    BeginCounts(key, alpha, initial);
    if |initial| > 1 {
      rs := FailUntilEmpty(b);
    } else {
      var x := Peer(Zero(), b.queried[0].address + "x");
      assert x !in b.queried by {
        assert |x.address| > |b.queried[0].address|;
      }
      NamesTwice(b, x);
      var rest := FailUntilEmpty(Deliver(b, Answer([], [x, x])));
      rs := [Answer([], [x, x])] + rest;
      DeliverCons(b, Answer([], [x, x]), rest);
    }
  }

  lemma BeginCounts(key: Id, alpha: nat, initial: seq<Peer>)
    requires initial != []
    ensures var b := Begin(key, alpha, initial);
            && b.phase.Running? && b.alpha == alpha && b.inProgress == Min(alpha, |initial|) == |b.queried|
            && |b.candidates| == |initial| - b.inProgress
  {
  }

  lemma NamesTwice(s: Lookup, x: Peer)
    requires s.phase.Running? && s.inProgress == 1 && s.alpha >= 2 && s.candidates == [] && x !in s.queried
    ensures var d := Deliver(s, Answer([], [x, x]));
            d.phase.Running? && d.alpha == s.alpha && d.inProgress == 2 && d.candidates == []
  {
    TwiceFresh(s, x);
  }

  lemma {:induction false} FailUntilEmpty(s: Lookup) returns (rs: seq<Reply>)
    requires s.phase.Running? && s.inProgress >= 2 && (s.inProgress == s.alpha || s.candidates == [])
    ensures GaveUpEarly(DeliverAll(s, rs))
    decreases |s.candidates|
  {
    if s.candidates == [] {
      rs := [Failed];
      DeliverOne(s, Failed);
    } else {
      var rest := FailUntilEmpty(Deliver(s, Failed));
      rs := [Failed] + rest;
      DeliverCons(s, Failed, rest);
    }
  }

  lemma {:induction false} DeliverCons(s: Lookup, r: Reply, rs: seq<Reply>)
    ensures DeliverAll(s, [r] + rs) == DeliverAll(Deliver(s, r), rs)
  {
    if rs == [] {
      DeliverOne(s, r);
      assert [r] + rs == [r];
    } else {
      var n := |rs| - 1;
      DeliverCons(s, r, rs[..n]);
      assert ([r] + rs)[..n + 1] == [r] + rs[..n];
    }
  }

  lemma {:induction false} NothingToAsk(key: Id, alpha: nat, rs: seq<Reply>)
    ensures DeliverAll(Begin(key, alpha, []), rs) == Begin(key, alpha, [])
    ensures !GaveUpEarly(DeliverAll(Begin(key, alpha, []), rs))
  {
    if rs != [] {
      NothingToAsk(key, alpha, rs[..|rs| - 1]);
    }
  }

  lemma DeliverOne(s: Lookup, r: Reply)
    ensures DeliverAll(s, [r]) == Deliver(s, r)
  {
    assert [r][..0] == [];
  }

  lemma {:induction false} SingleIsConclusive(key: Id, initial: seq<Peer>, rs: seq<Reply>)
    ensures !GaveUpEarly(DeliverAll(Begin(key, 1, initial), rs))
  {
    if rs != [] {
      SingleIsConclusive(key, initial, rs[..|rs| - 1]);
      FlowControl(key, 1, initial, rs[..|rs| - 1]);
    }
  }

  lemma {:induction false} WithoutAlpha(key: Id, initial: seq<Peer>, rs: seq<Reply>)
    ensures DeliverAll(Begin(key, 0, initial), rs) == Begin(key, 0, initial)
    ensures Begin(key, 0, initial).phase.Running? <==> initial != []
    ensures !GaveUpEarly(DeliverAll(Begin(key, 0, initial), rs))
  {
    if rs != [] {
      WithoutAlpha(key, initial, rs[..|rs| - 1]);
    }
  }

  // ---------- greed ----------

  lemma {:induction false} ReverseMembers(s: seq<Peer>)
    ensures multiset(Reverse(s)) == multiset(s)
  {
    if s != [] {
      ReverseMembers(s[1..]);
      assert s == [s[0]] + s[1..];
    }
  }

  lemma {:induction false} ReverseAt(s: seq<Peer>, i: nat)
    requires i < |s|
    ensures Reverse(s)[i] == s[|s| - 1 - i]
  {
    if i < |s| - 1 {
      ReverseAt(s[1..], i);
    }
  }

  lemma TailReversed(sorted: seq<Peer>, m: nat, t: Id)
    requires m <= |sorted| && Sorted(sorted, t, FarthestFirst)
    ensures Sorted(Reverse(sorted[m..]), t, NearestFirst)
  {
    var r := Reverse(sorted[m..]);
    forall i, j | 0 <= i < j < |r|
      ensures Rank(r[i], t, NearestFirst) <= Rank(r[j], t, NearestFirst)
    {
      ReverseAt(sorted[m..], i);
      ReverseAt(sorted[m..], j);
      RankAt(sorted, t, |sorted| - 1 - j, |sorted| - 1 - i);
    }
  }

  lemma TailIsNearer(sorted: seq<Peer>, m: nat, t: Id, p: Peer, q: Peer)
    requires m <= |sorted| && Sorted(sorted, t, FarthestFirst) && p in sorted[m..] && q in sorted[..m]
    ensures Distance(p.id, t) <= Distance(q.id, t)
  {
    var i :| 0 <= i < |sorted| - m && sorted[m..][i] == p;
    var j :| 0 <= j < m && sorted[..m][j] == q;
    RankAt(sorted, t, j, m + i);
  }

  lemma SplitMultiset(s: seq<Peer>, m: nat)
    requires m <= |s|
    ensures multiset(Reverse(s[m..])) + multiset(s[..m]) == multiset(s)
  {
    ReverseMembers(s[m..]);
    assert s == s[..m] + s[m..];
  }

  lemma SpawnSplits(s: Lookup)
    ensures s.queried <= Spawned(s).queried
    ensures multiset(Spawned(s).queried[|s.queried|..]) + multiset(Spawned(s).candidates) == multiset(s.candidates)
  {
    var sorted := Sort(s.candidates, s.key, FarthestFirst);
    var m := |sorted| - Quota(s);
    var batch := Reverse(sorted[m..]);
    SplitMultiset(sorted, m);
    assert (s.queried + batch)[|s.queried|..] == batch;
  }

  // Queries go out nearest first, and nothing left behind is nearer than what was queried.
  lemma SpawnsNearest(s: Lookup)
    ensures var batch := Spawned(s).queried[|s.queried|..];
            && Sorted(batch, s.key, NearestFirst)
            && forall p, q :: p in batch && q in Spawned(s).candidates ==>
                 Distance(p.id, s.key) <= Distance(q.id, s.key)
  {
    var sorted := Sort(s.candidates, s.key, FarthestFirst);
    var m := |sorted| - Quota(s);
    var batch := Spawned(s).queried[|s.queried|..];
    assert batch == Reverse(sorted[m..]);
    SortIsStable(s.candidates, s.key, FarthestFirst);
    TailReversed(sorted, m, s.key);
    forall p, q | p in batch && q in sorted[..m]
      ensures Distance(p.id, s.key) <= Distance(q.id, s.key)
    {
      ReverseMembers(sorted[m..]);
      assert p in multiset(batch);
      TailIsNearer(sorted, m, s.key, p, q);
    }
  }

  lemma RankAt(s: seq<Peer>, t: Id, i: nat, j: nat)
    requires Sorted(s, t, FarthestFirst) && i < j < |s|
    ensures Distance(s[j].id, t) <= Distance(s[i].id, t)
  {
    assert Rank(s[i], t, FarthestFirst) <= Rank(s[j], t, FarthestFirst);
  }

  // ---------- the worklist ----------

  /** Every peer handed to the lookup: the initial ones and those of the value-less answers. */
  function Learned(initial: seq<Peer>, rs: seq<Reply>): seq<Peer> {
    if rs == [] then initial
    else
      var r := rs[|rs| - 1];
      Learned(initial, rs[..|rs| - 1]) + if r.Answer? && r.value == [] then r.peers else []
  }

  function Work(s: Lookup): seq<Peer> {
    s.queried + s.candidates
  }

  lemma HeadKeepsWork(s: Lookup)
    ensures multiset(Work(Head(s))) == multiset(Work(s))
    ensures NoDup(Work(Head(s))) <==> NoDup(Work(s))
    ensures forall p :: p in Work(Head(s)) <==> p in Work(s)
  {
    if s.candidates != [] {
      var u := Spawned(s);
      SpawnSplits(s);
      assert u.queried == s.queried + u.queried[|s.queried|..];
    }
    forall p
      ensures p in Work(Head(s)) <==> p in Work(s)
    {
      assert p in Work(s) <==> p in multiset(Work(s));
      assert p in Work(Head(s)) <==> p in multiset(Work(Head(s)));
    }
  }

  lemma BeginWork(key: Id, alpha: nat, initial: seq<Peer>)
    ensures NoDup(Work(Begin(key, alpha, initial))) <==> NoDup(initial)
    ensures forall p :: p in Work(Begin(key, alpha, initial)) <==> p in initial
  {
    var s := Lookup(key, alpha, initial, [], 0, 0, Running);
    HeadKeepsWork(s);
    assert Work(s) == initial;
  }

  lemma DeliverLearns(s: Lookup, r: Reply, p: Peer)
    requires Waiting(s)
    ensures p in Work(Deliver(s, r)) <==> p in Work(s) || (r.Answer? && r.value == [] && p in r.peers)
    ensures Deliver(s, r).received == s.received + 1
  {
    var u := Receive(s, r);
    if r.Answer? {
      FilterMembers(r.peers, Unknown(s.queried, s.candidates));
    }
    HeadKeepsWork(u);
  }

  // The work list holds exactly the learned peers, whatever the replies contain.
  lemma {:induction false} WorkIsLearned(key: Id, alpha: nat, initial: seq<Peer>, rs: seq<Reply>, p: Peer)
    ensures var s := DeliverAll(Begin(key, alpha, initial), rs);
            s.received <= |rs| && (p in Work(s) <==> p in Learned(initial, rs[..s.received]))
  {
    if rs == [] {
      BeginWork(key, alpha, initial);
      FlowControl(key, alpha, initial, rs);
    } else {
      var n := |rs| - 1;
      var s := DeliverAll(Begin(key, alpha, initial), rs[..n]);
      WorkIsLearned(key, alpha, initial, rs[..n], p);
      if Waiting(s) {
        FlowControl(key, alpha, initial, rs[..n]);
        DeliverLearns(s, rs[n], p);
        LearnedSnoc(initial, rs, p);
      } else {
        assert rs[..n][..s.received] == rs[..s.received];
      }
    }
  }

  lemma LearnedSnoc(initial: seq<Peer>, rs: seq<Reply>, p: Peer)
    requires rs != []
    ensures rs[..|rs| - 1][..|rs| - 1] == rs[..|rs| - 1] && rs[..|rs|] == rs
    ensures var r := rs[|rs| - 1];
            p in Learned(initial, rs) <==>
            p in Learned(initial, rs[..|rs| - 1]) || (r.Answer? && r.value == [] && p in r.peers)
  {
  }

  lemma AllQueried(s: Lookup)
    requires Flow(s) && s.phase.NotFound?
    ensures forall p :: p in Work(s) <==> p in s.queried
  {
  }

  lemma LearnedIsQueried(key: Id, alpha: nat, initial: seq<Peer>, rs: seq<Reply>, p: Peer, s: Lookup)
    requires s == DeliverAll(Begin(key, alpha, initial), rs) && s.phase.NotFound?
    ensures s.received <= |rs| && (p in Learned(initial, rs[..s.received]) <==> p in s.queried)
  {
    WorkIsLearned(key, alpha, initial, rs, p);
    assert Flow(s) by { FlowControl(key, alpha, initial, rs); }
    AllQueried(s);
  }

  // A NotFound means every peer ever learned was queried.
  lemma NotFoundIsExhaustive(key: Id, alpha: nat, initial: seq<Peer>, rs: seq<Reply>, s: Lookup)
    requires s == DeliverAll(Begin(key, alpha, initial), rs) && s.phase.NotFound?
    ensures s.received <= |rs| && forall p :: p in Learned(initial, rs[..s.received]) <==> p in s.queried
  {
    assert s.received <= |rs| by { FlowControl(key, alpha, initial, rs); }
    forall p
      ensures p in Learned(initial, rs[..s.received]) <==> p in s.queried
    {
      LearnedIsQueried(key, alpha, initial, rs, p, s);
    }
  }

  // A value found is one a reply carried.
  lemma {:induction false} FoundWasAnswered(key: Id, alpha: nat, initial: seq<Peer>, rs: seq<Reply>)
    requires DeliverAll(Begin(key, alpha, initial), rs).phase.Found?
    ensures exists i :: 0 <= i < |rs| && rs[i].Answer?
                        && rs[i].value == DeliverAll(Begin(key, alpha, initial), rs).phase.value != []
  {
    var n := |rs| - 1;
    if n >= 0 && DeliverAll(Begin(key, alpha, initial), rs[..n]).phase.Found? {
      FoundWasAnswered(key, alpha, initial, rs[..n]);
    }
  }

  predicate Valued(r: Reply) {
    r.Answer? && r.value != []
  }

  /** Among the first n replies only the last carries a value, and that only if found. */
  ghost predicate FirstValue(rs: seq<Reply>, n: nat, phase: Phase) {
    && n <= |rs|
    && (if phase.Found? then
          n > 0 && Valued(rs[n - 1]) && rs[n - 1].value == phase.value && forall i :: 0 <= i < n - 1 ==> !Valued(rs[i])
        else forall i :: 0 <= i < n ==> !Valued(rs[i]))
  }

  lemma DeliverPhase(s: Lookup, r: Reply)
    requires Waiting(s)
    ensures var d := Deliver(s, r);
            && d.received == s.received + 1
            && (if Valued(r) then d.phase == Found(r.value) else !d.phase.Found?)
  {
  }

  lemma FirstValueExtends(rs: seq<Reply>, n: nat, phase: Phase)
    requires rs != [] && FirstValue(rs[..|rs| - 1], n, phase)
    ensures FirstValue(rs, n, phase)
  {
  }

  lemma FirstValueSnoc(rs: seq<Reply>, before: Phase, after: Phase)
    requires rs != [] && FirstValue(rs[..|rs| - 1], |rs| - 1, before) && !before.Found?
    requires if Valued(rs[|rs| - 1]) then after == Found(rs[|rs| - 1].value) else !after.Found?
    ensures FirstValue(rs, |rs|, after)
  {
    assert forall i :: 0 <= i < |rs| - 1 ==> rs[..|rs| - 1][i] == rs[i];
  }

  lemma FirstValueStep(s: Lookup, rs: seq<Reply>)
    requires rs != [] && FirstValue(rs[..|rs| - 1], s.received, s.phase) && (Waiting(s) ==> s.received == |rs| - 1)
    ensures var d := Deliver(s, rs[|rs| - 1]); FirstValue(rs, d.received, d.phase)
  {
    if Waiting(s) {
      DeliverPhase(s, rs[|rs| - 1]);
      FirstValueSnoc(rs, s.phase, Deliver(s, rs[|rs| - 1]).phase);
    } else {
      FirstValueExtends(rs, s.received, s.phase);
    }
  }

  lemma {:induction false} FirstValueEnds(key: Id, alpha: nat, initial: seq<Peer>, rs: seq<Reply>)
    ensures var s := DeliverAll(Begin(key, alpha, initial), rs); FirstValue(rs, s.received, s.phase)
  {
    if rs != [] {
      var n := |rs| - 1;
      FirstValueEnds(key, alpha, initial, rs[..n]);
      FlowControl(key, alpha, initial, rs[..n]);
      FirstValueStep(DeliverAll(Begin(key, alpha, initial), rs[..n]), rs);
    }
  }

  // The lookup has found v exactly when the last reply it handled carries v and none before
  // it carried a value; in particular one that gave up handled no value at all.
  lemma FoundIff(key: Id, alpha: nat, initial: seq<Peer>, rs: seq<Reply>, v: seq<Byte>)
    ensures var s := DeliverAll(Begin(key, alpha, initial), rs);
            && s.received <= |rs|
            && (s.phase == Found(v) <==>
                  && s.received > 0 && rs[s.received - 1].Answer? && rs[s.received - 1].value == v != []
                  && forall i :: 0 <= i < s.received - 1 ==> !Valued(rs[i]))
            && (!s.phase.Found? <==> forall i :: 0 <= i < s.received ==> !Valued(rs[i]))
  {
    FirstValueEnds(key, alpha, initial, rs);
  }

  // ---------- at most one query per peer ----------

  /** The reply names no new peer twice. */
  ghost predicate Clean(s: Lookup, r: Reply) {
    Waiting(s) && r.Answer? && r.value == [] ==> NoDup(FreshPeers(s, r.peers))
  }

  lemma ReceiveNoDupIff(s: Lookup, r: Reply)
    requires Waiting(s)
    ensures NoDup(Work(Receive(s, r))) <==> NoDup(Work(s)) && Clean(s, r)
  {
    if r.Answer? && r.value == [] {
      var f := FreshPeers(s, r.peers);
      FilterMembers(r.peers, Unknown(s.queried, s.candidates));
      assert Work(Receive(s, r)) == Work(s) + f;
      JoinNoDupIff(Work(s), f);
    }
  }

  lemma DeliverNoDupIff(s: Lookup, r: Reply)
    ensures NoDup(Work(Deliver(s, r))) <==> NoDup(Work(s)) && Clean(s, r)
  {
    if Waiting(s) {
      ReceiveNoDupIff(s, r);
      HeadKeepsWork(Receive(s, r));
    }
  }

  lemma JoinNoDupIff(a: seq<Peer>, b: seq<Peer>)
    requires forall p :: p in a ==> p !in b
    ensures NoDup(a + b) <==> NoDup(a) && NoDup(b)
  {
    if NoDup(a + b) {
      forall p
        ensures multiset(a)[p] <= 1 && multiset(b)[p] <= 1
      {
        assert multiset(a + b)[p] == multiset(a)[p] + multiset(b)[p];
      }
    } else if NoDup(a) && NoDup(b) {
      NoDupJoin(a, b);
    }
  }

  // No peer is on the work list twice exactly when the initial list repeats no peer and
  // no reply handled so far named a new peer twice.
  lemma {:induction false} QueryOnceIff(key: Id, alpha: nat, initial: seq<Peer>, rs: seq<Reply>)
    ensures NoDup(Work(DeliverAll(Begin(key, alpha, initial), rs))) <==>
            NoDup(initial)
            && forall i :: 0 <= i < |rs| ==> CleanAt(Begin(key, alpha, initial), rs, i)
  {
    if rs == [] {
      BeginWork(key, alpha, initial);
    } else {
      var n := |rs| - 1;
      QueryOnceIff(key, alpha, initial, rs[..n]);
      DeliverNoDupIff(DeliverAll(Begin(key, alpha, initial), rs[..n]), rs[n]);
      CleanPrefix(Begin(key, alpha, initial), rs);
    }
  }

  /** Reply i of the run is clean. */
  ghost predicate CleanAt(b: Lookup, rs: seq<Reply>, i: nat)
    requires i < |rs|
  {
    Clean(DeliverAll(b, rs[..i]), rs[i])
  }

  lemma CleanEarlier(b: Lookup, rs: seq<Reply>, n: nat, i: nat)
    requires i < n <= |rs|
    ensures CleanAt(b, rs[..n], i) <==> CleanAt(b, rs, i)
  {
    assert rs[..n][..i] == rs[..i];
  }

  lemma CleanPrefix(b: Lookup, rs: seq<Reply>)
    requires rs != []
    ensures var n := |rs| - 1;
            (forall i :: 0 <= i < |rs| ==> CleanAt(b, rs, i)) <==>
            CleanAt(b, rs, n) && forall i :: 0 <= i < n ==> CleanAt(b, rs[..n], i)
  {
    var n := |rs| - 1;
    forall i | 0 <= i < n
      ensures CleanAt(b, rs[..n], i) <==> CleanAt(b, rs, i)
    {
      CleanEarlier(b, rs, n, i);
    }
  }

  ghost predicate RepliesNoDup(rs: seq<Reply>) {
    forall i :: 0 <= i < |rs| && rs[i].Answer? ==> NoDup(rs[i].peers)
  }

  // Duplicate-free replies suffice: queried and candidates are disjoint and duplicate-free.
  lemma QueryOnce(key: Id, alpha: nat, initial: seq<Peer>, rs: seq<Reply>)
    requires NoDup(initial) && RepliesNoDup(rs)
    ensures NoDup(Work(DeliverAll(Begin(key, alpha, initial), rs)))
  {
    QueryOnceIff(key, alpha, initial, rs);
    forall i | 0 <= i < |rs|
      ensures CleanAt(Begin(key, alpha, initial), rs, i)
    {
      var s := DeliverAll(Begin(key, alpha, initial), rs[..i]);
      if rs[i].Answer? {
        FilterMultiset(rs[i].peers, Unknown(s.queried, s.candidates));
      }
    }
  }

  // One reply that names a new peer twice makes the lookup query it twice.
  lemma DuplicateIsQueriedTwice(key: Id, p: Peer, q: Peer)
    requires p != q
    ensures DeliverAll(Begin(key, 2, [p]), [Answer([], [q, q])]).queried == [p, q, q]
  {
    var b := Begin(key, 2, [p]);
    SpawnAll(Lookup(key, 2, [p], [], 0, 0, Running), p);
    assert b == Lookup(key, 2, [], [p], 1, 0, Running);
    TwiceFresh(b, q);
    var u := Lookup(key, 2, [q, q], [p], 0, 1, Running);
    assert Receive(b, Answer([], [q, q])) == u;
    SpawnAll(u, q);
    DeliverOne(b, Answer([], [q, q]));
    assert [p] + [q, q] == [p, q, q];
  }

  lemma TwiceFresh(s: Lookup, q: Peer)
    requires q !in s.queried && s.candidates == []
    ensures [] + FreshPeers(s, [q, q]) == [q, q]
  {
    FilterAll([q, q], Unknown(s.queried, s.candidates));
  }

  lemma AllEqual(a: seq<Peer>, b: seq<Peer>, q: Peer)
    requires multiset(a) == multiset(b) && forall p :: p in b ==> p == q
    ensures a == b
  {
    assert |multiset(a)| == |a| && |multiset(b)| == |b|;
    forall i | 0 <= i < |a|
      ensures a[i] == b[i]
    {
      assert a[i] in multiset(a) && b[i] in b;
      assert a[i] in b;
    }
  }

  lemma ConstantList(s: seq<Peer>, q: Peer, key: Id)
    requires forall p :: p in s ==> p == q
    ensures Sort(s, key, FarthestFirst) == s && Reverse(s) == s
  {
    AllEqual(Sort(s, key, FarthestFirst), s, q);
    ReverseMembers(s);
    AllEqual(Reverse(s), s, q);
  }

  // With room for all, identical candidates are all queried at once.
  lemma SpawnAll(s: Lookup, q: Peer)
    requires s.inProgress + |s.candidates| <= s.alpha && forall p :: p in s.candidates ==> p == q
    ensures Spawned(s) == s.(candidates := [], queried := s.queried + s.candidates,
                             inProgress := s.inProgress + |s.candidates|)
  {
    ConstantList(s.candidates, q, s.key);
    assert s.candidates[..0] == [] && s.candidates[0..] == s.candidates;
  }

  // ---------- termination ----------

  function Measure(s: Lookup, universe: set<Peer>): int {
    2 * |universe - set p | p in s.queried| + s.inProgress
  }

  ghost predicate Within(s: seq<Peer>, universe: set<Peer>) {
    forall p :: p in s ==> p in universe
  }

  lemma {:induction false} NoDupSize(s: seq<Peer>, universe: set<Peer>)
    requires NoDup(s) && Within(s, universe)
    ensures |universe - set p | p in s| == |universe| - |s|
  {
    var m := set p | p in s;
    if s == [] {
      assert universe - m == universe;
    } else {
      var p := s[|s| - 1];
      var t := s[..|s| - 1];
      LastIsUnique(s, p);
      assert s == t + [p];
      assert NoDup(t) by { JoinNoDupIff(t, [p]); }
      NoDupSize(t, universe);
      assert universe - m == (universe - set q | q in t) - {p};
    }
  }

  lemma LastIsUnique(s: seq<Peer>, p: Peer)
    requires NoDup(s) && s != [] && s[|s| - 1] == p
    ensures p !in s[..|s| - 1]
  {
    NoDupMeaning(s);
  }

  lemma NoDupPrefix(a: seq<Peer>, b: seq<Peer>)
    requires NoDup(a + b)
    ensures NoDup(a)
  {
    forall p
      ensures multiset(a)[p] <= 1
    {
      assert multiset(a + b)[p] == multiset(a)[p] + multiset(b)[p];
    }
  }

  /** The peers of the universe that the lookup has not heard of. */
  function Unseen(s: Lookup, universe: set<Peer>): nat {
    |universe - set p | p in Work(s)|
  }

  /** A candidate weighs more than the query it becomes. */
  function Busy(s: Lookup): nat {
    2 * |s.candidates| + s.inProgress
  }

  /** The reply brings no peers from outside. */
  ghost predicate Inside(r: Reply, universe: set<Peer>) {
    r.Answer? && r.value == [] ==> Within(r.peers, universe)
  }

  lemma WorkStaysWithin(s: Lookup, r: Reply, universe: set<Peer>)
    requires Within(Work(s), universe) && Inside(r, universe)
    ensures Within(Work(Deliver(s, r)), universe)
    ensures forall p :: p in Work(s) ==> p in Work(Deliver(s, r))
  {
    if Waiting(s) {
      forall p
        ensures p in Work(Deliver(s, r)) ==> p in universe
        ensures p in Work(s) ==> p in Work(Deliver(s, r))
      {
        DeliverLearns(s, r, p);
      }
    }
  }

  lemma HeadBusy(s: Lookup)
    ensures Busy(Head(s)) <= Busy(s)
  {
  }

  // A reply that names nobody new leaves one query less to wait for.
  lemma NothingNew(s: Lookup, r: Reply)
    requires Waiting(s) && (r.Answer? && r.value == [] ==> FreshPeers(s, r.peers) == [])
    ensures Busy(Deliver(s, r)) < Busy(s)
    ensures forall p :: p in Work(Deliver(s, r)) <==> p in Work(s)
  {
    var u := Receive(s, r);
    assert u.candidates == s.candidates && u.queried == s.queried;
    HeadBusy(u);
    HeadKeepsWork(u);
    assert Work(u) == Work(s);
  }

  lemma SmallerRest(universe: set<Peer>, a: set<Peer>, b: set<Peer>, p: Peer)
    requires a <= b && p in universe && p in b && p !in a
    ensures |universe - b| < |universe - a|
  {
    assert p in universe - a && p !in universe - b;
    assert universe - b <= (universe - a) - {p};
    SubsetSize(universe - b, (universe - a) - {p});
  }

  lemma {:induction false} SubsetSize(a: set<Peer>, b: set<Peer>)
    requires a <= b
    ensures |a| <= |b|
  {
    if p :| p in a {
      SubsetSize(a - {p}, b - {p});
    }
  }

  lemma SomethingNew(s: Lookup, r: Reply, universe: set<Peer>)
    requires Waiting(s) && Within(Work(s), universe) && Inside(r, universe)
    requires r.Answer? && r.value == [] && FreshPeers(s, r.peers) != []
    ensures Unseen(Deliver(s, r), universe) < Unseen(s, universe)
  {
    var p := FreshPeers(s, r.peers)[0];
    FilterMembers(r.peers, Unknown(s.queried, s.candidates));
    assert p in FreshPeers(s, r.peers);
    DeliverLearns(s, r, p);
    WorkStaysWithin(s, r, universe);
    SmallerRest(universe, (set q | q in Work(s)), (set q | q in Work(Deliver(s, r))), p);
  }

  // Every reply handled brings the lookup nearer to its end, whatever the reply contains:
  // it names somebody new, of whom there are finitely many, or it leaves less to wait for.
  lemma ReplyLowers(s: Lookup, r: Reply, universe: set<Peer>)
    requires Waiting(s) && Within(Work(s), universe) && Inside(r, universe)
    ensures var d := Deliver(s, r);
            || Unseen(d, universe) < Unseen(s, universe)
            || (Unseen(d, universe) == Unseen(s, universe) && Busy(d) < Busy(s))
  {
    if r.Answer? && r.value == [] && FreshPeers(s, r.peers) != [] {
      SomethingNew(s, r, universe);
    } else {
      NothingNew(s, r);
      assert (set p | p in Work(Deliver(s, r))) == set p | p in Work(s);
    }
  }

  /** The first n of an endless supply of replies. */
  function Arrivals(rs: nat -> Reply, n: nat): (r: seq<Reply>)
    ensures |r| == n && forall i :: 0 <= i < n ==> r[i] == rs(i)
  {
    seq(n, i requires 0 <= i => rs(i))
  }

  // With all peers in a finite universe, every lookup ends its wait after finitely many
  // replies, whatever they contain and however often they repeat a peer. It has then found
  // the value or given up, except with alpha 0 and a first candidate, when it waits forever.
  lemma LookupTerminates(key: Id, alpha: nat, initial: seq<Peer>, rs: nat -> Reply, universe: set<Peer>)
    returns (n: nat)
    requires Within(initial, universe) && forall i: nat :: Inside(rs(i), universe)
    ensures !Waiting(DeliverAll(Begin(key, alpha, initial), Arrivals(rs, n)))
    ensures DeliverAll(Begin(key, alpha, initial), Arrivals(rs, n)).phase.Running? <==> alpha == 0 && initial != []
  {
    BeginWork(key, alpha, initial);
    n := WaitEnds(Begin(key, alpha, initial), rs, 0, universe);
    FlowControl(key, alpha, initial, Arrivals(rs, n));
    if alpha == 0 {
      WithoutAlpha(key, initial, Arrivals(rs, n));
    }
  }

  lemma {:induction false} WaitEnds(start: Lookup, rs: nat -> Reply, m: nat, universe: set<Peer>) returns (n: nat)
    requires Within(Work(DeliverAll(start, Arrivals(rs, m))), universe) && forall i: nat :: Inside(rs(i), universe)
    ensures !Waiting(DeliverAll(start, Arrivals(rs, n)))
    decreases Unseen(DeliverAll(start, Arrivals(rs, m)), universe), Busy(DeliverAll(start, Arrivals(rs, m)))
  {
    var s := DeliverAll(start, Arrivals(rs, m));
    n := m;
    if Waiting(s) {
      ReplyLowers(s, rs(m), universe);
      WorkStaysWithin(s, rs(m), universe);
      assert Arrivals(rs, m + 1)[..m] == Arrivals(rs, m);
      assert DeliverAll(start, Arrivals(rs, m + 1)) == Deliver(s, rs(m));
      n := WaitEnds(start, rs, m + 1, universe);
    }
  }

  // As long as no reply names a new peer twice, each one brings down a single number.
  lemma MeasureDecreases(s: Lookup, r: Reply, universe: set<Peer>)
    requires Waiting(s) && Within(Work(s), universe) && Inside(r, universe)
    requires NoDup(Work(s)) && Clean(s, r) && s.inProgress <= s.alpha
    ensures 0 <= Measure(Deliver(s, r), universe) < Measure(s, universe)
  {
    var d := Deliver(s, r);
    WorkStaysWithin(s, r, universe);
    DeliverNoDupIff(s, r);
    NoDupPrefix(s.queried, s.candidates);
    NoDupPrefix(d.queried, d.candidates);
    assert Within(s.queried, universe) && Within(d.queried, universe);
    NoDupSize(s.queried, universe);
    NoDupSize(d.queried, universe);
    DeliverCounts(s, r);
  }

  lemma DeliverCounts(s: Lookup, r: Reply)
    requires Waiting(s)
    ensures |Deliver(s, r).queried| - |s.queried| == Deliver(s, r).inProgress - s.inProgress + 1
  {
  }

  // And then a lookup handles at most as many replies as there are peers.
  lemma ReplyBound(key: Id, alpha: nat, initial: seq<Peer>, rs: seq<Reply>, universe: set<Peer>)
    requires NoDup(initial) && RepliesNoDup(rs) && Within(initial, universe)
    requires forall i :: 0 <= i < |rs| ==> Inside(rs[i], universe)
    ensures DeliverAll(Begin(key, alpha, initial), rs).received <= |universe|
    ensures alpha >= 1 && |rs| > |universe| ==> !DeliverAll(Begin(key, alpha, initial), rs).phase.Running?
  {
    var s := DeliverAll(Begin(key, alpha, initial), rs);
    FlowControl(key, alpha, initial, rs);
    QueryOnce(key, alpha, initial, rs);
    WorkWithin(key, alpha, initial, rs, universe);
    NoDupPrefix(s.queried, s.candidates);
    assert Within(s.queried, universe);
    NoDupSize(s.queried, universe);
  }

  // A lookup never works on a peer that neither it nor a reply started from.
  lemma {:induction false} WorkWithin(key: Id, alpha: nat, initial: seq<Peer>, rs: seq<Reply>, universe: set<Peer>)
    requires Within(initial, universe) && forall i :: 0 <= i < |rs| ==> Inside(rs[i], universe)
    ensures Within(Work(DeliverAll(Begin(key, alpha, initial), rs)), universe)
  {
    if rs == [] {
      BeginWork(key, alpha, initial);
    } else {
      var n := |rs| - 1;
      WorkWithin(key, alpha, initial, rs[..n], universe);
      WorkStaysWithin(DeliverAll(Begin(key, alpha, initial), rs[..n]), rs[n], universe);
    }
  }
}
