/** Joining the network (src/lib.rs:121-199). Results of the introductions and of the pings
    are parameters, indexed like the requests. */
module Bootstraps {
  import opened Ids
  import opened Peers
  import opened Tables
  import opened Histories
  import opened RoutingTables
  import opened Messages

  /** `Vec::dedup`: drops an element equal to the one right before it. */
  function Dedup(s: seq<Peer>): seq<Peer> {
    if |s| <= 1 then s
    else if s[0] == s[1] then Dedup(s[1..])
    else [s[0]] + Dedup(s[1..])
  }

  function NoneOf(s: seq<Peer>): Peer -> bool {
    p => p !in s
  }

  ghost predicate IntroductionsReadable(n: nat, results: nat -> RpcResult) {
    forall i: nat :: i < n && results(i).Response? ==> AllDecodable(results(i).message)
  }

  /** The peers named by the first n introductions, in order. */
  ghost function Named(n: nat, results: nat -> RpcResult): seq<Peer>
    requires IntroductionsReadable(n, results)
  {
    if n == 0 then []
    else
      var r := results(n - 1);
      Named(n - 1, results) + if r.Response? then DecodeAll(r.message.closerPeers) else []
  }

  /** Those of the peers whose index satisfies f. */
  ghost function Selected(peers: seq<Peer>, f: nat -> bool): seq<Peer> {
    if peers == [] then []
    else
      var n := |peers| - 1;
      Selected(peers[..n], f) + if f(n) then [peers[n]] else []
  }

  ghost function Reached(results: nat -> RpcResult): nat -> bool {
    (i: nat) => results(i).Response?
  }

  /** Peers to ping: those offered, minus the bootstrap peers, sorted by id and deduplicated. */
  ghost function Candidates(bootstrapPeers: seq<Peer>, results: nat -> RpcResult): seq<Peer>
    requires IntroductionsReadable(|bootstrapPeers|, results)
  {
    Dedup(Sort(Filter(Named(|bootstrapPeers|, results), NoneOf(bootstrapPeers)), Zero(), NearestFirst))
  }

  /** An introduction that was answered names p. */
  ghost predicate Introduces(bootstrapPeers: seq<Peer>, results: nat -> RpcResult, p: Peer) {
    exists i: nat, q :: i < |bootstrapPeers| && results(i).Response? && q in results(i).message.closerPeers
                        && Decodable(q) && ProtoPeerToPeer(q) == p
  }

  /** Exactly the new peers that were named, by ascending id, no two adjacent ones equal. */
  ghost predicate PingsNamed(bootstrapPeers: seq<Peer>, results: nat -> RpcResult, pinged: seq<Peer>) {
    && (forall p :: p in pinged <==> p !in bootstrapPeers && Introduces(bootstrapPeers, results, p))
    && Ascending(pinged)
  }

  ghost predicate Ascending(s: seq<Peer>) {
    SortedById(s) && forall i :: 0 <= i < |s| - 1 ==> s[i] != s[i + 1]
  }

  ghost predicate SortedById(s: seq<Peer>) {
    forall i, j :: 0 <= i < j < |s| ==> Value(s[i].id) <= Value(s[j].id)
  }

  /** `out` lists the elements of `from` at the indexes that satisfy f, in order. */
  ghost predicate Picks(out: seq<Peer>, from: seq<Peer>, f: nat -> bool) {
    exists index: seq<nat> :: PicksAt(out, from, f, index)
  }

  ghost predicate PicksAt(out: seq<Peer>, from: seq<Peer>, f: nat -> bool, index: seq<nat>) {
    && |index| == |out|
    && (forall i, j :: 0 <= i < j < |index| ==> index[i] < index[j])
    && (forall i :: 0 <= i < |index| ==> index[i] < |from| && f(index[i]) && out[i] == from[index[i]])
    && forall j: nat :: j < |from| && f(j) ==> j in index
  }

  /** First the bootstrap peers that answered, then the pinged ones that did. */
  ghost predicate Survive(bootstrapPeers: seq<Peer>, results: nat -> RpcResult, pinged: seq<Peer>,
                          pings: nat -> bool, alive: seq<Peer>)
  {
    exists reached, answered ::
      && alive == reached + answered
      && Picks(reached, bootstrapPeers, Reached(results)) && Picks(answered, pinged, pings)
  }

  /** The table is offered every bootstrap peer that answered and every pinged peer that
      did, in that order. None is the panic on an introduction that names a peer which
      cannot be decoded; nothing is offered then. */
  method Bootstrap(table: RoutingTable, bootstrapPeers: seq<Peer>, results: nat -> RpcResult, pings: nat -> bool)
    returns (alive: Option<seq<Peer>>, pinged: seq<Peer>)
    requires table.Valid()
    modifies table.Repr
    ensures table.Valid()
    ensures alive.Some? <==> IntroductionsReadable(|bootstrapPeers|, results)
    ensures alive.Some? ==>
              && pinged == Candidates(bootstrapPeers, results)
              && PingsNamed(bootstrapPeers, results, pinged)
              && Survive(bootstrapPeers, results, pinged, pings, alive.value)
              && table.View() == Run(old(table.View()), alive.value)
    ensures alive.None? ==> table.View() == old(table.View())
  {
    var candidates, reached := Introduce(bootstrapPeers, results);
    if candidates.None? {
      return None, [];
    }
    pinged := candidates.value;
    CandidatesAreNamed(bootstrapPeers, results);
    var answered := Ping(pinged, pings);
    SelectedSurvive(bootstrapPeers, results, pinged, pings);
    OfferAll(table, reached + answered);
    alive := Some(reached + answered);
  }

  method Introduce(bootstrapPeers: seq<Peer>, results: nat -> RpcResult)
    returns (introduced: Option<seq<Peer>>, reached: seq<Peer>)
    ensures introduced.Some? <==> IntroductionsReadable(|bootstrapPeers|, results)
    ensures introduced.Some? ==>
              && introduced.value == Candidates(bootstrapPeers, results)
              && reached == Selected(bootstrapPeers, Reached(results))
  {
    var candidates := [];
    reached := [];
    var i := 0;
    while i < |bootstrapPeers|
      invariant i <= |bootstrapPeers| && IntroductionsReadable(i, results)
      invariant candidates == Named(i, results)
      invariant reached == Selected(bootstrapPeers[..i], Reached(results))
    {
      assert bootstrapPeers[..i + 1][..i] == bootstrapPeers[..i];
      var result := results(i);
      if result.Response? {
        if !AllDecodable(result.message) {
          return None, reached;
        }
        candidates := candidates + DecodeAll(result.message.closerPeers);
        reached := reached + [bootstrapPeers[i]];
      }
      i := i + 1;
    }
    assert bootstrapPeers[..i] == bootstrapPeers;
    candidates := Filter(candidates, NoneOf(bootstrapPeers));
    introduced := Some(Dedup(Sort(candidates, Zero(), NearestFirst)));
  }

  method Ping(candidates: seq<Peer>, pings: nat -> bool) returns (answered: seq<Peer>)
    ensures answered == Selected(candidates, pings)
  {
    answered := [];
    var i := 0;
    while i < |candidates|
      invariant i <= |candidates|
      invariant answered == Selected(candidates[..i], pings)
    {
      assert candidates[..i + 1][..i] == candidates[..i];
      if pings(i) {
        answered := answered + [candidates[i]];
      }
      i := i + 1;
    }
    assert candidates[..i] == candidates;
  }

  /** The table is valid and is t after the first i of the peers were offered. */
  ghost predicate HasOffered(table: RoutingTable, t: Table, alive: seq<Peer>, i: nat)
    requires Layout(t) && i <= |alive|
    reads table, table.buckets
  {
    table.Valid() && table.View() == Run(t, alive[..i])
  }

  /** One lock, one update per peer; refusals are only logged. */
  method OfferAll(table: RoutingTable, alive: seq<Peer>)
    requires table.Valid()
    modifies table.Repr
    ensures table.Valid() && fresh(table.Repr - old(table.Repr))
    ensures table.View() == Run(old(table.View()), alive)
  {
    ghost var t := table.View();
    var i := 0;
    while i < |alive|
      invariant i <= |alive| && HasOffered(table, t, alive, i)
      invariant fresh(table.Repr - old(table.Repr))
    {
      OfferNext(table, t, alive, i);
      i := i + 1;
    }
    assert alive[..i] == alive;
  }

  method OfferNext(table: RoutingTable, ghost t: Table, alive: seq<Peer>, i: nat)
    requires Layout(t) && i < |alive| && HasOffered(table, t, alive, i)
    modifies table.Repr
    ensures HasOffered(table, t, alive, i + 1) && fresh(table.Repr - old(table.Repr))
  {
    NextOffer(t, alive, i);
    var ok := table.Update(alive[i]);
  }

  lemma NextOffer(t: Table, alive: seq<Peer>, i: nat)
    requires Layout(t) && i < |alive|
    ensures Run(t, alive[..i + 1]) == Updated(Run(t, alive[..i]), alive[i]).table
  {
    assert alive[..i + 1][..i] == alive[..i];
  }

  // ---------- who is pinged, and who survives ----------

  lemma {:induction false} NamedMeaning(n: nat, results: nat -> RpcResult, p: Peer)
    requires IntroductionsReadable(n, results)
    ensures p in Named(n, results) <==>
            exists i: nat, q :: i < n && results(i).Response? && q in results(i).message.closerPeers
                                && Decodable(q) && ProtoPeerToPeer(q) == p
  {
    if n > 0 {
      NamedMeaning(n - 1, results, p);
      if results(n - 1).Response? {
        DecodedMeaning(results(n - 1).message.closerPeers, p);
      }
    }
  }

  lemma DecodedMeaning(ps: seq<ProtoPeer>, p: Peer)
    requires forall i :: 0 <= i < |ps| ==> Decodable(ps[i])
    ensures p in DecodeAll(ps) <==> exists q :: q in ps && Decodable(q) && ProtoPeerToPeer(q) == p
  {
    if p in DecodeAll(ps) {
      var i :| 0 <= i < |ps| && DecodeAll(ps)[i] == p;
      assert ps[i] in ps && ProtoPeerToPeer(ps[i]) == p;
    }
    if q :| q in ps && Decodable(q) && ProtoPeerToPeer(q) == p {
      var i :| 0 <= i < |ps| && ps[i] == q;
      assert DecodeAll(ps)[i] == p;
    }
  }

  lemma {:induction false} DedupAscends(s: seq<Peer>)
    requires SortedById(s)
    ensures Ascending(Dedup(s)) && (s != [] ==> Dedup(s) != [] && Dedup(s)[0] == s[0])
  {
    if |s| > 1 {
      DedupAscends(s[1..]);
      if s[0] != s[1] {
        ConsAscends(s[0], Dedup(s[1..]));
      }
    }
  }

  lemma ConsAscends(p: Peer, d: seq<Peer>)
    requires Ascending(d) && d != [] && p != d[0] && Value(p.id) <= Value(d[0].id)
    ensures Ascending([p] + d)
  {
    var e := [p] + d;
    forall i, j | 0 <= i < j < |e|
      ensures Value(e[i].id) <= Value(e[j].id)
    {
      assert e[j] == d[j - 1];
      if i > 0 {
        assert e[i] == d[i - 1];
      }
    }
  }

  lemma SortSortsById(s: seq<Peer>)
    ensures SortedById(Sort(s, Zero(), NearestFirst))
  {
    var d := Sort(s, Zero(), NearestFirst);
    SortIsStable(s, Zero(), NearestFirst);
    forall i, j | 0 <= i < j < |d|
      ensures Value(d[i].id) <= Value(d[j].id)
    {
      DistanceIdentifies(d[i].id, d[j].id, Zero());
      DistanceIdentifies(d[j].id, d[i].id, Zero());
      assert Rank(d[i], Zero(), NearestFirst) <= Rank(d[j], Zero(), NearestFirst);
    }
  }

  // Every new peer that an introduction names is pinged, and nobody else.
  lemma CandidatesAreNamed(bootstrapPeers: seq<Peer>, results: nat -> RpcResult)
    requires IntroductionsReadable(|bootstrapPeers|, results)
    ensures PingsNamed(bootstrapPeers, results, Candidates(bootstrapPeers, results))
  {
    var named := Named(|bootstrapPeers|, results);
    var fresh' := Filter(named, NoneOf(bootstrapPeers));
    SortSortsById(fresh');
    DedupAscends(Sort(fresh', Zero(), NearestFirst));
    forall p
      ensures p in Candidates(bootstrapPeers, results) <==>
              p !in bootstrapPeers && Introduces(bootstrapPeers, results, p)
    {
      DedupMembers(Sort(fresh', Zero(), NearestFirst), p);
      SortMembers(fresh', Zero(), NearestFirst);
      FilterMembers(named, NoneOf(bootstrapPeers));
      NamedMeaning(|bootstrapPeers|, results, p);
    }
  }

  lemma PicksNext(out: seq<Peer>, from: seq<Peer>, f: nat -> bool, index: seq<nat>)
    requires from != [] && PicksAt(out, from[..|from| - 1], f, index)
    ensures var n := |from| - 1;
            if f(n) then PicksAt(out + [from[n]], from, f, index + [n]) else PicksAt(out, from, f, index)
  {
    var n := |from| - 1;
    forall j: nat | j < |from| && f(j)
      ensures j in index + [n] && (j < n ==> j in index)
    {
    }
  }

  lemma {:induction false} SelectedPicks(peers: seq<Peer>, f: nat -> bool) returns (index: seq<nat>)
    ensures PicksAt(Selected(peers, f), peers, f, index)
  {
    if peers == [] {
      index := [];
    } else {
      var n := |peers| - 1;
      index := SelectedPicks(peers[..n], f);
      PicksNext(Selected(peers[..n], f), peers, f, index);
      if f(n) {
        index := index + [n];
      }
    }
  }

  lemma SelectedSurvive(bootstrapPeers: seq<Peer>, results: nat -> RpcResult, pinged: seq<Peer>, pings: nat -> bool)
    ensures Survive(bootstrapPeers, results, pinged, pings,
                    Selected(bootstrapPeers, Reached(results)) + Selected(pinged, pings))
  {
    var i := SelectedPicks(bootstrapPeers, Reached(results));
    var j := SelectedPicks(pinged, pings);
  }

  lemma PicksMeaning(out: seq<Peer>, from: seq<Peer>, f: nat -> bool, p: Peer)
    requires Picks(out, from, f)
    ensures p in out <==> exists j: nat :: j < |from| && f(j) && from[j] == p
  {
    var index :| PicksAt(out, from, f, index);
    if p in out {
      var i :| 0 <= i < |out| && out[i] == p;
      assert f(index[i]) && from[index[i]] == p;
    }
    if j: nat :| j < |from| && f(j) && from[j] == p {
      var i :| 0 <= i < |index| && index[i] == j;
      assert out[i] == p;
    }
  }

  // A peer ends up alive exactly if it is a bootstrap peer that answered, or a new one that
  // an introduction names and that answered a ping.
  lemma AliveIff(bootstrapPeers: seq<Peer>, results: nat -> RpcResult, pinged: seq<Peer>, pings: nat -> bool,
                 alive: seq<Peer>, p: Peer)
    requires PingsNamed(bootstrapPeers, results, pinged)
    requires Survive(bootstrapPeers, results, pinged, pings, alive)
    ensures p in alive <==>
            || (exists i: nat :: i < |bootstrapPeers| && bootstrapPeers[i] == p && results(i).Response?)
            || (p !in bootstrapPeers && Introduces(bootstrapPeers, results, p)
                && exists j: nat :: j < |pinged| && pinged[j] == p && pings(j))
  {
    var reached, answered :|
      && alive == reached + answered
      && Picks(reached, bootstrapPeers, Reached(results)) && Picks(answered, pinged, pings);
    PicksMeaning(reached, bootstrapPeers, Reached(results), p);
    PicksMeaning(answered, pinged, pings, p);
  }

  // ---------- what sorting by id before dedup achieves ----------

  /** `pattern` occurs in s in order, not necessarily contiguously. */
  predicate Occurs(pattern: seq<Peer>, s: seq<Peer>) {
    || pattern == []
    || (s != [] && if pattern[0] == s[0] then Occurs(pattern[1..], s[1..]) else Occurs(pattern, s[1..]))
  }

  lemma {:induction false} OccursInFilter(pattern: seq<Peer>, s: seq<Peer>, f: Peer -> bool)
    requires forall p :: p in pattern ==> f(p)
    ensures Occurs(pattern, Filter(s, f)) <==> Occurs(pattern, s)
  {
    if s != [] && pattern != [] {
      assert pattern[0] in pattern;
      OccursInFilter(pattern, s[1..], f);
      OccursInFilter(pattern[1..], s[1..], f);
      if f(s[0]) {
        assert Filter(s, f)[1..] == Filter(s[1..], f);
      }
    }
  }

  lemma {:induction false} OneOccurs(p: Peer, s: seq<Peer>)
    ensures Occurs([p], s) <==> p in s
  {
    if s != [] {
      OneOccurs(p, s[1..]);
    }
  }

  lemma {:induction false} TwoOccur(p: Peer, q: Peer, s: seq<Peer>)
    requires Occurs([p, q], s) && Sorted(s, Zero(), NearestFirst)
    ensures Rank(p, Zero(), NearestFirst) <= Rank(q, Zero(), NearestFirst)
  {
    if p == s[0] {
      assert [p, q][1..] == [q];
      OneOccurs(q, s[1..]);
    } else {
      TwoOccur(p, q, s[1..]);
    }
  }

  lemma {:induction false} DedupMembers(s: seq<Peer>, p: Peer)
    ensures p in Dedup(s) <==> p in s
  {
    if |s| > 1 {
      DedupMembers(s[1..], p);
    }
  }

  /** p comes back in s after another peer. */
  predicate Returns(p: Peer, q: Peer, s: seq<Peer>) {
    p != q && Occurs([p, q, p], s)
  }

  lemma ReturnsStep(p: Peer, q: Peer, s: seq<Peer>)
    requires s != [] && p != q
    ensures Returns(p, q, s) <==> if p == s[0] then Occurs([q, p], s[1..]) else Returns(p, q, s[1..])
  {
    assert [p, q, p][1..] == [q, p];
  }

  // Adjacent deduplication removes all duplicates exactly when no peer comes back after another.
  lemma {:induction false} DedupNoDupIff(s: seq<Peer>)
    ensures NoDup(Dedup(s)) <==> forall p, q :: !Returns(p, q, s)
  {
    if |s| > 1 {
      var a, t := s[0], s[1..];
      DedupNoDupIff(t);
      assert s == [a] + t;
      if a == t[0] {
        SameHeadReturns(a, t);
      } else {
        NewHeadReturns(a, t);
        DedupMembers(t, a);
        ConsNoDup(a, Dedup(t));
      }
    } else {
      forall p, q
        ensures !Returns(p, q, s)
      {
        ShortNeverReturns(p, q, s);
      }
    }
  }

  lemma ConsNoDup(a: Peer, s: seq<Peer>)
    ensures NoDup([a] + s) <==> a !in s && NoDup(s)
  {
    assert a in s <==> multiset(s)[a] > 0;
    forall p
      ensures multiset([a] + s)[p] == multiset(s)[p] + if p == a then 1 else 0
    {
    }
    if NoDup([a] + s) {
      assert multiset([a] + s)[a] <= 1;
      forall p
        ensures multiset(s)[p] <= 1
      {
        assert multiset([a] + s)[p] <= 1;
      }
    }
  }

  lemma ShortNeverReturns(p: Peer, q: Peer, s: seq<Peer>)
    requires |s| <= 1
    ensures !Returns(p, q, s)
  {
    if s != [] && p != q {
      ReturnsStep(p, q, s);
    }
  }

  lemma {:induction false} SecondOccurs(q: Peer, p: Peer, s: seq<Peer>)
    ensures Occurs([q, p], s) ==> p in s
  {
    if s != [] {
      assert [q, p][1..] == [p];
      OneOccurs(p, s[1..]);
      SecondOccurs(q, p, s[1..]);
    }
  }

  lemma SameHeadReturns(a: Peer, t: seq<Peer>)
    requires t != [] && a == t[0]
    ensures (forall p, q :: !Returns(p, q, [a] + t)) <==> forall p, q :: !Returns(p, q, t)
  {
    forall p, q | p != q
      ensures Returns(p, q, [a] + t) <==> Returns(p, q, t)
    {
      ReturnsStep(p, q, [a] + t);
      ReturnsStep(p, q, t);
      assert ([a] + t)[1..] == t;
    }
  }

  lemma NewHeadReturns(a: Peer, t: seq<Peer>)
    requires t != [] && a != t[0]
    ensures (forall p, q :: !Returns(p, q, [a] + t)) <==> a !in t && forall p, q :: !Returns(p, q, t)
  {
    assert ([a] + t)[1..] == t;
    forall p, q | p != q
      ensures Returns(p, q, t) ==> Returns(p, q, [a] + t)
      ensures Returns(p, q, [a] + t) ==> Returns(p, q, t) || a in t
    {
      ReturnsStep(p, q, [a] + t);
      SecondOccurs(q, p, t);
      if Returns(p, q, t) {
        LastTwoOccur(p, q, t);
      }
    }
    if a in t {
      assert [t[0], a][1..] == [a];
      OneOccurs(a, t[1..]);
      ReturnsStep(a, t[0], [a] + t);
      assert Returns(a, t[0], [a] + t);
    }
  }

  // After the sort by id, duplicates survive exactly when some peer was offered again with
  // another peer of the same id offered in between.
  lemma CandidatesNoDupIff(s: seq<Peer>)
    ensures NoDup(Dedup(Sort(s, Zero(), NearestFirst))) <==>
            forall p: Peer, q: Peer :: p.id == q.id ==> !Returns(p, q, s)
  {
    var u := Sort(s, Zero(), NearestFirst);
    DedupNoDupIff(u);
    SortIsStable(s, Zero(), NearestFirst);
    forall p, q
      ensures Returns(p, q, u) <==> p.id == q.id && Returns(p, q, s)
    {
      ReturnsInSort(p, q, s);
    }
  }

  lemma DedupAlternating(p: Peer, q: Peer)
    requires p != q
    ensures Dedup([p, q, p]) == [p, q, p] && !NoDup([p, q, p])
  {
    var s := [p, q, p];
    assert s[1..] == [q, p] && [q, p][1..] == [p];
    assert Dedup([q, p]) == [q] + Dedup([p]) == [q, p];
    NoDupMeaning(s);
    assert s[0] == s[2];
  }

  lemma SortSameId(s: seq<Peer>, id: Id)
    requires forall p :: p in s ==> p.id == id
    ensures Sort(s, Zero(), NearestFirst) == s
  {
    forall i | 0 <= i < |s|
      ensures s[i].id == id
    {
      assert s[i] in s;
    }
    SortFrom(s, s, Zero(), NearestFirst);
  }

  // Two addresses for one id: the peer that was named twice is pinged twice.
  lemma DuplicateSurvives(p: Peer, q: Peer)
    requires p.id == q.id && p.address != q.address
    ensures Dedup(Sort([p, q, p], Zero(), NearestFirst)) == [p, q, p]
    ensures !NoDup(Dedup(Sort([p, q, p], Zero(), NearestFirst)))
  {
    SortSameId([p, q, p], p.id);
    DedupAlternating(p, q);
  }

  lemma ReturnsInSort(p: Peer, q: Peer, s: seq<Peer>)
    ensures Returns(p, q, Sort(s, Zero(), NearestFirst)) <==> p.id == q.id && Returns(p, q, s)
  {
    var u := Sort(s, Zero(), NearestFirst);
    var r := Rank(p, Zero(), NearestFirst);
    SortIsStable(s, Zero(), NearestFirst);
    DistanceIdentifies(p.id, q.id, Zero());
    if p.id == q.id {
      SortKeepsRank(s, Zero(), NearestFirst, r);
      OccursInFilter([p, q, p], s, OfRank(Zero(), NearestFirst, r));
      OccursInFilter([p, q, p], u, OfRank(Zero(), NearestFirst, r));
    } else if Returns(p, q, u) {
      FirstTwoOccur(p, q, u);
      LastTwoOccur(p, q, u);
      TwoOccur(p, q, u);
      TwoOccur(q, p, u);
    }
  }

  lemma {:induction false} FirstTwoOccur(p: Peer, q: Peer, s: seq<Peer>)
    requires Occurs([p, q, p], s)
    ensures Occurs([p, q], s)
  {
    assert [p, q, p][1..] == [q, p] && [p, q][1..] == [q];
    if p == s[0] {
      FirstOccurs(q, p, s[1..]);
    } else {
      FirstTwoOccur(p, q, s[1..]);
    }
  }

  lemma {:induction false} FirstOccurs(q: Peer, p: Peer, s: seq<Peer>)
    requires Occurs([q, p], s)
    ensures Occurs([q], s)
  {
    assert [q, p][1..] == [p] && [q][1..] == [];
    if q != s[0] {
      FirstOccurs(q, p, s[1..]);
    }
  }

  lemma {:induction false} LastTwoOccur(p: Peer, q: Peer, s: seq<Peer>)
    requires p != q && Occurs([p, q, p], s)
    ensures Occurs([q, p], s)
  {
    assert [p, q, p][1..] == [q, p];
    if p != s[0] {
      LastTwoOccur(p, q, s[1..]);
      SkipHead(q, p, s);
    } else {
      SkipHead(q, p, s);
    }
  }

  lemma {:induction false} SkipHead(q: Peer, p: Peer, s: seq<Peer>)
    requires s != [] && Occurs([q, p], s[1..])
    ensures Occurs([q, p], s)
  {
    assert [q, p][1..] == [p];
    if q == s[0] {
      SecondOccurs(q, p, s[1..]);
      OneOccurs(p, s[1..]);
    }
  }
}
