/** The requests a node issues (src/client.rs). What the network delivers is a parameter:
    one result per store request, and the lookup's results in order of arrival. */
module Clients {
  import opened Ids
  import opened Peers
  import opened Nearest
  import opened RoutingTables
  import opened Messages
  import opened Lookups
  import opened Servers

  ghost predicate Readable(rs: seq<RpcResult>) {
    forall i :: 0 <= i < |rs| ==> Legible(rs[i])
  }

  /** The results before the first one whose peers cannot be decoded. */
  ghost function ReadablePart(rs: seq<RpcResult>): (r: seq<RpcResult>)
    ensures r <= rs && Readable(r)
    ensures |r| < |rs| ==> !Legible(rs[|r|])
  {
    if rs == [] || !Legible(rs[0]) then [] else [rs[0]] + ReadablePart(rs[1..])
  }

  ghost function ToReplies(rs: seq<RpcResult>): (r: seq<Reply>)
    requires Readable(rs)
    ensures |r| == |rs| && forall i :: 0 <= i < |rs| ==> r[i] == ToReply(rs[i])
  {
    seq(|rs|, i requires 0 <= i < |rs| => ToReply(rs[i]))
  }

  /** How a lookup ends: as the machine does on the readable results, except that it panics
      if it is still waiting then and another result arrives. */
  ghost function Outcome(start: Lookup, rs: seq<RpcResult>): Option<Phase> {
    var end := DeliverAll(start, ToReplies(ReadablePart(rs)));
    if Waiting(end) && |ReadablePart(rs)| < |rs| then None else Some(end.phase)
  }

  ghost predicate SomeSucceeds(n: nat, answers: nat -> RpcResult) {
    exists i: nat :: i < n && ValidateStoreResult(answers(i)).None?
  }

  function ResultsUpTo(n: nat, answers: nat -> RpcResult): (r: seq<RpcResult>)
    ensures |r| == n && forall i :: 0 <= i < n ==> r[i] == answers(i)
  {
    seq(n, i requires 0 <= i => answers(i))
  }

  lemma StoreOutcomeOf(n: nat, answers: nat -> RpcResult)
    ensures var error := StoreOutcome(ResultsUpTo(n, answers));
            && (error.None? <==> SomeSucceeds(n, answers))
            && (error.Some? ==> error == if n == 0 then Some(OK) else ValidateStoreResult(answers(n - 1)))
  {
    assert forall i: nat :: i < n ==> ResultsUpTo(n, answers)[i] == answers(i);
  }

  class DHTClient {
    const alpha: nat
    const myself: Peer
    const kvstore: MemoryStore
    const routingTable: RoutingTable

    constructor (alpha: nat, myself: Peer, kvstore: MemoryStore, routingTable: RoutingTable)
      ensures this.alpha == alpha && this.myself == myself
      ensures this.kvstore == kvstore && this.routingTable == routingTable
    {
      this.alpha := alpha;
      this.myself := myself;
      this.kvstore := kvstore;
      this.routingTable := routingTable;
    }

    /** Sends one store request to each of the k nearest peers, the i-th of which ends in
        `answers(i)`, and fails only if all do; the error is the last one, or code OK when
        there was no peer to ask. */
    method Store(key: Id, value: seq<Byte>, answers: nat -> RpcResult)
      returns (peers: seq<Peer>, request: Message, error: Option<ErrorCode>)
      requires routingTable.Valid()
      ensures peers == NearestPeers(routingTable.View(), key, routingTable.k)
      ensures request == CreateStoreRequest(myself, key, value)
      ensures error.None? <==> SomeSucceeds(|peers|, answers)
      ensures error.Some? ==> error == if peers == [] then Some(OK) else ValidateStoreResult(answers(|peers| - 1))
    {
      request := CreateStoreRequest(myself, key, value);
      peers := routingTable.KNearestPeers(key);
      ghost var t := routingTable.View();
      error := SendAll(|peers|, answers);
      assert routingTable.View() == t;
    }

    method SendAll(numReqs: nat, answers: nat -> RpcResult) returns (error: Option<ErrorCode>)
      ensures error.None? <==> SomeSucceeds(numReqs, answers)
      ensures error.Some? ==> error == if numReqs == 0 then Some(OK) else ValidateStoreResult(answers(numReqs - 1))
    {
      StoreOutcomeOf(numReqs, answers);
      error := JoinAll(ResultsUpTo(numReqs, answers));
    }

    /** The outcome of the requests once every one of them has a result. */
    method JoinAll(results: seq<RpcResult>) returns (error: Option<ErrorCode>)
      ensures error == StoreOutcome(results)
    {
      var failures := 0;
      var lastError := OK;
      var i := 0;
      while i < |results|
        invariant failures <= i <= |results|
        invariant failures == i <==> forall j :: 0 <= j < i ==> ValidateStoreResult(results[j]).Some?
        invariant failures == i ==> Some(lastError) == if i == 0 then Some(OK) else ValidateStoreResult(results[i - 1])
      {
        var validation := ValidateStoreResult(results[i]);
        if validation.Some? {
          failures := failures + 1;
          lastError := validation.value;
        }
        i := i + 1;
      }
      error := if failures == |results| then Some(lastError) else None;
    }

    /** The iterative lookup. It answers from the local store if it can; otherwise it ends as
        the lookup machine does on the results that arrive, `Running` standing for still
        waiting after the last of them, and None for a panic. */
    method FindValue(key: Id, arrivals: seq<RpcResult>) returns (outcome: Option<Phase>, queried: seq<Peer>)
      requires routingTable.Valid()
      ensures KeyToBytes(key) in kvstore.store ==>
                outcome == Some(Found(kvstore.store[KeyToBytes(key)])) && queried == []
      ensures KeyToBytes(key) !in kvstore.store ==>
                var start := Begin(key, alpha, NearestPeers(routingTable.View(), key, routingTable.k));
                && outcome == Outcome(start, arrivals)
                && queried == DeliverAll(start, ToReplies(ReadablePart(arrivals))).queried
    {
      queried := [];
      var local := kvstore.Get(KeyToBytes(key));
      if local.Some? {
        return Some(Found(local.value)), queried;
      }
      ghost var t := routingTable.View();
      var initial := routingTable.KNearestPeers(key);
      assert routingTable.View() == t;
      outcome, queried := Iterate(key, initial, arrivals);
    }

    /** The loop over replies. */
    method Iterate(key: Id, initial: seq<Peer>, arrivals: seq<RpcResult>)
      returns (outcome: Option<Phase>, queried: seq<Peer>)
      ensures outcome == Outcome(Begin(key, alpha, initial), arrivals)
      ensures queried == DeliverAll(Begin(key, alpha, initial), ToReplies(ReadablePart(arrivals))).queried
    {
      var candidates := initial;
      queried := [];
      var inProgress := 0;
      var next := 0;
      ghost var replies := ToReplies(ReadablePart(arrivals));
      ghost var start := Begin(key, alpha, candidates);
      while true
        invariant next <= |replies|
        invariant Head(Lookup(key, alpha, candidates, queried, inProgress, next, Running))
               == DeliverAll(start, replies[..next])
        decreases |arrivals| - next
      {
        ghost var s := Lookup(key, alpha, candidates, queried, inProgress, next, Running);
        if |candidates| == 0 {
          StaysEnded(start, replies, next);
          return Some(NotFound), queried;
        }
        candidates, queried, inProgress := Spawn(key, candidates, queried, inProgress);
        ghost var u := DeliverAll(start, replies[..next]);
        assert u == Spawned(s) == Lookup(key, alpha, candidates, queried, inProgress, next, Running);
        if inProgress == 0 || next == |arrivals| {
          StaysWaiting(start, replies, next);
          return Some(Running), queried;
        }
        var result := arrivals[next];
        if next == |replies| {
          StaysWaiting(start, replies, next);
        } else {
          StepOn(start, replies, next);
          DeliverRunning(u, replies[next]);
        }
        next := next + 1;
        inProgress := inProgress - 1;
        if result.Response? {
          var response := result.message;
          if response.value != [] {
            StaysEnded(start, replies, next);
            return Some(Found(response.value)), queried;
          }
          var longer := AddCandidates(response.closerPeers, queried, candidates);
          if longer.None? {
            return None, queried;
          }
          candidates := longer.value;
        }
        assert Receive(u, replies[next - 1]) == Lookup(key, alpha, candidates, queried, inProgress, next, Running);
      }
    }

    /** Sorts nearest last and queries from the end while fewer than alpha are in flight. */
    method Spawn(key: Id, candidates0: seq<Peer>, queried0: seq<Peer>, inProgress0: nat)
      returns (candidates: seq<Peer>, queried: seq<Peer>, inProgress: nat)
      ensures forall received :: Spawned(Lookup(key, alpha, candidates0, queried0, inProgress0, received, Running))
                              == Lookup(key, alpha, candidates, queried, inProgress, received, Running)
    {
      candidates := Sort(candidates0, key, FarthestFirst);
      queried := queried0;
      inProgress := inProgress0;
      ghost var sorted := candidates;
      assert sorted[|sorted|..] == [];
      while inProgress < alpha && |candidates| > 0
        invariant |candidates| <= |sorted| && candidates == sorted[..|candidates|]
        invariant inProgress == inProgress0 + |sorted| - |candidates|
        invariant inProgress0 <= alpha ==> inProgress <= alpha
        invariant inProgress0 > alpha ==> inProgress == inProgress0
        invariant queried == queried0 + Reverse(sorted[|candidates|..])
      {
        var m := |candidates| - 1;
        var peer := candidates[m];
        candidates := candidates[..m];
        inProgress := inProgress + 1;
        queried := queried + [peer];
        assert sorted[m..][1..] == sorted[m + 1..];
      }
    }

    /** Appends the decoded peers that are neither queried nor candidates already; None for
        the panic on a peer that cannot be decoded. */
    method AddCandidates(closerPeers: seq<ProtoPeer>, queried: seq<Peer>, candidates0: seq<Peer>)
      returns (candidates: Option<seq<Peer>>)
      ensures candidates.Some? <==> AllRead(closerPeers)
      ensures candidates.Some? ==>
                candidates.value == candidates0 + Filter(DecodeAll(closerPeers), Unknown(queried, candidates0))
    {
      var fresh' := [];
      var i := 0;
      while i < |closerPeers|
        invariant i <= |closerPeers| && AllRead(closerPeers[..i])
        invariant fresh' == Filter(DecodeAll(closerPeers[..i]), Unknown(queried, candidates0))
      {
        if !Decodable(closerPeers[i]) {
          return None;
        }
        var p := ProtoPeerToPeer(closerPeers[i]);
        NextFresh(closerPeers, i, queried, candidates0);
        if p !in queried && p !in candidates0 {
          fresh' := fresh' + [p];
        }
        i := i + 1;
      }
      assert closerPeers[..i] == closerPeers;
      candidates := Some(candidates0 + fresh');
    }
  }

  ghost predicate AllRead(ps: seq<ProtoPeer>) {
    forall i :: 0 <= i < |ps| ==> Decodable(ps[i])
  }

  lemma DecodeNext(ps: seq<ProtoPeer>, i: nat)
    requires i < |ps| && AllRead(ps[..i]) && Decodable(ps[i])
    ensures AllRead(ps[..i + 1])
    ensures DecodeAll(ps[..i + 1]) == DecodeAll(ps[..i]) + [ProtoPeerToPeer(ps[i])]
  {
    assert ps[..i + 1] == ps[..i] + [ps[i]];
  }

  lemma NextFresh(ps: seq<ProtoPeer>, i: nat, queried: seq<Peer>, candidates: seq<Peer>)
    requires i < |ps| && AllRead(ps[..i]) && Decodable(ps[i])
    ensures AllRead(ps[..i + 1])
    ensures Filter(DecodeAll(ps[..i + 1]), Unknown(queried, candidates))
         == Filter(DecodeAll(ps[..i]), Unknown(queried, candidates))
            + var p := ProtoPeerToPeer(ps[i]); if p !in queried && p !in candidates then [p] else []
  {
    DecodeNext(ps, i);
    FilterSnoc(DecodeAll(ps[..i]), ProtoPeerToPeer(ps[i]), Unknown(queried, candidates));
  }

  lemma DeliverRunning(s: Lookup, r: Reply)
    requires Waiting(s)
    ensures Deliver(s, r) == if r.Answer? && r.value != [] then Receive(s, r) else Head(Receive(s, r))
  {
  }

  lemma StepOn(start: Lookup, rs: seq<Reply>, n: nat)
    requires n < |rs|
    ensures DeliverAll(start, rs[..n + 1]) == Deliver(DeliverAll(start, rs[..n]), rs[n])
  {
    assert rs[..n + 1][..n] == rs[..n];
  }

  // Once ended, or waiting for nothing, later replies change nothing.
  lemma {:induction false} StaysEnded(start: Lookup, rs: seq<Reply>, n: nat)
    requires n <= |rs| && !Waiting(DeliverAll(start, rs[..n]))
    ensures DeliverAll(start, rs) == DeliverAll(start, rs[..n])
    decreases |rs| - n
  {
    if n < |rs| {
      StepOn(start, rs, n);
      StaysEnded(start, rs, n + 1);
    } else {
      assert rs[..n] == rs;
    }
  }

  lemma StaysWaiting(start: Lookup, rs: seq<Reply>, n: nat)
    requires n <= |rs| && (n == |rs| || !Waiting(DeliverAll(start, rs[..n])))
    ensures DeliverAll(start, rs) == DeliverAll(start, rs[..n])
  {
    if n == |rs| {
      assert rs[..n] == rs;
    } else {
      StaysEnded(start, rs, n);
    }
  }

  // ---------- how a lookup ends ----------

  /** The first n results can be read and leave the lookup waiting. */
  ghost predicate WaitsAfter(start: Lookup, rs: seq<RpcResult>, n: nat)
    requires n <= |rs|
  {
    Readable(rs[..n]) && Waiting(DeliverAll(start, ToReplies(rs[..n])))
  }

  lemma ReadableIsPart(rs: seq<RpcResult>, n: nat)
    requires n <= |rs| && Readable(rs[..n])
    ensures n <= |ReadablePart(rs)| && ReadablePart(rs)[..n] == rs[..n]
    ensures n < |rs| && !Legible(rs[n]) ==> |ReadablePart(rs)| == n
  {
  }

  lemma RepliesPrefix(rs: seq<RpcResult>, n: nat)
    requires n <= |ReadablePart(rs)|
    ensures Readable(rs[..n]) && ToReplies(ReadablePart(rs))[..n] == ToReplies(rs[..n])
  {
    assert ReadablePart(rs)[..n] == rs[..n];
  }

  // A call panics exactly when it takes a result that it cannot read while it waits.
  lemma PanicsIff(start: Lookup, rs: seq<RpcResult>)
    ensures Outcome(start, rs).None? <==> exists n: nat :: n < |rs| && WaitsAfter(start, rs, n) && !Legible(rs[n])
  {
    var r := ReadablePart(rs);
    if Outcome(start, rs).None? {
      assert rs[..|r|] == r;
      assert WaitsAfter(start, rs, |r|);
    }
    if n: nat :| n < |rs| && WaitsAfter(start, rs, n) && !Legible(rs[n]) {
      ReadableIsPart(rs, n);
      assert rs[..n] == r;
    }
  }

  lemma {:induction false} FoundAt(start: Lookup, rs: seq<Reply>) returns (n: nat)
    requires !start.phase.Found? && DeliverAll(start, rs).phase.Found?
    ensures n < |rs| && Waiting(DeliverAll(start, rs[..n])) && Valued(rs[n])
    ensures DeliverAll(start, rs).phase == Found(rs[n].value)
  {
    var last := |rs| - 1;
    if DeliverAll(start, rs[..last]).phase.Found? {
      n := FoundAt(start, rs[..last]);
      assert rs[..last][..n] == rs[..n];
    } else {
      n := last;
      DeliverPhase(DeliverAll(start, rs[..last]), rs[last]);
    }
  }

  lemma FoundStays(start: Lookup, rs: seq<Reply>, n: nat)
    requires n < |rs| && Waiting(DeliverAll(start, rs[..n])) && Valued(rs[n])
    ensures DeliverAll(start, rs).phase == Found(rs[n].value)
  {
    StepOn(start, rs, n);
    DeliverPhase(DeliverAll(start, rs[..n]), rs[n]);
    StaysEnded(start, rs, n + 1);
  }

  // A call returns v exactly when a result that carries v, and v is not empty, arrives while
  // it waits.
  lemma ReturnsIff(start: Lookup, rs: seq<RpcResult>, v: seq<Byte>)
    requires !start.phase.Found?
    ensures Outcome(start, rs) == Some(Found(v)) <==>
            exists n: nat :: n < |rs| && WaitsAfter(start, rs, n) && rs[n].Response? && rs[n].message.value == v != []
  {
    var replies := ToReplies(ReadablePart(rs));
    if Outcome(start, rs) == Some(Found(v)) {
      var n := FoundAt(start, replies);
      RepliesPrefix(rs, n);
      assert WaitsAfter(start, rs, n);
      assert ReadablePart(rs)[n] == rs[n];
    }
    if n: nat :| n < |rs| && WaitsAfter(start, rs, n) && rs[n].Response? && rs[n].message.value == v != [] {
      ReturnedAt(start, rs, n);
    }
  }

  lemma ReturnedAt(start: Lookup, rs: seq<RpcResult>, n: nat)
    requires n < |rs| && WaitsAfter(start, rs, n) && rs[n].Response? && rs[n].message.value != []
    ensures Outcome(start, rs) == Some(Found(rs[n].message.value))
  {
    ReadableNext(rs, n);
    ReadableIsPart(rs, n + 1);
    RepliesPrefix(rs, n);
    FoundStays(start, ToReplies(ReadablePart(rs)), n);
  }

  lemma ReadableNext(rs: seq<RpcResult>, n: nat)
    requires n < |rs| && Readable(rs[..n]) && Legible(rs[n])
    ensures Readable(rs[..n + 1]) && n < |ReadablePart(rs)| && ReadablePart(rs)[n] == rs[n]
  {
    assert rs[..n + 1] == rs[..n] + [rs[n]];
    ReadableIsPart(rs, n + 1);
  }
}
