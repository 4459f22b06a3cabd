/** Whole runs of the routing table: what a sequence of `update` calls leaves behind. */
module Histories {
  import opened Ids
  import opened Peers
  import opened Tables

  /** The table after offering `ps` one by one. */
  function Run(t: Table, ps: seq<Peer>): (r: Table)
    requires Layout(t)
    ensures Layout(r) && r.k == t.k && r.local == t.local
  {
    if ps == [] then t
    else
      var before := Run(t, ps[..|ps| - 1]);
      UpdateRefinesEager(before, ps[|ps| - 1]);
      Updated(before, ps[|ps| - 1]).table
  }

  function EagerRun(e: Eager, ps: seq<Peer>): (r: Eager)
    requires |e.lists| == WIDTH + 1
    ensures |r.lists| == WIDTH + 1
  {
    if ps == [] then e else EagerUpdated(EagerRun(e, ps[..|ps| - 1]), ps[|ps| - 1]).table
  }

  lemma NewLayout(k: nat, local: Peer)
    requires k >= 1
    ensures Layout(New(k, local)) && Abs(New(k, local)) == Eager(k, local, seq(WIDTH + 1, _ => []))
  {
    assert BucketAt(New(k, local), 0);
    forall c: nat
      ensures Class(New(k, local), c) == []
    {
    }
  }

  lemma NewLayoutIff(k: nat, local: Peer)
    ensures Layout(New(k, local)) <==> k >= 1
  {
    if k >= 1 {
      NewLayout(k, local);
    }
  }

  lemma RunSnoc(t: Table, ps: seq<Peer>, p: Peer)
    requires Layout(t)
    ensures Run(t, ps + [p]) == Updated(Run(t, ps), p).table
  {
    assert (ps + [p])[..|ps|] == ps;
  }

  lemma {:induction false} RunAppend(t: Table, a: seq<Peer>, b: seq<Peer>)
    requires Layout(t)
    ensures Run(t, a + b) == Run(Run(t, a), b)
  {
    if b == [] {
      assert a + b == a;
    } else {
      var n := |b| - 1;
      RunAppend(t, a, b[..n]);
      assert (a + b)[..|a + b| - 1] == a + b[..n] && (a + b)[|a + b| - 1] == b[n];
    }
  }

  // Step-by-step simulation over any run: same lists, and the same answer to the next offer.
  lemma {:induction false} RunRefinesEager(t: Table, ps: seq<Peer>, p: Peer)
    requires Layout(t)
    ensures Abs(Run(t, ps)) == EagerRun(Abs(t), ps)
    ensures Updated(Run(t, ps), p).ok == EagerUpdated(EagerRun(Abs(t), ps), p).ok
  {
    if ps != [] {
      var n := |ps| - 1;
      RunRefinesEager(t, ps[..n], ps[n]);
      UpdateRefinesEager(Run(t, ps[..n]), ps[n]);
    }
    UpdateRefinesEager(Run(t, ps), p);
  }

  // How far two tables have unfolded never shows in what they admit.
  lemma LayoutNeverDecides(t: Table, u: Table, ps: seq<Peer>, p: Peer)
    requires Layout(t) && Layout(u) && Abs(t) == Abs(u)
    ensures Abs(Run(t, ps)) == Abs(Run(u, ps))
    ensures Updated(Run(t, ps), p).ok == Updated(Run(u, ps), p).ok
  {
    RunRefinesEager(t, ps, p);
    RunRefinesEager(u, ps, p);
  }

  // ---------- closed form ----------

  /** The first k distinct peers of class c ever offered. */
  function Admitted(ps: seq<Peer>, local: Id, c: nat, k: nat): seq<Peer> {
    Take(KeepFirst(Filter(ps, InClass(local, c))), k)
  }

  /** Those peers, ordered by their last offering. */
  function Retained(ps: seq<Peer>, local: Id, c: nat, k: nat): seq<Peer> {
    KeepLast(Filter(ps, OneOf(Admitted(ps, local, c, k))))
  }

  lemma RetainedMembers(ps: seq<Peer>, local: Id, c: nat, k: nat)
    ensures forall p :: p in Retained(ps, local, c, k) <==> p in Admitted(ps, local, c, k)
    ensures |Retained(ps, local, c, k)| == |Admitted(ps, local, c, k)| <= k
    ensures forall p :: p in Admitted(ps, local, c, k) ==> p in ps && Cpl(local, p.id) == c
  {
    var s := Filter(ps, InClass(local, c));
    var a := Admitted(ps, local, c, k);
    FilterMembers(ps, InClass(local, c));
    KeepFirstMembers(s);
    TakeNoDup(KeepFirst(s), k);
    FilterMembers(ps, OneOf(a));
    KeepLastMembers(Filter(ps, OneOf(a)));
    SameMembersSameLength(Retained(ps, local, c, k), a);
  }

  lemma TakeNoDup(s: seq<Peer>, n: nat)
    requires NoDup(s)
    ensures NoDup(Take(s, n)) && forall p :: p in Take(s, n) ==> p in s
  {
    NoDupMeaning(s);
    NoDupMeaning(Take(s, n));
  }

  lemma TakeSnoc(s: seq<Peer>, p: Peer, k: nat)
    ensures Take(s + [p], k) == if |s| < k then Take(s, k) + [p] else Take(s, k)
  {
  }

  // How one more offer changes the admitted peers.
  lemma AdmittedSnoc(ps: seq<Peer>, p: Peer, local: Id, c: nat, k: nat)
    ensures Admitted(ps + [p], local, c, k)
            == if Cpl(local, p.id) == c && p !in Admitted(ps, local, c, k) && |Admitted(ps, local, c, k)| < k
               then Admitted(ps, local, c, k) + [p]
               else Admitted(ps, local, c, k)
    ensures Cpl(local, p.id) == c && |Admitted(ps, local, c, k)| < k
            ==> (p in Admitted(ps, local, c, k) <==> p in ps)
  {
    var f := InClass(local, c);
    var s := Filter(ps, f);
    FilterAppend(ps, [p], f);
    FilterMembers(ps, f);
    KeepFirstMembers(s);
    if f(p) {
      assert Filter(ps + [p], f) == s + [p];
      KeepFirstSnoc(s, p);
      TakeSnoc(KeepFirst(s), p, k);
    } else {
      assert Filter(ps + [p], f) == s;
    }
  }

  // How one more offer changes the retained list: exactly as an eager list changes.
  lemma RetainedSnoc(ps: seq<Peer>, p: Peer, local: Id, c: nat, k: nat)
    ensures Retained(ps + [p], local, c, k)
            == if Cpl(local, p.id) == c then Offer(Retained(ps, local, c, k), p, k)
               else Retained(ps, local, c, k)
  {
    var r := Retained(ps, local, c, k);
    var a, b := Admitted(ps, local, c, k), Admitted(ps + [p], local, c, k);
    RetainedMembers(ps, local, c, k);
    AdmittedSnoc(ps, p, local, c, k);
    FilterAppend(ps, [p], OneOf(b));
    FilterSame(ps, OneOf(a), OneOf(b));
    if p in b {
      KeepLastSnoc(Filter(ps, OneOf(a)), p);
      FilterAll(r, Except(p));
      assert Filter([p], OneOf(b)) == [p];
    } else {
      assert Filter([p], OneOf(b)) == [] && a == b;
      assert Filter(ps + [p], OneOf(b)) == Filter(ps, OneOf(b));
    }
  }

  lemma RetainedNext(ps: seq<Peer>, local: Id, c: nat, k: nat)
    requires ps != []
    ensures Retained(ps, local, c, k)
         == if Cpl(local, ps[|ps| - 1].id) == c then Offer(Retained(ps[..|ps| - 1], local, c, k), ps[|ps| - 1], k)
            else Retained(ps[..|ps| - 1], local, c, k)
  {
    assert ps == ps[..|ps| - 1] + [ps[|ps| - 1]];
    RetainedSnoc(ps[..|ps| - 1], ps[|ps| - 1], local, c, k);
  }

  // After any run of updates on a new table, each class holds exactly the first k
  // distinct peers of that class ever offered, ordered by their last offering.
  lemma {:induction false} WholeRun(k: nat, local: Peer, ps: seq<Peer>, c: nat)
    requires k >= 1 && c <= WIDTH
    ensures Layout(New(k, local))
    ensures Class(Run(New(k, local), ps), c) == Retained(ps, local.id, c, k)
  {
    NewLayout(k, local);
    RunRefinesEager(New(k, local), ps, local);
    assert Abs(Run(New(k, local), ps)).lists[c] == Class(Run(New(k, local), ps), c);
    EagerWholeRun(Abs(New(k, local)), ps, c);
  }

  lemma EagerStep(e: Eager, p: Peer, c: nat)
    requires |e.lists| == WIDTH + 1 && c <= WIDTH
    ensures var u := EagerUpdated(e, p).table;
            && u.k == e.k && u.local == e.local
            && u.lists[c] == if Cpl(e.local.id, p.id) == c then Offer(e.lists[c], p, e.k) else e.lists[c]
  {
  }

  lemma {:induction false} EagerWholeRun(e: Eager, ps: seq<Peer>, c: nat)
    requires |e.lists| == WIDTH + 1 && c <= WIDTH && e.lists[c] == []
    ensures var r := EagerRun(e, ps);
            r.k == e.k && r.local == e.local && r.lists[c] == Retained(ps, e.local.id, c, e.k)
  {
    if ps != [] {
      EagerWholeRun(e, ps[..|ps| - 1], c);
      EagerWholeStep(e, ps, c);
    }
  }

  lemma EagerWholeStep(e: Eager, ps: seq<Peer>, c: nat)
    requires |e.lists| == WIDTH + 1 && c <= WIDTH && ps != []
    requires var r := EagerRun(e, ps[..|ps| - 1]);
             r.k == e.k && r.local == e.local && r.lists[c] == Retained(ps[..|ps| - 1], e.local.id, c, e.k)
    ensures var r := EagerRun(e, ps);
            r.k == e.k && r.local == e.local && r.lists[c] == Retained(ps, e.local.id, c, e.k)
  {
    var n := |ps| - 1;
    EagerStep(EagerRun(e, ps[..n]), ps[n], c);
    RetainedNext(ps, e.local.id, c, e.k);
  }

  // An offer is accepted exactly when its peer is among the first k of its class.
  lemma AnswerInClosedForm(k: nat, local: Peer, ps: seq<Peer>, p: Peer)
    requires k >= 1
    ensures Layout(New(k, local))
    ensures Updated(Run(New(k, local), ps), p).ok <==> p in Admitted(ps + [p], local.id, Cpl(local.id, p.id), k)
  {
    var c := Cpl(local.id, p.id);
    WholeRun(k, local, ps, c);
    UpdateFailsIff(Run(New(k, local), ps), p);
    RetainedMembers(ps, local.id, c, k);
    AdmittedSnoc(ps, p, local.id, c, k);
  }

  lemma UpdateKeepsPeers(t: Table, p: Peer, q: Peer)
    requires Layout(t) && q in Members(t.buckets)
    ensures Layout(Updated(t, p).table) && q in Members(Updated(t, p).table.buckets)
  {
    UpdateRefinesEager(t, p);
    OneBucketDecides(t, q);
    OneBucketDecides(Updated(t, p).table, q);
    FilterMembers(Abs(t).lists[Cpl(t.local.id, p.id)], Except(p));
  }

  // No peer ever leaves, whatever is offered later.
  lemma {:induction false} NoPeerLeaves(t: Table, ps: seq<Peer>, q: Peer)
    requires Layout(t) && q in Members(t.buckets)
    ensures q in Members(Run(t, ps).buckets)
  {
    if ps != [] {
      NoPeerLeaves(t, ps[..|ps| - 1], q);
      UpdateKeepsPeers(Run(t, ps[..|ps| - 1]), ps[|ps| - 1], q);
    }
  }

  lemma OfferMembers(l: seq<Peer>, p: Peer, k: nat, q: Peer)
    requires q in Offer(l, p, k)
    ensures q == p || q in l
  {
    FilterMembers(l, Except(p));
  }

  lemma UpdateAddsOnly(t: Table, p: Peer, q: Peer)
    requires Layout(t)
    ensures Layout(Updated(t, p).table)
    ensures q in Members(Updated(t, p).table.buckets) ==> q == p || q in Members(t.buckets)
  {
    UpdateRefinesEager(t, p);
    OneBucketDecides(t, q);
    OneBucketDecides(Updated(t, p).table, q);
    if q in Members(Updated(t, p).table.buckets) && Cpl(t.local.id, q.id) == Cpl(t.local.id, p.id) {
      OfferMembers(Abs(t).lists[Cpl(t.local.id, p.id)], p, t.k, q);
    }
  }

  // A table holds nothing but what it was offered.
  lemma {:induction false} RunAddsOnly(k: nat, local: Peer, ps: seq<Peer>, q: Peer)
    requires k >= 1
    ensures Layout(New(k, local))
    ensures q in Members(Run(New(k, local), ps).buckets) ==> q in ps
  {
    NewLayout(k, local);
    if ps == [] {
      MembersMeaning(New(k, local).buckets, q);
    } else {
      var n := |ps| - 1;
      RunAddsOnly(k, local, ps[..n], q);
      UpdateAddsOnly(Run(New(k, local), ps[..n]), ps[n], q);
      assert ps[n] in ps;
    }
  }

  lemma OfferKeepsLast(ps: seq<Peer>, p: Peer, k: nat)
    requires |KeepLast(ps + [p])| <= k
    ensures Offer(KeepLast(ps), p, k) == KeepLast(ps + [p])
    ensures p in KeepLast(ps) || |KeepLast(ps)| < k
    ensures |KeepLast(ps)| <= |KeepLast(ps + [p])|
  {
    KeepLastSnoc(ps, p);
    KeepLastMembers(ps);
    MovedOrNew(KeepLast(ps), p);
  }

  lemma MovedOrNew(s: seq<Peer>, p: Peer)
    requires NoDup(s)
    ensures |Without(s, p) + [p]| == if p in s then |s| else |s| + 1
    ensures p !in s ==> Without(s, p) == s
  {
    FilterAll(s, Except(p));
    FilterMultiset(s, Except(p));
    FilterMembers(s, Except(p));
    if p in s {
      NoDupJoin(Without(s, p), [p]);
      SameMembersSameLength(Without(s, p) + [p], s);
    }
  }

  lemma UpdateKeepsBuckets(t: Table, p: Peer)
    requires Layout(t)
    ensures |Updated(t, p).table.buckets| >= |t.buckets|
  {
    UpdateLayout(t, p);
    if Home(t, p.id) == |t.buckets| - 1 && t.buckets[Home(t, p.id)] != [] {
      assert BucketAt(t, |t.buckets| - 1);
    }
  }

  // As long as at most k distinct peers were offered, the table is a single bucket that
  // lists them by their last offering; the next one unfolds it, for good.
  lemma {:induction false} SingleBucketIff(k: nat, local: Peer, ps: seq<Peer>)
    requires k >= 1
    ensures Layout(New(k, local))
    ensures |Run(New(k, local), ps).buckets| == 1 <==> |KeepLast(ps)| <= k
    ensures |KeepLast(ps)| <= k ==> Run(New(k, local), ps).buckets == [KeepLast(ps)]
  {
    NewLayout(k, local);
    if ps != [] {
      var n := |ps| - 1;
      SingleBucketIff(k, local, ps[..n]);
      assert ps == ps[..n] + [ps[n]];
      SingleBucketStep(Run(New(k, local), ps[..n]), ps[..n], ps[n]);
    }
  }

  lemma SingleBucketStep(t: Table, ps: seq<Peer>, p: Peer)
    requires Layout(t) && (|t.buckets| == 1 <==> |KeepLast(ps)| <= t.k)
    requires |KeepLast(ps)| <= t.k ==> t.buckets == [KeepLast(ps)]
    ensures var u := Updated(t, p).table;
            && (|u.buckets| == 1 <==> |KeepLast(ps + [p])| <= t.k)
            && (|KeepLast(ps + [p])| <= t.k ==> u.buckets == [KeepLast(ps + [p])])
  {
    UpdateKeepsBuckets(t, p);
    UpdateLayout(t, p);
    KeepLastSnoc(ps, p);
    KeepLastMembers(ps);
    MovedOrNew(KeepLast(ps), p);
    if |KeepLast(ps + [p])| <= t.k {
      OfferKeepsLast(ps, p, t.k);
    }
  }

  // The bound on the whole table, over all runs.
  lemma RunIsBounded(k: nat, local: Peer, ps: seq<Peer>)
    requires k >= 1
    ensures Layout(New(k, local))
    ensures var m := Members(Run(New(k, local), ps).buckets); NoDup(m) && |m| <= (WIDTH + 1) * k
  {
    NewLayout(k, local);
    MembersBound(Run(New(k, local), ps));
  }
}
