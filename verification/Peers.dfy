/** Peers, order-preserving selection from peer lists, and the stable sort by
    distance that the standard library's `sort_by` performs. */
module Peers {
  import opened Ids

  datatype Peer = Peer(id: Id, address: string)

  ghost predicate NoDup(s: seq<Peer>) {
    forall p :: multiset(s)[p] <= 1
  }

  lemma NoDupMeaning(s: seq<Peer>)
    ensures NoDup(s) <==> forall i, j :: 0 <= i < j < |s| ==> s[i] != s[j]
  {
    if NoDup(s) {
      forall i, j | 0 <= i < j < |s|
        ensures s[i] != s[j]
      {
        assert s == s[..j] + s[j..];
        assert s[i] in s[..j] && s[j] in s[j..];
        assert multiset(s)[s[i]] <= 1;
      }
    } else {
      var p :| multiset(s)[p] > 1;
      var i :| 0 <= i < |s| && s[i] == p;
      assert s == s[..i] + [s[i]] + s[i + 1..];
      assert p in multiset(s[..i]) + multiset(s[i + 1..]);
      assert p in s[..i] || p in s[i + 1..];
    }
  }

  lemma NoDupJoin(a: seq<Peer>, b: seq<Peer>)
    requires NoDup(a) && NoDup(b) && forall p :: p in a ==> p !in b
    ensures NoDup(a + b)
  {
    forall p
      ensures multiset(a + b)[p] <= 1
    {
      assert multiset(a + b)[p] == multiset(a)[p] + multiset(b)[p];
      assert p in multiset(a) <==> p in a;
      assert p in multiset(b) <==> p in b;
    }
  }

  // Duplicate-free lists with the same members have the same length.
  lemma SameMembersSameLength(a: seq<Peer>, b: seq<Peer>)
    requires NoDup(a) && NoDup(b) && forall p :: p in a <==> p in b
    ensures multiset(a) == multiset(b) && |a| == |b|
  {
    forall p
      ensures multiset(a)[p] == multiset(b)[p]
    {
      assert p in a <==> p in multiset(a);
      assert p in b <==> p in multiset(b);
    }
    assert multiset(a) == multiset(b);
    assert |multiset(a)| == |a| && |multiset(b)| == |b|;
  }

  // ---------- order-preserving selection ----------

  function Filter(s: seq<Peer>, f: Peer -> bool): (r: seq<Peer>)
    ensures |r| <= |s|
  {
    if s == [] then []
    else if f(s[0]) then [s[0]] + Filter(s[1..], f)
    else Filter(s[1..], f)
  }

  lemma {:induction false} FilterMembers(s: seq<Peer>, f: Peer -> bool)
    ensures forall p :: p in Filter(s, f) <==> p in s && f(p)
  {
    if s != [] {
      FilterMembers(s[1..], f);
    }
  }

  lemma {:induction false} FilterMultiset(s: seq<Peer>, f: Peer -> bool)
    ensures forall p :: multiset(Filter(s, f))[p] == if f(p) then multiset(s)[p] else 0
    ensures NoDup(s) ==> NoDup(Filter(s, f))
  {
    if s != [] {
      FilterMultiset(s[1..], f);
      assert s == [s[0]] + s[1..];
    }
  }

  lemma {:induction false} FilterAppend(a: seq<Peer>, b: seq<Peer>, f: Peer -> bool)
    ensures Filter(a + b, f) == Filter(a, f) + Filter(b, f)
  {
    if a == [] {
      assert a + b == b;
    } else {
      assert (a + b)[1..] == a[1..] + b;
      FilterAppend(a[1..], b, f);
    }
  }

  lemma FilterSnoc(s: seq<Peer>, p: Peer, f: Peer -> bool)
    ensures Filter(s + [p], f) == if f(p) then Filter(s, f) + [p] else Filter(s, f)
  {
    FilterAppend(s, [p], f);
  }

  // Selecting twice is selecting by the conjunction.
  lemma {:induction false} FilterTwice(s: seq<Peer>, f: Peer -> bool, g: Peer -> bool, h: Peer -> bool)
    requires forall p :: p in s ==> h(p) == (f(p) && g(p))
    ensures Filter(Filter(s, f), g) == Filter(s, h)
  {
    if s != [] {
      FilterTwice(s[1..], f, g, h);
      if f(s[0]) {
        assert Filter(s, f)[1..] == Filter(s[1..], f);
      }
    }
  }

  lemma {:induction false} FilterSame(s: seq<Peer>, f: Peer -> bool, g: Peer -> bool)
    requires forall p :: p in s ==> f(p) == g(p)
    ensures Filter(s, f) == Filter(s, g)
  {
    if s != [] {
      FilterSame(s[1..], f, g);
    }
  }

  lemma {:induction false} FilterAll(s: seq<Peer>, f: Peer -> bool)
    ensures (forall p :: p in s ==> f(p)) ==> Filter(s, f) == s
    ensures (forall p :: p in s ==> !f(p)) ==> Filter(s, f) == []
    ensures (exists p :: p in s && !f(p)) ==> |Filter(s, f)| < |s|
  {
    if s != [] {
      FilterAll(s[1..], f);
    }
  }

  // ---------- repeated elements ----------

  function Without(s: seq<Peer>, p: Peer): seq<Peer> {
    Filter(s, Except(p))
  }

  function Except(p: Peer): Peer -> bool {
    q => q != p
  }

  function OneOf(s: seq<Peer>): Peer -> bool {
    p => p in s
  }

  lemma FilterCommute(s: seq<Peer>, f: Peer -> bool, g: Peer -> bool)
    ensures Filter(Filter(s, f), g) == Filter(Filter(s, g), f)
  {
    var h := p => f(p) && g(p);
    FilterTwice(s, f, g, h);
    FilterTwice(s, g, f, h);
  }

  /** The distinct elements in order of first occurrence. */
  function KeepFirst(s: seq<Peer>): seq<Peer> {
    if s == [] then []
    else
      var n := |s| - 1;
      if s[n] in s[..n] then KeepFirst(s[..n]) else KeepFirst(s[..n]) + [s[n]]
  }

  lemma KeepFirstSnoc(s: seq<Peer>, p: Peer)
    ensures KeepFirst(s + [p]) == if p in s then KeepFirst(s) else KeepFirst(s) + [p]
  {
    assert (s + [p])[..|s|] == s;
  }

  /** The distinct elements in order of last occurrence. */
  function KeepLast(s: seq<Peer>): seq<Peer> {
    if s == [] then []
    else if s[0] in s[1..] then KeepLast(s[1..])
    else [s[0]] + KeepLast(s[1..])
  }

  lemma {:induction false} KeepFirstMembers(s: seq<Peer>)
    ensures forall p :: p in KeepFirst(s) <==> p in s
    ensures NoDup(KeepFirst(s))
  {
    if s != [] {
      var n := |s| - 1;
      assert s == s[..n] + [s[n]];
      KeepFirstMembers(s[..n]);
    }
  }

  lemma {:induction false} KeepLastMembers(s: seq<Peer>)
    ensures forall p :: p in KeepLast(s) <==> p in s
    ensures NoDup(KeepLast(s))
  {
    if s != [] {
      KeepLastMembers(s[1..]);
      assert s == [s[0]] + s[1..];
    }
  }

  // One more occurrence moves its element to the end.
  lemma {:induction false} KeepLastSnoc(s: seq<Peer>, p: Peer)
    ensures KeepLast(s + [p]) == Without(KeepLast(s), p) + [p]
  {
    if s != [] {
      KeepLastSnoc(s[1..], p);
      assert (s + [p])[1..] == s[1..] + [p];
    }
  }

  // ---------- stable sort by distance ----------

  datatype Order = NearestFirst | FarthestFirst

  function Rank(p: Peer, t: Id, o: Order): int {
    var d: int := Distance(p.id, t);
    if o.NearestFirst? then d else -d
  }

  ghost predicate Sorted(s: seq<Peer>, t: Id, o: Order) {
    forall i, j :: 0 <= i < j < |s| ==> Rank(s[i], t, o) <= Rank(s[j], t, o)
  }

  function OfRank(t: Id, o: Order, r: int): Peer -> bool {
    p => Rank(p, t, o) == r
  }

  /** Each rank lists the same peers in the same order. */
  ghost predicate SameByRank(a: seq<Peer>, b: seq<Peer>, t: Id, o: Order) {
    forall r :: Filter(a, OfRank(t, o, r)) == Filter(b, OfRank(t, o, r))
  }

  function Insert(x: Peer, s: seq<Peer>, t: Id, o: Order): (r: seq<Peer>)
    ensures multiset(r) == multiset{x} + multiset(s)
  {
    if s == [] || Rank(x, t, o) <= Rank(s[0], t, o) then [x] + s
    else
      assert s == [s[0]] + s[1..];
      [s[0]] + Insert(x, s[1..], t, o)
  }

  /** `slice::sort_by` on distance: stable, so peers at equal distance keep their order. */
  function Sort(s: seq<Peer>, t: Id, o: Order): (r: seq<Peer>)
    ensures multiset(r) == multiset(s) && |r| == |s|
  {
    if s == [] then []
    else
      assert s == [s[0]] + s[1..];
      var r := Insert(s[0], Sort(s[1..], t, o), t, o);
      assert |multiset(r)| == |r| && |multiset(s)| == |s|;
      r
  }

  lemma {:induction false} InsertSorted(x: Peer, s: seq<Peer>, t: Id, o: Order)
    requires Sorted(s, t, o)
    ensures Sorted(Insert(x, s, t, o), t, o)
    ensures forall p :: p in Insert(x, s, t, o) <==> p == x || p in s
  {
    if s != [] && Rank(s[0], t, o) < Rank(x, t, o) {
      var u := Insert(x, s[1..], t, o);
      InsertSorted(x, s[1..], t, o);
      assert Sorted([s[0]], t, o);
      JoinSorted([s[0]], u, t, o);
    } else {
      JoinSorted([x], s, t, o);
    }
  }

  lemma {:induction false} InsertStable(x: Peer, s: seq<Peer>, t: Id, o: Order, r: int)
    ensures Filter(Insert(x, s, t, o), OfRank(t, o, r)) == Filter([x] + s, OfRank(t, o, r))
  {
    var f := OfRank(t, o, r);
    if s != [] && Rank(s[0], t, o) < Rank(x, t, o) {
      InsertStable(x, s[1..], t, o, r);
      assert Insert(x, s, t, o)[1..] == Insert(x, s[1..], t, o);
      assert ([x] + s)[1..] == s && ([x] + s[1..])[1..] == s[1..];
      assert !f(x) || !f(s[0]);
    }
  }

  // The sort is sorted, and stable: peers at one distance keep their order.
  lemma {:induction false} SortIsStable(s: seq<Peer>, t: Id, o: Order)
    ensures Sorted(Sort(s, t, o), t, o)
    ensures SameByRank(Sort(s, t, o), s, t, o)
  {
    if s != [] {
      var u := Sort(s[1..], t, o);
      SortIsStable(s[1..], t, o);
      InsertSorted(s[0], u, t, o);
      forall r
        ensures Filter(Sort(s, t, o), OfRank(t, o, r)) == Filter(s, OfRank(t, o, r))
      {
        InsertStable(s[0], u, t, o, r);
        assert ([s[0]] + u)[1..] == u;
        assert Filter(u, OfRank(t, o, r)) == Filter(s[1..], OfRank(t, o, r));
      }
    }
  }

  lemma LeastRankFirst(a: seq<Peer>, b: seq<Peer>, t: Id, o: Order)
    requires a != [] && Sorted(b, t, o) && SameByRank(a, b, t, o)
    ensures b != [] && Rank(b[0], t, o) <= Rank(a[0], t, o)
  {
    var f := OfRank(t, o, Rank(a[0], t, o));
    FilterMembers(a, f);
    FilterMembers(b, f);
    assert a[0] in Filter(b, f);
  }

  // Sortedness and stability determine the result.
  lemma {:induction false} SortIsUnique(a: seq<Peer>, b: seq<Peer>, t: Id, o: Order)
    requires Sorted(a, t, o) && Sorted(b, t, o) && SameByRank(a, b, t, o)
    ensures a == b
  {
    if a != [] {
      LeastRankFirst(a, b, t, o);
    }
    if b != [] {
      LeastRankFirst(b, a, t, o);
    }
    if a != [] {
      SameHead(a, b, t, o);
      SortIsUnique(a[1..], b[1..], t, o);
    }
  }

  lemma SameHead(a: seq<Peer>, b: seq<Peer>, t: Id, o: Order)
    requires a != [] && b != [] && Rank(a[0], t, o) == Rank(b[0], t, o) && SameByRank(a, b, t, o)
    ensures a[0] == b[0] && SameByRank(a[1..], b[1..], t, o)
  {
    var f := OfRank(t, o, Rank(a[0], t, o));
    assert Filter(a, f)[0] == a[0] && Filter(b, f)[0] == b[0];
    forall r
      ensures Filter(a[1..], OfRank(t, o, r)) == Filter(b[1..], OfRank(t, o, r))
    {
      var g := OfRank(t, o, r);
      assert Filter(a, g) == Filter(b, g);
      if r == Rank(a[0], t, o) {
        assert Filter(a, g)[1..] == Filter(a[1..], g) && Filter(b, g)[1..] == Filter(b[1..], g);
      }
    }
  }

  lemma SortFrom(s: seq<Peer>, r: seq<Peer>, t: Id, o: Order)
    requires Sorted(r, t, o) && SameByRank(r, s, t, o)
    ensures Sort(s, t, o) == r
  {
    SortIsStable(s, t, o);
    forall k
      ensures Filter(Sort(s, t, o), OfRank(t, o, k)) == Filter(r, OfRank(t, o, k))
    {
      assert Filter(Sort(s, t, o), OfRank(t, o, k)) == Filter(s, OfRank(t, o, k)) == Filter(r, OfRank(t, o, k));
    }
    SortIsUnique(Sort(s, t, o), r, t, o);
  }

  ghost predicate Nearer(a: seq<Peer>, b: seq<Peer>, t: Id) {
    forall p, q :: p in a && q in b ==> Distance(p.id, t) < Distance(q.id, t)
  }

  // Strictly separated parts sort independently, in whichever order they are joined.
  lemma SortSeparated(a: seq<Peer>, b: seq<Peer>, t: Id)
    requires Nearer(a, b, t)
    ensures Sort(a + b, t, NearestFirst) == Sort(a, t, NearestFirst) + Sort(b, t, NearestFirst)
    ensures Sort(b + a, t, NearestFirst) == Sort(a, t, NearestFirst) + Sort(b, t, NearestFirst)
  {
    var o := NearestFirst;
    var sa, sb := Sort(a, t, o), Sort(b, t, o);
    SortedJoin(a, b, t);
    forall r
      ensures Filter(sa + sb, OfRank(t, o, r)) == Filter(a + b, OfRank(t, o, r)) == Filter(b + a, OfRank(t, o, r))
    {
      RankOfJoin(a, b, t, r);
    }
    SortFrom(a + b, sa + sb, t, o);
    SortFrom(b + a, sa + sb, t, o);
  }

  lemma SortedJoin(a: seq<Peer>, b: seq<Peer>, t: Id)
    requires Nearer(a, b, t)
    ensures Sorted(Sort(a, t, NearestFirst) + Sort(b, t, NearestFirst), t, NearestFirst)
  {
    var o := NearestFirst;
    var sa, sb := Sort(a, t, o), Sort(b, t, o);
    SortIsStable(a, t, o);
    SortIsStable(b, t, o);
    SortMembers(a, t, o);
    SortMembers(b, t, o);
    forall p, q | p in sa && q in sb
      ensures Rank(p, t, o) <= Rank(q, t, o)
    {
      assert p in a && q in b;
    }
    JoinSorted(sa, sb, t, o);
  }

  lemma JoinSorted(a: seq<Peer>, b: seq<Peer>, t: Id, o: Order)
    requires Sorted(a, t, o) && Sorted(b, t, o)
    requires forall p, q :: p in a && q in b ==> Rank(p, t, o) <= Rank(q, t, o)
    ensures Sorted(a + b, t, o)
  {
  }

  lemma SortKeepsRank(s: seq<Peer>, t: Id, o: Order, r: int)
    ensures Filter(Sort(s, t, o), OfRank(t, o, r)) == Filter(s, OfRank(t, o, r))
  {
    SortIsStable(s, t, o);
  }

  lemma NoSharedRank(a: seq<Peer>, b: seq<Peer>, t: Id, r: int)
    requires Nearer(a, b, t)
    ensures var f := OfRank(t, NearestFirst, r); Filter(a, f) == [] || Filter(b, f) == []
  {
    var f := OfRank(t, NearestFirst, r);
    if p :| p in a && f(p) {
      forall q | q in b
        ensures !f(q)
      {
        assert Distance(p.id, t) < Distance(q.id, t);
      }
      FilterAll(b, f);
    } else {
      FilterAll(a, f);
    }
  }

  lemma RankOfJoin(a: seq<Peer>, b: seq<Peer>, t: Id, r: int)
    requires Nearer(a, b, t)
    ensures var f := OfRank(t, NearestFirst, r);
            Filter(Sort(a, t, NearestFirst) + Sort(b, t, NearestFirst), f) == Filter(a + b, f) == Filter(b + a, f)
  {
    var o := NearestFirst;
    var f := OfRank(t, o, r);
    SortKeepsRank(a, t, o, r);
    SortKeepsRank(b, t, o, r);
    NoSharedRank(a, b, t, r);
    FilterJoin(Sort(a, t, o), Sort(b, t, o), a, b, f);
  }

  lemma FilterJoin(x: seq<Peer>, y: seq<Peer>, a: seq<Peer>, b: seq<Peer>, f: Peer -> bool)
    requires Filter(x, f) == Filter(a, f) && Filter(y, f) == Filter(b, f)
    requires Filter(a, f) == [] || Filter(b, f) == []
    ensures Filter(x + y, f) == Filter(a + b, f) == Filter(b + a, f)
  {
    var u, v := Filter(a, f), Filter(b, f);
    assert Filter(x + y, f) == u + v by { FilterAppend(x, y, f); }
    assert Filter(a + b, f) == u + v by { FilterAppend(a, b, f); }
    assert Filter(b + a, f) == v + u by { FilterAppend(b, a, f); }
    assert u + v == v + u;
  }

  lemma SortMembers(s: seq<Peer>, t: Id, o: Order)
    ensures forall p :: p in Sort(s, t, o) <==> p in s
    ensures NoDup(Sort(s, t, o)) <==> NoDup(s)
  {
    forall p
      ensures p in Sort(s, t, o) <==> p in s
    {
      assert p in Sort(s, t, o) <==> p in multiset(Sort(s, t, o));
    }
  }

  function Take(s: seq<Peer>, n: nat): seq<Peer> {
    if |s| <= n then s else s[..n]
  }
}
