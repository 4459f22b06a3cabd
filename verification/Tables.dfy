/** The lazily unfolded routing table as a value, and the eager table of one bounded
    recency list per common prefix length that it refines (src/routing_table.rs). */
module Tables {
  import opened Ids
  import opened Peers

  /** `buckets[i]` lists the peers of the bucket with index i, least recently seen first. */
  datatype Table = Table(k: nat, local: Peer, buckets: seq<seq<Peer>>)

  function Min(a: nat, b: nat): nat {
    if a < b then a else b
  }

  function InClass(local: Id, c: int): Peer -> bool {
    (p: Peer) => Cpl(local, p.id) == c
  }

  function Beyond(local: Id, c: int): Peer -> bool {
    (p: Peer) => Cpl(local, p.id) > c
  }

  function New(k: nat, local: Peer): Table {
    Table(k, local, [[]])
  }

  function Home(t: Table, id: Id): (h: nat)
    requires t.buckets != []
    ensures h < |t.buckets|
  {
    Min(Cpl(t.local.id, id), |t.buckets| - 1)
  }

  /** Bucket i holds peers of class i only; the last one, of class i or more. */
  ghost predicate BucketOk(b: seq<Peer>, k: nat, local: Id, i: nat, last: bool) {
    && |b| <= k
    && NoDup(b)
    && forall p :: p in b ==> Cpl(local, p.id) >= i && (last || Cpl(local, p.id) == i)
  }

  ghost predicate BucketAt(t: Table, i: nat)
    requires i < |t.buckets|
  {
    BucketOk(t.buckets[i], t.k, t.local.id, i, i == |t.buckets| - 1)
  }

  /** The representation invariant. */
  ghost predicate Layout(t: Table) {
    && t.k >= 1
    && t.buckets != []
    && (forall i {:trigger BucketAt(t, i)} :: 0 <= i < |t.buckets| ==> BucketAt(t, i))
    && (|t.buckets| >= 2 ==> t.buckets[|t.buckets| - 2] != [])
  }

  function MinCpl(s: seq<Peer>, local: Id): (m: nat)
    requires s != []
    ensures m <= WIDTH
    ensures exists p :: p in s && Cpl(local, p.id) == m
    ensures forall p :: p in s ==> Cpl(local, p.id) >= m
  {
    var c := Cpl(local, s[0].id);
    assert s[0] in s;
    if |s| == 1 then c
    else
      var m := MinCpl(s[1..], local);
      assert s == [s[0]] + s[1..];
      if c <= m then c else m
  }

  function Spread(pre: seq<seq<Peer>>, gap: nat, x: seq<Peer>, y: seq<Peer>): (r: seq<seq<Peer>>)
    ensures |r| == |pre| + gap + 2
    ensures forall i :: 0 <= i < |r| ==>
                          r[i] == if i < |pre| then pre[i] else if i < |pre| + gap then []
                                  else if i == |pre| + gap then x else y
  {
    pre + seq(gap, _ => []) + [x, y]
  }

  ghost predicate Unfoldable(t: Table) {
    t.buckets != [] && t.buckets[|t.buckets| - 1] != [] && BucketAt(t, |t.buckets| - 1)
  }

  /** What unfolding the last bucket L amounts to: with m the least prefix length in it,
      empty buckets L..m-1, then the peers of class m, then the rest. */
  function Unfolded(t: Table): Table
    requires Unfoldable(t)
  {
    var l := |t.buckets| - 1;
    var b := t.buckets[l];
    var m := MinCpl(b, t.local.id);
    t.(buckets := Spread(t.buckets[..l], m - l, Filter(b, InClass(t.local.id, m)), Filter(b, Beyond(t.local.id, m))))
  }

  function Add(t: Table, h: nat, p: Peer): Table
    requires h < |t.buckets|
  {
    t.(buckets := t.buckets[h := t.buckets[h] + [p]])
  }

  datatype Outcome<T> = Outcome(table: T, ok: bool)

  function Updated(t: Table, p: Peer): Outcome<Table>
    requires Layout(t)
  {
    var h := Home(t, p.id);
    var b := t.buckets[h];
    assert BucketAt(t, h);
    if p in b then Outcome(t.(buckets := t.buckets[h := Without(b, p) + [p]]), true)
    else if |b| < t.k then Outcome(Add(t, h, p), true)
    else if h == |t.buckets| - 1 then
      var u := Unfolded(t);
      var g := Home(u, p.id);
      if |u.buckets[g]| >= t.k then Outcome(u, false) else Outcome(Add(u, g, p), true)
    else Outcome(t, false)
  }

  // ---------- the eager table ----------

  datatype Eager = Eager(k: nat, local: Peer, lists: seq<seq<Peer>>)

  /** A bounded recency list after p is offered. */
  function Offer(l: seq<Peer>, p: Peer, k: nat): seq<Peer> {
    if p in l then Without(l, p) + [p] else if |l| < k then l + [p] else l
  }

  function EagerUpdated(e: Eager, p: Peer): Outcome<Eager>
    requires |e.lists| == WIDTH + 1
  {
    var c := Cpl(e.local.id, p.id);
    var l := e.lists[c];
    Outcome(e.(lists := e.lists[c := Offer(l, p, e.k)]), p in l || |l| < e.k)
  }

  /** The peers of prefix length c, read off the one bucket that can hold them. */
  function Class(t: Table, c: nat): seq<Peer>
    requires t.buckets != []
  {
    Filter(t.buckets[Min(c, |t.buckets| - 1)], InClass(t.local.id, c))
  }

  function Abs(t: Table): (e: Eager)
    requires t.buckets != []
    ensures |e.lists| == WIDTH + 1
  {
    Eager(t.k, t.local, seq(WIDTH + 1, c requires 0 <= c => Class(t, c)))
  }

  // ---------- unfolding ----------

  // Splitting a non-empty list at its least prefix length.
  lemma SplitAtLeast(b: seq<Peer>, k: nat, local: Id, l: nat)
    requires b != [] && BucketOk(b, k, local, l, true)
    ensures var m := MinCpl(b, local);
            var x, y := Filter(b, InClass(local, m)), Filter(b, Beyond(local, m));
            && x != [] && |y| < |b|
            && BucketOk(x, k, local, m, false) && BucketOk(y, k, local, m + 1, true)
            && forall p :: p in x || p in y ==> p in b
  {
    var m := MinCpl(b, local);
    var f, g := InClass(local, m), Beyond(local, m);
    var least :| least in b && Cpl(local, least.id) == m;
    FilterMembers(b, f);
    FilterMembers(b, g);
    assert least in Filter(b, f);
    FilterAll(b, g);
    FilterMultiset(b, f);
    FilterMultiset(b, g);
  }

  lemma SplitKeepsPeers(b: seq<Peer>, local: Id)
    requires b != []
    ensures var m := MinCpl(b, local);
            multiset(Filter(b, InClass(local, m))) + multiset(Filter(b, Beyond(local, m))) == multiset(b)
  {
    var f, g := InClass(local, MinCpl(b, local)), Beyond(local, MinCpl(b, local));
    FilterMultiset(b, f);
    FilterMultiset(b, g);
    forall p
      ensures multiset(Filter(b, f))[p] + multiset(Filter(b, g))[p] == multiset(b)[p]
    {
      assert p in multiset(b) <==> p in b;
    }
    assert multiset(Filter(b, f)) + multiset(Filter(b, g)) == multiset(b);
  }

  lemma UnfoldedBuckets(t: Table)
    requires Unfoldable(t)
    ensures var l := |t.buckets| - 1;
            var m := MinCpl(t.buckets[l], t.local.id);
            var u := Unfolded(t).buckets;
            && l <= m && |u| == m + 2
            && (forall i :: 0 <= i < l ==> u[i] == t.buckets[i]) && (forall i :: l <= i < m ==> u[i] == [])
            && u[m] == Filter(t.buckets[l], InClass(t.local.id, m))
            && u[m + 1] == Filter(t.buckets[l], Beyond(t.local.id, m))
  {
  }

  lemma UnfoldedLayout(t: Table)
    requires Layout(t) && Unfoldable(t)
    ensures Layout(Unfolded(t))
  {
    var l := |t.buckets| - 1;
    var m := MinCpl(t.buckets[l], t.local.id);
    assert BucketAt(t, l);
    SplitAtLeast(t.buckets[l], t.k, t.local.id, l);
    UnfoldedBuckets(t);
    var u := Unfolded(t);
    forall i | 0 <= i < |u.buckets|
      ensures BucketAt(u, i)
    {
      if i < l {
        assert BucketAt(t, i);
      } else if i < m {
        assert u.buckets[i] == [];
      }
    }
    assert u.buckets[|u.buckets| - 2] != [];
  }

  lemma UnfoldedKeepsClass(t: Table, c: nat)
    requires Layout(t) && Unfoldable(t)
    ensures Class(Unfolded(t), c) == Class(t, c)
  {
    var l := |t.buckets| - 1;
    var b := t.buckets[l];
    var m := MinCpl(b, t.local.id);
    var f := InClass(t.local.id, c);
    if l <= c < m {
      FilterAll(b, f);
    } else if c == m {
      FilterTwice(b, f, f, f);
    } else if c > m {
      FilterTwice(b, Beyond(t.local.id, m), f, f);
    }
  }

  lemma UnfoldedKeepsAbs(t: Table)
    requires Layout(t) && Unfoldable(t)
    ensures Abs(Unfolded(t)) == Abs(t)
  {
    forall c: nat
      ensures Class(Unfolded(t), c) == Class(t, c)
    {
      UnfoldedKeepsClass(t, c);
    }
  }

  /** Unfolding keeps every peer, the order inside each class, and the invariant; it leaves
      the class of least prefix length non-empty in the last but one bucket and room in the last. */
  lemma UnfoldInClosedForm(t: Table)
    requires Layout(t) && Unfoldable(t) && |t.buckets[|t.buckets| - 1]| == t.k
    ensures Layout(Unfolded(t)) && Abs(Unfolded(t)) == Abs(t)
    ensures var l := |t.buckets| - 1;
            var m := MinCpl(t.buckets[l], t.local.id);
            var u := Unfolded(t).buckets;
            && |u| - |t.buckets| == m - l + 1
            && (forall i :: 0 <= i < l ==> u[i] == t.buckets[i]) && (forall i :: l <= i < m ==> u[i] == [])
            && u[m] == Filter(t.buckets[l], InClass(t.local.id, m))
            && u[m + 1] == Filter(t.buckets[l], Beyond(t.local.id, m))
            && u[m] != [] && (forall p :: p in u[m] ==> Cpl(t.local.id, p.id) == m)
            && |u[m + 1]| < t.k && (forall p :: p in u[m + 1] ==> Cpl(t.local.id, p.id) > m)
            && multiset(u[m]) + multiset(u[m + 1]) == multiset(t.buckets[l])
  {
    UnfoldedLayout(t);
    UnfoldedKeepsAbs(t);
    UnfoldedBuckets(t);
    SplitAtLeast(t.buckets[|t.buckets| - 1], t.k, t.local.id, |t.buckets| - 1);
    SplitKeepsPeers(t.buckets[|t.buckets| - 1], t.local.id);
  }

  // ---------- the recursion behind the closed form ----------

  function Upto(local: Id, c: int): Peer -> bool {
    (p: Peer) => Cpl(local, p.id) <= c
  }

  /** The table after one `split` of its last bucket. */
  function SplitLast(t: Table): Table
    requires t.buckets != []
  {
    var l := |t.buckets| - 1;
    t.(buckets := t.buckets[..l] + [Filter(t.buckets[l], Upto(t.local.id, l)),
                                    Filter(t.buckets[l], Beyond(t.local.id, l))])
  }

  lemma AllBeyond(b: seq<Peer>, local: Id, l: nat)
    requires |Filter(b, Beyond(local, l))| == |b|
    ensures Filter(b, Beyond(local, l)) == b && Filter(b, Upto(local, l)) == []
    ensures forall p :: p in b ==> Cpl(local, p.id) > l
  {
    FilterAll(b, Beyond(local, l));
    FilterAll(b, Upto(local, l));
  }

  // Nothing of the bucket's own class: the unfolding is left to the next bucket.
  lemma SplitMovesAll(t: Table)
    requires Unfoldable(t)
    requires var l := |t.buckets| - 1; |Filter(t.buckets[l], Beyond(t.local.id, l))| == |t.buckets[l]|
    ensures Unfoldable(SplitLast(t)) && SplitLast(t).buckets[|t.buckets|] == t.buckets[|t.buckets| - 1]
    ensures Unfolded(SplitLast(t)) == Unfolded(t)
  {
    var l := |t.buckets| - 1;
    var b := t.buckets[l];
    var m := MinCpl(b, t.local.id);
    AllBeyond(b, t.local.id, l);
    assert SplitLast(t).buckets == t.buckets[..l] + [[]] + [b];
    assert BucketAt(SplitLast(t), l + 1);
    assert SplitLast(t).buckets[..l + 1] == t.buckets[..l] + [[]];
    SpreadShift(t.buckets[..l], m - l, Filter(b, InClass(t.local.id, m)), Filter(b, Beyond(t.local.id, m)));
  }

  lemma LeastIsIndex(b: seq<Peer>, k: nat, local: Id, l: nat)
    requires b != [] && BucketOk(b, k, local, l, true) && |Filter(b, Beyond(local, l))| < |b|
    ensures MinCpl(b, local) == l
  {
    if MinCpl(b, local) > l {
      FilterAll(b, Beyond(local, l));
    }
  }

  // Otherwise one split is the whole unfolding.
  lemma SplitKeepsSome(t: Table)
    requires Unfoldable(t)
    requires var l := |t.buckets| - 1; |Filter(t.buckets[l], Beyond(t.local.id, l))| < |t.buckets[l]|
    ensures SplitLast(t) == Unfolded(t)
  {
    var l := |t.buckets| - 1;
    var b := t.buckets[l];
    LeastIsIndex(b, t.k, t.local.id, l);
    FilterSame(b, Upto(t.local.id, l), InClass(t.local.id, l));
    SpreadNone(t.buckets[..l], Filter(b, InClass(t.local.id, l)), Filter(b, Beyond(t.local.id, l)));
  }

  // One split of a full last bucket: the rest is full again and still to be unfolded, or
  // the unfolding is complete.
  lemma SplitLastStep(t: Table)
    requires Unfoldable(t) && |t.buckets[|t.buckets| - 1]| == t.k
    ensures |t.buckets| <= WIDTH + 1
    ensures var u := SplitLast(t);
            if |u.buckets[|t.buckets|]| >= t.k
            then Unfoldable(u) && |u.buckets[|t.buckets|]| == t.k && Unfolded(u) == Unfolded(t)
            else u == Unfolded(t)
  {
    var l := |t.buckets| - 1;
    NonEmptyIsNear(t.buckets[l], t.k, t.local.id, l, true);
    if |Filter(t.buckets[l], Beyond(t.local.id, l))| == |t.buckets[l]| {
      SplitMovesAll(t);
    } else {
      SplitKeepsSome(t);
    }
  }

  lemma SpreadShift(pre: seq<seq<Peer>>, gap: nat, x: seq<Peer>, y: seq<Peer>)
    requires gap >= 1
    ensures Spread(pre + [[]], gap - 1, x, y) == Spread(pre, gap, x, y)
  {
  }

  lemma SpreadNone(pre: seq<seq<Peer>>, x: seq<Peer>, y: seq<Peer>)
    ensures Spread(pre, 0, x, y) == pre + [x, y]
  {
  }

  /** Whether `unfold_buckets` ends within n nested calls. */
  predicate UnfoldStops(t: Table, n: nat)
    requires t.buckets != []
    decreases n
  {
    n > 0 && (|SplitLast(t).buckets[|t.buckets|]| < t.k || UnfoldStops(SplitLast(t), n - 1))
  }

  ghost predicate UnfoldEnds(t: Table)
    requires t.buckets != []
  {
    exists n: nat :: UnfoldStops(t, n)
  }

  // The recursion ends exactly when k is at least 1, whatever the table holds.
  lemma UnfoldEndsIff(t: Table)
    requires t.buckets != []
    ensures UnfoldEnds(t) <==> t.k >= 1
  {
    if t.k >= 1 {
      StopsAtWidth(t, if |t.buckets| > WIDTH then 1 else WIDTH + 2 - |t.buckets|);
    } else {
      forall n: nat
        ensures !UnfoldStops(t, n)
      {
        NeverStops(t, n);
      }
    }
  }

  /** Whether an update ends: it does unless it unfolds the table and that does not. */
  ghost predicate UpdateEnds(t: Table, p: Peer)
    requires t.buckets != []
  {
    var h := Home(t, p.id);
    p in t.buckets[h] || |t.buckets[h]| < t.k || h < |t.buckets| - 1 || UnfoldEnds(t)
  }

  // On a new table the very first update ends exactly when k is at least 1.
  lemma FirstUpdateEndsIff(k: nat, local: Peer, p: Peer)
    ensures UpdateEnds(New(k, local), p) <==> k >= 1
  {
    UnfoldEndsIff(New(k, local));
  }

  lemma {:induction false} StopsAtWidth(t: Table, n: nat)
    requires t.buckets != [] && t.k >= 1 && n >= 1 && |t.buckets| + n >= WIDTH + 2
    ensures UnfoldStops(t, n)
    decreases n
  {
    var l := |t.buckets| - 1;
    if n == 1 {
      FilterAll(t.buckets[l], Beyond(t.local.id, l));
    } else {
      StopsAtWidth(SplitLast(t), n - 1);
    }
  }

  lemma {:induction false} NeverStops(t: Table, n: nat)
    requires t.buckets != [] && t.k == 0
    ensures !UnfoldStops(t, n)
    decreases n
  {
    if n > 0 {
      NeverStops(SplitLast(t), n - 1);
    }
  }

  // ---------- one update ----------

  // Writing the home bucket of p with a list that differs from the old one only at p.
  lemma WriteHome(t: Table, p: Peer, b: seq<Peer>)
    requires Layout(t)
    requires |b| <= t.k && NoDup(b) && p in b
    requires forall q :: q in b ==> q == p || q in t.buckets[Home(t, p.id)]
    ensures Layout(t.(buckets := t.buckets[Home(t, p.id) := b]))
  {
    var h, l := Home(t, p.id), |t.buckets| - 1;
    var u := t.(buckets := t.buckets[h := b]);
    assert BucketAt(t, h);
    forall i | 0 <= i < |u.buckets|
      ensures BucketAt(u, i)
    {
      assert BucketAt(t, i);
    }
  }

  // If the new list offers p to its own class and keeps the others, so does the table.
  lemma WriteHomeClasses(t: Table, p: Peer, b: seq<Peer>)
    requires t.buckets != []
    requires forall c: nat :: Filter(b, InClass(t.local.id, c))
                           == OfferIn(t.buckets[Home(t, p.id)], p, t.k, t.local.id, c)
    ensures Abs(t.(buckets := t.buckets[Home(t, p.id) := b])) == EagerUpdated(Abs(t), p).table
  {
    var u := t.(buckets := t.buckets[Home(t, p.id) := b]);
    forall c: nat | c <= WIDTH
      ensures Class(u, c) == if c == Cpl(t.local.id, p.id) then Offer(Class(t, c), p, t.k) else Class(t, c)
    {
      assert Filter(b, InClass(t.local.id, c)) == OfferIn(t.buckets[Home(t, p.id)], p, t.k, t.local.id, c);
    }
  }

  function OfferIn(b: seq<Peer>, p: Peer, k: nat, local: Id, c: nat): seq<Peer> {
    var l := Filter(b, InClass(local, c));
    if c == Cpl(local, p.id) then Offer(l, p, k) else l
  }

  lemma AppendOffers(b: seq<Peer>, p: Peer, k: nat, local: Id, c: nat)
    requires p !in b && |b| < k
    ensures Filter(b + [p], InClass(local, c)) == OfferIn(b, p, k, local, c)
  {
    FilterAppend(b, [p], InClass(local, c));
    FilterMembers(b, InClass(local, c));
  }

  lemma MoveOffers(b: seq<Peer>, p: Peer, k: nat, local: Id, c: nat)
    requires p in b
    ensures Filter(Without(b, p) + [p], InClass(local, c)) == OfferIn(b, p, k, local, c)
  {
    var f := InClass(local, c);
    FilterAppend(Without(b, p), [p], f);
    FilterCommute(b, Except(p), f);
    FilterMembers(b, f);
    FilterAll(Filter(b, f), Except(p));
  }

  lemma MovedList(b: seq<Peer>, p: Peer)
    requires NoDup(b) && p in b
    ensures var w := Without(b, p) + [p];
            NoDup(w) && |w| <= |b| && forall q :: q in w ==> q in b
  {
    FilterMembers(b, Except(p));
    FilterMultiset(b, Except(p));
    FilterAll(b, Except(p));
    NoDupJoin(Without(b, p), [p]);
  }

  // Room in the home bucket: both tables append.
  lemma AddStep(t: Table, p: Peer)
    requires Layout(t) && p !in t.buckets[Home(t, p.id)] && |t.buckets[Home(t, p.id)]| < t.k
    ensures Layout(Add(t, Home(t, p.id), p))
    ensures EagerUpdated(Abs(t), p) == Outcome(Abs(Add(t, Home(t, p.id), p)), true)
  {
    var b := t.buckets[Home(t, p.id)];
    assert BucketAt(t, Home(t, p.id));
    NoDupJoin(b, [p]);
    WriteHome(t, p, b + [p]);
    forall c: nat
      ensures Filter(b + [p], InClass(t.local.id, c)) == OfferIn(b, p, t.k, t.local.id, c)
    {
      AppendOffers(b, p, t.k, t.local.id, c);
    }
    WriteHomeClasses(t, p, b + [p]);
  }

  // Known peer: both tables move it to the end.
  lemma MoveStep(t: Table, p: Peer)
    requires Layout(t) && p in t.buckets[Home(t, p.id)]
    ensures Layout(Updated(t, p).table)
    ensures EagerUpdated(Abs(t), p) == Outcome(Abs(Updated(t, p).table), true)
  {
    var b := t.buckets[Home(t, p.id)];
    assert BucketAt(t, Home(t, p.id));
    MovedList(b, p);
    WriteHome(t, p, Without(b, p) + [p]);
    forall c: nat
      ensures Filter(Without(b, p) + [p], InClass(t.local.id, c)) == OfferIn(b, p, t.k, t.local.id, c)
    {
      MoveOffers(b, p, t.k, t.local.id, c);
    }
    WriteHomeClasses(t, p, Without(b, p) + [p]);
    FilterMembers(b, InClass(t.local.id, Cpl(t.local.id, p.id)));
  }

  // A full home bucket before the last, hence of one class: both tables refuse.
  lemma FullStep(t: Table, p: Peer)
    requires Layout(t) && p !in t.buckets[Home(t, p.id)] && |t.buckets[Home(t, p.id)]| >= t.k
    requires Home(t, p.id) < |t.buckets| - 1
    ensures EagerUpdated(Abs(t), p) == Outcome(Abs(t), false)
  {
    var c := Cpl(t.local.id, p.id);
    assert BucketAt(t, Home(t, p.id));
    FilterAll(t.buckets[Home(t, p.id)], InClass(t.local.id, c));
    assert Class(t, c) == t.buckets[Home(t, p.id)];
    assert Abs(t).lists[c := Class(t, c)] == Abs(t).lists;
  }

  // After unfolding a full last bucket, the new home bucket of p has room or is of one class.
  lemma UnfoldedHome(t: Table, p: Peer)
    requires Unfoldable(t) && Home(t, p.id) == |t.buckets| - 1
    requires p !in t.buckets[|t.buckets| - 1] && |t.buckets[|t.buckets| - 1]| == t.k
    ensures var u := Unfolded(t);
            var g := Home(u, p.id);
            p !in u.buckets[g] && (|u.buckets[g]| >= t.k ==> g == Cpl(t.local.id, p.id) < |u.buckets| - 1)
  {
    var l := |t.buckets| - 1;
    var b := t.buckets[l];
    var c, m := Cpl(t.local.id, p.id), MinCpl(b, t.local.id);
    var x, y := Filter(b, InClass(t.local.id, m)), Filter(b, Beyond(t.local.id, m));
    assert |y| < |b| && p !in x && p !in y by {
      SplitAtLeast(b, t.k, t.local.id, l);
    }
    SpreadHome(t.buckets[..l], m - l, x, y, c);
  }

  lemma SpreadHome(pre: seq<seq<Peer>>, gap: nat, x: seq<Peer>, y: seq<Peer>, c: nat)
    requires |pre| <= c
    ensures var m := |pre| + gap;
            Spread(pre, gap, x, y)[Min(c, m + 1)] == if c < m then [] else if c == m then x else y
  {
  }

  lemma LastIsUnfoldable(t: Table)
    requires Layout(t) && |t.buckets[|t.buckets| - 1]| >= t.k
    ensures Unfoldable(t) && |t.buckets[|t.buckets| - 1]| == t.k
  {
    assert BucketAt(t, |t.buckets| - 1);
  }

  // The lazy table simulates the eager one: same answer, same lists, layout kept.
  lemma UpdateRefinesEager(t: Table, p: Peer)
    requires Layout(t)
    ensures Layout(Updated(t, p).table)
    ensures EagerUpdated(Abs(t), p) == Outcome(Abs(Updated(t, p).table), Updated(t, p).ok)
  {
    var h := Home(t, p.id);
    var b := t.buckets[h];
    assert BucketAt(t, h);
    if p in b {
      MoveStep(t, p);
    } else if |b| < t.k {
      AddStep(t, p);
    } else if h == |t.buckets| - 1 {
      LastIsUnfoldable(t);
      UnfoldedLayout(t);
      UnfoldedKeepsAbs(t);
      UnfoldedHome(t, p);
      var u := Unfolded(t);
      if |u.buckets[Home(u, p.id)]| >= t.k {
        FullStep(u, p);
      } else {
        AddStep(u, p);
      }
    } else {
      FullStep(t, p);
    }
  }

  /** What unfolding puts into bucket i out of the bucket b, whose least class is m. */
  function Part(b: seq<Peer>, local: Id, m: nat, i: nat): seq<Peer> {
    if i < m then [] else if i == m then Filter(b, InClass(local, m)) else Filter(b, Beyond(local, m))
  }

  lemma StaysFolded(t: Table, p: Peer)
    requires Layout(t)
    requires var h := Home(t, p.id); h < |t.buckets| - 1 || p in t.buckets[h] || |t.buckets[h]| < t.k
    ensures var h := Home(t, p.id); Updated(t, p).table.buckets == t.buckets[h := Offer(t.buckets[h], p, t.k)]
  {
    var h := Home(t, p.id);
    assert t.buckets[h := t.buckets[h]] == t.buckets;
  }

  lemma UnfoldedParts(t: Table, p: Peer)
    requires Layout(t) && Unfoldable(t) && p !in t.buckets[|t.buckets| - 1]
    ensures var h := |t.buckets| - 1;
            var b := t.buckets[h];
            var m := MinCpl(b, t.local.id);
            var u := Unfolded(t);
            && Home(u, p.id) == Min(Cpl(t.local.id, p.id), m + 1)
            && |u.buckets| == m + 2 && (forall i :: 0 <= i < h ==> u.buckets[i] == t.buckets[i])
            && forall i :: h <= i < m + 2 ==> u.buckets[i] == Part(b, t.local.id, m, i) && p !in u.buckets[i]
  {
    var h := |t.buckets| - 1;
    var m := MinCpl(t.buckets[h], t.local.id);
    UnfoldedBuckets(t);
    FilterMembers(t.buckets[h], InClass(t.local.id, m));
    FilterMembers(t.buckets[h], Beyond(t.local.id, m));
  }

  lemma UnfoldsThenOffers(t: Table, p: Peer)
    requires Layout(t) && Unfoldable(t) && Home(t, p.id) == |t.buckets| - 1
    requires p !in t.buckets[|t.buckets| - 1] && |t.buckets[|t.buckets| - 1]| == t.k
    ensures var u := Unfolded(t);
            var g := Home(u, p.id);
            Updated(t, p).table.buckets == u.buckets[g := Offer(u.buckets[g], p, t.k)]
  {
    var u := Unfolded(t);
    UnfoldedHome(t, p);
    assert u.buckets[Home(u, p.id) := u.buckets[Home(u, p.id)]] == u.buckets;
  }

  // When the table unfolds, and into what: only if p is unknown and its home is the last
  // bucket and full. Otherwise p is offered to its home bucket and all else stays in place.
  lemma UpdateLayout(t: Table, p: Peer)
    requires Layout(t)
    ensures var h := Home(t, p.id);
            var b := t.buckets[h];
            var u := Updated(t, p).table;
            if h < |t.buckets| - 1 || p in b || |b| < t.k
            then u.buckets == t.buckets[h := Offer(b, p, t.k)]
            else
              var m := MinCpl(b, t.local.id);
              var g := Min(Cpl(t.local.id, p.id), m + 1);
              && |u.buckets| == m + 2 && (forall i :: 0 <= i < h ==> u.buckets[i] == t.buckets[i])
              && forall i :: h <= i < m + 2 ==>
                   u.buckets[i] == if i == g then Offer(Part(b, t.local.id, m, i), p, t.k)
                                   else Part(b, t.local.id, m, i)
  {
    var h := Home(t, p.id);
    var b := t.buckets[h];
    if h < |t.buckets| - 1 || p in b || |b| < t.k {
      StaysFolded(t, p);
    } else {
      LastIsUnfoldable(t);
      UnfoldedParts(t, p);
      UnfoldsThenOffers(t, p);
      var g := Home(Unfolded(t), p.id);
      assert forall i :: 0 <= i < |Unfolded(t).buckets| && i != g ==>
                           Updated(t, p).table.buckets[i] == Unfolded(t).buckets[i];
    }
  }

  // A refusal says exactly that p is unknown and its own class is full.
  lemma UpdateFailsIff(t: Table, p: Peer)
    requires Layout(t)
    ensures var l := Class(t, Cpl(t.local.id, p.id));
            !Updated(t, p).ok <==> p !in l && |l| == t.k
    ensures p in Class(t, Cpl(t.local.id, p.id)) <==> p in t.buckets[Home(t, p.id)]
  {
    UpdateRefinesEager(t, p);
    assert BucketAt(t, Home(t, p.id));
    FilterMembers(t.buckets[Home(t, p.id)], InClass(t.local.id, Cpl(t.local.id, p.id)));
    assert Abs(t).lists[Cpl(t.local.id, p.id)] == Class(t, Cpl(t.local.id, p.id));
  }

  // Repeating an update changes nothing, even after a refusal that unfolded the table.
  lemma UpdateIdempotent(t: Table, p: Peer)
    requires Layout(t)
    ensures Layout(Updated(t, p).table)
    ensures Updated(Updated(t, p).table, p) == Updated(t, p)
  {
    UpdateRefinesEager(t, p);
    if Updated(t, p).ok {
      AcceptedIsLast(t, p);
      MoveIsIdentity(Updated(t, p).table, p);
    } else {
      RefusedIsStable(t, p);
    }
  }

  lemma RefusedIsStable(t: Table, p: Peer)
    requires Layout(t) && Layout(Updated(t, p).table) && !Updated(t, p).ok
    ensures Updated(Updated(t, p).table, p) == Updated(t, p)
  {
    if Home(t, p.id) == |t.buckets| - 1 {
      LastIsUnfoldable(t);
      UnfoldedHome(t, p);
    }
  }

  lemma AcceptedIsLast(t: Table, p: Peer)
    requires Layout(t) && Updated(t, p).ok
    ensures var u := Updated(t, p).table;
            u.buckets != [] && u.buckets[Home(u, p.id)] != []
            && u.buckets[Home(u, p.id)][|u.buckets[Home(u, p.id)]| - 1] == p
  {
    var u := Updated(t, p).table;
    var h := Home(u, p.id);
    if p in t.buckets[Home(t, p.id)] {
      assert u.buckets[h] == Without(t.buckets[h], p) + [p];
    } else if |t.buckets[Home(t, p.id)]| < t.k {
      assert u.buckets[h] == t.buckets[h] + [p];
    }
  }

  lemma MoveIsIdentity(u: Table, p: Peer)
    requires Layout(u)
    requires var b := u.buckets[Home(u, p.id)]; b != [] && b[|b| - 1] == p
    ensures Updated(u, p) == Outcome(u, true)
  {
    var h := Home(u, p.id);
    var b := u.buckets[h];
    assert BucketAt(u, h);
    MoveLast(b, p);
    assert u.buckets[h := b] == u.buckets;
  }

  lemma MoveLast(b: seq<Peer>, p: Peer)
    requires NoDup(b) && b != [] && b[|b| - 1] == p
    ensures Without(b, p) + [p] == b
  {
    var n := |b| - 1;
    NoDupMeaning(b);
    assert b == b[..n] + [p];
    FilterAppend(b[..n], [p], Except(p));
    FilterAll(b[..n], Except(p));
  }

  // ---------- consequences of the invariant ----------

  function Members(buckets: seq<seq<Peer>>): seq<Peer> {
    if buckets == [] then [] else Members(buckets[..|buckets| - 1]) + buckets[|buckets| - 1]
  }

  lemma {:induction false} MembersMeaning(buckets: seq<seq<Peer>>, p: Peer)
    ensures p in Members(buckets) <==> exists i :: 0 <= i < |buckets| && p in buckets[i]
  {
    if buckets != [] {
      var n := |buckets| - 1;
      MembersMeaning(buckets[..n], p);
      assert buckets == buckets[..n] + [buckets[n]];
    }
  }

  lemma NonEmptyIsNear(b: seq<Peer>, k: nat, local: Id, i: nat, last: bool)
    requires b != [] && BucketOk(b, k, local, i, last)
    ensures i <= WIDTH
  {
    assert b[0] in b;
  }

  lemma FarBucketsEmpty(t: Table, i: nat)
    requires Layout(t) && WIDTH < i < |t.buckets|
    ensures t.buckets[i] == []
  {
    assert BucketAt(t, i);
    if t.buckets[i] != [] {
      NonEmptyIsNear(t.buckets[i], t.k, t.local.id, i, i == |t.buckets| - 1);
    }
  }

  // At most 130 buckets, the 130th always empty.
  lemma BucketCount(t: Table)
    requires Layout(t)
    ensures |t.buckets| <= WIDTH + 2
    ensures forall i :: WIDTH < i < |t.buckets| ==> t.buckets[i] == []
  {
    forall i | WIDTH < i < |t.buckets|
      ensures t.buckets[i] == []
    {
      FarBucketsEmpty(t, i);
    }
  }

  // No peer occurs twice anywhere, and there are at most 129k of them.
  lemma MembersBound(t: Table)
    requires Layout(t)
    ensures NoDup(Members(t.buckets))
    ensures |Members(t.buckets)| <= (WIDTH + 1) * t.k
  {
    MembersNoDup(t, |t.buckets|);
    PrefixSize(t, |t.buckets|);
    assert t.buckets[..|t.buckets|] == t.buckets;
    MulMonotone(Min(|t.buckets|, WIDTH + 1), WIDTH + 1, t.k);
  }

  lemma MulMonotone(a: nat, b: nat, k: nat)
    requires a <= b
    ensures a * k <= b * k
  {
  }

  lemma {:induction false} MembersNoDup(t: Table, n: nat)
    requires Layout(t) && n <= |t.buckets|
    ensures NoDup(Members(t.buckets[..n]))
  {
    if n > 0 {
      var pre := t.buckets[..n - 1];
      var b := t.buckets[n - 1];
      MembersNoDup(t, n - 1);
      assert t.buckets[..n][..n - 1] == pre;
      assert BucketAt(t, n - 1);
      forall p | p in Members(pre)
        ensures p !in b
      {
        MembersMeaning(pre, p);
        var i :| 0 <= i < n - 1 && p in pre[i];
        assert BucketAt(t, i);
      }
      NoDupJoin(Members(pre), b);
    }
  }

  lemma MulStep(n: nat, k: nat)
    ensures (n + 1) * k == n * k + k
  {
  }

  lemma {:induction false} PrefixSize(t: Table, n: nat)
    requires Layout(t) && n <= |t.buckets|
    ensures |Members(t.buckets[..n])| <= Min(n, WIDTH + 1) * t.k
  {
    if n > 0 {
      MulStep(n - 1, t.k);
      PrefixSize(t, n - 1);
      assert t.buckets[..n][..n - 1] == t.buckets[..n - 1];
      if n <= WIDTH + 1 {
        assert BucketAt(t, n - 1);
      } else {
        FarBucketsEmpty(t, n - 1);
      }
    }
  }

  // Looking in one bucket decides membership in the whole table.
  lemma OneBucketDecides(t: Table, p: Peer)
    requires Layout(t)
    ensures p in Members(t.buckets) <==> p in t.buckets[Home(t, p.id)]
    ensures p in Members(t.buckets) <==> p in Abs(t).lists[Cpl(t.local.id, p.id)]
  {
    MembersMeaning(t.buckets, p);
    forall i | 0 <= i < |t.buckets| && p in t.buckets[i]
      ensures i == Home(t, p.id)
    {
      assert BucketAt(t, i);
    }
    FilterMembers(t.buckets[Home(t, p.id)], InClass(t.local.id, Cpl(t.local.id, p.id)));
    assert Abs(t).lists[Cpl(t.local.id, p.id)] == Class(t, Cpl(t.local.id, p.id));
  }
}
