/** What `nearest_peers` returns (src/routing_table.rs:74-101): the distance bands of the
    buckets around the target, and when the answer is globally nearest. */
module Nearest {
  import opened Ids
  import opened Peers
  import opened Tables
  import opened Histories

  /** The table around a target: its home bucket, the buckets next to it, and the rest. */
  datatype Bands = Bands(home: seq<Peer>, above: seq<Peer>, below: seq<Peer>,
                         farAbove: seq<Peer>, farBelow: seq<Peer>)

  function BandsOf(t: Table, target: Id): Bands
    requires t.buckets != []
  {
    var h := Home(t, target);
    Bands(t.buckets[h],
          if h + 1 < |t.buckets| then t.buckets[h + 1] else [],
          if h >= 1 then t.buckets[h - 1] else [],
          if h + 2 <= |t.buckets| then Members(t.buckets[h + 2..]) else [],
          if h >= 1 then Members(t.buckets[..h - 1]) else [])
  }

  /** The three-bucket window, band by band. */
  function Window(b: Bands, target: Id): seq<Peer> {
    Sort(b.home, target, NearestFirst) + Sort(b.above, target, NearestFirst) + Sort(b.below, target, NearestFirst)
  }

  function NearestPeers(t: Table, target: Id, n: nat): seq<Peer>
    requires t.buckets != []
  {
    Take(Window(BandsOf(t, target), target), n)
  }

  // ---------- distance bands ----------

  // What a peer's bucket says about its common prefix with the target.
  lemma PrefixWithTarget(t: Table, target: Id, i: nat, p: Peer)
    requires Layout(t) && i < |t.buckets| && p in t.buckets[i]
    ensures var h := Home(t, target);
            && (i < h ==> Cpl(target, p.id) == i)
            && (i > h ==> Cpl(target, p.id) == h)
            && (i == h ==> Cpl(target, p.id) >= h)
            && (i == h < |t.buckets| - 1 ==> Cpl(target, p.id) > h || h == WIDTH)
  {
    var h := Home(t, target);
    assert BucketAt(t, i);
    CplMetric(target, t.local.id, p.id);
    CplMetric(t.local.id, target, p.id);
    if i == h < |t.buckets| - 1 && h < WIDTH {
      CplBinary(t.local.id, target, p.id);
    }
  }

  /** Home is nearest, then every bucket above it as one band, then the ones below, descending. */
  predicate Before(h: nat, i: nat, j: nat) {
    (i == h && j != h) || (j < h && j < i)
  }

  // The buckets' distances to the target are strictly separated.
  lemma BandsSeparate(t: Table, target: Id, i: nat, j: nat)
    requires Layout(t) && i < |t.buckets| && j < |t.buckets|
    requires Before(Home(t, target), i, j)
    ensures Nearer(t.buckets[i], t.buckets[j], target)
  {
    forall p, q | p in t.buckets[i] && q in t.buckets[j]
      ensures Distance(p.id, target) < Distance(q.id, target)
    {
      PrefixWithTarget(t, target, i, p);
      PrefixWithTarget(t, target, j, q);
      assert j <= WIDTH by { BucketCount(t); }
      LongerPrefixIsNearer(target, p.id, q.id);
    }
  }

  /** The target leaves the local id again at the bit after the home index. */
  predicate LeavesAgain(t: Table, target: Id)
    requires t.buckets != []
  {
    var i := Home(t, target) + 1;
    i < WIDTH && t.local.id[i] != target[i]
  }

  // That bit decides on which side of all buckets further up the one above home lies.
  lemma AboveSeparates(t: Table, target: Id, j: nat)
    requires Layout(t) && Home(t, target) + 2 <= j < |t.buckets|
    ensures var above := t.buckets[Home(t, target) + 1];
            if LeavesAgain(t, target) then Nearer(above, t.buckets[j], target)
            else Nearer(t.buckets[j], above, target)
  {
    var i := Home(t, target) + 1;
    forall p, q | p in t.buckets[i] && q in t.buckets[j]
      ensures if LeavesAgain(t, target) then Distance(p.id, target) < Distance(q.id, target)
              else Distance(q.id, target) < Distance(p.id, target)
    {
      assert BucketAt(t, i) && BucketAt(t, j);
      CplMetric(p.id, t.local.id, q.id);
      CplMetric(q.id, t.local.id, p.id);
      CplMeaning(t.local.id, p.id, i);
      CplMeaning(t.local.id, q.id, Cpl(t.local.id, q.id));
      assert t.local.id[..Cpl(t.local.id, q.id)][i] == q.id[..Cpl(t.local.id, q.id)][i];
      DistanceOrder(p.id, q.id, target);
      DistanceOrder(q.id, p.id, target);
    }
  }

  lemma FarAboveSeparates(t: Table, target: Id)
    requires Layout(t)
    ensures var b := BandsOf(t, target);
            if LeavesAgain(t, target) then Nearer(b.above, b.farAbove, target) else Nearer(b.farAbove, b.above, target)
  {
    var h := Home(t, target);
    if h + 2 <= |t.buckets| {
      var far := t.buckets[h + 2..];
      forall j | 0 <= j < |far|
        ensures if LeavesAgain(t, target) then Nearer(t.buckets[h + 1], far[j], target)
                else Nearer(far[j], t.buckets[h + 1], target)
      {
        AboveSeparates(t, target, h + 2 + j);
      }
      if LeavesAgain(t, target) {
        NearerMembers(t.buckets[h + 1], far, target);
      } else {
        MembersNearer(far, t.buckets[h + 1], target);
      }
    }
  }

  ghost predicate Separated(b: Bands, target: Id) {
    && Nearer(b.home, b.above, target) && Nearer(b.home, b.below, target)
    && Nearer(b.home, b.farAbove, target) && Nearer(b.home, b.farBelow, target)
    && Nearer(b.above, b.below, target) && Nearer(b.farAbove, b.below, target)
    && Nearer(b.above, b.farBelow, target) && Nearer(b.below, b.farBelow, target)
  }

  lemma {:induction false} NearerMembers(a: seq<Peer>, bs: seq<seq<Peer>>, target: Id)
    requires forall j :: 0 <= j < |bs| ==> Nearer(a, bs[j], target)
    ensures Nearer(a, Members(bs), target)
  {
    if bs != [] {
      NearerMembers(a, bs[..|bs| - 1], target);
    }
  }

  lemma {:induction false} MembersNearer(bs: seq<seq<Peer>>, a: seq<Peer>, target: Id)
    requires forall j :: 0 <= j < |bs| ==> Nearer(bs[j], a, target)
    ensures Nearer(Members(bs), a, target)
  {
    if bs != [] {
      MembersNearer(bs[..|bs| - 1], a, target);
    }
  }

  lemma BeforeFarBelow(t: Table, target: Id, i: nat)
    requires Layout(t) && i < |t.buckets| && Home(t, target) >= 1 && i + 1 >= Home(t, target)
    ensures Nearer(t.buckets[i], Members(t.buckets[..Home(t, target) - 1]), target)
  {
    var far := t.buckets[..Home(t, target) - 1];
    forall j | 0 <= j < |far|
      ensures Nearer(t.buckets[i], far[j], target)
    {
      BandsSeparate(t, target, i, j);
    }
    NearerMembers(t.buckets[i], far, target);
  }

  lemma HomeBeforeFarAbove(t: Table, target: Id)
    requires Layout(t) && Home(t, target) + 2 <= |t.buckets|
    ensures Nearer(t.buckets[Home(t, target)], Members(t.buckets[Home(t, target) + 2..]), target)
  {
    var h := Home(t, target);
    var far := t.buckets[h + 2..];
    forall j | 0 <= j < |far|
      ensures Nearer(t.buckets[h], far[j], target)
    {
      BandsSeparate(t, target, h, h + 2 + j);
    }
    NearerMembers(t.buckets[h], far, target);
  }

  lemma FarAboveBeforeBelow(t: Table, target: Id)
    requires Layout(t) && 1 <= Home(t, target) <= |t.buckets| - 2
    ensures Nearer(Members(t.buckets[Home(t, target) + 2..]), t.buckets[Home(t, target) - 1], target)
  {
    var h := Home(t, target);
    var far := t.buckets[h + 2..];
    forall j | 0 <= j < |far|
      ensures Nearer(far[j], t.buckets[h - 1], target)
    {
      BandsSeparate(t, target, h + 2 + j, h - 1);
    }
    MembersNearer(far, t.buckets[h - 1], target);
  }

  lemma BelowSeparates(t: Table, target: Id, i: nat)
    requires Layout(t) && 1 <= Home(t, target) <= i < |t.buckets|
    ensures var h := Home(t, target);
            Nearer(t.buckets[i], t.buckets[h - 1], target) && Nearer(t.buckets[i], Members(t.buckets[..h - 1]), target)
  {
    BandsSeparate(t, target, i, Home(t, target) - 1);
    BeforeFarBelow(t, target, i);
  }

  lemma HomeBeforeBelow(t: Table, target: Id)
    requires Layout(t)
    ensures var b := BandsOf(t, target); Nearer(b.home, b.below, target) && Nearer(b.home, b.farBelow, target)
  {
    if Home(t, target) >= 1 {
      BelowSeparates(t, target, Home(t, target));
    }
  }

  lemma HomeBeforeAbove(t: Table, target: Id)
    requires Layout(t)
    ensures var b := BandsOf(t, target); Nearer(b.home, b.above, target) && Nearer(b.home, b.farAbove, target)
  {
    if Home(t, target) + 2 <= |t.buckets| {
      BandsSeparate(t, target, Home(t, target), Home(t, target) + 1);
      HomeBeforeFarAbove(t, target);
    }
  }

  lemma TableSeparates(t: Table, target: Id)
    requires Layout(t)
    ensures Separated(BandsOf(t, target), target)
  {
    var h := Home(t, target);
    HomeBeforeBelow(t, target);
    HomeBeforeAbove(t, target);
    if h >= 1 {
      BeforeFarBelow(t, target, h - 1);
      if h + 2 <= |t.buckets| {
        BelowSeparates(t, target, h + 1);
        FarAboveBeforeBelow(t, target);
      }
    }
  }

  lemma {:induction false} MembersAppend(a: seq<seq<Peer>>, b: seq<seq<Peer>>)
    ensures Members(a + b) == Members(a) + Members(b)
  {
    if b == [] {
      assert a + b == a;
    } else {
      var n := |b| - 1;
      MembersAppend(a, b[..n]);
      assert (a + b)[..|a + b| - 1] == a + b[..n];
    }
  }

  lemma {:induction false} MembersAround(bs: seq<seq<Peer>>, i: nat)
    requires i < |bs|
    ensures Members(bs) == Members(bs[..i]) + bs[i] + Members(bs[i + 1..])
  {
    assert bs == bs[..i + 1] + bs[i + 1..];
    assert bs[..i + 1][..i] == bs[..i];
    MembersAppend(bs[..i + 1], bs[i + 1..]);
  }

  lemma MembersBefore(bs: seq<seq<Peer>>, h: nat)
    requires 1 <= h <= |bs|
    ensures Members(bs[..h]) == Members(bs[..h - 1]) + bs[h - 1]
  {
    assert bs[..h][..h - 1] == bs[..h - 1];
  }

  lemma MembersAfter(bs: seq<seq<Peer>>, h: nat)
    requires h < |bs|
    ensures Members(bs[h..]) == bs[h] + Members(bs[h + 1..])
  {
    MembersAround(bs[h..], 0);
    assert bs[h..][1..] == bs[h + 1..] && bs[h..][..0] == [];
  }

  // The bands together are the whole table.
  lemma TableSplits(t: Table, target: Id)
    requires t.buckets != []
    ensures Members(t.buckets) == All(BandsOf(t, target))
  {
    var h := Home(t, target);
    var b := BandsOf(t, target);
    MembersAround(t.buckets, h);
    assert Members(t.buckets[..h]) == b.farBelow + b.below by {
      if h >= 1 {
        MembersBefore(t.buckets, h);
      }
    }
    assert Members(t.buckets[h + 1..]) == b.above + b.farAbove by {
      if h + 1 < |t.buckets| {
        MembersAfter(t.buckets, h + 1);
      }
    }
  }

  lemma NearerJoin(a: seq<Peer>, b: seq<Peer>, c: seq<Peer>, target: Id)
    requires Nearer(a, b, target) && Nearer(a, c, target)
    ensures Nearer(a, b + c, target)
  {
  }

  lemma Associate(a: seq<Peer>, b: seq<Peer>, c: seq<Peer>)
    ensures a + b + c == a + (b + c)
  {
  }

  // Sorting the joined window is concatenating the sorted bands, in whatever order the
  // code joined them.
  lemma WindowIsSort(b: Bands, target: Id)
    requires Separated(b, target)
    ensures Sort(b.home + b.below + b.above, target, NearestFirst) == Window(b, target)
  {
    SortSeparated(b.above, b.below, target);
    NearerJoin(b.home, b.below, b.above, target);
    SortSeparated(b.home, b.below + b.above, target);
    Associate(b.home, b.below, b.above);
    Associate(Sort(b.home, target, NearestFirst), Sort(b.above, target, NearestFirst),
              Sort(b.below, target, NearestFirst));
  }

  lemma WindowIsSorted(b: Bands, target: Id)
    requires Separated(b, target)
    ensures Sorted(Window(b, target), target, NearestFirst)
  {
    WindowIsSort(b, target);
    SortIsStable(b.home + b.below + b.above, target, NearestFirst);
  }

  // A home bucket that is large enough needs no neighbour.
  lemma HomeIsEnough(b: Bands, target: Id, n: nat)
    requires n <= |b.home|
    ensures Take(Sort(b.home, target, NearestFirst), n) == Take(Window(b, target), n)
  {
    TakePrefix(Sort(b.home, target, NearestFirst), Sort(b.above, target, NearestFirst),
               Sort(b.below, target, NearestFirst), n);
  }

  lemma TakePrefix(x: seq<Peer>, y: seq<Peer>, z: seq<Peer>, n: nat)
    requires n <= |x|
    ensures Take(x + y + z, n) == Take(x, n)
  {
  }

  /** What the code gathers before sorting: home, and its neighbours when home is short. */
  function Gathered(t: Table, h: nat, n: nat): seq<Peer>
    requires h < |t.buckets|
  {
    if |t.buckets[h]| < n then
      t.buckets[h] + (if h > 0 then t.buckets[h - 1] else []) + (if h < |t.buckets| - 1 then t.buckets[h + 1] else [])
    else t.buckets[h]
  }

  // Sorting and truncating what was gathered yields the bands in order.
  lemma GatheredIsWindow(t: Table, target: Id, n: nat)
    requires Layout(t)
    ensures Take(Sort(Gathered(t, Home(t, target), n), target, NearestFirst), n) == NearestPeers(t, target, n)
  {
    var b := BandsOf(t, target);
    TableSeparates(t, target);
    if |b.home| < n {
      assert Gathered(t, Home(t, target), n) == b.home + b.below + b.above;
      WindowIsSort(b, target);
    } else {
      HomeIsEnough(b, target, n);
    }
  }

  // ---------- global optimality ----------

  /** r is a set of n nearest peers out of `all`: as many as there can be, and no omitted
      peer strictly nearer than an included one. */
  ghost predicate IsNearestSet(r: seq<Peer>, all: seq<Peer>, target: Id, n: nat) {
    && |r| == Min(n, |all|)
    && (forall p :: p in r ==> p in all)
    && forall p, q :: p in all && p !in r && q in r ==> Distance(q.id, target) <= Distance(p.id, target)
  }

  ghost predicate NoneNearer(far: seq<Peer>, r: seq<Peer>, target: Id) {
    forall p, q :: p in far && q in r ==> Distance(q.id, target) <= Distance(p.id, target)
  }

  function All(b: Bands): seq<Peer> {
    b.farBelow + b.below + b.home + b.above + b.farAbove
  }

  lemma WindowMembers(b: Bands, target: Id)
    ensures multiset(Window(b, target)) == multiset(b.home) + multiset(b.above) + multiset(b.below)
    ensures forall p :: p in Window(b, target) <==> p in b.home || p in b.above || p in b.below
    ensures |Window(b, target)| == |b.home| + |b.above| + |b.below|
  {
    forall p
      ensures p in Window(b, target) <==> p in b.home || p in b.above || p in b.below
    {
      SortMembers(b.home, target, NearestFirst);
      SortMembers(b.above, target, NearestFirst);
      SortMembers(b.below, target, NearestFirst);
    }
  }

  lemma WindowNoDup(b: Bands, target: Id)
    requires NoDup(All(b))
    ensures NoDup(Window(b, target))
    ensures forall p :: p in Window(b, target) ==> p !in b.farAbove && p !in b.farBelow
  {
    WindowMembers(b, target);
    var w := Window(b, target);
    assert multiset(All(b)) == multiset(w) + multiset(b.farAbove) + multiset(b.farBelow);
    forall p
      ensures multiset(w)[p] <= 1
      ensures p in w ==> p !in b.farAbove && p !in b.farBelow
    {
      assert multiset(All(b))[p] == multiset(w)[p] + multiset(b.farAbove)[p] + multiset(b.farBelow)[p];
      assert p in w <==> p in multiset(w);
      assert p in b.farAbove <==> p in multiset(b.farAbove);
      assert p in b.farBelow <==> p in multiset(b.farBelow);
    }
  }

  lemma TakeSplits(w: seq<Peer>, n: nat, target: Id, p: Peer, q: Peer)
    requires Sorted(w, target, NearestFirst)
    requires p in w && p !in Take(w, n) && q in Take(w, n)
    ensures Distance(q.id, target) <= Distance(p.id, target)
  {
    var i :| 0 <= i < |w| && w[i] == p;
    var j :| 0 <= j < |Take(w, n)| && Take(w, n)[j] == q;
    assert i >= |Take(w, n)|;
    assert Rank(w[j], target, NearestFirst) <= Rank(w[i], target, NearestFirst);
  }

  lemma LastIsFarthest(w: seq<Peer>, n: nat, target: Id, q: Peer)
    requires Sorted(w, target, NearestFirst) && 0 < n <= |w| && q in w[..n]
    ensures Distance(q.id, target) <= Distance(w[n - 1].id, target)
  {
    var j :| 0 <= j < n && w[j] == q;
    if j < n - 1 {
      assert Rank(w[j], target, NearestFirst) <= Rank(w[n - 1], target, NearestFirst);
    }
  }

  lemma OmittedIsFarther(b: Bands, target: Id, n: nat, p: Peer, q: Peer)
    requires Separated(b, target) && NoneNearer(b.farAbove, Take(Window(b, target), n), target)
    requires q in Take(Window(b, target), n) && p !in Take(Window(b, target), n)
    requires p in Window(b, target) || p in b.farAbove || p in b.farBelow
    ensures Distance(q.id, target) <= Distance(p.id, target)
  {
    if p in Window(b, target) {
      WindowIsSorted(b, target);
      TakeSplits(Window(b, target), n, target, p, q);
    } else if p in b.farBelow {
      assert q in Window(b, target);
      WindowMembers(b, target);
    }
  }

  lemma AllMembers(b: Bands, target: Id, p: Peer)
    ensures p in All(b) <==> p in Window(b, target) || p in b.farAbove || p in b.farBelow
  {
    WindowMembers(b, target);
  }

  // A prefix of the sorted window is optimal as soon as its size is right and nothing
  // above the window is nearer.
  lemma OptimalIffCore(b: Bands, target: Id, n: nat)
    requires Separated(b, target) && NoDup(All(b))
    ensures var w := Window(b, target);
            IsNearestSet(Take(w, n), All(b), target, n) <==>
            (n <= |w| || (b.farAbove == [] && b.farBelow == [])) && NoneNearer(b.farAbove, Take(w, n), target)
  {
    var w := Window(b, target);
    var r := Take(w, n);
    assert |All(b)| == |w| + |b.farAbove| + |b.farBelow| by { WindowMembers(b, target); }
    forall p
      ensures p in r ==> p in w && p in All(b)
      ensures p in b.farAbove ==> p in All(b) && p !in r
    {
      AllMembers(b, target, p);
      WindowNoDup(b, target);
    }
    if NoneNearer(b.farAbove, r, target) {
      forall p, q | p in All(b) && p !in r && q in r
        ensures Distance(q.id, target) <= Distance(p.id, target)
      {
        AllMembers(b, target, p);
        OmittedIsFarther(b, target, n, p, q);
      }
    }
  }

  lemma HomeBeatsAbove(b: Bands, target: Id, n: nat)
    requires Separated(b, target) && n <= |b.home|
    ensures NoneNearer(b.farAbove, Take(Window(b, target), n), target)
  {
    var r := Sort(b.home, target, NearestFirst);
    HomeIsEnough(b, target, n);
    SortMembers(b.home, target, NearestFirst);
    assert forall q :: q in Take(r, n) ==> q in r;
  }

  lemma LastDecides(b: Bands, target: Id, n: nat)
    requires Separated(b, target) && 0 < n <= |Window(b, target)|
    ensures NoneNearer(b.farAbove, Take(Window(b, target), n), target) <==>
            forall p :: p in b.farAbove ==> Distance(Window(b, target)[n - 1].id, target) <= Distance(p.id, target)
  {
    var w := Window(b, target);
    WindowIsSorted(b, target);
    assert Take(w, n)[n - 1] == w[n - 1];
    assert w[n - 1] in Take(w, n);
    forall q | q in Take(w, n)
      ensures Distance(q.id, target) <= Distance(w[n - 1].id, target)
    {
      LastIsFarthest(w, n, target, q);
    }
  }

  lemma AboveBeatsBelow(b: Bands, target: Id, n: nat)
    requires Separated(b, target) && b.farAbove != []
    requires |b.home| + |b.above| < n <= |Window(b, target)|
    ensures !NoneNearer(b.farAbove, Take(Window(b, target), n), target)
  {
    var z := Sort(b.below, target, NearestFirst);
    var q := Window(b, target)[n - 1];
    assert q == z[n - 1 - |b.home| - |b.above|];
    assert q in b.below by {
      assert q in z;
      SortMembers(b.below, target, NearestFirst);
    }
    assert b.farAbove[0] in b.farAbove;
    LastDecides(b, target, n);
  }

  // With the last answer in the bucket above home, that bucket's side decides.
  lemma AboveDecides(b: Bands, target: Id, n: nat)
    requires Separated(b, target) && b.farAbove != [] && |b.home| < n <= |b.home| + |b.above|
    ensures Nearer(b.above, b.farAbove, target) ==> NoneNearer(b.farAbove, Take(Window(b, target), n), target)
    ensures Nearer(b.farAbove, b.above, target) ==> !NoneNearer(b.farAbove, Take(Window(b, target), n), target)
  {
    var y := Sort(b.above, target, NearestFirst);
    var q := Window(b, target)[n - 1];
    assert q == y[n - 1 - |b.home|];
    assert q in b.above by {
      assert q in y;
      SortMembers(b.above, target, NearestFirst);
    }
    assert b.farAbove[0] in b.farAbove;
    LastDecides(b, target, n);
  }

  // The answer is a true set of n nearest peers of the whole table exactly when home alone
  // suffices, or nothing lies above the window and the window suffices or is followed by
  // nothing below, or home and the bucket above suffice and the target leaves the local id
  // again right after the home index.
  lemma GloballyNearestIff(t: Table, target: Id, n: nat)
    requires Layout(t)
    ensures var b := BandsOf(t, target);
            IsNearestSet(NearestPeers(t, target, n), Members(t.buckets), target, n) <==>
              || n <= |b.home|
              || (b.farAbove == [] && (n <= |b.home| + |b.above| + |b.below| || b.farBelow == []))
              || (|b.home| < n <= |b.home| + |b.above| && LeavesAgain(t, target))
  {
    var b := BandsOf(t, target);
    TableSeparates(t, target);
    TableSplits(t, target);
    MembersBound(t);
    WindowMembers(b, target);
    OptimalIffCore(b, target, n);
    if n <= |b.home| {
      HomeBeatsAbove(b, target, n);
    } else if b.farAbove != [] && n <= |Window(b, target)| {
      if n <= |b.home| + |b.above| {
        FarAboveSeparates(t, target);
        AboveDecides(b, target, n);
      } else {
        AboveBeatsBelow(b, target, n);
      }
    }
  }

  // ---------- answers ----------

  // Every answer is duplicate-free, has at most n peers, all from the table, nearest first.
  lemma AnswerShape(t: Table, target: Id, n: nat)
    requires Layout(t)
    ensures var r := NearestPeers(t, target, n); NoDup(r) && |r| <= n && Sorted(r, target, NearestFirst)
    ensures forall p :: p in NearestPeers(t, target, n) ==> p in Members(t.buckets)
  {
    var b := BandsOf(t, target);
    TableSplits(t, target);
    assert Sorted(Window(b, target), target, NearestFirst) by {
      TableSeparates(t, target);
      WindowIsSorted(b, target);
    }
    assert NoDup(Window(b, target)) by {
      MembersBound(t);
      WindowNoDup(b, target);
    }
    TakeNoDup(Window(b, target), n);
    forall p | p in Window(b, target)
      ensures p in Members(t.buckets)
    {
      AllMembers(b, target, p);
    }
  }

  lemma SortedPrefixIsNearest(s: seq<Peer>, target: Id, n: nat)
    ensures IsNearestSet(Take(Sort(s, target, NearestFirst), n), s, target, n)
  {
    var w := Sort(s, target, NearestFirst);
    SortIsStable(s, target, NearestFirst);
    SortMembers(s, target, NearestFirst);
    forall p, q | p in w && p !in Take(w, n) && q in Take(w, n)
      ensures Distance(q.id, target) <= Distance(p.id, target)
    {
      TakeSplits(w, n, target, p, q);
    }
    forall p | p in Take(w, n)
      ensures p in w
    {
    }
  }

  // Whatever the layout, the answer is the first n of the sorted peers of three buckets,
  // and a set of n nearest among them.
  lemma AnswerIsWindow(t: Table, target: Id, n: nat)
    requires Layout(t)
    ensures var h := Home(t, target);
            var around := t.buckets[h] + (if h > 0 then t.buckets[h - 1] else [])
                          + (if h < |t.buckets| - 1 then t.buckets[h + 1] else []);
            && NearestPeers(t, target, n) == Take(Sort(around, target, NearestFirst), n)
            && IsNearestSet(NearestPeers(t, target, n), around, target, n)
  {
    var b := BandsOf(t, target);
    TableSeparates(t, target);
    WindowIsSort(b, target);
    SortedPrefixIsNearest(b.home + b.below + b.above, target, n);
  }

  // As long as at most k distinct peers were offered, all of them are answered.
  lemma FewAreAllAnswered(k: nat, local: Peer, ps: seq<Peer>, target: Id)
    requires k >= 1 && |KeepLast(ps)| <= k
    ensures Layout(New(k, local))
    ensures NearestPeers(Run(New(k, local), ps), target, k) == Sort(KeepLast(ps), target, NearestFirst)
    ensures forall p :: p in NearestPeers(Run(New(k, local), ps), target, k) <==> p in ps
  {
    SingleBucketIff(k, local, ps);
    var t := Run(New(k, local), ps);
    AnswerIsWindow(t, target, k);
    assert KeepLast(ps) + [] + [] == KeepLast(ps);
    SortMembers(KeepLast(ps), target, NearestFirst);
    KeepLastMembers(ps);
  }

  // From two buckets on, the next-to-last is never empty: home or its neighbour answers.
  lemma LocalWindow(t: Table)
    requires Layout(t) && |t.buckets| >= 2
    ensures Window(BandsOf(t, t.local.id), t.local.id) != []
  {
    CplMetric(t.local.id, t.local.id, t.local.id);
    BucketCount(t);
    WindowMembers(BandsOf(t, t.local.id), t.local.id);
  }

  // Asking for peers near the local id finds one exactly when the table holds any.
  lemma ConnectionTest(t: Table, n: nat)
    requires Layout(t) && n >= 1
    ensures NearestPeers(t, t.local.id, n) != [] <==> Members(t.buckets) != []
  {
    var b := BandsOf(t, t.local.id);
    var w := Window(b, t.local.id);
    TableSplits(t, t.local.id);
    assert |All(b)| == |w| + |b.farAbove| + |b.farBelow| by { WindowMembers(b, t.local.id); }
    if |t.buckets| >= 2 {
      LocalWindow(t);
    } else {
      assert b.farAbove == [] && b.farBelow == [];
    }
  }

  // ---------- what an update does to the answers ----------

  predicate Silent(t: Table, target: Id)
    requires t.buckets != []
  {
    var b := BandsOf(t, target);
    b.home == [] && b.above == [] && b.below == []
  }

  lemma SilentMeaning(t: Table, target: Id)
    requires t.buckets != []
    ensures var h := Home(t, target);
            Silent(t, target) <==> forall i :: 0 <= i < |t.buckets| && h - 1 <= i <= h + 1 ==> t.buckets[i] == []
  {
  }

  lemma AnswerEmptyIff(t: Table, target: Id, n: nat)
    requires t.buckets != [] && n >= 1
    ensures NearestPeers(t, target, n) == [] <==> Silent(t, target)
  {
    WindowMembers(BandsOf(t, target), target);
  }

  /** The buckets of an unfolded table: as before below l, a gap, bucket m, a last one. */
  ghost predicate Gap(u: Table, l: nat, m: nat) {
    && l <= m && |u.buckets| == m + 2
    && (l >= 1 ==> u.buckets[l - 1] != [])
    && (forall i :: l <= i < m ==> u.buckets[i] == [])
    && u.buckets[m] != []
  }

  lemma SilentInGap(u: Table, l: nat, m: nat, target: Id)
    requires Gap(u, l, m)
    requires Cpl(u.local.id, target) + 2 >= l
    ensures var c := Cpl(u.local.id, target);
            Silent(u, target) <==> l <= c && (c > l || l == 0) && c + 1 < m
  {
  }

  // From two buckets below the last one on, something always answers.
  lemma NotSilentNearLast(t: Table, target: Id)
    requires Layout(t) && t.buckets[|t.buckets| - 1] != [] && Cpl(t.local.id, target) + 3 >= |t.buckets|
    ensures !Silent(t, target)
  {
  }

  lemma SilentBelow(t: Table, u: Table, target: Id)
    requires u.local == t.local && 0 < |t.buckets| <= |u.buckets| && Cpl(t.local.id, target) + 3 < |t.buckets|
    requires forall i :: 0 <= i < |t.buckets| - 1 ==> u.buckets[i] == t.buckets[i]
    ensures Silent(u, target) <==> Silent(t, target)
  {
  }

  // Without unfolding, buckets only fill.
  lemma FillingIsHeard(t: Table, u: Table, target: Id)
    requires t.buckets != [] && u.local == t.local && |u.buckets| == |t.buckets|
    requires forall i :: 0 <= i < |t.buckets| && t.buckets[i] != [] ==> u.buckets[i] != []
    ensures Silent(u, target) ==> Silent(t, target)
  {
    var h := Home(t, target);
    assert h == Home(u, target);
    if Silent(u, target) {
      assert t.buckets[h] == [];
      assert h + 1 < |t.buckets| ==> t.buckets[h + 1] == [];
      assert h >= 1 ==> t.buckets[h - 1] == [];
    }
  }

  lemma SilentAdd(u: Table, g: nat, p: Peer, target: Id)
    requires g < |u.buckets|
    ensures var h := Home(u, target);
            Silent(Add(u, g, p), target) <==> Silent(u, target) && (g + 1 < h || g > h + 1)
  {
    SilentMeaning(u, target);
    SilentMeaning(Add(u, g, p), target);
    assert Add(u, g, p).buckets[g] != [];
  }

  /** The update unfolds the table. */
  predicate Unfolds(t: Table, p: Peer)
    requires t.buckets != []
  {
    var l := |t.buckets| - 1;
    Home(t, p.id) == l && p !in t.buckets[l] && |t.buckets[l]| >= t.k
  }

  lemma UnfoldedGap(t: Table)
    requires Layout(t) && Unfoldable(t)
    ensures var l := |t.buckets| - 1;
            Gap(Unfolded(t), l, MinCpl(t.buckets[l], t.local.id))
            && forall i :: 0 <= i < l ==> Unfolded(t).buckets[i] == t.buckets[i]
  {
    UnfoldedBuckets(t);
    SplitAtLeast(t.buckets[|t.buckets| - 1], t.k, t.local.id, |t.buckets| - 1);
  }

  // Unfolding alone silences the targets that fall into the gap, away from both its ends.
  lemma UnfoldingSilences(t: Table, target: Id)
    requires Layout(t) && Unfoldable(t)
    ensures var l := |t.buckets| - 1;
            var c := Cpl(t.local.id, target);
            !Silent(t, target) && Silent(Unfolded(t), target) <==>
            l <= c && (c > l || l == 0) && c + 1 < MinCpl(t.buckets[l], t.local.id)
  {
    var l := |t.buckets| - 1;
    UnfoldedGap(t);
    if Cpl(t.local.id, target) + 3 >= |t.buckets| {
      NotSilentNearLast(t, target);
      SilentInGap(Unfolded(t), l, MinCpl(t.buckets[l], t.local.id), target);
    } else {
      SilentBelow(t, Unfolded(t), target);
    }
  }

  // A refusal after unfolding: the last bucket held the peer's own class only.
  lemma RefusedClass(t: Table, p: Peer)
    requires Layout(t) && !Updated(t, p).ok && Home(t, p.id) == |t.buckets| - 1
    ensures Unfolds(t, p) && Unfoldable(t) && Updated(t, p).table == Unfolded(t)
    ensures MinCpl(t.buckets[|t.buckets| - 1], t.local.id) == Cpl(t.local.id, p.id)
  {
    LastIsUnfoldable(t);
    UnfoldedHome(t, p);
    UnfoldedBuckets(t);
  }

  // The peer that is then added must not fall next to the target either.
  lemma UnfoldedThenAdded(t: Table, p: Peer, target: Id)
    requires Layout(t) && Updated(t, p).ok && Unfolds(t, p)
    ensures t.buckets[|t.buckets| - 1] != []
    ensures var l := |t.buckets| - 1;
            var c, d := Cpl(t.local.id, target), Cpl(t.local.id, p.id);
            var u := Updated(t, p).table;
            && u.buckets != []
            && (!Silent(t, target) && Silent(u, target) <==>
                  && l <= c && (c > l || l == 0) && c + 1 < MinCpl(t.buckets[l], t.local.id)
                  && (d + 1 < c || d > c + 1))
  {
    LastIsUnfoldable(t);
    UnfoldedGap(t);
    UnfoldingSilences(t, target);
    SilentAdd(Unfolded(t), Home(Unfolded(t), p.id), p, target);
  }

  lemma UnfoldedOrNot(t: Table, p: Peer, target: Id)
    requires Layout(t) && !Unfolds(t, p)
    ensures Updated(t, p).table.buckets != [] && (Silent(Updated(t, p).table, target) ==> Silent(t, target))
  {
    FillingIsHeard(t, Updated(t, p).table, target);
  }

  lemma SilencesIff(t: Table, p: Peer, target: Id)
    requires Layout(t) && Unfolds(t, p)
    ensures t.buckets[|t.buckets| - 1] != []
    ensures var l := |t.buckets| - 1;
            var c, d := Cpl(t.local.id, target), Cpl(t.local.id, p.id);
            var u := Updated(t, p).table;
            && u.buckets != []
            && (!Silent(t, target) && Silent(u, target) <==>
                  && l <= c && (c > l || l == 0) && c + 1 < MinCpl(t.buckets[l], t.local.id)
                  && (d + 1 < c || d > c + 1))
  {
    LastIsUnfoldable(t);
    if Updated(t, p).ok {
      UnfoldedThenAdded(t, p, target);
    } else {
      RefusedClass(t, p);
      UnfoldingSilences(t, target);
    }
  }

  /** The update unfolds the table, the target falls into the gap that opens below the least
      class of the last bucket, away from both its ends, and the peer does not fall next to it. */
  predicate FallsIntoGap(t: Table, p: Peer, target: Id)
    requires t.buckets != []
  {
    var l := |t.buckets| - 1;
    var b := t.buckets[l];
    var c, d := Cpl(t.local.id, target), Cpl(t.local.id, p.id);
    && Home(t, p.id) == l && p !in b && b != [] && |b| == t.k
    && l <= c && (c > l || l == 0) && c + 1 < MinCpl(b, t.local.id)
    && (d + 1 < c || d > c + 1)
  }

  lemma NoGapOpens(t: Table, p: Peer, target: Id)
    requires Layout(t) && !Unfolds(t, p)
    ensures !FallsIntoGap(t, p, target)
  {
  }

  lemma GapOpens(t: Table, p: Peer, target: Id)
    requires Layout(t) && Unfolds(t, p) && t.buckets[|t.buckets| - 1] != []
    ensures var l := |t.buckets| - 1;
            var c, d := Cpl(t.local.id, target), Cpl(t.local.id, p.id);
            FallsIntoGap(t, p, target) <==>
            && l <= c && (c > l || l == 0) && c + 1 < MinCpl(t.buckets[l], t.local.id)
            && (d + 1 < c || d > c + 1)
  {
    LastIsUnfoldable(t);
  }

  lemma SilencedIff(t: Table, p: Peer, target: Id)
    requires Layout(t)
    ensures Updated(t, p).table.buckets != []
    ensures !Silent(t, target) && Silent(Updated(t, p).table, target) <==> FallsIntoGap(t, p, target)
  {
    if Unfolds(t, p) {
      SilencesIff(t, p, target);
      GapOpens(t, p, target);
    } else {
      UnfoldedOrNot(t, p, target);
      NoGapOpens(t, p, target);
    }
  }

  // Whether an update empties an answer can be told before the call.
  lemma EmptiesIff(t: Table, p: Peer, target: Id, n: nat)
    requires Layout(t) && n >= 1
    ensures Updated(t, p).table.buckets != []
    ensures NearestPeers(t, target, n) != [] && NearestPeers(Updated(t, p).table, target, n) == []
            <==> FallsIntoGap(t, p, target)
  {
    SilencedIff(t, p, target);
    AnswerEmptyIff(t, target, n);
    AnswerEmptyIff(Updated(t, p).table, target, n);
  }

  // For a refused update the least class is the peer's own.
  lemma RefusedEmptiesIff(t: Table, p: Peer, target: Id, n: nat)
    requires Layout(t) && !Updated(t, p).ok && n >= 1
    ensures var l := |t.buckets| - 1;
            var c := Cpl(t.local.id, target);
            var u := Updated(t, p).table;
            && u.buckets != []
            && (NearestPeers(t, target, n) != [] && NearestPeers(u, target, n) == [] <==>
                  && Home(t, p.id) == l && l <= c && (c > l || l == 0)
                  && c + 1 < Cpl(t.local.id, p.id))
  {
    EmptiesIff(t, p, target, n);
    if Home(t, p.id) == |t.buckets| - 1 {
      RefusedClass(t, p);
      LastIsUnfoldable(t);
    }
  }

  // ---------- the layout shows in the answers ----------

  /** The id that differs from all zeros in bit i only. */
  function Flip(i: nat): Id {
    seq(WIDTH, j => j == i)
  }

  lemma FlipPrefix(i: nat)
    requires i < WIDTH
    ensures Cpl(Zero(), Flip(i)) == i
  {
    CplMeaning(Zero(), Flip(i), i);
  }

  lemma SplitOfOne(p: Peer, local: Id, c: nat)
    requires Cpl(local, p.id) == c
    ensures MinCpl([p], local) == c && Filter([p], InClass(local, c)) == [p] && Filter([p], Beyond(local, c)) == []
  {
    assert [p][1..] == [];
  }

  lemma GrowToTwo(local: Peer, p: Peer, q: Peer)
    requires Cpl(local.id, p.id) == 0 && Cpl(local.id, q.id) == 5
    ensures Layout(New(1, local)) && Run(New(1, local), [p, q]) == Table(1, local, [[p], [q]])
  {
    NewLayout(1, local);
    RunSnoc(New(1, local), [], p);
    assert [] + [p] == [p];
    var t := Run(New(1, local), [p]);
    assert t == Table(1, local, [[p]]);
    RunSnoc(New(1, local), [p], q);
    assert [p] + [q] == [p, q];
    assert BucketAt(t, 0);
    SplitOfOne(p, local.id, 0);
    assert Unfolded(t).buckets == [[p], []];
    assert Unfolded(t).buckets[1] + [q] == [q];
    assert Add(Unfolded(t), 1, q).buckets == [[p], [q]];
  }

  lemma RefuseThird(local: Peer, p: Peer, q: Peer, r: Peer)
    requires Cpl(local.id, q.id) == Cpl(local.id, r.id) == 5 && q != r
    requires Layout(Table(1, local, [[p], [q]]))
    ensures Updated(Table(1, local, [[p], [q]]), r)
         == Outcome(Table(1, local, [[p], [], [], [], [], [q], []]), false)
  {
    var t := Table(1, local, [[p], [q]]);
    assert BucketAt(t, 1);
    SplitOfOne(q, local.id, 5);
    assert Unfolded(t).buckets == [[p], [], [], [], [], [q], []];
  }

  lemma SortOfOne(p: Peer, target: Id)
    ensures Sort([p], target, NearestFirst) == [p] && Sort([], target, NearestFirst) == []
  {
    assert [p][1..] == [];
  }

  lemma GrowToSeven(local: Peer, p: Peer, q: Peer, r: Peer)
    requires Cpl(local.id, p.id) == 0 && Cpl(local.id, q.id) == Cpl(local.id, r.id) == 5 && q != r
    ensures Layout(New(1, local)) && Run(New(1, local), [p, q]) == Table(1, local, [[p], [q]])
    ensures Run(New(1, local), [p, q, r]) == Table(1, local, [[p], [], [], [], [], [q], []])
  {
    GrowToTwo(local, p, q);
    RefuseThird(local, p, q, r);
    RunSnoc(New(1, local), [p, q], r);
    assert [p, q] + [r] == [p, q, r];
  }

  lemma SevenAnswersBelow(t: Table, p: Peer, q: Peer, target: Id)
    requires Layout(t) && t.buckets == [[p], [], [], [], [], [q], []] && Cpl(t.local.id, target) == 1
    ensures NearestPeers(t, target, 1) == [p] && Distance(q.id, target) < Distance(p.id, target)
  {
    var b := BandsOf(t, target);
    assert b.home == [] && b.above == [] && b.below == [p];
    SortOfOne(p, target);
    BandsSeparate(t, target, 5, 0);
    assert q in t.buckets[5] && p in t.buckets[0];
  }

  // A reachable table whose answer is the farther of its two peers.
  lemma WrongPeerIsAnswered() returns (local: Peer, p: Peer, q: Peer, r: Peer, target: Id)
    ensures Layout(New(1, local))
    ensures var t := Run(New(1, local), [p, q, r]);
            && Members(t.buckets) == [p, q] && NearestPeers(t, target, 1) == [p]
            && Distance(q.id, target) < Distance(p.id, target)
            && !IsNearestSet(NearestPeers(t, target, 1), Members(t.buckets), target, 1)
  {
    local := Peer(Zero(), "local");
    p, q, r, target := Peer(Flip(0), "p"), Peer(Flip(5), "q"), Peer(Flip(5), "r"), Flip(1);
    FlipPrefix(0);
    FlipPrefix(5);
    FlipPrefix(1);
    GrowToSeven(local, p, q, r);
    var t := Run(New(1, local), [p, q, r]);
    SevenMembers(t, p, q);
    SevenAnswersBelow(t, p, q, target);
    NotNearest(p, q, target);
  }

  lemma NotNearest(p: Peer, q: Peer, target: Id)
    requires Distance(q.id, target) < Distance(p.id, target)
    ensures !IsNearestSet([p], [p, q], target, 1)
  {
    assert q in [p, q] && q !in [p] && p in [p];
  }

  lemma {:induction false} NoMembers(bs: seq<seq<Peer>>)
    requires forall i :: 0 <= i < |bs| ==> bs[i] == []
    ensures Members(bs) == []
  {
    if bs != [] {
      NoMembers(bs[..|bs| - 1]);
    }
  }

  lemma SevenMembers(t: Table, p: Peer, q: Peer)
    requires t.buckets == [[p], [], [], [], [], [q], []]
    ensures Members(t.buckets) == [p, q]
  {
    MembersAround(t.buckets, 5);
    MembersAround(t.buckets[..5], 0);
    NoMembers(t.buckets[6..]);
    NoMembers(t.buckets[..5][1..]);
  }

  // An accepted update can empty an answer as well.
  lemma AcceptedUpdateCanEmptyAnswer() returns (local: Peer, p: Peer, q: Peer, target: Id)
    ensures Layout(New(1, local))
    ensures var t := Run(New(1, local), [q]);
            && Updated(t, p).ok
            && NearestPeers(t, target, 1) == [q]
            && Updated(t, p).table.buckets != [] && NearestPeers(Updated(t, p).table, target, 1) == []
  {
    local := Peer(Zero(), "local");
    p, q, target := Peer(Flip(0), "p"), Peer(Flip(5), "q"), Flip(2);
    FlipPrefix(0);
    FlipPrefix(5);
    FlipPrefix(2);
    NewLayout(1, local);
    RunSnoc(New(1, local), [], q);
    assert [] + [q] == [q];
    var t := Run(New(1, local), [q]);
    assert t == Table(1, local, [[q]]);
    SortOfOne(q, target);
    assert BandsOf(t, target) == Bands([q], [], [], [], []);
    SplitOfOne(q, local.id, 5);
    EmptiesIff(t, p, target, 1);
    UpdateFailsIff(t, p);
  }

  // Admission never depends on the layout, but answers do: a refused update can unfold the
  // table so far that a target whose neighbourhood used to answer now gets nothing.
  lemma RefusedUpdateCanEmptyAnswer() returns (local: Peer, p: Peer, q: Peer, r: Peer, target: Id)
    ensures Layout(New(1, local))
    ensures var t := Run(New(1, local), [p, q]);
            && !Updated(t, r).ok && Abs(Updated(t, r).table) == Abs(t)
            && NearestPeers(t, target, 1) == [q]
            && NearestPeers(Updated(t, r).table, target, 1) == []
  {
    local := Peer(Zero(), "local");
    p, q, r, target := Peer(Flip(0), "p"), Peer(Flip(5), "q"), Peer(Flip(5), "r"), Flip(2);
    FlipPrefix(0);
    FlipPrefix(5);
    FlipPrefix(2);
    GrowToTwo(local, p, q);
    TwoThenRefused(Table(1, local, [[p], [q]]), p, q, r, target);
  }

  lemma TwoThenRefused(t: Table, p: Peer, q: Peer, r: Peer, target: Id)
    requires Layout(t) && t == Table(1, t.local, [[p], [q]]) && Cpl(t.local.id, target) == 2
    requires Cpl(t.local.id, q.id) == Cpl(t.local.id, r.id) == 5 && q != r
    ensures Updated(t, r).table.buckets != []
    ensures !Updated(t, r).ok && Abs(Updated(t, r).table) == Abs(t)
    ensures NearestPeers(t, target, 1) == [q] && NearestPeers(Updated(t, r).table, target, 1) == []
  {
    RefuseThird(t.local, p, q, r);
    UpdateRefinesEager(t, r);
    assert Abs(t).lists[5 := Abs(t).lists[5]] == Abs(t).lists;
    SortOfOne(p, target);
    SortOfOne(q, target);
    assert BandsOf(t, target) == Bands([q], [], [p], [], []);
    assert Window(BandsOf(t, target), target) == [q, p];
    RefusedEmptiesIff(t, r, target, 1);
  }
}
