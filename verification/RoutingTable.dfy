/** The routing table as the program keeps it: buckets that are changed in place. */
module RoutingTables {
  import opened Ids
  import opened Peers
  import opened Tables
  import opened Histories
  import opened Nearest

  class Bucket {
    const index: nat
    var peers: seq<Peer>

    constructor (index: nat)
      ensures this.index == index && peers == []
    {
      this.index := index;
      peers := [];
    }

    /** Moves the first occurrence of p to the end. */
    method MoveToFrontIfExists(p: Peer) returns (found: bool)
      modifies this
      ensures found <==> p in old(peers)
      ensures found ==> exists i :: 0 <= i < |old(peers)| && old(peers)[i] == p && p !in old(peers)[..i]
                                    && peers == old(peers)[..i] + old(peers)[i + 1..] + [p]
      ensures !found ==> peers == old(peers)
      ensures found && NoDup(old(peers)) ==> peers == Without(old(peers), p) + [p]
    {
      var i := 0;
      while i < |peers| && peers[i] != p
        invariant i <= |peers| && p !in peers[..i]
      {
        i := i + 1;
      }
      found := i < |peers|;
      if found {
        RemoveAt(peers, i);
        var peer := peers[i];
        peers := peers[..i] + peers[i + 1..];
        peers := peers + [peer];
      }
    }

    /** Keeps the peers that belong here and returns the rest as the next bucket. */
    method Split(target: Id) returns (out: Bucket)
      modifies this
      ensures fresh(out) && out.index == index + 1
      ensures peers == Filter(old(peers), Upto(target, index))
      ensures out.peers == Filter(old(peers), Beyond(target, index))
    {
      out := new Bucket(index + 1);
      var kept := [];
      var i := 0;
      while i < |peers|
        invariant i <= |peers| && peers == old(peers)
        invariant kept == Filter(peers[..i], Upto(target, index))
        invariant out.peers == Filter(peers[..i], Beyond(target, index))
        invariant fresh(out) && out.index == index + 1
      {
        var peer := peers[i];
        assert peers[..i + 1] == peers[..i] + [peer];
        FilterAppend(peers[..i], [peer], Upto(target, index));
        FilterAppend(peers[..i], [peer], Beyond(target, index));
        CplMetric(peer.id, target, peer.id);
        if Cpl(peer.id, target) > index {
          out.peers := out.peers + [peer];
        } else {
          kept := kept + [peer];
        }
        i := i + 1;
      }
      assert peers[..i] == peers;
      peers := kept;
    }
  }

  lemma RemoveAt(s: seq<Peer>, i: nat)
    requires i < |s|
    ensures NoDup(s) ==> Without(s, s[i]) == s[..i] + s[i + 1..]
  {
    if NoDup(s) {
      NoDupMeaning(s);
      assert s == s[..i] + [s[i]] + s[i + 1..];
      FilterAppend(s[..i] + [s[i]], s[i + 1..], Except(s[i]));
      FilterAppend(s[..i], [s[i]], Except(s[i]));
      FilterAll(s[..i], Except(s[i]));
      FilterAll(s[i + 1..], Except(s[i]));
    }
  }

  function PeersOf(bs: seq<Bucket>): (r: seq<seq<Peer>>)
    reads bs
    ensures |r| == |bs| && forall i :: 0 <= i < |bs| ==> r[i] == bs[i].peers
  {
    if bs == [] then [] else PeersOf(bs[..|bs| - 1]) + [bs[|bs| - 1].peers]
  }

  class RoutingTable {
    const k: nat
    const local: Peer
    var buckets: seq<Bucket>
    ghost var Repr: set<object>

    /** The table these buckets represent. */
    function View(): (t: Table)
      reads this, buckets
      ensures t.k == k && t.local == local && |t.buckets| == |buckets|
    {
      Table(k, local, PeersOf(buckets))
    }

    /** Buckets carry their position, so no two positions share a bucket. */
    ghost predicate Numbered()
      reads this
    {
      this in Repr && forall i :: 0 <= i < |buckets| ==> buckets[i].index == i && buckets[i] in Repr
    }

    ghost predicate Valid()
      reads this, buckets
    {
      Numbered() && Layout(View())
    }

    constructor (k: nat, local: Peer)
      ensures fresh(Repr) && Numbered()
      ensures View() == New(k, local) && (Valid() <==> k >= 1)
    {
      this.k := k;
      this.local := local;
      var first := new Bucket(0);
      buckets := [first];
      Repr := {this, first};
      new;
      assert View() == New(k, local) by {
        assert buckets == [first];
      }
      NewLayoutIff(k, local);
    }

    /** Offers p; the answer is false for the source's NoCapacityError. */
    method Update(p: Peer) returns (ok: bool)
      requires Valid()
      modifies Repr
      ensures Valid()
      ensures View() == Updated(old(View()), p).table && ok == Updated(old(View()), p).ok
      ensures fresh(Repr - old(Repr))
    {
      UpdateRefinesEager(View(), p);
      ok := Place(p);
    }

    method Place(p: Peer) returns (ok: bool)
      requires Valid()
      modifies Repr
      ensures Numbered()
      ensures Outcome(View(), ok) == Updated(old(View()), p)
      ensures fresh(Repr - old(Repr))
    {
      ghost var t := View();
      var cpl := Cpl(local.id, p.id);
      var bucketIndex := cpl;

      if bucketIndex > |buckets| - 1 {
        bucketIndex := |buckets| - 1;
      }
      assert BucketAt(t, bucketIndex);
      var found := buckets[bucketIndex].MoveToFrontIfExists(p);
      if found {
        assert View() == t.(buckets := t.buckets[bucketIndex := Without(t.buckets[bucketIndex], p) + [p]]);
        return true;
      }
      assert View() == t;
      ok := PlaceNew(p, cpl, bucketIndex);
    }

    /** p is unknown: append it where there is room, unfolding if that can make some. */
    method PlaceNew(p: Peer, cpl: nat, bucketIndex: nat) returns (ok: bool)
      requires Valid()
      requires cpl == Cpl(local.id, p.id) && bucketIndex == Home(View(), p.id) && p !in buckets[bucketIndex].peers
      modifies Repr
      ensures Numbered()
      ensures Outcome(View(), ok) == Updated(old(View()), p)
      ensures fresh(Repr - old(Repr))
    {
      if |buckets[bucketIndex].peers| < k {
        AddPeerToBucket(bucketIndex, p);
        return true;
      }
      if bucketIndex == |buckets| - 1 {
        LastIsUnfoldable(View());
        ok := UnfoldAndPlace(p, cpl);
        return;
      }
      return false;
    }

    /** The last bucket is full: unfold, then look at p's position in the new structure. */
    method UnfoldAndPlace(p: Peer, cpl: nat) returns (ok: bool)
      requires Numbered() && Unfoldable(View()) && |buckets[|buckets| - 1].peers| == k
      requires cpl == Cpl(local.id, p.id)
      modifies Repr
      ensures Numbered()
      ensures var u := Unfolded(old(View()));
              var g := Home(u, p.id);
              if |u.buckets[g]| >= k then View() == u && !ok else View() == Add(u, g, p) && ok
      ensures fresh(Repr - old(Repr))
    {
      UnfoldBuckets();
      var bucketIndex := cpl;
      if bucketIndex > |buckets| - 1 {
        bucketIndex := |buckets| - 1;
      }
      if |buckets[bucketIndex].peers| >= k {
        return false;
      }
      AddPeerToBucket(bucketIndex, p);
      return true;
    }

    method AddPeerToBucket(bucketIndex: nat, peer: Peer)
      requires Numbered() && bucketIndex < |buckets|
      modifies buckets[bucketIndex]
      ensures Numbered() && View() == Add(old(View()), bucketIndex, peer)
    {
      buckets[bucketIndex].peers := buckets[bucketIndex].peers + [peer];
    }

    /** Splits the last bucket and appends what does not belong in it as a new one. */
    method SplitLastBucket() returns (newBucketLen: nat)
      requires Numbered() && |buckets| >= 1
      modifies Repr
      ensures Numbered() && View() == SplitLast(old(View()))
      ensures newBucketLen == |buckets[|buckets| - 1].peers|
      ensures fresh(Repr - old(Repr))
    {
      ghost var before := PeersOf(buckets);
      var index := |buckets| - 1;
      var newBucket := buckets[index].Split(local.id);
      newBucketLen := |newBucket.peers|;
      buckets := buckets + [newBucket];
      Repr := Repr + {newBucket};
      forall i | 0 <= i < index
        ensures buckets[i].peers == before[i]
      {
        assert buckets[i].index != buckets[index].index;
      }
      assert PeersOf(buckets) == before[..index] + [buckets[index].peers, newBucket.peers];
    }

    /** Recursively splits the last bucket until a new one has room. */
    method UnfoldBuckets()
      requires Numbered() && Unfoldable(View()) && |buckets[|buckets| - 1].peers| == k
      modifies Repr
      ensures Numbered() && View() == Unfolded(old(View()))
      ensures fresh(Repr - old(Repr))
      decreases WIDTH + 2 - |buckets|
    {
      SplitLastStep(View());
      var newBucketLen := SplitLastBucket();
      if newBucketLen >= k {
        UnfoldBuckets();
      }
    }

    method KNearestPeers(targetId: Id) returns (out: seq<Peer>)
      requires Valid()
      ensures out == Nearest.NearestPeers(View(), targetId, k)
    {
      out := NearestPeers(targetId, k);
    }

    /** Collects the home bucket and, when it is short, its neighbours; sorts; truncates. */
    method NearestPeers(targetId: Id, numResults: nat) returns (out: seq<Peer>)
      requires Valid()
      ensures out == Nearest.NearestPeers(View(), targetId, numResults)
    {
      out := Gather(targetId, numResults);
      out := Sort(out, targetId, NearestFirst);
      out := Take(out, numResults);
      GatheredIsWindow(View(), targetId, numResults);
    }

    method Gather(targetId: Id, numResults: nat) returns (out: seq<Peer>)
      requires |buckets| >= 1
      ensures out == Gathered(View(), Home(View(), targetId), numResults)
    {
      var bucketIndex := Cpl(local.id, targetId);
      if |buckets| <= bucketIndex {
        bucketIndex := |buckets| - 1;
      }
      out := buckets[bucketIndex].peers;
      if |out| < numResults {
        if bucketIndex > 0 {
          out := out + buckets[bucketIndex - 1].peers;
        }
        if bucketIndex < |buckets| - 1 {
          out := out + buckets[bucketIndex + 1].peers;
        }
      }
    }
  }
}
