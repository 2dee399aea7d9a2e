/**
 * The heap-snapshot retainer tool (apps/api/scripts/heap-retainer-walk.py): inverting
 * the forward edge list into buckets, looking retainers up, and walking them backwards.
 *
 * A snapshot is two flat arrays of unsigned 32-bit integers. Node `i` owns the seven
 * fields from `7 * i`, of which field 4 is its edge count; edge `k` owns the three fields
 * from `3 * k`: type, name-or-index, and seven times the destination node. The edges of
 * node 0 come first, then those of node 1, and so on.
 */
module HeapGraph {

  type U32 = x: int | 0 <= x < 0x1_0000_0000

  datatype Snapshot = Snapshot(nodes: seq<U32>, edges: seq<U32>)

  /** The snapshot held in two arrays. */
  function Snap(nodes: array<U32>, edges: array<U32>): Snapshot
    reads nodes, edges
  {
    Snapshot(nodes[..], edges[..])
  }

  function NodeCount(g: Snapshot): nat { |g.nodes| / 7 }

  function EdgeCount(g: Snapshot): nat { |g.edges| / 3 }

  function OutDegree(g: Snapshot, i: nat): nat
    requires i < NodeCount(g)
  {
    g.nodes[i * 7 + 4]
  }

  function Dst(g: Snapshot, k: nat): nat
    requires k < EdgeCount(g)
  {
    g.edges[k * 3 + 2] / 7
  }

  /** The number of edges owned by the nodes before `i`: where the edges of `i` begin. */
  function OutStart(g: Snapshot, i: nat): nat
    requires i <= NodeCount(g)
  {
    if i == 0 then 0 else OutStart(g, i - 1) + OutDegree(g, i - 1)
  }

  /** What a snapshot must satisfy for the tool to run without an index or overflow error. */
  ghost predicate WellFormed(g: Snapshot) {
    && NodeCount(g) <= 0x1_0000_0000
    && EdgeCount(g) < 0x1_0000_0000
    && OutStart(g, NodeCount(g)) == EdgeCount(g)
    && forall k :: 0 <= k < EdgeCount(g) ==> Dst(g, k) < NodeCount(g)
  }

  lemma {:induction false} OutStartMonotone(g: Snapshot, i: nat, j: nat)
    requires i <= j <= NodeCount(g)
    ensures OutStart(g, i) <= OutStart(g, j)
  {
    if i < j {
      OutStartMonotone(g, i, j - 1);
    }
  }

  /** Node `i` owns edge `k`. */
  ghost predicate Owns(g: Snapshot, i: nat, k: nat) {
    i < NodeCount(g) && OutStart(g, i) <= k < OutStart(g, i + 1)
  }

  lemma OwnerIsUnique(g: Snapshot, i: nat, j: nat, k: nat)
    requires Owns(g, i, k) && Owns(g, j, k)
    ensures i == j
  {
    if i < j {
      OutStartMonotone(g, i + 1, j);
    } else if j < i {
      OutStartMonotone(g, j + 1, i);
    }
  }

  /** The owner of edge `k`, searched among the nodes before `i`. */
  ghost function OwnerBelow(g: Snapshot, k: nat, i: nat): (r: nat)
    requires i <= NodeCount(g) && k < OutStart(g, i)
    ensures r < i && Owns(g, r, k)
  {
    if OutStart(g, i - 1) <= k then i - 1 else OwnerBelow(g, k, i - 1)
  }

  ghost function Source(g: Snapshot, k: nat): (r: nat)
    requires WellFormed(g) && k < EdgeCount(g)
    ensures Owns(g, r, k)
  {
    OwnerBelow(g, k, NodeCount(g))
  }

  /** The snapshot has an edge from `s` to `d`. */
  ghost predicate Edge(g: Snapshot, s: nat, d: nat)
    requires WellFormed(g)
  {
    exists k: nat :: k < EdgeCount(g) && Source(g, k) == s && Dst(g, k) == d
  }

  /** A retaining path of exactly `steps` edges leads from `n` to `target`. */
  ghost predicate Retains(g: Snapshot, n: nat, target: nat, steps: nat)
    requires WellFormed(g)
    decreases steps
  {
    if steps == 0 then n == target
    else exists m: nat :: Edge(g, n, m) && Retains(g, m, target, steps - 1)
  }

  // ----- Counting edges by destination -----

  /** How many of the first `k` edges lead to `d`. */
  ghost function InCount(g: Snapshot, d: nat, k: nat): (c: nat)
    requires k <= EdgeCount(g)
    ensures c <= k
  {
    if k == 0 then 0 else InCount(g, d, k - 1) + if Dst(g, k - 1) == d then 1 else 0
  }

  /** How many of the first `k` edges lead to a node before `d`. */
  ghost function InBelow(g: Snapshot, d: nat, k: nat): (c: nat)
    requires k <= EdgeCount(g)
    ensures c <= k
  {
    if k == 0 then 0 else InBelow(g, d, k - 1) + if Dst(g, k - 1) < d then 1 else 0
  }

  lemma {:induction false} InBelowStep(g: Snapshot, d: nat, k: nat)
    requires k <= EdgeCount(g)
    ensures InBelow(g, d + 1, k) == InBelow(g, d, k) + InCount(g, d, k)
  {
    if k > 0 {
      InBelowStep(g, d, k - 1);
    }
  }

  lemma {:induction false} InBelowEnds(g: Snapshot, n: nat, k: nat)
    requires k <= EdgeCount(g)
    requires forall j :: 0 <= j < EdgeCount(g) ==> Dst(g, j) < n
    ensures InBelow(g, 0, k) == 0 && InBelow(g, n, k) == k
  {
    if k > 0 {
      InBelowEnds(g, n, k - 1);
    }
  }

  lemma {:induction false} InBelowMonotone(g: Snapshot, d: nat, d': nat, k: nat)
    requires k <= EdgeCount(g) && d <= d'
    ensures InBelow(g, d, k) <= InBelow(g, d', k)
    decreases d' - d
  {
    if d < d' {
      InBelowStep(g, d, k);
      InBelowMonotone(g, d + 1, d', k);
    }
  }

  lemma {:induction false} InCountMonotone(g: Snapshot, d: nat, j: nat, k: nat)
    requires j <= k <= EdgeCount(g)
    ensures InCount(g, d, j) <= InCount(g, d, k)
    decreases k
  {
    if j < k {
      InCountMonotone(g, d, j, k - 1);
    }
  }

  /** Two slots of the inverted array coincide only when they are the same slot of one bucket. */
  lemma SlotsDisjoint(g: Snapshot, d: nat, t: nat, d': nat, t': nat, k: nat)
    requires k <= EdgeCount(g)
    requires t < InCount(g, d, k) && t' < InCount(g, d', k)
    requires InBelow(g, d, k) + t == InBelow(g, d', k) + t'
    ensures d == d' && t == t'
  {
    if d < d' {
      InBelowStep(g, d, k);
      InBelowMonotone(g, d + 1, d', k);
    } else if d' < d {
      InBelowStep(g, d', k);
      InBelowMonotone(g, d' + 1, d, k);
    }
  }

  // ----- Buckets -----

  /** The sources of those of the first `k` edges that lead to `d`, in edge order. */
  ghost function Bucket(g: Snapshot, d: nat, k: nat): (b: seq<nat>)
    requires WellFormed(g) && k <= EdgeCount(g)
    ensures |b| == InCount(g, d, k)
    ensures forall t :: 0 <= t < |b| ==> b[t] < NodeCount(g)
  {
    if k == 0 then []
    else Bucket(g, d, k - 1)
         + if Dst(g, k - 1) == d then [Source(g, k - 1)] else []
  }

  /** The retainers of `d`: one source for each edge into it, in edge order. */
  ghost function Retainers(g: Snapshot, d: nat): seq<nat>
    requires WellFormed(g)
  {
    Bucket(g, d, EdgeCount(g))
  }

  lemma {:induction false} BucketMembers(g: Snapshot, d: nat, k: nat, s: nat)
    requires WellFormed(g) && k <= EdgeCount(g)
    ensures s in Bucket(g, d, k) <==>
            exists j: nat :: j < k && Source(g, j) == s && Dst(g, j) == d
  {
    if k > 0 {
      BucketMembers(g, d, k - 1, s);
      var last := if Dst(g, k - 1) == d then [Source(g, k - 1)] else [];
      assert Bucket(g, d, k) == Bucket(g, d, k - 1) + last;
      assert s in Bucket(g, d, k) <==> s in Bucket(g, d, k - 1) || s in last;
      if exists j: nat :: j < k && Source(g, j) == s && Dst(g, j) == d {
        var j: nat :| j < k && Source(g, j) == s && Dst(g, j) == d;
        if j < k - 1 {
          assert j < k - 1 && Source(g, j) == s;
        }
      }
    }
  }

  /** A node is among the retainers of `d` exactly when the snapshot has an edge from it to `d`. */
  lemma RetainersArePredecessors(g: Snapshot, s: nat, d: nat)
    requires WellFormed(g)
    ensures s in Retainers(g, d) <==> Edge(g, s, d)
  {
    BucketMembers(g, d, EdgeCount(g), s);
  }

  // ----- The inverted index -----

  /** Offsets that cut an array of `size` elements into consecutive ranges. */
  ghost predicate Offsets(offsets: seq<U32>, size: nat) {
    forall d, d' :: 0 <= d <= d' < |offsets| ==> offsets[d] <= offsets[d'] <= size
  }

  /** The range of `invSrc` that the offsets give to node `d`. */
  ghost function BucketAt(inOffset: seq<U32>, invSrc: seq<U32>, d: nat): seq<nat>
    requires Offsets(inOffset, |invSrc|) && d + 1 < |inOffset|
  {
    invSrc[inOffset[d]..inOffset[d + 1]]
  }

  /** The three arrays hold the inverted and the forward offsets and the bucketed sources. */
  ghost predicate IsRetainerIndex(
    g: Snapshot, inOffset: seq<U32>, invSrc: seq<U32>, outOffset: seq<U32>)
    requires WellFormed(g)
  {
    var n := NodeCount(g);
    var m := EdgeCount(g);
    && |inOffset| == n + 1 && |invSrc| == m && |outOffset| == n + 1
    && inOffset[0] == 0 && inOffset[n] == m
    && Offsets(inOffset, m)
    && (forall d: nat :: d < n ==> BucketAt(inOffset, invSrc, d) == Retainers(g, d))
    && (forall i :: 0 <= i <= n ==> outOffset[i] == OutStart(g, i))
  }

  /** All (source, destination) pairs of the first `k` edges. */
  ghost function EdgePairs(g: Snapshot, k: nat): (pairs: multiset<(nat, nat)>)
    requires WellFormed(g) && k <= EdgeCount(g)
    ensures |pairs| == k
  {
    if k == 0 then multiset{}
    else EdgePairs(g, k - 1) + multiset{(Source(g, k - 1), Dst(g, k - 1))}
  }

  lemma MultiplicityStep(sources: seq<nat>, pairs: multiset<(nat, nat)>, src: nat, dst: nat, s: nat, d: nat)
    requires multiset(sources)[s] == pairs[(s, d)]
    ensures multiset(sources + if dst == d then [src] else [])[s] == (pairs + multiset{(src, dst)})[(s, d)]
  {
    if dst == d {
      var counts: multiset<nat> := multiset(sources);
      assert multiset(sources + [src]) == counts + multiset{src};
    } else {
      assert sources + [] == sources;
    }
  }

  lemma {:induction false} BucketMultiplicity(g: Snapshot, s: nat, d: nat, k: nat)
    requires WellFormed(g) && k <= EdgeCount(g)
    ensures multiset(Bucket(g, d, k))[s] == EdgePairs(g, k)[(s, d)]
  {
    if k > 0 {
      BucketMultiplicity(g, s, d, k - 1);
      MultiplicityStep(Bucket(g, d, k - 1), EdgePairs(g, k - 1),
                       Source(g, k - 1), Dst(g, k - 1), s, d);
    }
  }

  /**
   * Inversion neither loses nor invents an edge: every pair occurs in the bucket of its
   * destination exactly as often as in the edge list, and nothing else fits in the array.
   */
  lemma InversionConservesEdges(
    g: Snapshot, inOffset: seq<U32>, invSrc: seq<U32>, outOffset: seq<U32>,
    s: nat, d: nat)
    requires WellFormed(g) && d < NodeCount(g)
    requires IsRetainerIndex(g, inOffset, invSrc, outOffset)
    ensures multiset(BucketAt(inOffset, invSrc, d))[s] == EdgePairs(g, EdgeCount(g))[(s, d)]
    ensures |EdgePairs(g, EdgeCount(g))| == |invSrc|
  {
    BucketMultiplicity(g, s, d, EdgeCount(g));
  }
}
