/** Inverting the forward edge list: counting, prefix sums, and moving write cursors. */
module RetainerIndex {
  import opened HeapGraph

  method CountRetainers(nodes: array<U32>, edges: array<U32>) returns (inCount: array<U32>)
    requires WellFormed(Snap(nodes, edges))
    ensures fresh(inCount) && inCount.Length == NodeCount(Snap(nodes, edges))
    ensures forall d :: 0 <= d < inCount.Length ==>
                          inCount[d] == InCount(Snap(nodes, edges), d, EdgeCount(Snap(nodes, edges)))
  {
    var n, m := nodes.Length / 7, edges.Length / 3;
    inCount := new U32[n](_ => 0);
    for k := 0 to m
      invariant forall d :: 0 <= d < n ==> inCount[d] == InCount(Snap(nodes, edges), d, k)
    {
      var d := edges[k * 3 + 2] / 7;
      assert d == Dst(Snap(nodes, edges), k);
      inCount[d] := inCount[d] + 1;
    }
  }

  method InOffsets(nodes: array<U32>, edges: array<U32>, inCount: array<U32>) returns (inOffset: array<U32>)
    requires WellFormed(Snap(nodes, edges))
    requires inCount.Length == NodeCount(Snap(nodes, edges))
    requires forall d :: 0 <= d < inCount.Length ==>
                           inCount[d] == InCount(Snap(nodes, edges), d, EdgeCount(Snap(nodes, edges)))
    ensures fresh(inOffset) && inOffset.Length == NodeCount(Snap(nodes, edges)) + 1
    ensures forall d :: 0 <= d < inOffset.Length ==>
                          inOffset[d] == InBelow(Snap(nodes, edges), d, EdgeCount(Snap(nodes, edges)))
  {
    ghost var g := Snap(nodes, edges);
    ghost var m := EdgeCount(g);
    var n := nodes.Length / 7;
    inOffset := new U32[n + 1](_ => 0);
    var running: nat := 0;
    InBelowEnds(g, n, m);
    for i := 0 to n
      invariant running == InBelow(g, i, m)
      invariant forall d :: 0 <= d < i ==> inOffset[d] == InBelow(g, d, m)
    {
      inOffset[i] := running;
      running := running + inCount[i];
      InBelowStep(g, i, m);
    }
    inOffset[n] := running;
  }

  method OutOffsets(nodes: array<U32>, edges: array<U32>) returns (outOffset: array<U32>)
    requires WellFormed(Snap(nodes, edges))
    ensures fresh(outOffset) && outOffset.Length == NodeCount(Snap(nodes, edges)) + 1
    ensures forall i {:trigger outOffset[i]} :: 0 <= i < outOffset.Length ==>
                                                  outOffset[i] == OutStart(Snap(nodes, edges), i)
  {
    ghost var g := Snap(nodes, edges);
    var n := nodes.Length / 7;
    outOffset := new U32[n + 1](_ => 0);
    var running: nat := 0;
    for i := 0 to n
      invariant running == OutStart(g, i)
      invariant forall j {:trigger outOffset[j]} :: 0 <= j < i ==> outOffset[j] == OutStart(g, j)
    {
      OutStartMonotone(g, i, n);
      outOffset[i] := running;
      assert nodes[i * 7 + 4] == OutDegree(g, i);
      running := running + nodes[i * 7 + 4];
    }
    outOffset[n] := running;
  }

  /** Slot `t` of the bucket of `d` holds the source of the `t`-th edge into `d`. */
  ghost predicate SlotFilled(g: Snapshot, invSrc: seq<U32>, k: nat, d: nat, t: nat)
    requires WellFormed(g) && k <= EdgeCount(g)
  {
    t < InCount(g, d, k) ==>
      var at := InBelow(g, d, EdgeCount(g)) + t;
      at < |invSrc| && invSrc[at] == Bucket(g, d, k)[t]
  }

  /** Every bucket holds, from its offset on, the sources of the edges filed so far. */
  ghost predicate Filled(g: Snapshot, invSrc: seq<U32>, k: nat)
    requires WellFormed(g) && k <= EdgeCount(g)
  {
    && |invSrc| == EdgeCount(g)
    && forall d: nat, t: nat :: d < NodeCount(g) ==> SlotFilled(g, invSrc, k, d, t)
  }

  /** Every write cursor stands just behind the part of its bucket that is filled. */
  ghost predicate Cursors(g: Snapshot, writePos: seq<U32>, k: nat)
    requires k <= EdgeCount(g)
  {
    && |writePos| == NodeCount(g)
    && forall d :: 0 <= d < |writePos| ==>
                     writePos[d] == InBelow(g, d, EdgeCount(g)) + InCount(g, d, k)
  }

  lemma SlotInRange(g: Snapshot, d: nat, k: nat)
    requires WellFormed(g) && k <= EdgeCount(g) && d < NodeCount(g)
    ensures InBelow(g, d, EdgeCount(g)) + InCount(g, d, k) <= EdgeCount(g)
  {
    var m := EdgeCount(g);
    InCountMonotone(g, d, k, m);
    InBelowStep(g, d, m);
    InBelowMonotone(g, d + 1, NodeCount(g), m);
  }

  lemma FiledAt(g: Snapshot, before: seq<U32>, after: seq<U32>,
                at: nat, k: nat, d: nat, t: nat)
    requires WellFormed(g) && k < EdgeCount(g)
    requires Filled(g, before, k) && at < |before|
    requires at == InBelow(g, Dst(g, k), EdgeCount(g)) + InCount(g, Dst(g, k), k)
    requires after == before[at := Source(g, k)]
    requires d < NodeCount(g)
    ensures SlotFilled(g, after, k + 1, d, t)
  {
    hide WellFormed;
    var m, dst := EdgeCount(g), Dst(g, k);
    var earlier := Bucket(g, d, k);
    SlotInRange(g, d, k + 1);
    assert SlotFilled(g, before, k, d, t);
    if t < |earlier| {
      assert Bucket(g, d, k + 1)[t] == earlier[t];
      InCountMonotone(g, d, k, m);
      InCountMonotone(g, dst, k + 1, m);
      if InBelow(g, d, m) + t == at {
        SlotsDisjoint(g, d, t, dst, InCount(g, dst, k), m);
      }
    }
  }

  /** Where the next edge is filed: a free slot inside the bucket of its destination. */
  lemma NextSlot(g: Snapshot, writePos: seq<U32>, k: nat)
    requires WellFormed(g) && k < EdgeCount(g)
    requires Cursors(g, writePos, k)
    ensures NodeCount(g) <= 0x1_0000_0000
    ensures Dst(g, k) < |writePos| && writePos[Dst(g, k)] < EdgeCount(g) < 0x1_0000_0000
  {
    SlotInRange(g, Dst(g, k), k + 1);
  }

  /** Filing edge `k` at the cursor of its destination keeps every bucket and cursor right. */
  lemma FileEdge(g: Snapshot, writePos: seq<U32>, before: seq<U32>, k: nat)
    requires WellFormed(g) && k < EdgeCount(g)
    requires Cursors(g, writePos, k) && Filled(g, before, k)
    requires Dst(g, k) < |writePos| && writePos[Dst(g, k)] < EdgeCount(g) == |before|
    ensures Cursors(g, writePos[Dst(g, k) := writePos[Dst(g, k)] + 1], k + 1)
    ensures Filled(g, before[writePos[Dst(g, k)] := Source(g, k)], k + 1)
  {
    var at := writePos[Dst(g, k)];
    var advanced := writePos[Dst(g, k) := at + 1];
    forall d | 0 <= d < |advanced|
      ensures advanced[d] == InBelow(g, d, EdgeCount(g)) + InCount(g, d, k + 1)
    {
      assert InCount(g, d, k + 1) == InCount(g, d, k) + if Dst(g, k) == d then 1 else 0;
    }
    var after := before[at := Source(g, k)];
    var next := k + 1;
    forall d: nat, t: nat | d < NodeCount(g) ensures SlotFilled(g, after, next, d, t) {
      FiledAt(g, before, after, at, k, d, t);
    }
  }

  /** Files the edges that node `src` owns; `edgeIdx` is the first of them. */
  method FileEdgesOf(src: nat, edgeIdx: nat, nodes: array<U32>, edges: array<U32>,
                     writePos: array<U32>, invSrc: array<U32>)
    requires WellFormed(Snap(nodes, edges)) && src < NodeCount(Snap(nodes, edges))
    requires edgeIdx == OutStart(Snap(nodes, edges), src)
    requires OutStart(Snap(nodes, edges), src + 1) <= EdgeCount(Snap(nodes, edges))
    requires Cursors(Snap(nodes, edges), writePos[..], edgeIdx)
    requires Filled(Snap(nodes, edges), invSrc[..], edgeIdx)
    requires invSrc.Length == EdgeCount(Snap(nodes, edges))
    requires writePos != invSrc && {writePos, invSrc} !! {nodes, edges}
    modifies writePos, invSrc
    ensures Cursors(Snap(nodes, edges), writePos[..], OutStart(Snap(nodes, edges), src + 1))
    ensures Filled(Snap(nodes, edges), invSrc[..], OutStart(Snap(nodes, edges), src + 1))
  {
    ghost var g := Snap(nodes, edges);
    hide Cursors, Filled, WellFormed;
    var cnt := nodes[src * 7 + 4];
    assert cnt == OutDegree(g, src);
    for j := 0 to cnt
      invariant Snap(nodes, edges) == g
      invariant Cursors(g, writePos[..], edgeIdx + j) && Filled(g, invSrc[..], edgeIdx + j)
    {
      var dst := edges[(edgeIdx + j) * 3 + 2] / 7;
      assert dst == Dst(g, edgeIdx + j);
      OwnerIsUnique(g, src, Source(g, edgeIdx + j), edgeIdx + j);
      NextSlot(g, writePos[..], edgeIdx + j);
      FileEdge(g, writePos[..], invSrc[..], edgeIdx + j);
      invSrc[writePos[dst]] := src;
      writePos[dst] := writePos[dst] + 1;
    }
  }

  method FillBuckets(nodes: array<U32>, edges: array<U32>, inOffset: array<U32>) returns (invSrc: array<U32>)
    requires WellFormed(Snap(nodes, edges))
    requires inOffset.Length == NodeCount(Snap(nodes, edges)) + 1
    requires forall d :: 0 <= d < inOffset.Length ==>
                           inOffset[d] == InBelow(Snap(nodes, edges), d, EdgeCount(Snap(nodes, edges)))
    ensures fresh(invSrc) && Filled(Snap(nodes, edges), invSrc[..], EdgeCount(Snap(nodes, edges)))
  {
    ghost var g := Snap(nodes, edges);
    var n, m := nodes.Length / 7, edges.Length / 3;
    invSrc := new U32[m](_ => 0);
    var writePos := new U32[n](i requires 0 <= i <= n reads inOffset => inOffset[i]);
    var edgeIdx := 0;
    for src := 0 to n
      invariant edgeIdx == OutStart(g, src) <= m
      invariant Snap(nodes, edges) == g
      invariant Cursors(g, writePos[..], edgeIdx) && Filled(g, invSrc[..], edgeIdx)
    {
      OutStartMonotone(g, src + 1, n);
      FileEdgesOf(src, edgeIdx, nodes, edges, writePos, invSrc);
      assert nodes[src * 7 + 4] == OutDegree(g, src);
      edgeIdx := edgeIdx + nodes[src * 7 + 4];
    }
  }

  /** Count, prefix-sum and fill: the result is the inverted index of the edge list. */
  method BuildRetainerIndex(nodes: array<U32>, edges: array<U32>)
    returns (inOffset: array<U32>, invSrc: array<U32>, outOffset: array<U32>)
    requires WellFormed(Snap(nodes, edges))
    ensures fresh(inOffset) && fresh(invSrc) && fresh(outOffset)
    ensures IsRetainerIndex(Snap(nodes, edges), inOffset[..], invSrc[..], outOffset[..])
  {
    var inCount := CountRetainers(nodes, edges);
    inOffset := InOffsets(nodes, edges, inCount);
    invSrc := FillBuckets(nodes, edges, inOffset);
    outOffset := OutOffsets(nodes, edges);
    FilledIsIndex(Snap(nodes, edges), inOffset[..], invSrc[..], outOffset[..]);
  }

  lemma FilledIsIndex(
    g: Snapshot, inOffset: seq<U32>, invSrc: seq<U32>, outOffset: seq<U32>)
    requires WellFormed(g)
    requires |inOffset| == NodeCount(g) + 1 && |outOffset| == NodeCount(g) + 1
    requires forall d :: 0 <= d < |inOffset| ==> inOffset[d] == InBelow(g, d, EdgeCount(g))
    requires forall i :: 0 <= i < |outOffset| ==> outOffset[i] == OutStart(g, i)
    requires Filled(g, invSrc, EdgeCount(g))
    ensures IsRetainerIndex(g, inOffset, invSrc, outOffset)
  {
    var n, m := NodeCount(g), EdgeCount(g);
    InBelowEnds(g, n, m);
    forall d, d' | 0 <= d <= d' < |inOffset| ensures inOffset[d] <= inOffset[d'] <= m {
      InBelowMonotone(g, d, d', m);
    }
    forall d: nat | d < n ensures BucketAt(inOffset, invSrc, d) == Retainers(g, d) {
      InBelowStep(g, d, m);
      var slice, bucket := BucketAt(inOffset, invSrc, d), Bucket(g, d, m);
      forall t | 0 <= t < |bucket| ensures slice[t] == bucket[t] {
        assert SlotFilled(g, invSrc, m, d, t);
      }
    }
  }
}
