/** Looking retainers up in the inverted index, and walking them backwards from a target. */
module RetainerWalk {
  import opened HeapGraph

  /** V8's edge types, in the order of their codes in a snapshot. */
  datatype EdgeType = Context | Element | Property | Internal | Hidden | Shortcut | Weak {
    /** The edge types whose second field is an index into the string table. */
    predicate NamesString() { Context? || Property? || Internal? || Shortcut? }
  }

  datatype EdgeName = Named(text: string) | Indexed(index: nat)

  datatype Retainer = Retainer(src: nat, edgeType: EdgeType, name: EdgeName)

  const EDGE_TYPES := [Context, Element, Property, Internal, Hidden, Shortcut, Weak]

  predicate TypesKnown(g: Snapshot) {
    forall k :: 0 <= k < EdgeCount(g) ==> g.edges[k * 3] < |EDGE_TYPES|
  }

  /** The code of an edge type in a snapshot. */
  function CodeOf(edgeType: EdgeType): nat {
    match edgeType
    case Context => 0
    case Element => 1
    case Property => 2
    case Internal => 3
    case Hidden => 4
    case Shortcut => 5
    case Weak => 6
  }

  /** What the lookup reports about edge `k`, which starts at `src`: a name is cut to 60 characters. */
  function Describe(g: Snapshot, strings: seq<string>, src: nat, k: nat): (r: Retainer)
    requires TypesKnown(g) && k < EdgeCount(g)
    ensures r.src == src && CodeOf(r.edgeType) == g.edges[k * 3]
    ensures r.name.Named? <==> CodeOf(r.edgeType) in {0, 2, 3, 5} && g.edges[k * 3 + 1] < |strings|
    ensures match r.name
            case Named(text) =>
              var whole := strings[g.edges[k * 3 + 1]];
              text <= whole && |text| <= 60 && (|text| < 60 ==> text == whole)
            case Indexed(index) => index == g.edges[k * 3 + 1]
  {
    var edgeType := EDGE_TYPES[g.edges[k * 3]];
    var name := g.edges[k * 3 + 1];
    Retainer(src, edgeType,
             if edgeType.NamesString() && name < |strings|
             then Named(if |strings[name]| <= 60 then strings[name] else strings[name][..60])
             else Indexed(name))
  }

  /** Edge `k` is the first edge from `src` to `dst`. */
  ghost predicate IsFirstEdge(g: Snapshot, src: nat, dst: nat, k: nat)
    requires WellFormed(g)
  {
    && k < EdgeCount(g) && Source(g, k) == src && Dst(g, k) == dst
    && forall j: nat :: j < k && Source(g, j) == src ==> Dst(g, j) != dst
  }

  /** The entry the lookup produces for a retainer: its first edge to the node asked about. */
  ghost predicate Reports(g: Snapshot, strings: seq<string>,
                          src: nat, dst: nat, entry: Retainer)
    requires WellFormed(g) && TypesKnown(g)
  {
    exists k: nat :: IsFirstEdge(g, src, dst, k) && entry == Describe(g, strings, src, k)
  }

  /** The forward range of a retainer contains an edge to the node it retains. */
  lemma RetainerHasEdge(g: Snapshot, src: nat, dst: nat) returns (k: nat)
    requires WellFormed(g) && src in Retainers(g, dst)
    ensures k < EdgeCount(g) && Dst(g, k) == dst && Owns(g, src, k)
  {
    RetainersArePredecessors(g, src, dst);
    k :| k < EdgeCount(g) && Source(g, k) == src && Dst(g, k) == dst;
  }

  /** The first edge to `dst` within the forward range of `src` is the first from `src` to `dst`. */
  lemma FirstInRange(g: Snapshot, src: nat, dst: nat, k: nat)
    requires WellFormed(g) && k < EdgeCount(g) && Owns(g, src, k)
    requires Dst(g, k) == dst
    requires forall j: nat :: OutStart(g, src) <= j < k ==> Dst(g, j) != dst
    ensures IsFirstEdge(g, src, dst, k)
  {
    OwnerIsUnique(g, src, Source(g, k), k);
    forall j: nat | j < k && Source(g, j) == src ensures Dst(g, j) != dst {
      assert Owns(g, src, j);
    }
  }

  /** Searches the forward range of one retainer; the search never falls through. */
  method FindEdge(nodes: array<U32>, edges: array<U32>, outStart: nat, outEnd: nat, idx: nat,
                  ghost somewhere: nat)
    returns (e: nat)
    requires outStart <= somewhere < outEnd <= EdgeCount(Snap(nodes, edges))
    requires Dst(Snap(nodes, edges), somewhere) == idx
    ensures outStart <= e < outEnd && Dst(Snap(nodes, edges), e) == idx
    ensures forall j: nat :: outStart <= j < e ==> Dst(Snap(nodes, edges), j) != idx
  {
    e := outStart;
    while edges[e * 3 + 2] / 7 != idx
      invariant outStart <= e <= somewhere
      invariant forall j: nat :: outStart <= j < e ==> Dst(Snap(nodes, edges), j) != idx
      decreases somewhere - e
    {
      assert Dst(Snap(nodes, edges), e) != idx;
      e := e + 1;
    }
    assert Dst(Snap(nodes, edges), e) == idx;
  }

  /**
   * The entry for one retainer. The search always finds an edge: a source is in the bucket
   * of `idx` only because one of its own edges leads there.
   */
  method EntryFor(nodes: array<U32>, edges: array<U32>, strings: seq<string>, outOffset: array<U32>,
                  src: nat, idx: nat)
    returns (entry: Retainer)
    requires WellFormed(Snap(nodes, edges)) && TypesKnown(Snap(nodes, edges))
    requires src in Retainers(Snap(nodes, edges), idx)
    requires outOffset.Length == NodeCount(Snap(nodes, edges)) + 1
    requires forall i :: 0 <= i < outOffset.Length ==> outOffset[i] == OutStart(Snap(nodes, edges), i)
    ensures entry.src == src && Reports(Snap(nodes, edges), strings, src, idx, entry)
  {
    ghost var g := Snap(nodes, edges);
    ghost var somewhere := RetainerHasEdge(g, src, idx);
    OutStartMonotone(g, src + 1, NodeCount(g));
    var e := FindEdge(nodes, edges, outOffset[src], outOffset[src + 1], idx, somewhere);
    FirstInRange(g, src, idx, e);
    entry := Describe(Snap(nodes, edges), strings, src, e);
  }

  /** One entry for each retainer of the node, in order. */
  ghost predicate LooksUp(g: Snapshot, strings: seq<string>, idx: nat, result: seq<Retainer>)
    requires WellFormed(g) && TypesKnown(g)
  {
    && |result| == |Retainers(g, idx)|
    && forall i :: 0 <= i < |result| ==>
                     result[i].src == Retainers(g, idx)[i] && Reports(g, strings, result[i].src, idx, result[i])
  }

  /** One entry per edge into `idx`, in edge order. */
  method GetRetainers(nodes: array<U32>, edges: array<U32>, strings: seq<string>,
                      inOffset: array<U32>, invSrc: array<U32>, outOffset: array<U32>, idx: nat)
    returns (result: seq<Retainer>)
    requires WellFormed(Snap(nodes, edges)) && TypesKnown(Snap(nodes, edges))
    requires IsRetainerIndex(Snap(nodes, edges), inOffset[..], invSrc[..], outOffset[..])
    requires idx < NodeCount(Snap(nodes, edges))
    ensures LooksUp(Snap(nodes, edges), strings, idx, result)
  {
    hide WellFormed, TypesKnown, Reports;
    ghost var g := Snap(nodes, edges);
    ghost var bucket := Retainers(g, idx);
    assert BucketAt(inOffset[..], invSrc[..], idx) == bucket;
    result := [];
    var start, end := inOffset[idx], inOffset[idx + 1];
    for k := start to end
      invariant |result| == k - start
      invariant forall i :: 0 <= i < |result| ==>
                              && result[i].src == bucket[i]
                              && Reports(g, strings, result[i].src, idx, result[i])
    {
      assert invSrc[k] == bucket[k - start];
      var entry := EntryFor(nodes, edges, strings, outOffset, invSrc[k], idx);
      result := result + [entry];
    }
  }

  // ----- The backward walk -----

  /** What one walk is about: the snapshot, where it starts, and its two limits. */
  datatype Walk = Walk(g: Snapshot, target: nat, maxDepth: int, branching: int)

  datatype Visit = Visit(node: nat, depth: nat)

  /** A printed line; every arrow announces a node that joins the queue. */
  datatype Line =
    | Header(node: nat)
    | DepthLimit(node: nat, depth: nat)
    | Unretained(node: nat, depth: nat, tagged: bool)
    | Arrow(retainer: Retainer, depth: nat)

  /** The nodes announced by the arrows, in order. */
  function Announced(lines: seq<Line>): seq<Visit> {
    if lines == [] then []
    else Announced(lines[..|lines| - 1])
         + match lines[|lines| - 1]
           case Arrow(retainer, depth) => [Visit(retainer.src, depth)]
           case _ => []
  }

  /** Every node the walk enqueues, in the order it does: the target, then the announced ones. */
  function Queue(target: nat, lines: seq<Line>): (q: seq<Visit>)
    ensures |q| > 0 && q[0] == Visit(target, 0)
  {
    [Visit(target, 0)] + Announced(lines)
  }

  ghost predicate Distinct(queue: seq<Visit>) {
    forall p, q :: 0 <= p < q < |queue| ==> queue[p].node != queue[q].node
  }

  /** Depths never fall along the queue, and the first `busy` nodes see nothing two levels deeper. */
  ghost predicate Layered(queue: seq<Visit>, busy: nat) {
    && (forall p, q :: 0 <= p < q < |queue| ==> queue[p].depth <= queue[q].depth)
    && (forall q :: 0 < q < |queue| ==> queue[q].depth <= queue[q - 1].depth + 1)
    && busy < |queue|
    && (forall q :: 0 <= q < |queue| ==> queue[q].depth <= queue[busy].depth + 1)
  }

  /** Each queued node retains the target along a path of exactly its depth, within the limit. */
  ghost predicate Anchored(w: Walk, queue: seq<Visit>)
    requires WellFormed(w.g)
  {
    forall q :: 0 <= q < |queue| ==>
                  && queue[q].node < NodeCount(w.g)
                  && (queue[q].depth == 0 || queue[q].depth <= w.maxDepth)
                  && Retains(w.g, queue[q].node, w.target, queue[q].depth)
  }

  ghost predicate QueuedWithin(queue: seq<Visit>, node: nat, depth: nat) {
    exists q :: 0 <= q < |queue| && queue[q].node == node && queue[q].depth <= depth
  }

  /** Every predecessor of the first `done` nodes, unless they are at the limit, is queued in time. */
  ghost predicate Expanded(w: Walk, queue: seq<Visit>, done: nat)
    requires WellFormed(w.g)
  {
    forall p, s: nat :: 0 <= p < done <= |queue| && queue[p].depth < w.maxDepth
                        && Edge(w.g, s, queue[p].node) ==>
                          QueuedWithin(queue, s, queue[p].depth + 1)
  }

  /** No node has more retainers than the walk follows per node. */
  ghost predicate BranchingSuffices(w: Walk)
    requires WellFormed(w.g)
  {
    forall n: nat :: n < NodeCount(w.g) ==> |Retainers(w.g, n)| <= w.branching
  }

  /** Once the whole queue is expanded, every node within the limit was queued by its distance. */
  lemma {:induction false} AllWithinLimitQueued(w: Walk, queue: seq<Visit>, n: nat, d: nat)
    requires WellFormed(w.g) && |queue| > 0 && queue[0] == Visit(w.target, 0)
    requires Expanded(w, queue, |queue|)
    requires d <= w.maxDepth && Retains(w.g, n, w.target, d)
    ensures QueuedWithin(queue, n, d)
    decreases d
  {
    if d == 0 {
      assert queue[0].node == n;
    } else {
      var m: nat :| Edge(w.g, n, m) && Retains(w.g, m, w.target, d - 1);
      AllWithinLimitQueued(w, queue, m, d - 1);
      var p :| 0 <= p < |queue| && queue[p].node == m && queue[p].depth <= d - 1;
      assert QueuedWithin(queue, n, queue[p].depth + 1);
    }
  }

  /** A line that announces nothing. */
  function Append(lines: seq<Line>, line: Line): (longer: seq<Line>)
    requires !line.Arrow?
    ensures Announced(longer) == Announced(lines)
  {
    assert (lines + [line])[..|lines|] == lines;
    lines + [line]
  }

  function Arrows(found: seq<Retainer>, depth: nat): seq<Line> {
    seq(|found|, i requires 0 <= i < |found| => Arrow(found[i], depth))
  }

  function VisitsOf(found: seq<Retainer>, depth: nat): seq<Visit> {
    seq(|found|, i requires 0 <= i < |found| => Visit(found[i].src, depth))
  }

  lemma {:induction false} AnnouncedArrows(lines: seq<Line>, found: seq<Retainer>, depth: nat)
    ensures Announced(lines + Arrows(found, depth)) == Announced(lines) + VisitsOf(found, depth)
  {
    if found == [] {
      assert lines + Arrows(found, depth) == lines;
    } else {
      var init := found[..|found| - 1];
      AnnouncedArrows(lines, init, depth);
      var all := lines + Arrows(found, depth);
      assert all[..|all| - 1] == lines + Arrows(init, depth);
      assert VisitsOf(found, depth) == VisitsOf(init, depth) + [Visit(found[|found| - 1].src, depth)];
    }
  }

  ghost function Sources(found: seq<Retainer>): set<nat> {
    set i | 0 <= i < |found| :: found[i].src
  }

  lemma SourcesAppend(found: seq<Retainer>, r: Retainer)
    ensures Sources(found + [r]) == Sources(found) + {r.src}
  {
    var all := found + [r];
    forall src | src in Sources(found) ensures src in Sources(all) {
      var i :| 0 <= i < |found| && found[i].src == src;
      assert all[i].src == src;
    }
    assert all[|found|].src == r.src;
  }

  /** The retainers with unvisited sources, of each source the first one. */
  ghost function Fresh(rets: seq<Retainer>, visited: set<nat>): seq<Retainer> {
    if rets == [] then []
    else
      var earlier, last := rets[..|rets| - 1], rets[|rets| - 1];
      Fresh(earlier, visited) + if last.src in visited || last.src in Sources(earlier) then [] else [last]
  }

  /** The position holds an unvisited source for the first time. */
  ghost predicate IsFresh(rets: seq<Retainer>, visited: set<nat>, k: nat) {
    k < |rets| && rets[k].src !in visited && forall j :: 0 <= j < k ==> rets[j].src != rets[k].src
  }

  /** The positions, from left to right, of exactly the fresh retainers. */
  ghost predicate FreshAt(positions: seq<nat>, firsts: seq<Retainer>, rets: seq<Retainer>, visited: set<nat>) {
    && |positions| == |firsts|
    && (forall i :: 0 <= i < |firsts| ==> IsFresh(rets, visited, positions[i]) && firsts[i] == rets[positions[i]])
    && (forall i, j :: 0 <= i < j < |positions| ==> positions[i] < positions[j])
    && forall k: nat :: IsFresh(rets, visited, k) ==> k in positions
  }

  lemma {:induction false} FreshIsFirsts(rets: seq<Retainer>, visited: set<nat>) returns (positions: seq<nat>)
    ensures FreshAt(positions, Fresh(rets, visited), rets, visited)
  {
    positions := [];
    if rets != [] {
      var n := |rets| - 1;
      var earlier, last := rets[..n], rets[n];
      positions := FreshIsFirsts(earlier, visited);
      assert rets == earlier + [last];
      OneMoreFresh(positions, Fresh(earlier, visited), earlier, last, visited);
      if IsFresh(rets, visited, n) {
        positions := positions + [n];
      }
      hide FreshAt;
      FreshStep(rets, visited, n);
      assert rets[..n + 1] == rets && (IsFresh(rets, visited, n) <==> last.src !in visited + Sources(earlier));
    }
  }

  lemma OneMoreFresh(positions: seq<nat>, firsts: seq<Retainer>, earlier: seq<Retainer>, last: Retainer,
                     visited: set<nat>)
    requires FreshAt(positions, firsts, earlier, visited)
    ensures var rets, n := earlier + [last], |earlier|;
            if IsFresh(rets, visited, n) then FreshAt(positions + [n], firsts + [last], rets, visited)
            else FreshAt(positions, firsts, rets, visited)
  {
    var rets, n := earlier + [last], |earlier|;
    forall k: nat ensures k < n ==> (IsFresh(rets, visited, k) <==> IsFresh(earlier, visited, k)) {
      if k < n {
        assert rets[k] == earlier[k] && forall j :: 0 <= j < k ==> rets[j] == earlier[j];
      }
    }
    var more := positions + [n];
    assert more[|positions|] == n && forall i :: 0 <= i < |positions| ==> more[i] == positions[i];
    forall k: nat | IsFresh(rets, visited, k) ensures k in more {
      if k < n {
        assert IsFresh(earlier, visited, k) && k in positions;
      }
    }
  }

  lemma {:induction false} FreshGrows(rets: seq<Retainer>, visited: set<nat>, k: nat)
    requires k <= |rets|
    ensures Fresh(rets[..k], visited) <= Fresh(rets, visited)
    decreases |rets|
  {
    if k == |rets| {
      assert rets[..k] == rets;
    } else {
      assert rets[..|rets| - 1][..k] == rets[..k];
      FreshGrows(rets[..|rets| - 1], visited, k);
    }
  }

  /** What following a list of retainers finds: the first fresh ones, as many as the limit admits. */
  ghost predicate Follows(rets: seq<Retainer>, branching: int, visited: set<nat>, found: seq<Retainer>) {
    && found <= Fresh(rets, visited)
    && (|found| <= branching || |found| <= 1)
    && (|found| < branching || found == [] ==> found == Fresh(rets, visited))
  }

  lemma FreshStep(rets: seq<Retainer>, visited: set<nat>, k: nat)
    requires k < |rets|
    ensures Sources(rets[..k + 1]) == Sources(rets[..k]) + {rets[k].src}
    ensures Fresh(rets[..k + 1], visited) == Fresh(rets[..k], visited)
         + if rets[k].src in visited + Sources(rets[..k]) then [] else [rets[k]]
  {
    assert rets[..k + 1] == rets[..k] + [rets[k]];
    assert rets[..k + 1][..k] == rets[..k];
    SourcesAppend(rets[..k], rets[k]);
  }

  /** Enqueues the unvisited retainers of one node, in order, until `branching` were kept. */
  method Follow(rets: seq<Retainer>, branching: int, visited: set<nat>)
    returns (found: seq<Retainer>, visited': set<nat>)
    ensures Follows(rets, branching, visited, found)
    ensures visited' == visited + Sources(found)
    ensures forall i, j :: 0 <= i < j < |found| ==> found[i].src != found[j].src
    ensures forall i :: 0 <= i < |found| ==> found[i] in rets && found[i].src !in visited
    ensures |rets| <= branching ==> forall r :: r in rets ==> r.src in visited'
  {
    hide Fresh;
    found, visited' := [], visited;
    var kept := 0;
    NothingFresh(visited);
    for k := 0 to |rets|
      invariant kept == |found| <= k && found == Fresh(rets[..k], visited)
      invariant visited' == visited + Sources(found) == visited + Sources(rets[..k])
      invariant kept < branching || kept == 0
      invariant forall i, j :: 0 <= i < j < |found| ==> found[i].src != found[j].src
      invariant forall i :: 0 <= i < |found| ==> found[i] in rets && found[i].src !in visited
    {
      FreshStep(rets, visited, k);
      if rets[k].src in visited' {
        continue;
      }
      SourcesAppend(found, rets[k]);
      visited' := visited' + {rets[k].src};
      kept := kept + 1;
      found := found + [rets[k]];
      if kept >= branching {
        FreshGrows(rets, visited, k + 1);
        CoveredWhenShort(rets, k + 1, branching);
        break;
      }
    }
    assert rets[..|rets|] == rets;
  }

  lemma NothingFresh(visited: set<nat>)
    ensures Fresh([], visited) == [] && Sources([]) == {}
  {
  }

  lemma CoveredWhenShort(rets: seq<Retainer>, k: nat, branching: int)
    requires k <= |rets| <= branching ==> k == |rets|
    ensures k <= |rets| <= branching ==> forall r :: r in rets ==> r.src in Sources(rets[..k])
  {
    assert rets[..|rets|] == rets;
  }

  ghost function NodesOf(queue: seq<Visit>): set<nat> {
    set i | 0 <= i < |queue| :: queue[i].node
  }

  /** What holds of the queue whenever `busy` is the last node taken from it. */
  ghost predicate WalkState(w: Walk, queue: seq<Visit>, busy: nat)
    requires WellFormed(w.g)
  {
    Distinct(queue) && Layered(queue, busy) && Anchored(w, queue)
  }

  lemma LayersGrow(queue: seq<Visit>, busy: nat, found: seq<Retainer>)
    requires Layered(queue, busy)
    ensures Layered(queue + VisitsOf(found, queue[busy].depth + 1), busy)
  {
  }

  lemma DistinctGrows(queue: seq<Visit>, found: seq<Retainer>, depth: nat)
    requires Distinct(queue)
    requires forall i, j :: 0 <= i < j < |found| ==> found[i].src != found[j].src
    requires forall i :: 0 <= i < |found| ==> found[i].src !in NodesOf(queue)
    ensures Distinct(queue + VisitsOf(found, depth))
  {
    var grown := queue + VisitsOf(found, depth);
    forall p, q | 0 <= p < q < |grown| ensures grown[p].node != grown[q].node {
      if p < |queue| <= q {
        assert grown[p].node in NodesOf(queue);
      }
    }
  }

  lemma AnchorsGrow(w: Walk, queue: seq<Visit>, busy: nat, found: seq<Retainer>)
    requires WellFormed(w.g) && Anchored(w, queue)
    requires busy < |queue| && queue[busy].depth < w.maxDepth
    requires forall i :: 0 <= i < |found| ==> found[i].src in Retainers(w.g, queue[busy].node)
    ensures Anchored(w, queue + VisitsOf(found, queue[busy].depth + 1))
  {
    var grown := queue + VisitsOf(found, queue[busy].depth + 1);
    forall q | 0 <= q < |grown|
      ensures && grown[q].node < NodeCount(w.g)
              && (grown[q].depth == 0 || grown[q].depth <= w.maxDepth)
              && Retains(w.g, grown[q].node, w.target, grown[q].depth)
    {
      if q >= |queue| {
        RetainersArePredecessors(w.g, grown[q].node, queue[busy].node);
      }
    }
  }

  /** Queueing unvisited retainers of the busy node one level deeper keeps the queue in order. */
  lemma QueueGrows(w: Walk, queue: seq<Visit>, busy: nat, found: seq<Retainer>)
    requires WellFormed(w.g) && WalkState(w, queue, busy)
    requires busy < |queue| && queue[busy].depth < w.maxDepth
    requires forall i, j :: 0 <= i < j < |found| ==> found[i].src != found[j].src
    requires forall i :: 0 <= i < |found| ==>
                           && found[i].src !in NodesOf(queue)
                           && found[i].src in Retainers(w.g, queue[busy].node)
    ensures WalkState(w, queue + VisitsOf(found, queue[busy].depth + 1), busy)
  {
    hide Layered, Distinct, Anchored;
    LayersGrow(queue, busy, found);
    DistinctGrows(queue, found, queue[busy].depth + 1);
    AnchorsGrow(w, queue, busy, found);
  }

  lemma NodesOfGrown(queue: seq<Visit>, found: seq<Retainer>, depth: nat)
    ensures NodesOf(queue + VisitsOf(found, depth)) == NodesOf(queue) + Sources(found)
  {
    var visits := VisitsOf(found, depth);
    var grown := queue + visits;
    forall n | n in NodesOf(queue) ensures n in NodesOf(grown) {
      var i :| 0 <= i < |queue| && queue[i].node == n;
      assert grown[i].node == n;
    }
    forall n | n in Sources(found) ensures n in NodesOf(grown) {
      var i :| 0 <= i < |found| && found[i].src == n;
      assert grown[|queue| + i].node == n;
    }
    forall n | n in NodesOf(grown) ensures n in NodesOf(queue) + Sources(found) {
      var i :| 0 <= i < |grown| && grown[i].node == n;
      if i >= |queue| {
        assert found[i - |queue|].src == n;
      }
    }
  }

  /** Once all retainers of the busy node are queued, it counts as expanded too. */
  lemma BusyExpanded(w: Walk, before: seq<Visit>, queue: seq<Visit>, busy: nat)
    requires WellFormed(w.g) && WalkState(w, queue, busy)
    requires before <= queue && busy < |before| && Expanded(w, before, busy)
    requires queue[busy].depth < w.maxDepth ==>
               forall s :: s in Retainers(w.g, queue[busy].node) ==> s in NodesOf(queue)
    ensures Expanded(w, queue, busy + 1)
  {
    forall p, s: nat | 0 <= p < busy + 1 && queue[p].depth < w.maxDepth && Edge(w.g, s, queue[p].node)
      ensures QueuedWithin(queue, s, queue[p].depth + 1)
    {
      if p < busy {
        assert before[p] == queue[p];
        assert QueuedWithin(before, s, before[p].depth + 1);
        var q :| 0 <= q < |before| && before[q].node == s && before[q].depth <= before[p].depth + 1;
        assert queue[q] == before[q];
      } else {
        RetainersArePredecessors(w.g, s, queue[busy].node);
        var q :| 0 <= q < |queue| && queue[q].node == s;
        assert queue[q].depth <= queue[busy].depth + 1;
      }
    }
  }

  /** Distances: a node queued at depth `d` has no shorter path when the whole ball was expanded. */
  ghost predicate ShortestAndComplete(w: Walk, queue: seq<Visit>)
    requires WellFormed(w.g)
  {
    && (forall q, d: nat {:trigger Retains(w.g, queue[q].node, w.target, d)} ::
          0 <= q < |queue| && Retains(w.g, queue[q].node, w.target, d) ==> queue[q].depth <= d)
    && (forall n: nat, d: nat :: d <= w.maxDepth && Retains(w.g, n, w.target, d) ==>
          QueuedWithin(queue, n, d))
  }

  lemma WalkIsExhaustive(w: Walk, queue: seq<Visit>, busy: nat)
    requires WellFormed(w.g) && WalkState(w, queue, busy)
    requires queue[0] == Visit(w.target, 0) && Expanded(w, queue, |queue|)
    ensures ShortestAndComplete(w, queue)
  {
    forall n: nat, d: nat | d <= w.maxDepth && Retains(w.g, n, w.target, d)
      ensures QueuedWithin(queue, n, d)
    {
      AllWithinLimitQueued(w, queue, n, d);
    }
    forall q, d: nat {:trigger Retains(w.g, queue[q].node, w.target, d)}
      | 0 <= q < |queue| && Retains(w.g, queue[q].node, w.target, d)
      ensures queue[q].depth <= d
    {
      if 0 < queue[q].depth && d <= w.maxDepth {
        assert QueuedWithin(queue, queue[q].node, d);
        var p :| 0 <= p < |queue| && queue[p].node == queue[q].node && queue[p].depth <= d;
        assert p == q;
      }
    }
  }

  /** The walk after `taken` nodes left the queue. */
  ghost predicate Walking(w: Walk, queue: seq<Visit>, visited: set<nat>, taken: nat)
    requires WellFormed(w.g)
  {
    && taken <= |queue| && |queue| > 0 && queue[0] == Visit(w.target, 0)
    && visited == NodesOf(queue)
    && WalkState(w, queue, if taken == 0 then 0 else taken - 1)
    && (BranchingSuffices(w) ==> Expanded(w, queue, taken))
  }

  lemma WalkBegins(w: Walk)
    requires WellFormed(w.g) && w.target < NodeCount(w.g)
    ensures Walking(w, [Visit(w.target, 0)], {w.target}, 0)
  {
    var queue := [Visit(w.target, 0)];
    assert queue[0].node in NodesOf(queue);
  }

  /** A node at the depth limit, or one without retainers, leaves the queue without followers. */
  lemma WalkPasses(w: Walk, queue: seq<Visit>, visited: set<nat>, taken: nat)
    requires WellFormed(w.g) && taken < |queue|
    requires Walking(w, queue, visited, taken)
    requires queue[taken].depth >= w.maxDepth || Retainers(w.g, queue[taken].node) == []
    ensures Walking(w, queue, visited, taken + 1)
  {
    if BranchingSuffices(w) {
      BusyExpanded(w, queue, queue, taken);
    }
  }

  lemma WalkFollows(w: Walk, queue: seq<Visit>, visited: set<nat>, taken: nat, found: seq<Retainer>, visited': set<nat>)
    requires WellFormed(w.g) && taken < |queue| && queue[taken].depth < w.maxDepth
    requires visited' == visited + Sources(found)
    requires Walking(w, queue, visited, taken)
    requires forall i, j :: 0 <= i < j < |found| ==> found[i].src != found[j].src
    requires forall i :: 0 <= i < |found| ==>
                           && found[i].src !in visited
                           && found[i].src in Retainers(w.g, queue[taken].node)
    requires |Retainers(w.g, queue[taken].node)| <= w.branching ==>
               forall s :: s in Retainers(w.g, queue[taken].node) ==> s in visited'
    ensures Walking(w, queue + VisitsOf(found, queue[taken].depth + 1), visited', taken + 1)
  {
    var grown := queue + VisitsOf(found, queue[taken].depth + 1);
    QueueGrows(w, queue, taken, found);
    NodesOfGrown(queue, found, queue[taken].depth + 1);
    if BranchingSuffices(w) {
      BusyExpanded(w, queue, grown, taken);
    }
  }

  lemma WalkNodes(w: Walk, queue: seq<Visit>, visited: set<nat>, taken: nat)
    requires WellFormed(w.g)
    requires Walking(w, queue, visited, taken)
    ensures forall q :: 0 <= q < |queue| ==> queue[q].node < NodeCount(w.g)
  {
  }

  /** When the queue has run empty, the walk has the promised properties. */
  lemma WalkEnds(w: Walk, queue: seq<Visit>, visited: set<nat>, taken: nat)
    requires WellFormed(w.g) && taken == |queue|
    requires Walking(w, queue, visited, taken)
    ensures Distinct(queue) && Layered(queue, |queue| - 1)
    ensures Anchored(w, queue)
    ensures BranchingSuffices(w) ==>
              ShortestAndComplete(w, queue)
  {
    if BranchingSuffices(w) {
      WalkIsExhaustive(w, queue, taken - 1);
    }
  }

  /** How many of the first `n` nodes are not visited: what bounds the walk. */
  ghost function Unvisited(n: nat, visited: set<nat>): nat {
    if n == 0 then 0 else Unvisited(n - 1, visited) + if n - 1 in visited then 0 else 1
  }

  lemma {:induction false} UnvisitedShrinks(n: nat, visited: set<nat>, visited': set<nat>)
    requires visited <= visited'
    ensures Unvisited(n, visited') <= Unvisited(n, visited)
    ensures (exists i: nat :: i < n && i in visited' && i !in visited) ==>
              Unvisited(n, visited') < Unvisited(n, visited)
  {
    if n > 0 {
      UnvisitedShrinks(n - 1, visited, visited');
    }
  }

  /** Printing the arrows of the retainers found is what puts them at the end of the queue. */
  lemma ArrowsQueue(target: nat, lines: seq<Line>, found: seq<Retainer>, depth: nat, taken: nat)
    requires taken < |Queue(target, lines)|
    ensures Queue(target, lines + Arrows(found, depth)) == Queue(target, lines) + VisitsOf(found, depth)
    ensures Queue(target, lines)[taken..][1..] + VisitsOf(found, depth)
         == Queue(target, lines + Arrows(found, depth))[taken + 1..]
  {
    AnnouncedArrows(lines, found, depth);
  }

  /** What is found is newly visited; finding nothing leaves everything as it was. */
  lemma FoundIsProgress(g: Snapshot, node: nat, found: seq<Retainer>, depth: nat, visited: set<nat>)
    requires WellFormed(g) && node < NodeCount(g)
    requires found != [] ==> found[0].src in Retainers(g, node) && found[0].src !in visited
    ensures found != [] ==>
              Unvisited(NodeCount(g), visited + Sources(found)) < Unvisited(NodeCount(g), visited)
    ensures found == [] ==> visited + Sources(found) == visited && VisitsOf(found, depth) == []
  {
    if found != [] {
      UnvisitedShrinks(NodeCount(g), visited, visited + Sources(found));
      assert found[0].src < NodeCount(g) && found[0].src in Sources(found);
    }
  }

  /** What is printed for a node taken off the queue, `before` being everything printed so far. */
  ghost predicate BlockOf(w: Walk, strings: seq<string>, before: seq<Line>, block: seq<Line>, visit: Visit)
    requires WellFormed(w.g) && TypesKnown(w.g)
  {
    if visit.depth >= w.maxDepth then block == [DepthLimit(visit.node, visit.depth)]
    else if Retainers(w.g, visit.node) == [] then block == [Unretained(visit.node, visit.depth, visit.depth > 0)]
    else exists rets, found ::
           && LooksUp(w.g, strings, visit.node, rets)
           && Follows(rets, w.branching, NodesOf(Queue(w.target, before)), found)
           && block == Arrows(found, visit.depth + 1)
  }

  /** The lines printed when `taken` nodes have left the queue: the header, and a block for each of them. */
  ghost predicate Printed(w: Walk, strings: seq<string>, lines: seq<Line>, taken: nat)
    requires WellFormed(w.g) && TypesKnown(w.g)
    decreases taken
  {
    if taken == 0 then lines == [Header(w.target)]
    else exists before ::
           && before <= lines && Printed(w, strings, before, taken - 1) && taken <= |Queue(w.target, before)|
           && BlockOf(w, strings, before, lines[|before|..], Queue(w.target, before)[taken - 1])
  }

  lemma ArrowsAreBlock(w: Walk, strings: seq<string>, before: seq<Line>, visit: Visit, rets: seq<Retainer>,
                       visited: set<nat>, found: seq<Retainer>)
    requires WellFormed(w.g) && TypesKnown(w.g) && visit.depth < w.maxDepth && Retainers(w.g, visit.node) != []
    requires LooksUp(w.g, strings, visit.node, rets) && visited == NodesOf(Queue(w.target, before))
    requires Follows(rets, w.branching, visited, found)
    ensures BlockOf(w, strings, before, Arrows(found, visit.depth + 1), visit)
  {
  }

  lemma VisitedIsQueued(w: Walk, queue: seq<Visit>, visited: set<nat>, taken: nat)
    requires WellFormed(w.g) && Walking(w, queue, visited, taken)
    ensures visited == NodesOf(queue)
  {
  }

  /** One turn of the walk: takes the first node of the queue and queues its unvisited retainers. */
  method TakeNode(nodes: array<U32>, edges: array<U32>, strings: seq<string>,
                  inOffset: array<U32>, invSrc: array<U32>, outOffset: array<U32>,
                  w: Walk, frontier: seq<Visit>, visited: set<nat>, lines: seq<Line>, ghost taken: nat)
    returns (frontier': seq<Visit>, visited': set<nat>, lines': seq<Line>)
    requires w.g == Snap(nodes, edges) && WellFormed(w.g) && TypesKnown(w.g)
    requires IsRetainerIndex(w.g, inOffset[..], invSrc[..], outOffset[..])
    requires Walking(w, Queue(w.target, lines), visited, taken)
    requires taken <= |Queue(w.target, lines)| && frontier == Queue(w.target, lines)[taken..] && frontier != []
    ensures Walking(w, Queue(w.target, lines'), visited', taken + 1)
    ensures taken + 1 <= |Queue(w.target, lines')| && frontier' == Queue(w.target, lines')[taken + 1..]
    ensures Unvisited(NodeCount(w.g), visited') < Unvisited(NodeCount(w.g), visited)
            || (visited' == visited && |frontier'| < |frontier|)
    ensures lines <= lines'
    ensures BlockOf(w, strings, lines, lines'[|lines|..], Queue(w.target, lines)[taken])
  {
    hide Walking, IsRetainerIndex, WellFormed, TypesKnown, Reports, Announced, VisitsOf, Arrows, Unvisited, Retainers,
         NodeCount, BranchingSuffices, Follows, NodesOf;
    ghost var queue := Queue(w.target, lines);
    WalkNodes(w, queue, visited, taken);
    VisitedIsQueued(w, queue, visited, taken);
    var Visit(node, depth) := frontier[0];
    assert queue[taken] == frontier[0];
    frontier', visited' := frontier[1..], visited;
    if depth >= w.maxDepth {
      lines' := Append(lines, DepthLimit(node, depth));
      WalkPasses(w, queue, visited, taken);
      return;
    }
    var rets := GetRetainers(nodes, edges, strings, inOffset, invSrc, outOffset, node);
    if rets == [] {
      lines' := Append(lines, Unretained(node, depth, depth > 0));
      WalkPasses(w, queue, visited, taken);
      return;
    }
    var found;
    found, visited' := Follow(rets, w.branching, visited);
    lines' := lines + Arrows(found, depth + 1);
    ArrowsAreBlock(w, strings, lines, queue[taken], rets, visited, found);
    frontier' := frontier' + VisitsOf(found, depth + 1);
    WalkFollows(w, queue, visited, taken, found, visited');
    ArrowsQueue(w.target, lines, found, depth + 1, taken);
    FoundIsProgress(w.g, node, found, depth + 1, visited);
  }

  /**
   * Walks backwards from `target`, level by level. Every node is queued at most once, at the
   * length of a real retaining path; when `branching` covers every in-degree, that length is
   * the shortest and no node within `maxDepth` is missed. The lines are the header and one block
   * for each queued node, in queue order.
   */
  method WalkRetainers(nodes: array<U32>, edges: array<U32>, strings: seq<string>,
                       inOffset: array<U32>, invSrc: array<U32>, outOffset: array<U32>,
                       target: nat, maxDepth: int, branching: int)
    returns (lines: seq<Line>)
    requires WellFormed(Snap(nodes, edges)) && TypesKnown(Snap(nodes, edges))
    requires IsRetainerIndex(Snap(nodes, edges), inOffset[..], invSrc[..], outOffset[..])
    requires target < NodeCount(Snap(nodes, edges))
    ensures Distinct(Queue(target, lines))
    ensures Layered(Queue(target, lines), |Queue(target, lines)| - 1)
    ensures var w := Walk(Snap(nodes, edges), target, maxDepth, branching);
            && Anchored(w, Queue(target, lines))
            && (BranchingSuffices(w) ==> ShortestAndComplete(w, Queue(target, lines)))
            && Printed(w, strings, lines, |Queue(target, lines)|)
  {
    hide BlockOf, Walking, Distinct, Layered, Anchored, BranchingSuffices, ShortestAndComplete;
    var w := Walk(Snap(nodes, edges), target, maxDepth, branching);
    lines := Append([], Header(target));
    var frontier, visited := [Visit(target, 0)], {target};
    ghost var taken := 0;
    WalkBegins(w);
    assert Queue(target, lines) == frontier;
    while frontier != []
      invariant Walking(w, Queue(target, lines), visited, taken)
      invariant taken <= |Queue(target, lines)| && frontier == Queue(target, lines)[taken..]
      invariant Snap(nodes, edges) == w.g
      invariant Printed(w, strings, lines, taken)
      invariant inOffset[..] == old(inOffset[..]) && invSrc[..] == old(invSrc[..])
      invariant outOffset[..] == old(outOffset[..])
      decreases Unvisited(NodeCount(w.g), visited), |frontier|
    {
      frontier, visited, lines := TakeNode(nodes, edges, strings, inOffset, invSrc, outOffset,
                                           w, frontier, visited, lines, taken);
      taken := taken + 1;
    }
    WalkEnds(w, Queue(target, lines), visited, taken);
  }
}
