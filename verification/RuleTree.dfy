/**
 * Cleanup rule expressions: trees of conditions, groups and negations, the iterative check of
 * their parameters, and the filling in of parameter defaults
 * (apps/api/src/routes/library-cleanup.ts, lines 2203-2298). Parameter objects and their schemas
 * are arbitrary.
 */
module RuleTree {
  import opened Options

  datatype Operator = And | Or

  datatype Condition<+P> = Condition(ruleType: string, parameters: P)

  datatype Node<+P> =
    | Leaf(condition: Condition<P>)
    | Group(operator: Operator, children: seq<Node<P>>)
    | Not(child: Node<P>)

  /** What the schema of a rule type, if there is one, says of some parameters. */
  datatype Verdict<+P> = NoSchema | Parsed(data: P) | Rejected(message: string)

  type Schemas<!P> = Condition<P> -> Verdict<P>

  const MAX_DEPTH := 8
  const MAX_NODES := 100
  const COMPOSITE := "composite"

  function Size<P>(node: Node<P>): (n: nat)
    ensures n >= 1
    decreases node, 1
  {
    match node
    case Leaf(_) => 1
    case Group(_, children) => 1 + SizeAll(children)
    case Not(child) => 1 + Size(child)
  }

  function SizeAll<P>(nodes: seq<Node<P>>): nat
    decreases nodes, 0
  {
    if nodes == [] then 0 else Size(nodes[0]) + SizeAll(nodes[1..])
  }

  // ----- Checking the parameters -----

  datatype Step = Child(index: nat) | Inner

  type Path = seq<Step>

  /** Where the first rejected condition stands, and what its schema objects to. */
  datatype Failure = Failure(path: Path, ruleType: string, message: string)

  function CheckLeaf<P>(schemas: Schemas<P>, condition: Condition<P>, path: Path): Option<Failure> {
    match schemas(condition)
    case Rejected(message) => Some(Failure(path, condition.ruleType, message))
    case _ => None
  }

  function OrElse<T>(first: Option<T>, second: Option<T>): Option<T> {
    if first.Some? then first else second
  }

  /** The recursive left-to-right search for the first rejected condition. */
  function FirstFailure<P>(schemas: Schemas<P>, node: Node<P>, path: Path): Option<Failure>
    decreases node, 1
  {
    match node
    case Leaf(condition) => CheckLeaf(schemas, condition, path)
    case Group(_, children) => FirstInChildren(schemas, children, path, 0)
    case Not(child) => FirstFailure(schemas, child, path + [Inner])
  }

  /** The search among `nodes`, the children of the group at `path` from position `from` on. */
  function FirstInChildren<P>(schemas: Schemas<P>, nodes: seq<Node<P>>, path: Path, from: nat): Option<Failure>
    decreases nodes, 0
  {
    if nodes == [] then None
    else OrElse(FirstFailure(schemas, nodes[0], path + [Child(from)]),
                FirstInChildren(schemas, nodes[1..], path, from + 1))
  }

  datatype Frame<+P> = Frame(node: Node<P>, path: Path)

  /** The search through a stack of pending nodes, top first. */
  ghost function FirstOnStack<P>(schemas: Schemas<P>, stack: seq<Frame<P>>): Option<Failure> {
    if stack == [] then None
    else
      var top := stack[|stack| - 1];
      OrElse(FirstFailure(schemas, top.node, top.path), FirstOnStack(schemas, stack[..|stack| - 1]))
  }

  ghost function StackSize<P>(stack: seq<Frame<P>>): nat {
    if stack == [] then 0 else Size(stack[|stack| - 1].node) + StackSize(stack[..|stack| - 1])
  }

  lemma PushFrame<P>(schemas: Schemas<P>, stack: seq<Frame<P>>, frame: Frame<P>)
    ensures FirstOnStack(schemas, stack + [frame])
         == OrElse(FirstFailure(schemas, frame.node, frame.path), FirstOnStack(schemas, stack))
    ensures StackSize(stack + [frame]) == Size(frame.node) + StackSize(stack)
  {
    assert (stack + [frame])[..|stack|] == stack;
  }

  /** Pushes the children of a group last to first, so that the first is popped first. */
  method PushChildren<P>(ghost schemas: Schemas<P>, base: seq<Frame<P>>, children: seq<Node<P>>, path: Path)
    returns (stack: seq<Frame<P>>)
    ensures FirstOnStack(schemas, stack)
         == OrElse(FirstInChildren(schemas, children, path, 0), FirstOnStack(schemas, base))
    ensures StackSize(stack) == SizeAll(children) + StackSize(base)
  {
    stack := base;
    for i := |children| downto 0
      invariant FirstOnStack(schemas, stack)
             == OrElse(FirstInChildren(schemas, children[i..], path, i), FirstOnStack(schemas, base))
      invariant StackSize(stack) == SizeAll(children[i..]) + StackSize(base)
    {
      PushFrame(schemas, stack, Frame(children[i], path + [Child(i)]));
      stack := stack + [Frame(children[i], path + [Child(i)])];
      assert children[i..][0] == children[i] && children[i..][1..] == children[i + 1..];
    }
    assert children[0..] == children;
  }

  /** The iterative check stops at exactly the condition the recursive search finds first. */
  method ValidateExpression<P>(schemas: Schemas<P>, root: Node<P>) returns (failure: Option<Failure>)
    ensures failure == FirstFailure(schemas, root, [])
  {
    var stack := [Frame(root, [])];
    assert stack[..0] == [];
    while stack != []
      invariant FirstOnStack(schemas, stack) == FirstFailure(schemas, root, [])
      decreases StackSize(stack)
    {
      var Frame(node, path) := stack[|stack| - 1];
      stack := stack[..|stack| - 1];
      match node
      case Leaf(condition) =>
        match schemas(condition) {
          case Rejected(message) => return Some(Failure(path, condition.ruleType, message));
          case _ =>
        }
      case Group(_, children) =>
        stack := PushChildren(schemas, stack, children, path);
      case Not(child) =>
        PushFrame(schemas, stack, Frame(child, path + [Inner]));
        stack := stack + [Frame(child, path + [Inner])];
    }
    return None;
  }

  /** A condition of the tree with its path. */
  datatype Spot<+P> = Spot(path: Path, condition: Condition<P>)

  /** The conditions of a tree, left to right. */
  function Spots<P>(node: Node<P>, path: Path): seq<Spot<P>>
    decreases node, 1
  {
    match node
    case Leaf(condition) => [Spot(path, condition)]
    case Group(_, children) => SpotsOfChildren(children, path, 0)
    case Not(child) => Spots(child, path + [Inner])
  }

  function SpotsOfChildren<P>(nodes: seq<Node<P>>, path: Path, from: nat): seq<Spot<P>>
    decreases nodes, 0
  {
    if nodes == [] then []
    else Spots(nodes[0], path + [Child(from)]) + SpotsOfChildren(nodes[1..], path, from + 1)
  }

  /** The failure is that of the first rejected condition in the list; there is none iff all parse. */
  ghost predicate ReportsFirst<P>(schemas: Schemas<P>, spots: seq<Spot<P>>, failure: Option<Failure>) {
    match failure
    case None => forall k :: 0 <= k < |spots| ==> !schemas(spots[k].condition).Rejected?
    case Some(f) =>
      exists k :: 0 <= k < |spots|
                  && (forall j :: 0 <= j < k ==> !schemas(spots[j].condition).Rejected?)
                  && schemas(spots[k].condition) == Rejected(f.message)
                  && f.path == spots[k].path && f.ruleType == spots[k].condition.ruleType
  }

  lemma ReportsFirstConcat<P>(
    schemas: Schemas<P>, a: seq<Spot<P>>, b: seq<Spot<P>>, fa: Option<Failure>, fb: Option<Failure>)
    requires ReportsFirst(schemas, a, fa) && ReportsFirst(schemas, b, fb)
    ensures ReportsFirst(schemas, a + b, OrElse(fa, fb))
  {
    var ab := a + b;
    if fa.Some? {
      var k :| 0 <= k < |a| && (forall j :: 0 <= j < k ==> !schemas(a[j].condition).Rejected?)
               && schemas(a[k].condition) == Rejected(fa.value.message)
               && fa.value.path == a[k].path && fa.value.ruleType == a[k].condition.ruleType;
      assert ab[k] == a[k] && forall j :: 0 <= j < k ==> ab[j] == a[j];
    } else if fb.Some? {
      var k :| 0 <= k < |b| && (forall j :: 0 <= j < k ==> !schemas(b[j].condition).Rejected?)
               && schemas(b[k].condition) == Rejected(fb.value.message)
               && fb.value.path == b[k].path && fb.value.ruleType == b[k].condition.ruleType;
      assert ab[|a| + k] == b[k];
      assert forall j :: |a| <= j < |a| + k ==> ab[j] == b[j - |a|];
      assert forall j :: 0 <= j < |a| ==> ab[j] == a[j];
    }
  }

  /** The recursive search finds the first rejected condition of the left-to-right list. */
  lemma {:induction false} FirstFailureIsFirst<P>(schemas: Schemas<P>, node: Node<P>, path: Path)
    ensures ReportsFirst(schemas, Spots(node, path), FirstFailure(schemas, node, path))
    decreases node, 1
  {
    match node
    case Leaf(condition) =>
      assert Spots(node, path)[0] == Spot(path, condition);
    case Group(_, children) => FirstInChildrenIsFirst(schemas, children, path, 0);
    case Not(child) => FirstFailureIsFirst(schemas, child, path + [Inner]);
  }

  lemma {:induction false} FirstInChildrenIsFirst<P>(schemas: Schemas<P>, nodes: seq<Node<P>>, path: Path, from: nat)
    ensures ReportsFirst(schemas, SpotsOfChildren(nodes, path, from), FirstInChildren(schemas, nodes, path, from))
    decreases nodes, 0
  {
    if nodes != [] {
      FirstFailureIsFirst(schemas, nodes[0], path + [Child(from)]);
      FirstInChildrenIsFirst(schemas, nodes[1..], path, from + 1);
      ReportsFirstConcat(schemas, Spots(nodes[0], path + [Child(from)]), SpotsOfChildren(nodes[1..], path, from + 1),
                         FirstFailure(schemas, nodes[0], path + [Child(from)]),
                         FirstInChildren(schemas, nodes[1..], path, from + 1));
    }
  }

  datatype ParameterError =
    | InExpression(failure: Failure)
    | InCondition(index: nat, ruleType: string, message: string)
    | InRule(ruleType: string, message: string)

  /** What the schemas are asked about passes: an expression, else the list of a composite, else the rule. */
  predicate ParametersPass<P>(schemas: Schemas<P>, ruleType: string, parameters: P,
                              conditions: Option<seq<Condition<P>>>, expression: Option<Node<P>>) {
    if expression.Some? then FirstFailure(schemas, expression.value, []).None?
    else if ruleType == COMPOSITE && conditions.Some? then
      forall i :: 0 <= i < |conditions.value| ==> !schemas(conditions.value[i]).Rejected?
    else !schemas(Condition(ruleType, parameters)).Rejected?
  }

  /** Checks an expression if there is one, else the condition list of a composite, else the rule itself. */
  method ValidateRuleParameters<P>(schemas: Schemas<P>, ruleType: string, parameters: P,
                                   conditions: Option<seq<Condition<P>>>, expression: Option<Node<P>>)
    returns (error: Option<ParameterError>)
    ensures error.None? <==> ParametersPass(schemas, ruleType, parameters, conditions, expression)
    ensures expression.Some? ==>
              error == match FirstFailure(schemas, expression.value, [])
                       case Some(failure) => Some(InExpression(failure))
                       case None => None
    ensures expression.None? && ruleType == COMPOSITE && conditions.Some? ==>
              match error
              case None => forall i :: 0 <= i < |conditions.value| ==> !schemas(conditions.value[i]).Rejected?
              case Some(e) =>
                && e.InCondition? && e.index < |conditions.value|
                && schemas(conditions.value[e.index]) == Rejected(e.message)
                && e.ruleType == conditions.value[e.index].ruleType
                && forall i :: 0 <= i < e.index ==> !schemas(conditions.value[i]).Rejected?
    ensures expression.None? && !(ruleType == COMPOSITE && conditions.Some?) ==>
              error == match schemas(Condition(ruleType, parameters))
                       case Rejected(message) => Some(InRule(ruleType, message))
                       case _ => None
  {
    if expression.Some? {
      var failure := ValidateExpression(schemas, expression.value);
      return if failure.Some? then Some(InExpression(failure.value)) else None;
    }
    if ruleType == COMPOSITE && conditions.Some? {
      for i := 0 to |conditions.value|
        invariant forall j :: 0 <= j < i ==> !schemas(conditions.value[j]).Rejected?
      {
        var verdict := schemas(conditions.value[i]);
        if verdict.Rejected? {
          return Some(InCondition(i, conditions.value[i].ruleType, verdict.message));
        }
      }
      return None;
    }
    var verdict := schemas(Condition(ruleType, parameters));
    return if verdict.Rejected? then Some(InRule(ruleType, verdict.message)) else None;
  }

  // ----- Checking the shape -----

  function Max(a: nat, b: nat): nat { if a >= b then a else b }

  function Depth<P>(node: Node<P>): (d: nat)
    ensures d >= 1
    decreases node, 1
  {
    match node
    case Leaf(_) => 1
    case Group(_, children) => 1 + DepthAll(children)
    case Not(child) => 1 + Depth(child)
  }

  function DepthAll<P>(nodes: seq<Node<P>>): nat
    decreases nodes, 0
  {
    if nodes == [] then 0 else Max(Depth(nodes[0]), DepthAll(nodes[1..]))
  }

  /** Conditions have a known type of their own, and groups have children. */
  predicate Sound<P>(known: string -> bool, node: Node<P>)
    decreases node, 1
  {
    match node
    case Leaf(condition) => known(condition.ruleType) && condition.ruleType != COMPOSITE
    case Group(_, children) => children != [] && SoundAll(known, children)
    case Not(child) => Sound(known, child)
  }

  predicate SoundAll<P>(known: string -> bool, nodes: seq<Node<P>>)
    decreases nodes, 0
  {
    nodes == [] || (Sound(known, nodes[0]) && SoundAll(known, nodes[1..]))
  }

  /** What makes a tree a storable expression. */
  predicate WellShaped<P>(known: string -> bool, root: Node<P>) {
    Sound(known, root) && Depth(root) <= MAX_DEPTH && Size(root) <= MAX_NODES
  }

  // ----- Filling in defaults -----

  function DefaultsOf<P>(schemas: Schemas<P>, condition: Condition<P>): Condition<P> {
    match schemas(condition)
    case Parsed(data) => condition.(parameters := data)
    case _ => condition
  }

  function ApplyDefaults<P>(schemas: Schemas<P>, node: Node<P>): Node<P>
    decreases node, 1
  {
    match node
    case Leaf(condition) => Leaf(DefaultsOf(schemas, condition))
    case Group(operator, children) => Group(operator, ApplyDefaultsAll(schemas, children))
    case Not(child) => Not(ApplyDefaults(schemas, child))
  }

  function ApplyDefaultsAll<P>(schemas: Schemas<P>, nodes: seq<Node<P>>): (r: seq<Node<P>>)
    ensures |r| == |nodes|
    ensures forall i :: 0 <= i < |r| ==> r[i] == ApplyDefaults(schemas, nodes[i])
    decreases nodes, 0
  {
    if nodes == [] then [] else [ApplyDefaults(schemas, nodes[0])] + ApplyDefaultsAll(schemas, nodes[1..])
  }

  /** The condition with its parameters as the schema puts them out, if there is one that parses them. */
  predicate IsFilledIn<P(==)>(schemas: Schemas<P>, before: Condition<P>, after: Condition<P>) {
    && after.ruleType == before.ruleType
    && match schemas(before)
       case Parsed(data) => after.parameters == data
       case NoSchema => after.parameters == before.parameters
       case Rejected(_) => after.parameters == before.parameters
  }

  /** The same tree, operators and all, with every condition filled in. */
  ghost predicate FilledIn<P(!new)>(schemas: Schemas<P>, before: Node<P>, after: Node<P>)
    decreases before
  {
    match (before, after)
    case (Leaf(c), Leaf(d)) => IsFilledIn(schemas, c, d)
    case (Group(o, cs), Group(p, ds)) =>
      o == p && |cs| == |ds| && forall i :: 0 <= i < |cs| ==> FilledIn(schemas, cs[i], ds[i])
    case (Not(c), Not(d)) => FilledIn(schemas, c, d)
    case _ => false
  }

  /** Filling in defaults keeps operators, negations and order, and changes parameters only. */
  lemma {:induction false} DefaultsFillIn<P(!new)>(schemas: Schemas<P>, node: Node<P>)
    ensures FilledIn(schemas, node, ApplyDefaults(schemas, node))
    decreases node
  {
    match node
    case Leaf(_) =>
    case Group(_, children) =>
      forall i | 0 <= i < |children|
        ensures FilledIn(schemas, children[i], ApplyDefaultsAll(schemas, children)[i])
      {
        DefaultsFillIn(schemas, children[i]);
      }
    case Not(child) => DefaultsFillIn(schemas, child);
  }

  /** What a schema puts out it takes back unchanged. */
  ghost predicate Stable<P(!new)>(schemas: Schemas<P>) {
    forall c: Condition<P> :: schemas(c).Parsed? ==>
                                schemas(c.(parameters := schemas(c).data)) == schemas(c)
  }

  /** Defaults change parameters only: every condition stays where it is and of the type it is. */
  lemma {:induction false} DefaultsKeepSpots<P>(schemas: Schemas<P>, node: Node<P>, path: Path)
    ensures |Spots(ApplyDefaults(schemas, node), path)| == |Spots(node, path)|
    ensures var before, after := Spots(node, path), Spots(ApplyDefaults(schemas, node), path);
            forall k :: 0 <= k < |before| ==>
                          after[k] == Spot(before[k].path, DefaultsOf(schemas, before[k].condition))
    decreases node, 1
  {
    match node
    case Leaf(_) =>
    case Group(_, children) => DefaultsKeepSpotsAll(schemas, children, path, 0);
    case Not(child) => DefaultsKeepSpots(schemas, child, path + [Inner]);
  }

  lemma {:induction false} DefaultsKeepSpotsAll<P>(schemas: Schemas<P>, nodes: seq<Node<P>>, path: Path, from: nat)
    ensures var before := SpotsOfChildren(nodes, path, from);
            var after := SpotsOfChildren(ApplyDefaultsAll(schemas, nodes), path, from);
            |after| == |before|
            && forall k :: 0 <= k < |before| ==>
                             after[k] == Spot(before[k].path, DefaultsOf(schemas, before[k].condition))
    decreases nodes, 0
  {
    if nodes != [] {
      DefaultsKeepSpots(schemas, nodes[0], path + [Child(from)]);
      DefaultsKeepSpotsAll(schemas, nodes[1..], path, from + 1);
      assert ApplyDefaultsAll(schemas, nodes)[1..] == ApplyDefaultsAll(schemas, nodes[1..]);
    }
  }

  /** Filling in defaults before or after the check makes no difference to its outcome. */
  lemma {:induction false} DefaultsKeepVerdict<P(!new)>(schemas: Schemas<P>, node: Node<P>, path: Path)
    requires Stable(schemas)
    ensures FirstFailure(schemas, ApplyDefaults(schemas, node), path) == FirstFailure(schemas, node, path)
    decreases node, 1
  {
    match node
    case Leaf(_) =>
    case Group(_, children) => DefaultsKeepVerdictAll(schemas, children, path, 0);
    case Not(child) => DefaultsKeepVerdict(schemas, child, path + [Inner]);
  }

  lemma {:induction false} DefaultsKeepVerdictAll<P(!new)>(
    schemas: Schemas<P>, nodes: seq<Node<P>>, path: Path, from: nat)
    requires Stable(schemas)
    ensures FirstInChildren(schemas, ApplyDefaultsAll(schemas, nodes), path, from)
         == FirstInChildren(schemas, nodes, path, from)
    decreases nodes, 0
  {
    if nodes != [] {
      DefaultsKeepVerdict(schemas, nodes[0], path + [Child(from)]);
      DefaultsKeepVerdictAll(schemas, nodes[1..], path, from + 1);
      assert ApplyDefaultsAll(schemas, nodes)[1..] == ApplyDefaultsAll(schemas, nodes[1..]);
    }
  }

  /** Filling in defaults keeps a storable expression storable. */
  lemma {:induction false} DefaultsKeepShape<P>(schemas: Schemas<P>, known: string -> bool, node: Node<P>)
    ensures Sound(known, ApplyDefaults(schemas, node)) == Sound(known, node)
    ensures Depth(ApplyDefaults(schemas, node)) == Depth(node)
    ensures Size(ApplyDefaults(schemas, node)) == Size(node)
    decreases node, 1
  {
    match node
    case Leaf(_) =>
    case Group(_, children) => DefaultsKeepShapeAll(schemas, known, children);
    case Not(child) => DefaultsKeepShape(schemas, known, child);
  }

  lemma {:induction false} DefaultsKeepShapeAll<P>(schemas: Schemas<P>, known: string -> bool, nodes: seq<Node<P>>)
    ensures SoundAll(known, ApplyDefaultsAll(schemas, nodes)) == SoundAll(known, nodes)
    ensures DepthAll(ApplyDefaultsAll(schemas, nodes)) == DepthAll(nodes)
    ensures SizeAll(ApplyDefaultsAll(schemas, nodes)) == SizeAll(nodes)
    decreases nodes, 0
  {
    if nodes != [] {
      DefaultsKeepShape(schemas, known, nodes[0]);
      DefaultsKeepShapeAll(schemas, known, nodes[1..]);
      assert ApplyDefaultsAll(schemas, nodes)[1..] == ApplyDefaultsAll(schemas, nodes[1..]);
    }
  }
}
