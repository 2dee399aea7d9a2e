/**
 * Deciding what cleanup does with an item (apps/api/src/lib/library-cleanup/rule-evaluators.ts,
 * lines 2710-2928): rule expressions are evaluated to true, false or unknown, together with the
 * conditions that justify the answer; retention rules protect unless disproved, and the first
 * proven cleanup rule wins. What is known of each single condition is an arbitrary function.
 */
module CleanupPolicy {
  import opened RuleTree
  import opened Options
  import opened Orders

  datatype Truth = True | False | Unknown

  /** What the available evidence says of a single condition about the item at hand. */
  type Evidence<!P> = Condition<P> -> Truth

  datatype Evaluation<+P> = Evaluation(state: Truth, because: seq<Condition<P>>)

  // ----- The three-valued evaluator -----

  function Evaluate<P(!new)>(evidence: Evidence<P>, node: Node<P>): Evaluation<P>
    decreases node, 1
  {
    match node
    case Leaf(condition) =>
      if evidence(condition).Unknown? then Evaluation(Unknown, [])
      else Evaluation(evidence(condition), [condition])
    case Not(child) =>
      var inner := Evaluate(evidence, child);
      (match inner.state
       case Unknown => inner
       case True => Evaluation(False, inner.because)
       case False => Evaluation(True, inner.because))
    case Group(operator, children) =>
      Combine(operator, EvaluateAll(evidence, children))
  }

  /** False settles a conjunction and true a disjunction; otherwise one unknown child leaves it open. */
  function Combine<P(!new)>(operator: Operator, inner: seq<Evaluation<P>>): Evaluation<P> {
    var decisive := if operator.And? then False else True;
    if FirstWith(inner, decisive).Some? then Evaluation(decisive, FirstWith(inner, decisive).value.because)
    else if FirstWith(inner, Unknown).Some? then Evaluation(Unknown, [])
    else Evaluation(if operator.And? then True else False, AllBecause(inner))
  }

  function EvaluateAll<P(!new)>(evidence: Evidence<P>, nodes: seq<Node<P>>): (r: seq<Evaluation<P>>)
    ensures |r| == |nodes|
    ensures forall i :: 0 <= i < |r| ==> r[i] == Evaluate(evidence, nodes[i])
    decreases nodes, 0
  {
    if nodes == [] then [] else [Evaluate(evidence, nodes[0])] + EvaluateAll(evidence, nodes[1..])
  }

  function FirstWith<P(!new)>(evaluations: seq<Evaluation<P>>, state: Truth): (r: Option<Evaluation<P>>)
    ensures r.Some? ==> r.value in evaluations && r.value.state == state
    ensures r.None? ==> forall e :: e in evaluations ==> e.state != state
  {
    if evaluations == [] then None
    else if evaluations[0].state == state then Some(evaluations[0])
    else FirstWith(evaluations[1..], state)
  }

  function AllBecause<P(!new)>(evaluations: seq<Evaluation<P>>): (r: seq<Condition<P>>)
    ensures forall c :: c in r <==> exists e :: e in evaluations && c in e.because
  {
    if evaluations == [] then []
    else
      assert evaluations == [evaluations[0]] + evaluations[1..];
      evaluations[0].because + AllBecause(evaluations[1..])
  }

  // ----- The answer is Kleene's -----

  /** False, unknown and true as 0, 1 and 2. */
  function Rank(t: Truth): int {
    match t
    case False => 0
    case Unknown => 1
    case True => 2
  }

  /** A conjunction is as true as its least true child, a disjunction as its truest; `Not` turns the scale round. */
  ghost function Kleene<P(!new)>(evidence: Evidence<P>, node: Node<P>): int
    decreases node, 1
  {
    match node
    case Leaf(condition) => Rank(evidence(condition))
    case Not(child) => 2 - Kleene(evidence, child)
    case Group(operator, children) =>
      if operator.And? then Least(evidence, children) else Greatest(evidence, children)
  }

  ghost function Least<P(!new)>(evidence: Evidence<P>, nodes: seq<Node<P>>): int
    decreases nodes, 0
  {
    if nodes == [] then 2
    else
      var first, rest := Kleene(evidence, nodes[0]), Least(evidence, nodes[1..]);
      if first <= rest then first else rest
  }

  ghost function Greatest<P(!new)>(evidence: Evidence<P>, nodes: seq<Node<P>>): int
    decreases nodes, 0
  {
    if nodes == [] then 0
    else
      var first, rest := Kleene(evidence, nodes[0]), Greatest(evidence, nodes[1..]);
      if first >= rest then first else rest
  }

  /** The evaluator computes Kleene's three-valued logic, short cuts and all. */
  lemma {:induction false} EvaluateIsKleene<P(!new)>(evidence: Evidence<P>, node: Node<P>)
    ensures Rank(Evaluate(evidence, node).state) == Kleene(evidence, node)
    decreases node, 1
  {
    match node
    case Leaf(_) =>
    case Not(child) => EvaluateIsKleene(evidence, child);
    case Group(operator, children) => CombineIsKleene(evidence, operator, children);
  }

  lemma {:induction false} CombineIsKleene<P(!new)>(evidence: Evidence<P>, operator: Operator, nodes: seq<Node<P>>)
    ensures Rank(Combine(operator, EvaluateAll(evidence, nodes)).state) ==
            if operator.And? then Least(evidence, nodes) else Greatest(evidence, nodes)
    decreases nodes, 0
  {
    if nodes != [] {
      EvaluateIsKleene(evidence, nodes[0]);
      CombineIsKleene(evidence, operator, nodes[1..]);
      assert EvaluateAll(evidence, nodes)[1..] == EvaluateAll(evidence, nodes[1..]);
    }
  }

  /** The evidence of all children, in order. */
  ghost function Gathered<P(!new)>(evidence: Evidence<P>, nodes: seq<Node<P>>): seq<Condition<P>> {
    if nodes == [] then [] else Evaluate(evidence, nodes[0]).because + Gathered(evidence, nodes[1..])
  }

  /** Child `k` is the first with this answer. */
  ghost predicate FirstChild<P(!new)>(evidence: Evidence<P>, nodes: seq<Node<P>>, answer: Truth, k: nat) {
    && k < |nodes| && Evaluate(evidence, nodes[k]).state == answer
    && forall j :: 0 <= j < k ==> Evaluate(evidence, nodes[j]).state != answer
  }

  /**
   * The conditions named for an answer: a condition that is known names itself, a negation what its
   * child names, a group decided by one child what the first such child names, and a group decided
   * by all of them what they all name.
   */
  lemma {:induction false} BecauseIs<P(!new)>(evidence: Evidence<P>, node: Node<P>) returns (k: nat)
    ensures node.Leaf? ==> Evaluate(evidence, node).because ==
                           if evidence(node.condition).Unknown? then [] else [node.condition]
    ensures node.Not? ==> Evaluate(evidence, node).because == Evaluate(evidence, node.child).because
    ensures node.Group? ==>
              var whole := Evaluate(evidence, node);
              var decisive := if node.operator.And? then False else True;
              && (whole.state.Unknown? ==> whole.because == [])
              && (whole.state == decisive ==>
                    FirstChild(evidence, node.children, decisive, k)
                    && whole.because == Evaluate(evidence, node.children[k]).because)
              && (!whole.state.Unknown? && whole.state != decisive ==>
                    whole.because == Gathered(evidence, node.children))
  {
    k := 0;
    if node.Group? {
      var inner := EvaluateAll(evidence, node.children);
      var decisive := if node.operator.And? then False else True;
      k := FirstIndex(inner, decisive);
      GatheredIs(evidence, node.children);
    }
  }

  lemma {:induction false} FirstIndex<P(!new)>(evaluations: seq<Evaluation<P>>, state: Truth) returns (k: nat)
    ensures FirstWith(evaluations, state).Some? ==>
              && k < |evaluations| && evaluations[k] == FirstWith(evaluations, state).value
              && forall j :: 0 <= j < k ==> evaluations[j].state != state
  {
    k := 0;
    if evaluations != [] && evaluations[0].state != state {
      var rest := FirstIndex(evaluations[1..], state);
      k := rest + 1;
      assert forall j :: 0 < j < |evaluations| ==> evaluations[j] == evaluations[1..][j - 1];
    }
  }

  lemma {:induction false} GatheredIs<P(!new)>(evidence: Evidence<P>, nodes: seq<Node<P>>)
    ensures AllBecause(EvaluateAll(evidence, nodes)) == Gathered(evidence, nodes)
  {
    if nodes != [] {
      GatheredIs(evidence, nodes[1..]);
      assert EvaluateAll(evidence, nodes)[1..] == EvaluateAll(evidence, nodes[1..]);
    }
  }

  // ----- Soundness -----

  /** Ordinary two-valued truth of a rule, once the truth of every condition is settled. */
  ghost predicate Holds<P(!new)>(truth: Condition<P> -> bool, node: Node<P>)
    decreases node
  {
    match node
    case Leaf(condition) => truth(condition)
    case Not(child) => !Holds(truth, child)
    case Group(operator, children) =>
      if operator.And? then forall i :: 0 <= i < |children| ==> Holds(truth, children[i])
      else exists i :: 0 <= i < |children| && Holds(truth, children[i])
  }

  /** The evidence contains nothing false. */
  ghost predicate Faithful<P(!new)>(evidence: Evidence<P>, truth: Condition<P> -> bool) {
    forall c :: (evidence(c).True? ==> truth(c)) && (evidence(c).False? ==> !truth(c))
  }

  /** A definite answer is right however the unknown conditions turn out. */
  lemma {:induction false} DefiniteAnswersAreRight<P(!new)>(
    evidence: Evidence<P>, truth: Condition<P> -> bool, node: Node<P>)
    requires Faithful(evidence, truth)
    ensures Evaluate(evidence, node).state.True? ==> Holds(truth, node)
    ensures Evaluate(evidence, node).state.False? ==> !Holds(truth, node)
    decreases node
  {
    match node
    case Leaf(_) =>
    case Not(child) => DefiniteAnswersAreRight(evidence, truth, child);
    case Group(operator, children) =>
      var inner := EvaluateAll(evidence, children);
      forall i | 0 <= i < |children|
        ensures inner[i].state.True? ==> Holds(truth, children[i])
        ensures inner[i].state.False? ==> !Holds(truth, children[i])
      {
        DefiniteAnswersAreRight(evidence, truth, children[i]);
      }
      var decisive := if operator.And? then False else True;
      var found := FirstWith(inner, decisive);
      if found.Some? {
        var i :| 0 <= i < |inner| && inner[i] == found.value;
      } else if FirstWith(inner, Unknown).None? {
        forall i | 0 <= i < |children| ensures inner[i].state == if operator.And? then True else False {
          assert inner[i] in inner;
        }
      }
  }

  // ----- The conditions named as evidence are enough -----

  /**
   * A definite answer rests on definite conditions, and any evidence that agrees on just
   * those gives the same answer.
   */
  lemma {:induction false} BecauseSuffices<P(!new)>(evidence: Evidence<P>, other: Evidence<P>, node: Node<P>)
    ensures forall c :: c in Evaluate(evidence, node).because ==> !evidence(c).Unknown?
    ensures Evaluate(evidence, node).state.Unknown? ==> Evaluate(evidence, node).because == []
    ensures !Evaluate(evidence, node).state.Unknown?
            && (forall c :: c in Evaluate(evidence, node).because ==> other(c) == evidence(c)) ==>
              Evaluate(other, node).state == Evaluate(evidence, node).state
    decreases node, 1
  {
    match node
    case Leaf(_) =>
    case Not(child) => BecauseSuffices(evidence, other, child);
    case Group(operator, children) =>
      var inner, inner' := EvaluateAll(evidence, children), EvaluateAll(other, children);
      forall i | 0 <= i < |children|
        ensures forall c :: c in inner[i].because ==> !evidence(c).Unknown?
        ensures !inner[i].state.Unknown? && (forall c :: c in inner[i].because ==> other(c) == evidence(c)) ==>
                  inner'[i].state == inner[i].state
      {
        BecauseSuffices(evidence, other, children[i]);
      }
      GroupBecauseSuffices(evidence, other, operator, inner, inner');
  }

  lemma GroupBecauseSuffices<P(!new)>(evidence: Evidence<P>, other: Evidence<P>, operator: Operator,
                                     inner: seq<Evaluation<P>>, inner': seq<Evaluation<P>>)
    requires |inner| == |inner'|
    requires forall i :: 0 <= i < |inner| ==> forall c :: c in inner[i].because ==> !evidence(c).Unknown?
    requires forall i :: 0 <= i < |inner| ==>
               (!inner[i].state.Unknown? && (forall c :: c in inner[i].because ==> other(c) == evidence(c)) ==>
                  inner'[i].state == inner[i].state)
    ensures var whole := Combine(operator, inner);
            && (forall c :: c in whole.because ==> !evidence(c).Unknown?)
            && (whole.state.Unknown? ==> whole.because == [])
            && (!whole.state.Unknown? && (forall c :: c in whole.because ==> other(c) == evidence(c)) ==>
                  Combine(operator, inner').state == whole.state)
  {
    var whole := Combine(operator, inner);
    var decisive := if operator.And? then False else True;
    var found := FirstWith(inner, decisive);
    if found.Some? {
      var i :| 0 <= i < |inner| && inner[i] == found.value;
      assert inner'[i] in inner';
    } else if FirstWith(inner, Unknown).None? {
      forall c | c in whole.because ensures !evidence(c).Unknown? {
        var e :| e in inner && c in e.because;
        var i :| 0 <= i < |inner| && inner[i] == e;
      }
      if forall c :: c in whole.because ==> other(c) == evidence(c) {
        forall i | 0 <= i < |inner| ensures inner'[i].state == inner[i].state && !inner[i].state.Unknown?
                                            && inner[i].state != decisive {
          assert inner[i] in inner;
        }
      }
    }
  }

  /** Evidence that knows at least as much. */
  ghost predicate Refines<P(!new)>(more: Evidence<P>, less: Evidence<P>) {
    forall c :: !less(c).Unknown? ==> more(c) == less(c)
  }

  /** More evidence never changes a definite answer. */
  lemma {:induction false} MoreEvidenceAgrees<P(!new)>(less: Evidence<P>, more: Evidence<P>, node: Node<P>)
    requires Refines(more, less) && !Evaluate(less, node).state.Unknown?
    ensures Evaluate(more, node).state == Evaluate(less, node).state
  {
    BecauseSuffices(less, more, node);
  }

  // ----- The policy -----

  /** A stored rule as the policy sees it for one item; `None` is a rule that cannot run. */
  datatype Rule<+P> = Rule(id: string, priority: int, retention: bool, passesFilters: bool, expression: Option<Node<P>>)

  function StateOf<P(!new)>(evidence: Evidence<P>, rule: Rule<P>): Evaluation<P> {
    if !rule.passesFilters then Evaluation(False, [])
    else
      match rule.expression
      case None => Evaluation(Unknown, [])
      case Some(root) => Evaluate(evidence, root)
  }

  datatype Decision<+P> =
    | Retained(ruleId: string, proven: bool)
    | Cleanup(ruleId: string, because: seq<Condition<P>>)
    | NoMatch

  /** A retention rule that is not disproved protects the item. */
  predicate Protects<P(!new)>(evidence: Evidence<P>, rule: Rule<P>) {
    rule.retention && !StateOf(evidence, rule).state.False?
  }

  /** Only a proven cleanup rule removes it. */
  predicate Removes<P(!new)>(evidence: Evidence<P>, rule: Rule<P>) {
    !rule.retention && StateOf(evidence, rule).state.True?
  }

  /** Lower priorities first, and then by id as the locale orders strings. */
  function Precedence<P>(collation: Order<string>): Order<Rule<P>> {
    (a: Rule<P>, b: Rule<P>) => a.priority < b.priority || (a.priority == b.priority && collation(a.id, b.id))
  }

  lemma PrecedenceOrders<P(!new)>(collation: Order<string>)
    requires TotalPreorder(collation)
    ensures TotalPreorder(Precedence<P>(collation))
  {
    var leq := Precedence<P>(collation);
    forall a: Rule<P>, b: Rule<P> ensures leq(a, b) || leq(b, a) {
      assert collation(a.id, b.id) || collation(b.id, a.id);
    }
    forall a: Rule<P>, b: Rule<P>, c: Rule<P> | leq(a, b) && leq(b, c) ensures leq(a, c) {
      assert collation(a.id, b.id) && collation(b.id, c.id) ==> collation(a.id, c.id);
    }
  }

  /** Whether the rule settles the retention phase, or the removal phase. */
  predicate Applies<P(!new)>(evidence: Evidence<P>, retention: bool, rule: Rule<P>) {
    if retention then Protects(evidence, rule) else Removes(evidence, rule)
  }

  /** Position `k` holds the first rule that settles the phase. */
  ghost predicate IsFirst<P(!new)>(evidence: Evidence<P>, retention: bool, rules: seq<Rule<P>>, k: nat) {
    && k < |rules| && Applies(evidence, retention, rules[k])
    && forall j :: 0 <= j < k ==> !Applies(evidence, retention, rules[j])
  }

  ghost predicate NoneApplies<P(!new)>(evidence: Evidence<P>, retention: bool, rules: seq<Rule<P>>) {
    forall k :: 0 <= k < |rules| ==> !Applies(evidence, retention, rules[k])
  }

  ghost predicate Decides<P(!new)>(evidence: Evidence<P>, ordered: seq<Rule<P>>, decision: Decision<P>) {
    match decision
    case Retained(id, proven) =>
      exists k: nat :: IsFirst(evidence, true, ordered, k)
                       && id == ordered[k].id && proven == StateOf(evidence, ordered[k]).state.True?
    case Cleanup(id, because) =>
      && NoneApplies(evidence, true, ordered)
      && exists k: nat :: IsFirst(evidence, false, ordered, k)
                          && id == ordered[k].id && because == StateOf(evidence, ordered[k]).because
    case NoMatch => NoneApplies(evidence, true, ordered) && NoneApplies(evidence, false, ordered)
  }

  /** Sorts the rules; then retention rules first, then cleanup rules; the first that applies decides. */
  method EvaluateItemPolicy<P(!new)>(evidence: Evidence<P>, rules: seq<Rule<P>>, collation: Order<string>)
    returns (decision: Decision<P>)
    ensures Decides(evidence, Sort(rules, Precedence(collation)), decision)
  {
    var ordered := Sort(rules, Precedence(collation));
    for i := 0 to |ordered|
      invariant forall j :: 0 <= j < i ==> !Applies(evidence, true, ordered[j])
    {
      var rule := ordered[i];
      if !rule.retention || !rule.passesFilters {
        continue;
      }
      var evaluation := StateOf(evidence, rule);
      if !evaluation.state.False? {
        assert IsFirst(evidence, true, ordered, i);
        return Retained(rule.id, evaluation.state.True?);
      }
    }
    for i := 0 to |ordered|
      invariant forall j :: 0 <= j < i ==> !Applies(evidence, false, ordered[j])
    {
      var rule := ordered[i];
      if rule.retention {
        continue;
      }
      var evaluation := StateOf(evidence, rule);
      if evaluation.state.True? {
        assert IsFirst(evidence, false, ordered, i);
        return Cleanup(rule.id, evaluation.because);
      }
    }
    return NoMatch;
  }

  lemma StateIsMonotone<P(!new)>(less: Evidence<P>, more: Evidence<P>, rule: Rule<P>)
    requires Refines(more, less) && !StateOf(less, rule).state.Unknown?
    ensures StateOf(more, rule).state == StateOf(less, rule).state
  {
    if rule.passesFilters && rule.expression.Some? {
      MoreEvidenceAgrees(less, more, rule.expression.value);
    }
  }

  lemma DisprovedStaysDisproved<P(!new)>(less: Evidence<P>, more: Evidence<P>, rules: seq<Rule<P>>)
    requires Refines(more, less) && NoneApplies(less, true, rules)
    ensures NoneApplies(more, true, rules)
  {
    forall k | 0 <= k < |rules| ensures !Applies(more, true, rules[k]) {
      assert !Applies(less, true, rules[k]);
      if rules[k].retention {
        StateIsMonotone(less, more, rules[k]);
      }
    }
  }

  /**
   * Missing evidence is safe: an item that is removed with some evidence missing is also
   * removed when all of it is there, by the same rule or one that comes before it.
   */
  lemma MissingEvidenceRemovesNoMore<P(!new)>(
    less: Evidence<P>, more: Evidence<P>, ordered: seq<Rule<P>>, withLess: Decision<P>, withMore: Decision<P>)
    requires Refines(more, less)
    requires Decides(less, ordered, withLess) && Decides(more, ordered, withMore)
    requires withLess.Cleanup?
    ensures withMore.Cleanup?
    ensures exists i, j :: 0 <= i <= j < |ordered|
                           && ordered[i].id == withMore.ruleId && ordered[j].id == withLess.ruleId
  {
    DisprovedStaysDisproved(less, more, ordered);
    var j: nat :| IsFirst(less, false, ordered, j) && withLess.ruleId == ordered[j].id;
    StateIsMonotone(less, more, ordered[j]);
    assert Applies(more, false, ordered[j]);
    var i: nat :| IsFirst(more, false, ordered, i) && withMore.ruleId == ordered[i].id;
    assert i <= j;
  }

  /** The rule applies, and no rule that applies comes before it. */
  ghost predicate Wins<P(!new)>(evidence: Evidence<P>, retention: bool, rules: seq<Rule<P>>, leq: Order<Rule<P>>,
                                winner: Rule<P>) {
    && winner in rules && Applies(evidence, retention, winner)
    && forall r :: r in rules && Applies(evidence, retention, r) ==> leq(winner, r)
  }

  lemma FirstWins<P(!new)>(evidence: Evidence<P>, retention: bool, rules: seq<Rule<P>>, leq: Order<Rule<P>>, k: nat)
    requires TotalPreorder(leq) && IsFirst(evidence, retention, Sort(rules, leq), k)
    ensures Wins(evidence, retention, rules, leq, Sort(rules, leq)[k])
  {
    hide TotalPreorder, Applies, Sort;
    var ordered := Sort(rules, leq);
    SortSorts(rules, leq);
    assert leq(ordered[k], ordered[k]) by { Reflexive(leq, ordered[k]); }
    assert ordered[k] in multiset(ordered);
    forall r | r in rules && Applies(evidence, retention, r) ensures leq(ordered[k], r) {
      assert r in multiset(rules);
      var j := SomewhereIn(r, ordered);
      assert j >= k;
    }
  }

  lemma Reflexive<T(!new)>(leq: Order<T>, x: T)
    requires TotalPreorder(leq)
    ensures leq(x, x)
  {
  }

  lemma NoneAnywhere<P(!new)>(evidence: Evidence<P>, retention: bool, rules: seq<Rule<P>>, leq: Order<Rule<P>>)
    requires NoneApplies(evidence, retention, Sort(rules, leq))
    ensures forall r :: r in rules ==> !Applies(evidence, retention, r)
  {
    hide Applies, Sort;
    forall r | r in rules ensures !Applies(evidence, retention, r) {
      assert r in multiset(rules);
      var j := SomewhereIn(r, Sort(rules, leq));
    }
  }

  /** A retention rule that is not disproved, or a cleanup rule that is proven, of those that speak of the item. */
  predicate Settles<P(!new)>(evidence: Evidence<P>, retention: bool, rule: Rule<P>) {
    && rule.retention == retention && rule.passesFilters
    && match rule.expression
       case None => retention
       case Some(root) => Evaluate(evidence, root).state in (if retention then {True, Unknown} else {True})
  }

  predicate ProvenTrue<P(!new)>(evidence: Evidence<P>, rule: Rule<P>) {
    rule.expression.Some? && Evaluate(evidence, rule.expression.value).state.True?
  }

  lemma AppliesIs<P(!new)>(evidence: Evidence<P>, retention: bool, rule: Rule<P>)
    ensures Applies(evidence, retention, rule) <==> Settles(evidence, retention, rule)
    ensures Settles(evidence, retention, rule) && rule.expression.Some? ==>
              StateOf(evidence, rule) == Evaluate(evidence, rule.expression.value)
    ensures Settles(evidence, retention, rule) && rule.expression.None? ==> StateOf(evidence, rule).state.Unknown?
  {
  }

  /** The rule settles the phase; of all that do it has the lowest priority, and then the first id. */
  ghost predicate Foremost<P(!new)>(evidence: Evidence<P>, retention: bool, rules: seq<Rule<P>>,
                                    collation: Order<string>, winner: Rule<P>)
  {
    && winner in rules && Settles(evidence, retention, winner)
    && forall r :: r in rules && Settles(evidence, retention, r) ==>
                     winner.priority < r.priority
                     || (winner.priority == r.priority && collation(winner.id, r.id))
  }

  lemma FirstIsForemost<P(!new)>(evidence: Evidence<P>, retention: bool, rules: seq<Rule<P>>,
                                 collation: Order<string>, k: nat)
    requires TotalPreorder(collation) && IsFirst(evidence, retention, Sort(rules, Precedence(collation)), k)
    ensures Foremost(evidence, retention, rules, collation, Sort(rules, Precedence(collation))[k])
  {
    hide TotalPreorder, Sort, Applies, Settles;
    PrecedenceOrders<P>(collation);
    FirstWins(evidence, retention, rules, Precedence(collation), k);
    forall r ensures Applies(evidence, retention, r) <==> Settles(evidence, retention, r) {
      AppliesIs(evidence, retention, r);
    }
  }

  lemma NoneSettles<P(!new)>(evidence: Evidence<P>, retention: bool, rules: seq<Rule<P>>, leq: Order<Rule<P>>)
    requires NoneApplies(evidence, retention, Sort(rules, leq))
    ensures forall r :: r in rules ==> !Settles(evidence, retention, r)
  {
    NoneAnywhere(evidence, retention, rules, leq);
    hide Applies, Settles, Sort, NoneApplies;
    forall r | r in rules ensures !Settles(evidence, retention, r) {
      AppliesIs(evidence, retention, r);
    }
  }

  /**
   * What a decision means for the rules as they were given: an item is retained by the protecting
   * rule of highest precedence; it is removed only when no rule protects it, by the removing rule
   * of highest precedence; and otherwise no rule says anything about it.
   */
  lemma DecisionMeans<P(!new)>(evidence: Evidence<P>, rules: seq<Rule<P>>, collation: Order<string>,
                               decision: Decision<P>)
    requires TotalPreorder(collation) && Decides(evidence, Sort(rules, Precedence(collation)), decision)
    ensures match decision
            case Retained(id, proven) =>
              exists w :: Foremost(evidence, true, rules, collation, w) && w.id == id
                          && proven == ProvenTrue(evidence, w)
            case Cleanup(id, because) =>
              && (forall r :: r in rules ==> !Settles(evidence, true, r))
              && exists w :: Foremost(evidence, false, rules, collation, w) && w.id == id
                             && w.expression.Some? && because == Evaluate(evidence, w.expression.value).because
            case NoMatch => forall r :: r in rules ==> !Settles(evidence, true, r) && !Settles(evidence, false, r)
  {
    hide TotalPreorder, Sort, Foremost, StateOf, Precedence, NoneApplies, Settles, Applies, Evaluate;
    var leq := Precedence<P>(collation);
    var ordered := Sort(rules, leq);
    match decision
    case Retained(id, proven) =>
      var k: nat :| IsFirst(evidence, true, ordered, k) && id == ordered[k].id
                    && proven == StateOf(evidence, ordered[k]).state.True?;
      FirstIsForemost(evidence, true, rules, collation, k);
      AppliesIs(evidence, true, ordered[k]);
    case Cleanup(id, because) =>
      NoneSettles(evidence, true, rules, leq);
      var k: nat :| IsFirst(evidence, false, ordered, k) && id == ordered[k].id
                    && because == StateOf(evidence, ordered[k]).because;
      FirstIsForemost(evidence, false, rules, collation, k);
      AppliesIs(evidence, false, ordered[k]);
      SettlesWithExpression(evidence, ordered[k]);
    case NoMatch =>
      NoneSettles(evidence, true, rules, leq);
      NoneSettles(evidence, false, rules, leq);
  }

  lemma SettlesWithExpression<P(!new)>(evidence: Evidence<P>, rule: Rule<P>)
    ensures Settles(evidence, false, rule) ==> rule.expression.Some?
  {
  }

  /** The rule speaks of the item, and its expression is true of it. */
  ghost predicate Matches<P(!new)>(truth: Condition<P> -> bool, rule: Rule<P>) {
    rule.passesFilters && rule.expression.Some? && Holds(truth, rule.expression.value)
  }

  /** A cleanup rule that settles truly matches; a retention rule that does not settle truly does not. */
  lemma SettlesTruly<P(!new)>(evidence: Evidence<P>, truth: Condition<P> -> bool, rule: Rule<P>)
    requires Faithful(evidence, truth)
    ensures Settles(evidence, false, rule) ==> Matches(truth, rule)
    ensures rule.retention && !Settles(evidence, true, rule) ==> !Matches(truth, rule)
    ensures Settles(evidence, true, rule) && ProvenTrue(evidence, rule) ==> Matches(truth, rule)
  {
    if rule.expression.Some? {
      DefiniteAnswersAreRight(evidence, truth, rule.expression.value);
    }
  }

  /**
   * Whatever is true of the item beyond the evidence: it is removed only by a cleanup rule that
   * matches it, when no retention rule that matches it and none that cannot be run stands against
   * it; and where retention is called proven, a retention rule matches it.
   */
  lemma PolicyIsSafe<P(!new)>(evidence: Evidence<P>, truth: Condition<P> -> bool, rules: seq<Rule<P>>,
                              collation: Order<string>, decision: Decision<P>)
    requires TotalPreorder(collation) && Faithful(evidence, truth)
    requires Decides(evidence, Sort(rules, Precedence(collation)), decision)
    ensures match decision
            case Cleanup(id, _) =>
              && (exists r :: r in rules && r.id == id && !r.retention && Matches(truth, r))
              && forall r :: r in rules && r.retention && r.passesFilters ==>
                               r.expression.Some? && !Matches(truth, r)
            case Retained(id, proven) =>
              exists r :: r in rules && r.id == id && r.retention && r.passesFilters && (proven ==> Matches(truth, r))
            case NoMatch => forall r :: r in rules && r.retention ==> !Matches(truth, r)
  {
    hide TotalPreorder, Faithful, Sort, Decides, Matches, Evaluate, Precedence;
    DecisionMeans(evidence, rules, collation, decision);
    forall r | r in rules
      ensures Settles(evidence, false, r) ==> Matches(truth, r)
      ensures r.retention && !Settles(evidence, true, r) ==> !Matches(truth, r)
      ensures Settles(evidence, true, r) && ProvenTrue(evidence, r) ==> Matches(truth, r)
    {
      SettlesTruly(evidence, truth, r);
    }
  }

  /** With evidence for every condition the evaluator gives the ordinary truth. */
  lemma {:induction false} FullEvidenceDecides<P(!new)>(evidence: Evidence<P>, truth: Condition<P> -> bool,
                                                       node: Node<P>)
    requires forall c :: evidence(c) == if truth(c) then True else False
    ensures Evaluate(evidence, node).state == if Holds(truth, node) then True else False
  {
    NeverUnknown(evidence, node);
    DefiniteAnswersAreRight(evidence, truth, node);
  }

  lemma {:induction false} NeverUnknown<P(!new)>(evidence: Evidence<P>, node: Node<P>)
    requires forall c :: !evidence(c).Unknown?
    ensures !Evaluate(evidence, node).state.Unknown?
    decreases node
  {
    match node
    case Leaf(_) =>
    case Not(child) => NeverUnknown(evidence, child);
    case Group(_, children) =>
      var inner := EvaluateAll(evidence, children);
      forall e | e in inner ensures !e.state.Unknown? {
        var i :| 0 <= i < |inner| && inner[i] == e;
        NeverUnknown(evidence, children[i]);
      }
  }

  lemma DecisionIsUnique<P(!new)>(evidence: Evidence<P>, ordered: seq<Rule<P>>, a: Decision<P>, b: Decision<P>)
    requires Decides(evidence, ordered, a) && Decides(evidence, ordered, b)
    ensures a == b
  {
  }

  /**
   * Precedence is deterministic: however the rules arrive, the decision is the same, as long as no
   * two of them have the same priority and ids that the locale does not tell apart.
   */
  lemma DecisionIsDeterministic<P(!new)>(
    evidence: Evidence<P>, rules: seq<Rule<P>>, others: seq<Rule<P>>, collation: Order<string>,
    a: Decision<P>, b: Decision<P>)
    requires TotalPreorder(collation) && multiset(rules) == multiset(others)
    requires TiesDecide(multiset(rules), Precedence(collation))
    requires Decides(evidence, Sort(rules, Precedence(collation)), a)
    requires Decides(evidence, Sort(others, Precedence(collation)), b)
    ensures a == b
  {
    hide TotalPreorder, TiesDecide, Decides, Sort;
    PrecedenceOrders<P>(collation);
    SortIgnoresOrder(rules, others, Precedence(collation));
    DecisionIsUnique(evidence, Sort(rules, Precedence(collation)), a, b);
  }
}
