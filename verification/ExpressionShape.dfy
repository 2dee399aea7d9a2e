/**
 * The iterative check that a JSON value is a cleanup rule expression
 * (packages/shared/src/types/library-cleanup.ts, lines 80-233). It reports the first fault it
 * meets with its path, and accepts exactly the values that decode to a tree within the budgets.
 */
module ExpressionShape {
  import opened Options
  import opened RuleTree

  /** A JSON value as the check sees it; the keys of an object are in their own order. */
  datatype Raw =
    | Null
    | Bool(truth: bool)
    | Number(value: real)
    | Text(text: string)
    | List(items: seq<Raw>)
    | Record(fields: seq<Property>)

  datatype Property = Property(key: string, value: Raw)

  datatype Key = Name(name: string) | Index(index: nat)

  datatype Fault =
    | NotAnEnvelope | UnsupportedVersion | UnexpectedField(field: string)
    | TooDeep | NotAnObject | TooManyNodes
    | BadRuleType | BadParameters | BadOperator | NoChildren | NoChild | BadType

  datatype ShapeFailure = ShapeFailure(path: seq<Key>, fault: Fault)

  const VERSION: real := 1.0

  function Lookup(fields: seq<Property>, key: string): (r: Option<Raw>)
    ensures r.Some? ==> exists p :: p in fields && p.value == r.value
  {
    if fields == [] then None
    else if fields[0].key == key then
      assert fields[0] in fields;
      Some(fields[0].value)
    else Lookup(fields[1..], key)
  }

  /** The first key that is not among the allowed ones. */
  function FirstOther(fields: seq<Property>, allowed: set<string>): Option<string> {
    if fields == [] then None
    else if fields[0].key !in allowed then Some(fields[0].key)
    else FirstOther(fields[1..], allowed)
  }

  /** The extra field the check objects to: the first one, unless its key is the empty string. */
  function Extra(fields: seq<Property>, allowed: set<string>): Option<string> {
    if FirstOther(fields, allowed) == Some("") then None else FirstOther(fields, allowed)
  }

  // ----- One node -----

  datatype Kind = Condition | Group | Negation

  function KindOf(fields: seq<Property>): Option<Kind> {
    match Lookup(fields, "type")
    case Some(Text(text)) =>
      if text == "condition" then Some(Kind.Condition)
      else if text == "group" then Some(Kind.Group)
      else if text == "not" then Some(Negation)
      else None
    case _ => None
  }

  function AllowedFields(kind: Kind): set<string> {
    match kind
    case Condition => {"type", "ruleType", "parameters"}
    case Group => {"type", "operator", "children"}
    case Negation => {"type", "child"}
  }

  function OperatorOf(fields: seq<Property>): Option<Operator> {
    match Lookup(fields, "operator")
    case Some(Text(text)) => if text == "AND" then Some(And) else if text == "OR" then Some(Or) else None
    case _ => None
  }

  function RuleTypeOf(known: string -> bool, fields: seq<Property>): Option<string> {
    match Lookup(fields, "ruleType")
    case Some(Text(text)) => if known(text) && text != COMPOSITE then Some(text) else None
    case _ => None
  }

  function ParametersOf(fields: seq<Property>): Option<Raw> {
    match Lookup(fields, "parameters")
    case Some(Record(inner)) => Some(Record(inner))
    case _ => None
  }

  /** The nodes directly below this one. */
  function ChildrenOf(fields: seq<Property>): (r: seq<Raw>)
    ensures forall child :: child in r ==> child < Record(fields)
  {
    match KindOf(fields)
    case Some(Group) =>
      (match Lookup(fields, "children")
       case Some(List(items)) =>
         assert List(items) < Record(fields);
         items
       case _ => [])
    case Some(Negation) =>
      (match Lookup(fields, "child")
       case Some(child) => [child]
       case None => [])
    case _ => []
  }

  /** What is wrong with a node by itself, and where below it. */
  function LocalFault(known: string -> bool, fields: seq<Property>): Option<ShapeFailure> {
    match KindOf(fields)
    case None => Some(ShapeFailure([Name("type")], BadType))
    case Some(kind) =>
      var other := Extra(fields, AllowedFields(kind));
      if other.Some? then Some(ShapeFailure([Name(other.value)], UnexpectedField(other.value)))
      else
        match kind
        case Condition =>
          if RuleTypeOf(known, fields).None? then Some(ShapeFailure([Name("ruleType")], BadRuleType))
          else if ParametersOf(fields).None? then Some(ShapeFailure([Name("parameters")], BadParameters))
          else None
        case Group =>
          if OperatorOf(fields).None? then Some(ShapeFailure([Name("operator")], BadOperator))
          else if ChildrenOf(fields) == [] then Some(ShapeFailure([Name("children")], NoChildren))
          else None
        case Negation =>
          if ChildrenOf(fields) == [] then Some(ShapeFailure([Name("child")], NoChild)) else None
  }

  function ChildPath(kind: Kind, path: seq<Key>, index: nat): seq<Key> {
    if kind.Negation? then path + [Name("child")] else path + [Name("children"), Index(index)]
  }

  // ----- The recursive scan -----

  /** Either the first fault, or how many nodes were counted in all. */
  datatype Scan = Fault(failure: ShapeFailure) | Counted(nodes: nat)

  /** The preorder scan of a node, with `count` nodes counted before it. */
  function ScanNode(known: string -> bool, node: Raw, path: seq<Key>, depth: nat, count: nat): Scan
    decreases node, 1, 0
  {
    if depth > MAX_DEPTH then Scan.Fault(ShapeFailure(path, TooDeep))
    else if !node.Record? then Scan.Fault(ShapeFailure(path, NotAnObject))
    else if count + 1 > MAX_NODES then Scan.Fault(ShapeFailure(path, TooManyNodes))
    else
      match LocalFault(known, node.fields)
      case Some(local) => Scan.Fault(ShapeFailure(path + local.path, local.fault))
      case None =>
        ScanChildren(known, node, KindOf(node.fields).value, 0, path, depth + 1, count + 1)
  }

  /** The scan of the children of `parent` from position `from` on. */
  function ScanChildren(known: string -> bool, parent: Raw, kind: Kind, from: nat, path: seq<Key>, depth: nat,
                        count: nat): Scan
    requires parent.Record? && from <= |ChildrenOf(parent.fields)|
    decreases parent, 0, |ChildrenOf(parent.fields)| - from
  {
    var children := ChildrenOf(parent.fields);
    if from == |children| then Counted(count)
    else
      match ScanNode(known, children[from], ChildPath(kind, path, from), depth, count)
      case Fault(failure) => Scan.Fault(failure)
      case Counted(nodes) => ScanChildren(known, parent, kind, from + 1, path, depth, nodes)
  }

  // ----- The iterative scan -----

  datatype Pending = Pending(node: Raw, path: seq<Key>, depth: nat)

  /** The scan of a stack of pending nodes, top first. */
  ghost function ScanStack(known: string -> bool, stack: seq<Pending>, count: nat): Scan
    decreases |stack|, 0
  {
    if stack == [] then Counted(count)
    else
      var top := stack[|stack| - 1];
      ScanThen(known, ScanNode(known, top.node, top.path, top.depth, count), stack[..|stack| - 1])
  }

  ghost function ScanThen(known: string -> bool, scan: Scan, rest: seq<Pending>): Scan
    decreases |rest|, 1
  {
    match scan
    case Fault(failure) => Scan.Fault(failure)
    case Counted(nodes) => ScanStack(known, rest, nodes)
  }

  /** How many turns a node takes at most: itself and everything below it. */
  ghost function Turns(node: Raw): (n: nat)
    ensures n >= 1
    decreases node, 1, 0
  {
    1 + if node.Record? then TurnsBelow(node, 0) else 0
  }

  ghost function TurnsBelow(parent: Raw, from: nat): nat
    requires parent.Record? && from <= |ChildrenOf(parent.fields)|
    decreases parent, 0, |ChildrenOf(parent.fields)| - from
  {
    var children := ChildrenOf(parent.fields);
    if from == |children| then 0 else Turns(children[from]) + TurnsBelow(parent, from + 1)
  }

  ghost function StackTurns(stack: seq<Pending>): nat {
    if stack == [] then 0 else Turns(stack[|stack| - 1].node) + StackTurns(stack[..|stack| - 1])
  }

  lemma PushPending(known: string -> bool, stack: seq<Pending>, frame: Pending, count: nat)
    ensures ScanStack(known, stack + [frame], count) ==
            ScanThen(known, ScanNode(known, frame.node, frame.path, frame.depth, count), stack)
    ensures StackTurns(stack + [frame]) == Turns(frame.node) + StackTurns(stack)
  {
    assert (stack + [frame])[..|stack|] == stack;
  }

  /** The stack scans the children from position `from` on, and then goes on with `base`. */
  ghost predicate ScansChildren(known: string -> bool, stack: seq<Pending>, base: seq<Pending>, parent: Raw, kind: Kind,
                                from: nat, path: seq<Key>, depth: nat)
    requires parent.Record? && from <= |ChildrenOf(parent.fields)|
  {
    forall count: nat ::
      ScanStack(known, stack, count) ==
      ScanThen(known, ScanChildren(known, parent, kind, from, path, depth, count), base)
  }

  lemma PushChild(known: string -> bool, stack: seq<Pending>, base: seq<Pending>, parent: Raw, kind: Kind, from: nat,
                  path: seq<Key>, depth: nat)
    requires parent.Record? && from < |ChildrenOf(parent.fields)|
    requires ScansChildren(known, stack, base, parent, kind, from + 1, path, depth)
    ensures var frame := Pending(ChildrenOf(parent.fields)[from], ChildPath(kind, path, from), depth);
            && ScansChildren(known, stack + [frame], base, parent, kind, from, path, depth)
            && StackTurns(stack + [frame]) == Turns(frame.node) + StackTurns(stack)
  {
    hide ScanNode, Turns, LocalFault, ChildrenOf;
    var frame := Pending(ChildrenOf(parent.fields)[from], ChildPath(kind, path, from), depth);
    forall count: nat
      ensures ScanStack(known, stack + [frame], count) ==
              ScanThen(known, ScanChildren(known, parent, kind, from, path, depth, count), base)
    {
      hide ScanStack;
      PushPending(known, stack, frame, count);
    }
    PushPending(known, stack, frame, 0);
  }

  /** Pushes the children of a node last to first, so that the first is popped first. */
  method PushChildren(ghost known: string -> bool, base: seq<Pending>, parent: Raw, kind: Kind, path: seq<Key>,
                      depth: nat)
    returns (stack: seq<Pending>)
    requires parent.Record?
    ensures ScansChildren(known, stack, base, parent, kind, 0, path, depth)
    ensures StackTurns(stack) == TurnsBelow(parent, 0) + StackTurns(base)
  {
    hide ScanNode, Turns, LocalFault, ChildrenOf, StackTurns;
    var children := ChildrenOf(parent.fields);
    stack := base;
    for i := |children| downto 0
      invariant ScansChildren(known, stack, base, parent, kind, i, path, depth)
      invariant StackTurns(stack) == TurnsBelow(parent, i) + StackTurns(base)
    {
      PushChild(known, stack, base, parent, kind, i, path, depth);
      stack := stack + [Pending(children[i], ChildPath(kind, path, i), depth)];
    }
  }

  /** The iterative check of a root reports exactly the fault the recursive scan meets first. */
  method CheckRoot(known: string -> bool, root: Raw, path: seq<Key>) returns (failure: Option<ShapeFailure>)
    ensures failure == match ScanNode(known, root, path, 1, 0)
                       case Fault(f) => Some(f)
                       case Counted(_) => None
  {
    hide ChildrenOf, LocalFault, KindOf;
    var stack := [Pending(root, path, 1)];
    var nodeCount := 0;
    PushPending(known, [], stack[0], 0);
    assert [] + [stack[0]] == stack;
    while stack != []
      invariant ScanStack(known, stack, nodeCount) == ScanNode(known, root, path, 1, 0)
      decreases StackTurns(stack)
    {
      var Pending(node, path, depth) := stack[|stack| - 1];
      stack := stack[..|stack| - 1];
      if depth > MAX_DEPTH {
        return Some(ShapeFailure(path, TooDeep));
      }
      if !node.Record? {
        return Some(ShapeFailure(path, NotAnObject));
      }
      nodeCount := nodeCount + 1;
      if nodeCount > MAX_NODES {
        return Some(ShapeFailure(path, TooManyNodes));
      }
      var local := LocalFault(known, node.fields);
      if local.Some? {
        return Some(ShapeFailure(path + local.value.path, local.value.fault));
      }
      NoFaultHasKind(known, node.fields);
      stack := PushChildren(known, stack, node, KindOf(node.fields).value, path, depth + 1);
    }
    return None;
  }

  lemma NoFaultHasKind(known: string -> bool, fields: seq<Property>)
    requires LocalFault(known, fields).None?
    ensures KindOf(fields).Some?
  {
  }

  /** The check of a whole value: the versioned envelope, then its root. */
  method ValidateShape(known: string -> bool, value: Raw) returns (failure: Option<ShapeFailure>)
    ensures failure == FirstFault(known, value)
    ensures failure.None? <==>
            && value.Record? && Lookup(value.fields, "version") == Some(Number(1.0))
            && PassesKeys(value.fields, {"version", "root"}) && Lookup(value.fields, "root").Some?
            && exists tree :: Stands(Lookup(value.fields, "root").value, tree) && WellShaped(known, tree)
    ensures failure.Some? ==> BlamesValue(known, value, failure.value)
  {
    AcceptedIff(known, value);
    if FirstFault(known, value).Some? {
      FaultOfValue(known, value);
    }
    hide Stands, WellShaped, PassesKeys, BlamesValue, Lookup;
    if !value.Record? {
      return Some(ShapeFailure([], NotAnEnvelope));
    }
    if Lookup(value.fields, "version") != Some(Number(VERSION)) {
      return Some(ShapeFailure([Name("version")], UnsupportedVersion));
    }
    var other := Extra(value.fields, {"version", "root"});
    if other.Some? {
      return Some(ShapeFailure([Name(other.value)], UnexpectedField(other.value)));
    }
    failure := CheckRoot(known, Lookup(value.fields, "root").Or(Null), [Name("root")]);
  }

  /** The first fault of a value; a missing root counts as something that is no object. */
  function FirstFault(known: string -> bool, value: Raw): Option<ShapeFailure> {
    if !value.Record? then Some(ShapeFailure([], NotAnEnvelope))
    else if Lookup(value.fields, "version") != Some(Number(VERSION)) then
      Some(ShapeFailure([Name("version")], UnsupportedVersion))
    else
      var other := Extra(value.fields, {"version", "root"});
      if other.Some? then Some(ShapeFailure([Name(other.value)], UnexpectedField(other.value)))
      else
        match ScanNode(known, Lookup(value.fields, "root").Or(Null), [Name("root")], 1, 0)
        case Fault(failure) => Some(failure)
        case Counted(_) => None
  }

  // ----- Extra fields -----

  /** The fields have no other keys. */
  predicate OnlyKeys(fields: seq<Property>, allowed: set<string>) {
    forall p :: p in fields ==> p.key in allowed
  }

  /** An empty key comes before all other extra ones, and keeps the check from seeing them. */
  ghost predicate HidesExtras(fields: seq<Property>, allowed: set<string>) {
    exists k :: 0 <= k < |fields| && fields[k].key == "" && forall j :: 0 <= j < k ==> fields[j].key in allowed
  }

  /** Nothing is objected to among the keys. */
  ghost predicate PassesKeys(fields: seq<Property>, allowed: set<string>) {
    OnlyKeys(fields, allowed) || HidesExtras(fields, allowed)
  }

  /** The key stands at the position, behind allowed ones only. */
  ghost predicate FirstAt(fields: seq<Property>, allowed: set<string>, key: string, k: nat) {
    k < |fields| && fields[k].key == key && key !in allowed && forall j :: 0 <= j < k ==> fields[j].key in allowed
  }

  lemma {:induction false} FirstOtherIs(fields: seq<Property>, allowed: set<string>) returns (k: nat)
    ensures match FirstOther(fields, allowed)
            case None => OnlyKeys(fields, allowed)
            case Some(key) => FirstAt(fields, allowed, key, k) && Lookup(fields, key).Some?
  {
    k := 0;
    if fields != [] {
      var first, rest := fields[0], fields[1..];
      assert fields == [first] + rest;
      if first.key in allowed {
        k := FirstOtherIs(rest, allowed);
        OneFieldMore(first, rest, allowed, k);
        k := k + 1;
      }
    }
  }

  lemma OneFieldMore(first: Property, rest: seq<Property>, allowed: set<string>, k: nat)
    requires first.key in allowed
    ensures FirstOther([first] + rest, allowed) == FirstOther(rest, allowed)
    ensures OnlyKeys(rest, allowed) ==> OnlyKeys([first] + rest, allowed)
    ensures forall key :: FirstAt(rest, allowed, key, k) ==> FirstAt([first] + rest, allowed, key, k + 1)
    ensures forall key :: Lookup(rest, key).Some? ==> Lookup([first] + rest, key).Some?
  {
    assert ([first] + rest)[1..] == rest;
  }

  /** Extra fields are refused exactly when no empty key comes first among them. */
  lemma ExtraIsSeenIff(fields: seq<Property>, allowed: set<string>)
    requires "" !in allowed
    ensures Extra(fields, allowed).None? <==> PassesKeys(fields, allowed)
    ensures Extra(fields, allowed).Some? ==>
              && Extra(fields, allowed).value !in allowed && Extra(fields, allowed).value != ""
              && Lookup(fields, Extra(fields, allowed).value).Some?
  {
    hide Lookup, FirstOther;
    var k := FirstOtherIs(fields, allowed);
  }

  lemma KeysAreNamed(kind: Kind)
    ensures "" !in AllowedFields(kind) && "" !in {"version", "root"}
  {
  }

  // ----- The reported fault is there -----

  /** What a path leads to. */
  function Reach(node: Raw, path: seq<Key>): Option<Raw>
    decreases |path|
  {
    if path == [] then Some(node)
    else
      match path[0]
      case Name(name) =>
        if node.Record? && Lookup(node.fields, name).Some? then Reach(Lookup(node.fields, name).value, path[1..])
        else None
      case Index(index) =>
        if node.List? && index < |node.items| then Reach(node.items[index], path[1..]) else None
  }

  /** The fault, as a statement about a node as a whole. */
  predicate IsFaultyNode(node: Raw, fault: Fault) {
    fault.TooDeep? || fault.TooManyNodes? || (fault.NotAnObject? && !node.Record?)
  }

  /** The fault, as a statement about the blamed field of a node. */
  predicate IsFaultyField(known: string -> bool, fields: seq<Property>, field: string, fault: Fault) {
    var kind := Lookup(fields, "type");
    var blamed := Lookup(fields, field);
    match fault
    case BadType =>
      field == "type" && blamed !in {Some(Text("condition")), Some(Text("group")), Some(Text("not"))}
    case UnexpectedField(name) =>
      && name == field && name !in {"", "type"} && blamed.Some?
      && (kind == Some(Text("condition")) ==> name !in {"ruleType", "parameters"})
      && (kind == Some(Text("group")) ==> name !in {"operator", "children"})
      && (kind == Some(Text("not")) ==> name != "child")
    case BadRuleType =>
      kind == Some(Text("condition")) && field == "ruleType"
      && !(blamed.Some? && blamed.value.Text? && known(blamed.value.text) && blamed.value.text != "composite")
    case BadParameters =>
      kind == Some(Text("condition")) && field == "parameters" && !(blamed.Some? && blamed.value.Record?)
    case BadOperator =>
      kind == Some(Text("group")) && field == "operator" && blamed !in {Some(Text("AND")), Some(Text("OR"))}
    case NoChildren =>
      kind == Some(Text("group")) && field == "children"
      && !(blamed.Some? && blamed.value.List? && blamed.value.items != [])
    case NoChild => kind == Some(Text("not")) && field == "child" && blamed.None?
    case _ => false
  }

  /** The fault is that of a node below, where the path leads, or of one of that node's fields. */
  ghost predicate Blames(known: string -> bool, node: Raw, path: seq<Key>, failure: ShapeFailure, below: seq<Key>,
                         field: Option<string>)
  {
    var at := Reach(node, below);
    && at.Some?
    && match field
       case None => failure.path == path + below && IsFaultyNode(at.value, failure.fault)
       case Some(name) =>
         && failure.path == path + below + [Name(name)]
         && at.value.Record? && IsFaultyField(known, at.value.fields, name, failure.fault)
  }

  /** The local fault is of the one field that its path names. */
  ghost predicate LocalIsThere(known: string -> bool, fields: seq<Property>, local: ShapeFailure) {
    |local.path| == 1 && local.path[0].Name? && IsFaultyField(known, fields, local.path[0].name, local.fault)
  }

  lemma UntypedIsThere(known: string -> bool, fields: seq<Property>)
    requires KindOf(fields).None?
    ensures LocalFault(known, fields).Some? && LocalIsThere(known, fields, LocalFault(known, fields).value)
  {
    FieldNames();
    hide Lookup;
  }

  lemma ExtraIsThere(known: string -> bool, fields: seq<Property>, kind: Kind)
    requires KindOf(fields) == Some(kind) && Extra(fields, AllowedFields(kind)).Some?
    ensures LocalFault(known, fields).Some? && LocalIsThere(known, fields, LocalFault(known, fields).value)
  {
    FieldNames();
    KeysAreNamed(kind);
    ExtraIsSeenIff(fields, AllowedFields(kind));
    hide Lookup, Extra;
  }

  lemma PartIsThere(known: string -> bool, fields: seq<Property>, kind: Kind)
    requires KindOf(fields) == Some(kind) && Extra(fields, AllowedFields(kind)).None? && LocalFault(known, fields).Some?
    ensures LocalIsThere(known, fields, LocalFault(known, fields).value)
  {
    FieldNames();
    hide Lookup, Extra;
  }

  lemma LocalFaultIsThere(known: string -> bool, fields: seq<Property>)
    requires LocalFault(known, fields).Some?
    ensures LocalIsThere(known, fields, LocalFault(known, fields).value)
  {
    hide LocalFault, LocalIsThere, KindOf, Extra;
    match KindOf(fields)
    case None => UntypedIsThere(known, fields);
    case Some(kind) =>
      if Extra(fields, AllowedFields(kind)).Some? {
        ExtraIsThere(known, fields, kind);
      } else {
        PartIsThere(known, fields, kind);
      }
  }

  /** The steps from a node to its child. */
  function Down(kind: Kind, index: nat): seq<Key> {
    ChildPath(kind, [], index)
  }

  lemma ReachChild(fields: seq<Property>, index: nat, below: seq<Key>)
    requires KindOf(fields).Some? && index < |ChildrenOf(fields)|
    ensures Reach(Record(fields), Down(KindOf(fields).value, index) + below) == Reach(ChildrenOf(fields)[index], below)
  {
    hide Lookup;
    var steps := Down(KindOf(fields).value, index);
    if KindOf(fields).value.Negation? {
      assert (steps + below)[1..] == below;
    } else {
      assert (steps + below)[1..] == [Index(index)] + below && ([Index(index)] + below)[1..] == below;
    }
  }

  /** The reported path leads from the root to a node that has the reported fault. */
  lemma {:induction false} FaultIsThere(known: string -> bool, node: Raw, path: seq<Key>, depth: nat, count: nat)
    returns (below: seq<Key>, field: Option<string>)
    requires ScanNode(known, node, path, depth, count).Fault?
    ensures Blames(known, node, path, ScanNode(known, node, path, depth, count).failure, below, field)
    decreases node, 1, 0
  {
    hide LocalFault, IsFaultyField, ChildrenOf, KindOf;
    below, field := [], None;
    if depth > MAX_DEPTH || !node.Record? || count + 1 > MAX_NODES {
    } else if LocalFault(known, node.fields).Some? {
      var local := LocalFault(known, node.fields).value;
      LocalFaultIsThere(known, node.fields);
      field := Some(local.path[0].name);
      assert path + [] + [Name(field.value)] == path + local.path;
    } else {
      NoFaultHasKind(known, node.fields);
      below, field := FaultIsBelow(known, node, KindOf(node.fields).value, 0, path, depth + 1, count + 1);
    }
  }

  lemma {:induction false} FaultIsBelow(known: string -> bool, parent: Raw, kind: Kind, from: nat, path: seq<Key>,
                                        depth: nat, count: nat)
    returns (below: seq<Key>, field: Option<string>)
    requires parent.Record? && from <= |ChildrenOf(parent.fields)| && KindOf(parent.fields) == Some(kind)
    requires ScanChildren(known, parent, kind, from, path, depth, count).Fault?
    ensures Blames(known, parent, path, ScanChildren(known, parent, kind, from, path, depth, count).failure, below,
                   field)
    decreases parent, 0, |ChildrenOf(parent.fields)| - from
  {
    hide ChildrenOf, KindOf, IsFaultyNode, IsFaultyField, ScanNode, Reach;
    var child := ChildrenOf(parent.fields)[from];
    assert child in ChildrenOf(parent.fields);
    var scan := ScanNode(known, child, ChildPath(kind, path, from), depth, count);
    if scan.Fault? {
      below, field := FaultIsThere(known, child, ChildPath(kind, path, from), depth, count);
      ReachChild(parent.fields, from, below);
      assert ChildPath(kind, path, from) + below == path + (Down(kind, from) + below);
      below := Down(kind, from) + below;
    } else {
      below, field := FaultIsBelow(known, parent, kind, from + 1, path, depth, scan.nodes);
    }
  }

  /** The fault is one of the envelope, or it is found below the root. */
  ghost predicate BlamesValue(known: string -> bool, value: Raw, failure: ShapeFailure) {
    if !value.Record? then failure == ShapeFailure([], NotAnEnvelope)
    else if Lookup(value.fields, "version") != Some(Number(1.0)) then
      failure == ShapeFailure([Name("version")], UnsupportedVersion)
    else if !PassesKeys(value.fields, {"version", "root"}) then
      exists name :: failure == ShapeFailure([Name(name)], UnexpectedField(name))
                     && name !in {"", "version", "root"} && Lookup(value.fields, name).Some?
    else
      exists below, field :: Blames(known, Lookup(value.fields, "root").Or(Null), [Name("root")], failure, below, field)
  }

  lemma FaultOfValue(known: string -> bool, value: Raw)
    requires FirstFault(known, value).Some?
    ensures BlamesValue(known, value, FirstFault(known, value).value)
  {
    if value.Record? {
      KeysAreNamed(Negation);
      ExtraIsSeenIff(value.fields, {"version", "root"});
      hide Lookup, Extra, PassesKeys, ScanNode, Blames;
      if Lookup(value.fields, "version") == Some(Number(VERSION)) && Extra(value.fields, {"version", "root"}).None? {
        var below, field := FaultIsThere(known, Lookup(value.fields, "root").Or(Null), [Name("root")], 1, 0);
      }
    }
  }

  // ----- What is accepted -----

  /** The tree a node stands for. */
  function Decode(known: string -> bool, node: Raw): Option<Node<Raw>>
    decreases node, 1, 0
  {
    if !node.Record? || LocalFault(known, node.fields).Some? then None
    else
      match KindOf(node.fields).value
      case Condition =>
        Some(Leaf(RuleTree.Condition(RuleTypeOf(known, node.fields).value, ParametersOf(node.fields).value)))
      case Group =>
        (match DecodeChildren(known, node, 0)
         case Some(children) => Some(Node.Group(OperatorOf(node.fields).value, children))
         case None => None)
      case Negation =>
        match Decode(known, ChildrenOf(node.fields)[0])
        case Some(child) => Some(Not(child))
        case None => None
  }

  function DecodeChildren(known: string -> bool, parent: Raw, from: nat): (r: Option<seq<Node<Raw>>>)
    requires parent.Record? && from <= |ChildrenOf(parent.fields)|
    ensures r.Some? ==> |r.value| == |ChildrenOf(parent.fields)| - from
    decreases parent, 0, |ChildrenOf(parent.fields)| - from
  {
    var children := ChildrenOf(parent.fields);
    if from == |children| then Some([])
    else
      var first := Decode(known, children[from]);
      var rest := DecodeChildren(known, parent, from + 1);
      if first.Some? && rest.Some? then Some([first.value] + rest.value) else None
  }

  function DecodeEnvelope(known: string -> bool, value: Raw): Option<Node<Raw>> {
    if value.Record? && Lookup(value.fields, "version") == Some(Number(VERSION))
       && Extra(value.fields, {"version", "root"}).None? && Lookup(value.fields, "root").Some?
    then Decode(known, Lookup(value.fields, "root").value) else None
  }

  /** The value is the tree, written out; a tree says nothing of the order of an object's fields. */
  ghost predicate Stands(value: Raw, tree: Node<Raw>)
    decreases tree
  {
    && value.Record?
    && match tree
       case Leaf(condition) =>
         && PassesKeys(value.fields, {"type", "ruleType", "parameters"})
         && Lookup(value.fields, "type") == Some(Text("condition"))
         && Lookup(value.fields, "ruleType") == Some(Text(condition.ruleType))
         && Lookup(value.fields, "parameters") == Some(condition.parameters) && condition.parameters.Record?
       case Group(operator, children) =>
         && PassesKeys(value.fields, {"type", "operator", "children"})
         && Lookup(value.fields, "type") == Some(Text("group"))
         && Lookup(value.fields, "operator") == Some(Text(if operator.And? then "AND" else "OR"))
         && StandsAll(Lookup(value.fields, "children"), children)
       case Not(child) =>
         && PassesKeys(value.fields, {"type", "child"})
         && Lookup(value.fields, "type") == Some(Text("not"))
         && Lookup(value.fields, "child").Some? && Stands(Lookup(value.fields, "child").value, child)
  }

  ghost predicate StandsAll(list: Option<Raw>, trees: seq<Node<Raw>>)
    decreases trees
  {
    && list.Some? && list.value.List? && |list.value.items| == |trees|
    && forall i :: 0 <= i < |trees| ==> Stands(list.value.items[i], trees[i])
  }

  lemma LeafDecodesIff(known: string -> bool, value: Raw, condition: RuleTree.Condition<Raw>)
    ensures var tree := Leaf(condition);
            Decode(known, value) == Some(tree) <==> Stands(value, tree) && Sound(known, tree)
  {
    FieldNames();
    if value.Record? {
      KeysAreNamed(Kind.Condition);
      ExtraIsSeenIff(value.fields, AllowedFields(Kind.Condition));
      hide Lookup, Extra, PassesKeys, ChildrenOf, DecodeChildren;
    }
  }

  /** The three types and the kinds they name. */
  lemma TypesName(fields: seq<Property>)
    ensures KindOf(fields) == Some(Kind.Condition) <==> Lookup(fields, "type") == Some(Text("condition"))
    ensures KindOf(fields) == Some(Kind.Group) <==> Lookup(fields, "type") == Some(Text("group"))
    ensures KindOf(fields) == Some(Negation) <==> Lookup(fields, "type") == Some(Text("not"))
  {
    FieldNames();
    hide Lookup;
  }

  lemma NotDecodesIff(known: string -> bool, value: Raw, child: Node<Raw>)
    requires value.Record?
    ensures Decode(known, value) == Some(Not(child)) <==>
            && PassesKeys(value.fields, {"type", "child"}) && Lookup(value.fields, "type") == Some(Text("not"))
            && Lookup(value.fields, "child").Some? && Decode(known, Lookup(value.fields, "child").value) == Some(child)
  {
    TypesName(value.fields);
    KeysAreNamed(Negation);
    ExtraIsSeenIff(value.fields, AllowedFields(Negation));
    hide Lookup, Extra, PassesKeys, DecodeChildren, KindOf;
  }

  lemma GroupDecodesIff(known: string -> bool, value: Raw, operator: Operator, children: seq<Node<Raw>>)
    requires value.Record?
    ensures Decode(known, value) == Some(Node.Group(operator, children)) <==>
            && PassesKeys(value.fields, {"type", "operator", "children"})
            && Lookup(value.fields, "type") == Some(Text("group"))
            && Lookup(value.fields, "operator") == Some(Text(if operator.And? then "AND" else "OR"))
            && ChildrenOf(value.fields) != [] && DecodeChildren(known, value, 0) == Some(children)
  {
    FieldNames();
    TypesName(value.fields);
    KeysAreNamed(Kind.Group);
    ExtraIsSeenIff(value.fields, AllowedFields(Kind.Group));
    hide Lookup, Extra, PassesKeys, DecodeChildren, ChildrenOf, KindOf;
  }

  lemma ChildrenOfGroup(fields: seq<Property>)
    requires Lookup(fields, "type") == Some(Text("group"))
    ensures match Lookup(fields, "children")
            case Some(List(items)) => ChildrenOf(fields) == items
            case _ => ChildrenOf(fields) == []
  {
    FieldNames();
  }

  /** A value decodes to a tree exactly when it is that tree written out, and the tree is sound. */
  lemma {:induction false} DecodesIff(known: string -> bool, value: Raw, tree: Node<Raw>)
    ensures Decode(known, value) == Some(tree) <==> Stands(value, tree) && Sound(known, tree)
    decreases tree
  {
    hide Decode, ChildrenOf, Lookup, PassesKeys;
    match tree
    case Leaf(condition) => LeafDecodesIff(known, value, condition);
    case Group(operator, children) =>
      if value.Record? {
        GroupDecodesIff(known, value, operator, children);
        if Lookup(value.fields, "type") == Some(Text("group")) {
          ChildrenOfGroup(value.fields);
          ChildrenDecodeIff(known, value, children, 0);
          SoundEach(known, children);
          var items := ChildrenOf(value.fields);
          forall i | 0 <= i < |children| && i < |items|
            ensures Decode(known, items[i]) == Some(children[i]) <==>
                    Stands(items[i], children[i]) && Sound(known, children[i])
          {
            DecodesIff(known, items[i], children[i]);
          }
        }
      } else {
        RecordsDecode(known, value);
      }
    case Not(child) =>
      if value.Record? {
        NotDecodesIff(known, value, child);
        if Lookup(value.fields, "child").Some? {
          DecodesIff(known, Lookup(value.fields, "child").value, child);
        }
      } else {
        RecordsDecode(known, value);
      }
  }

  lemma RecordsDecode(known: string -> bool, value: Raw)
    ensures Decode(known, value).Some? ==> value.Record?
  {
  }

  lemma {:induction false} SoundEach(known: string -> bool, nodes: seq<Node<Raw>>)
    ensures SoundAll(known, nodes) <==> forall i :: 0 <= i < |nodes| ==> Sound(known, nodes[i])
  {
    if nodes != [] {
      SoundEach(known, nodes[1..]);
      assert forall i :: 0 < i < |nodes| ==> nodes[i] == nodes[1..][i - 1];
    }
  }

  lemma {:induction false} ChildrenDecodeIff(known: string -> bool, parent: Raw, trees: seq<Node<Raw>>, from: nat)
    requires parent.Record? && from <= |ChildrenOf(parent.fields)|
    ensures DecodeChildren(known, parent, from) == Some(trees) <==>
            && |trees| == |ChildrenOf(parent.fields)| - from
            && forall i :: 0 <= i < |trees| ==> Decode(known, ChildrenOf(parent.fields)[from + i]) == Some(trees[i])
    decreases |trees|
  {
    hide Decode, ChildrenOf;
    if from < |ChildrenOf(parent.fields)| && trees != [] {
      ChildrenDecodeIff(known, parent, trees[1..], from + 1);
      assert trees == [trees[0]] + trees[1..];
      assert forall i :: 0 < i < |trees| ==> trees[i] == trees[1..][i - 1];
    }
  }

  lemma {:induction false} DecodedIsSound(known: string -> bool, node: Raw)
    requires Decode(known, node).Some?
    ensures Sound(known, Decode(known, node).value)
    decreases node, 1, 0
  {
    match KindOf(node.fields).value
    case Condition =>
    case Group => DecodedChildrenAreSound(known, node, 0);
    case Negation => DecodedIsSound(known, ChildrenOf(node.fields)[0]);
  }

  lemma {:induction false} DecodedChildrenAreSound(known: string -> bool, parent: Raw, from: nat)
    requires parent.Record? && from <= |ChildrenOf(parent.fields)| && DecodeChildren(known, parent, from).Some?
    ensures SoundAll(known, DecodeChildren(known, parent, from).value)
    decreases parent, 0, |ChildrenOf(parent.fields)| - from
  {
    hide ChildrenOf, Decode;
    if from < |ChildrenOf(parent.fields)| {
      assert ChildrenOf(parent.fields)[from] in ChildrenOf(parent.fields);
      DecodedIsSound(known, ChildrenOf(parent.fields)[from]);
      DecodedChildrenAreSound(known, parent, from + 1);
      var r := DecodeChildren(known, parent, from).value;
      assert r[1..] == DecodeChildren(known, parent, from + 1).value;
    }
  }

  /** The node counts to the end: it decodes, to a tree that still fits both budgets. */
  ghost predicate Fits(tree: Option<Node<Raw>>, depth: nat, count: nat, scan: Scan) {
    && (scan.Counted? <==> tree.Some? && depth + Depth(tree.value) - 1 <= MAX_DEPTH
                           && count + Size(tree.value) <= MAX_NODES)
    && (scan.Counted? ==> scan.nodes == count + Size(tree.value))
  }

  ghost predicate FitsAll(trees: Option<seq<Node<Raw>>>, depth: nat, count: nat, scan: Scan) {
    && (scan.Counted? <==> trees.Some? && (trees.value != [] ==> depth + DepthAll(trees.value) - 1 <= MAX_DEPTH)
                           && count + SizeAll(trees.value) <= MAX_NODES)
    && (scan.Counted? ==> scan.nodes == count + SizeAll(trees.value))
  }

  lemma {:induction false} ScanAcceptsExactly(known: string -> bool, node: Raw, path: seq<Key>, depth: nat, count: nat)
    requires count <= MAX_NODES
    ensures Fits(Decode(known, node), depth, count, ScanNode(known, node, path, depth, count))
    decreases node, 1, 0
  {
    hide ChildrenOf, LocalFault, KindOf, ParametersOf, OperatorOf, RuleTypeOf;
    if depth <= MAX_DEPTH && node.Record? && count + 1 <= MAX_NODES && LocalFault(known, node.fields).None? {
      NoFaultHasKind(known, node.fields);
      var kind := KindOf(node.fields).value;
      ChildCounts(known, node.fields);
      ChildrenAcceptExactly(known, node, kind, 0, path, depth + 1, count + 1);
      if kind.Negation? {
        OneChildDecodes(known, node);
        var child := Decode(known, ChildrenOf(node.fields)[0]);
        if child.Some? {
          FirstAndRest(child.value, []);
          assert [child.value] + [] == [child.value];
        }
      }
    }
  }

  lemma ChildCounts(known: string -> bool, fields: seq<Property>)
    requires LocalFault(known, fields).None?
    ensures KindOf(fields).Some?
    ensures match KindOf(fields).value
            case Condition => ChildrenOf(fields) == []
            case Group => ChildrenOf(fields) != []
            case Negation => |ChildrenOf(fields)| == 1
  {
  }

  lemma OneChildDecodes(known: string -> bool, parent: Raw)
    requires parent.Record? && |ChildrenOf(parent.fields)| == 1
    ensures var child := Decode(known, ChildrenOf(parent.fields)[0]);
            DecodeChildren(known, parent, 0) == if child.Some? then Some([child.value]) else None
  {
    hide Decode, ChildrenOf;
    assert DecodeChildren(known, parent, 1) == Some([]);
    var child := Decode(known, ChildrenOf(parent.fields)[0]);
    if child.Some? {
      assert [child.value] + [] == [child.value];
    }
  }

  lemma {:induction false} ChildrenAcceptExactly(known: string -> bool, parent: Raw, kind: Kind, from: nat,
                                                 path: seq<Key>, depth: nat, count: nat)
    requires parent.Record? && from <= |ChildrenOf(parent.fields)| && count <= MAX_NODES
    ensures FitsAll(DecodeChildren(known, parent, from), depth, count,
                    ScanChildren(known, parent, kind, from, path, depth, count))
    decreases parent, 0, |ChildrenOf(parent.fields)| - from
  {
    hide ChildrenOf, Decode, ScanNode;
    if from < |ChildrenOf(parent.fields)| {
      var child := ChildrenOf(parent.fields)[from];
      assert child in ChildrenOf(parent.fields);
      var scan := ScanNode(known, child, ChildPath(kind, path, from), depth, count);
      ScanAcceptsExactly(known, child, ChildPath(kind, path, from), depth, count);
      if scan.Counted? {
        ChildrenAcceptExactly(known, parent, kind, from + 1, path, depth, scan.nodes);
      }
      var first, rest := Decode(known, child), DecodeChildren(known, parent, from + 1);
      if first.Some? && rest.Some? {
        FirstAndRest(first.value, rest.value);
      }
    }
  }

  lemma FirstAndRest(first: Node<Raw>, rest: seq<Node<Raw>>)
    ensures SizeAll([first] + rest) == Size(first) + SizeAll(rest)
    ensures DepthAll([first] + rest) == Max(Depth(first), DepthAll(rest))
  {
    assert ([first] + rest)[1..] == rest;
  }

  /** A value has no fault exactly when its root decodes to a storable expression. */
  lemma AcceptsExactly(known: string -> bool, value: Raw)
    ensures FirstFault(known, value).None? <==>
            DecodeEnvelope(known, value).Some? && WellShaped(known, DecodeEnvelope(known, value).value)
  {
    hide Decode, ScanNode;
    if value.Record? {
      var root := Lookup(value.fields, "root").Or(Null);
      ScanAcceptsExactly(known, root, [Name("root")], 1, 0);
      if Decode(known, root).Some? {
        DecodedIsSound(known, root);
      }
      NullDoesNotDecode(known);
    }
  }

  /** What the check of a whole value accepts, in terms of its fields: a storable tree in its envelope. */
  lemma AcceptedIff(known: string -> bool, value: Raw)
    ensures FirstFault(known, value).None? <==>
            && value.Record? && Lookup(value.fields, "version") == Some(Number(1.0))
            && PassesKeys(value.fields, {"version", "root"}) && Lookup(value.fields, "root").Some?
            && exists tree :: Stands(Lookup(value.fields, "root").value, tree) && WellShaped(known, tree)
  {
    AcceptsExactly(known, value);
    if value.Record? {
      KeysAreNamed(Negation);
      ExtraIsSeenIff(value.fields, {"version", "root"});
      if Lookup(value.fields, "root").Some? {
        var root := Lookup(value.fields, "root").value;
        forall tree ensures Decode(known, root) == Some(tree) <==> Stands(root, tree) && Sound(known, tree) {
          DecodesIff(known, root, tree);
        }
        hide Decode, Stands, Lookup, Extra, PassesKeys, FirstFault, Sound;
        assert Decode(known, root).Some? ==> Stands(root, Decode(known, root).value);
      }
    }
  }

  lemma {:induction false} LookupPast(fields: seq<Property>, more: seq<Property>, key: string)
    requires Lookup(fields, key).Some?
    ensures Lookup(fields + more, key) == Lookup(fields, key)
  {
    assert fields + more == [fields[0]] + (fields[1..] + more);
    if fields[0].key != key {
      LookupPast(fields[1..], more, key);
    }
  }

  lemma KeysPast(fields: seq<Property>, more: seq<Property>, allowed: set<string>)
    requires PassesKeys(fields, allowed) && more != [] && more[0].key == ""
    ensures PassesKeys(fields + more, allowed)
  {
    var all := fields + more;
    if OnlyKeys(fields, allowed) {
      assert all[|fields|].key == "" && forall j :: 0 <= j < |fields| ==> all[j] in fields;
    } else {
      var k :| 0 <= k < |fields| && fields[k].key == "" && forall j :: 0 <= j < k ==> fields[j].key in allowed;
      assert all[k].key == "" && forall j :: 0 <= j < k ==> all[j] == fields[j];
    }
  }

  /** Behind an empty key any other fields pass: the node decodes to the tree it would be without them. */
  lemma EmptyKeyHidesExtras(known: string -> bool, fields: seq<Property>, more: seq<Property>, tree: Node<Raw>)
    requires Decode(known, Record(fields)) == Some(tree) && more != [] && more[0].key == ""
    ensures Decode(known, Record(fields + more)) == Some(tree)
  {
    DecodesIff(known, Record(fields), tree);
    DecodesIff(known, Record(fields + more), tree);
    hide Decode, Lookup, PassesKeys;
    LookupPast(fields, more, "type");
    match tree
    case Leaf(_) =>
      LookupPast(fields, more, "ruleType");
      LookupPast(fields, more, "parameters");
      KeysPast(fields, more, {"type", "ruleType", "parameters"});
    case Group(_, _) =>
      LookupPast(fields, more, "operator");
      LookupPast(fields, more, "children");
      KeysPast(fields, more, {"type", "operator", "children"});
    case Not(_) =>
      LookupPast(fields, more, "child");
      KeysPast(fields, more, {"type", "child"});
  }

  lemma NullDoesNotDecode(known: string -> bool)
    ensures Decode(known, Null).None?
  {
  }

  // ----- Every storable expression has a value that is accepted -----

  /** The parameters of every condition are an object. */
  predicate ParametersAreObjects(tree: Node<Raw>)
    decreases tree, 1
  {
    match tree
    case Leaf(condition) => condition.parameters.Record?
    case Group(_, children) => AllParametersAreObjects(children)
    case Not(child) => ParametersAreObjects(child)
  }

  predicate AllParametersAreObjects(trees: seq<Node<Raw>>)
    decreases trees, 0
  {
    trees == [] || (ParametersAreObjects(trees[0]) && AllParametersAreObjects(trees[1..]))
  }

  function Encode(tree: Node<Raw>): Raw
    decreases tree, 1
  {
    match tree
    case Leaf(condition) =>
      Record([Property("type", Text("condition")), Property("ruleType", Text(condition.ruleType)),
              Property("parameters", condition.parameters)])
    case Group(operator, children) =>
      Record([Property("type", Text("group")), Property("operator", Text(if operator.And? then "AND" else "OR")),
              Property("children", List(EncodeAll(children)))])
    case Not(child) => Record([Property("type", Text("not")), Property("child", Encode(child))])
  }

  function EncodeAll(trees: seq<Node<Raw>>): (r: seq<Raw>)
    ensures |r| == |trees|
    ensures forall i :: 0 <= i < |r| ==> r[i] == Encode(trees[i])
    decreases trees, 0
  {
    if trees == [] then [] else [Encode(trees[0])] + EncodeAll(trees[1..])
  }

  lemma TwoFields(a: Property, b: Property, allowed: set<string>)
    requires a.key != b.key && a.key in allowed && b.key in allowed
    ensures Lookup([a, b], a.key) == Some(a.value) && Lookup([a, b], b.key) == Some(b.value)
    ensures Extra([a, b], allowed).None? && FirstOther([a, b], allowed).None?
  {
    var all, rest := [a, b], [b];
    assert all[1..] == rest && rest[1..] == [];
    assert FirstOther([], allowed).None? && FirstOther(rest, allowed) == FirstOther([], allowed);
  }

  lemma ThreeFields(a: Property, b: Property, c: Property, allowed: set<string>)
    requires a.key != b.key && a.key != c.key && b.key != c.key
    requires a.key in allowed && b.key in allowed && c.key in allowed
    ensures Lookup([a, b, c], a.key) == Some(a.value) && Lookup([a, b, c], b.key) == Some(b.value)
    ensures Lookup([a, b, c], c.key) == Some(c.value)
    ensures Extra([a, b, c], allowed).None?
  {
    var all, rest := [a, b, c], [b, c];
    assert all[1..] == rest && all[0] == a;
    TwoFields(b, c, allowed);
    assert Lookup(all, b.key) == Lookup(rest, b.key) && Lookup(all, c.key) == Lookup(rest, c.key);
    assert FirstOther(all, allowed) == FirstOther(rest, allowed);
  }

  lemma FieldNames()
    ensures "type" != "ruleType" && "type" != "parameters" && "ruleType" != "parameters"
    ensures "type" != "operator" && "type" != "children" && "operator" != "children" && "type" != "child"
    ensures "condition" != "group" && "condition" != "not" && "group" != "not" && "AND" != "OR"
  {
    assert "operator"[0] == 'o' && "children"[0] == 'c' && "ruleType"[0] == 'r';
  }

  lemma EncodedLeaf(known: string -> bool, condition: RuleTree.Condition<Raw>)
    requires known(condition.ruleType) && condition.ruleType != COMPOSITE && condition.parameters.Record?
    ensures Decode(known, Encode(Leaf(condition))) == Some(Leaf(condition))
  {
    hide Lookup, Extra, DecodeChildren;
    FieldNames();
    var fields := Encode(Leaf(condition)).fields;
    ThreeFields(fields[0], fields[1], fields[2], AllowedFields(Kind.Condition));
  }

  lemma WholeGroup(known: string -> bool, fields: seq<Property>, operator: Operator, items: seq<Raw>)
    requires Lookup(fields, "type") == Some(Text("group")) && Lookup(fields, "children") == Some(List(items))
    requires Lookup(fields, "operator") == Some(Text(if operator.And? then "AND" else "OR"))
    requires items != [] && Extra(fields, AllowedFields(Kind.Group)).None?
    ensures KindOf(fields) == Some(Kind.Group) && OperatorOf(fields) == Some(operator) && ChildrenOf(fields) == items
    ensures LocalFault(known, fields).None?
  {
    hide Lookup, Extra;
    FieldNames();
    TypesName(fields);
  }

  lemma EncodedGroup(known: string -> bool, operator: Operator, children: seq<Node<Raw>>)
    requires children != []
    ensures var fields := Encode(Node.Group(operator, children)).fields;
            && Encode(Node.Group(operator, children)).Record? && KindOf(fields) == Some(Kind.Group)
            && OperatorOf(fields) == Some(operator)
            && ChildrenOf(fields) == EncodeAll(children) && LocalFault(known, fields).None?
  {
    hide Lookup, Extra, DecodeChildren, KindOf, OperatorOf, ChildrenOf, LocalFault;
    FieldNames();
    var fields := Encode(Node.Group(operator, children)).fields;
    ThreeFields(fields[0], fields[1], fields[2], AllowedFields(Kind.Group));
    WholeGroup(known, fields, operator, EncodeAll(children));
  }

  lemma EncodedNot(known: string -> bool, child: Node<Raw>)
    ensures var fields := Encode(Not(child)).fields;
            && Encode(Not(child)).Record? && KindOf(fields) == Some(Negation)
            && ChildrenOf(fields) == [Encode(child)]
            && LocalFault(known, fields).None?
  {
    hide Lookup, Extra, DecodeChildren;
    FieldNames();
    var fields := Encode(Not(child)).fields;
    TwoFields(fields[0], fields[1], AllowedFields(Negation));
  }

  /** Encoding a storable expression and decoding it again gives the expression. */
  lemma {:induction false} EncodeThenDecode(known: string -> bool, tree: Node<Raw>)
    requires Sound(known, tree) && ParametersAreObjects(tree)
    ensures Decode(known, Encode(tree)) == Some(tree)
    decreases tree, 1
  {
    hide Lookup, Extra, KindOf, ChildrenOf, LocalFault, OperatorOf, Encode;
    match tree
    case Leaf(condition) => EncodedLeaf(known, condition);
    case Group(operator, children) =>
      EncodedGroup(known, operator, children);
      assert children[0..] == children;
      EncodeThenDecodeChildren(known, children, Encode(tree), 0);
    case Not(child) =>
      EncodedNot(known, child);
      EncodeThenDecode(known, child);
  }

  lemma {:induction false} EncodeThenDecodeChildren(known: string -> bool, children: seq<Node<Raw>>, parent: Raw,
                                                    from: nat)
    requires from <= |children| && SoundAll(known, children[from..]) && AllParametersAreObjects(children[from..])
    requires parent.Record? && ChildrenOf(parent.fields) == EncodeAll(children)
    ensures DecodeChildren(known, parent, from) == Some(children[from..])
    decreases children, 0, |children| - from
  {
    hide Decode, Encode, ChildrenOf, Sound, ParametersAreObjects;
    if from < |children| {
      assert children[from..] == [children[from]] + children[from + 1..];
      EncodeThenDecode(known, children[from]);
      EncodeThenDecodeChildren(known, children, parent, from + 1);
    }
  }
}
