/**
 * Stored cleanup rules (apps/api/src/routes/library-cleanup.ts). A rule is a single
 * condition, an operator over a condition list, or an expression; the last two share one
 * column. A partial update is checked against the rule it would produce (lines 845-949),
 * written field by field under a lease that is taken only afterwards (lines 951-1027), and read
 * back by yet other code (lines 115-129). Parsing a column is taken to give back what was
 * written to it.
 */
module RuleStore {
  import opened RuleTree
  import opened Options

  /** The column shared by legacy condition lists and expressions. */
  datatype Column<+P> = NullColumn | Conditions(list: seq<Condition<P>>) | Expression(root: Node<P>)

  datatype Row<+P> = Row(ruleType: string, parameters: P, operator: Option<Operator>, column: Column<P>)

  /** A field of an update: left out, null, or a value. */
  datatype Field<+T> = Omitted | Null | Given(value: T)

  datatype Update<+P> = Update(
    ruleType: Option<string>,
    parameters: Option<P>,
    operator: Field<Operator>,
    conditions: Field<seq<Condition<P>>>,
    expression: Field<Node<P>>)

  /** The rule that an update is validated as. */
  datatype Effective<+P> = Effective(
    ruleType: string,
    operator: Option<Operator>,
    conditions: Option<seq<Condition<P>>>,
    expression: Option<Node<P>>)

  predicate KnownLeafType(known: string -> bool, ruleType: string) {
    known(ruleType) && ruleType != COMPOSITE
  }

  predicate LegacyList<P>(known: string -> bool, list: seq<Condition<P>>) {
    |list| <= MAX_NODES - 1 && forall i :: 0 <= i < |list| ==> KnownLeafType(known, list[i].ruleType)
  }

  /** The three modes of a stored rule, of which every row should be in exactly one. */
  predicate LeafMode<P>(known: string -> bool, row: Row<P>) {
    KnownLeafType(known, row.ruleType) && row.operator.None? && row.column.NullColumn?
  }

  predicate ListMode<P>(known: string -> bool, row: Row<P>) {
    && row.ruleType == COMPOSITE && row.operator.Some? && row.column.Conditions?
    && row.column.list != [] && LegacyList(known, row.column.list)
  }

  predicate ExpressionMode<P>(known: string -> bool, row: Row<P>) {
    && row.ruleType == COMPOSITE && row.operator.None? && row.column.Expression?
    && WellShaped(known, row.column.root)
  }

  predicate ValidRow<P>(known: string -> bool, row: Row<P>) {
    LeafMode(known, row) || ListMode(known, row) || ExpressionMode(known, row)
  }

  // ----- Validating an update -----

  /** What the update schema itself requires. */
  predicate SchemaAccepts<P>(known: string -> bool, u: Update<P>) {
    && (u.ruleType.Some? ==> known(u.ruleType.value) || u.ruleType.value == COMPOSITE)
    && (u.conditions.Given? ==> LegacyList(known, u.conditions.value))
    && (u.expression.Given? ==> WellShaped(known, u.expression.value))
    && (u.operator.Given? ==> u.conditions.Given? && u.conditions.value != [])
    && (u.expression.Given? ==> !u.operator.Given? && !u.conditions.Given?)
    && (u.expression.Given? && u.ruleType.Some? ==> u.ruleType.value == COMPOSITE)
  }

  /** A request carries an expression by itself, or an operator only together with a list. */
  lemma RequestForms<P>(known: string -> bool, u: Update<P>)
    ensures SchemaAccepts(known, u) <==>
            && (u.ruleType.None? || known(u.ruleType.value) || u.ruleType.value == COMPOSITE)
            && match u.expression
               case Given(root) =>
                 WellShaped(known, root) && !u.operator.Given? && !u.conditions.Given?
                 && u.ruleType in {None, Some(COMPOSITE)}
               case _ =>
                 match u.conditions
                 case Given(list) => LegacyList(known, list) && (u.operator.Given? ==> list != [])
                 case _ => !u.operator.Given?
  {
  }

  function StoredExpression<P>(known: string -> bool, row: Row<P>): Option<Node<P>> {
    if row.column.Expression? && WellShaped(known, row.column.root) then Some(row.column.root) else None
  }

  function Presence<T>(field: Field<T>): Option<T> {
    if field.Given? then Some(field.value) else None
  }

  function EffectiveConditions<P>(known: string -> bool, row: Row<P>, u: Update<P>): Option<seq<Condition<P>>> {
    if u.expression.Given? then None
    else if !u.conditions.Omitted? then Presence(u.conditions)
    else if u.expression.Null? || StoredExpression(known, row).Some? then None
    else if row.column.Conditions? then Some(row.column.list)
    else None
  }

  function EffectiveExpression<P>(known: string -> bool, row: Row<P>, u: Update<P>): Option<Node<P>> {
    if u.expression.Given? then Some(u.expression.value)
    else if u.expression.Null? || !u.operator.Omitted? || !u.conditions.Omitted? then None
    else StoredExpression(known, row)
  }

  function EffectiveRule<P>(known: string -> bool, row: Row<P>, u: Update<P>): Effective<P> {
    var expression := EffectiveExpression(known, row, u);
    Effective(
      if u.ruleType.Some? then u.ruleType.value else row.ruleType,
      if u.expression.Given? then None
      else if !u.operator.Omitted? then Presence(u.operator)
      else if expression.Some? then None
      else row.operator,
      EffectiveConditions(known, row, u),
      expression)
  }

  datatype RepresentationError =
    | ExpressionNeedsComposite
    | ReplacingNeedsOperatorAndConditions
    | CompositeNeedsBody
    | OnlyCompositeHasBody

  function NoneOrEmpty<T>(list: Option<seq<T>>): bool {
    list.None? || list.value == []
  }

  function RepresentationErrorOf<P>(known: string -> bool, row: Row<P>, u: Update<P>): Option<RepresentationError> {
    var e := EffectiveRule(known, row, u);
    if e.expression.Some? && e.ruleType != COMPOSITE then Some(ExpressionNeedsComposite)
    else if StoredExpression(known, row).Some? && u.expression.Omitted?
            && (!u.operator.Omitted? || !u.conditions.Omitted?)
            && (!u.operator.Given? || NoneOrEmpty(Presence(u.conditions)))
    then Some(ReplacingNeedsOperatorAndConditions)
    else if e.ruleType == COMPOSITE && e.expression.None? && (e.operator.None? || NoneOrEmpty(e.conditions))
    then Some(CompositeNeedsBody)
    else if e.ruleType != COMPOSITE && (e.expression.Some? || e.operator.Some? || e.conditions.Some?)
    then Some(OnlyCompositeHasBody)
    else None
  }

  /** Why an update is refused, in terms of the rule it would produce. */
  ghost predicate RefusedBecause<P>(e: Effective<P>, halfReplaced: bool, error: Option<RepresentationError>) {
    var listed := e.operator.Some? && e.conditions.Some? && e.conditions.value != [];
    var composite := e.ruleType == COMPOSITE;
    && (error == Some(ExpressionNeedsComposite) <==> e.expression.Some? && !composite)
    && (error == Some(ReplacingNeedsOperatorAndConditions) <==> halfReplaced && (e.expression.None? || composite))
    && (error == Some(CompositeNeedsBody) <==> !halfReplaced && composite && e.expression.None? && !listed)
    && (error == Some(OnlyCompositeHasBody) <==>
        !halfReplaced && !composite && e.expression.None? && (e.operator.Some? || e.conditions.Some?))
  }

  /** The update changes operator or conditions of a stored expression without giving both. */
  predicate HalfReplaces<P>(known: string -> bool, row: Row<P>, u: Update<P>) {
    && row.column.Expression? && WellShaped(known, row.column.root) && u.expression.Omitted?
    && !(u.operator.Omitted? && u.conditions.Omitted?)
    && !(u.operator.Given? && u.conditions.Given? && u.conditions.value != [])
  }

  lemma RefusalReason<P>(known: string -> bool, row: Row<P>, u: Update<P>)
    ensures RefusedBecause(EffectiveRule(known, row, u), HalfReplaces(known, row, u),
                           RepresentationErrorOf(known, row, u))
  {
  }

  /** The update fits the schema and represents a rule. */
  predicate Represented<P>(known: string -> bool, row: Row<P>, u: Update<P>) {
    SchemaAccepts(known, u) && RepresentationErrorOf(known, row, u).None?
  }

  /** Only some fields make the handler look at the parameters. */
  predicate ChecksParameters<P>(u: Update<P>) {
    u.ruleType.Some? || u.parameters.Some? || !u.conditions.Omitted? || !u.expression.Omitted?
  }

  predicate ParametersAccepted<P>(known: string -> bool, schemas: Schemas<P>, row: Row<P>, u: Update<P>) {
    var e := EffectiveRule(known, row, u);
    ChecksParameters(u) ==>
      ParametersPass(schemas, e.ruleType, u.parameters.Or(row.parameters), e.conditions, e.expression)
  }

  predicate Accepted<P>(known: string -> bool, schemas: Schemas<P>, row: Row<P>, u: Update<P>) {
    Represented(known, row, u) && ParametersAccepted(known, schemas, row, u)
  }

  // ----- Writing it -----

  function DefaultsOfList<P>(schemas: Schemas<P>, list: seq<Condition<P>>): seq<Condition<P>> {
    seq(|list|, i requires 0 <= i < |list| => DefaultsOf(schemas, list[i]))
  }

  /** The written row: only the fields named by the update change. */
  function Write<P>(schemas: Schemas<P>, row: Row<P>, u: Update<P>, effectiveType: string): Row<P> {
    var ruleType := if u.ruleType.Some? then u.ruleType.value else row.ruleType;
    var parameters :=
      if u.parameters.Some? then DefaultsOf(schemas, Condition(effectiveType, u.parameters.value)).parameters
      else row.parameters;
    var operator1 :=
      if u.expression.Given? then None
      else if !u.operator.Omitted? then Presence(u.operator)
      else row.operator;
    var column1 :=
      if u.expression.Given? then Expression(ApplyDefaults(schemas, u.expression.value)) else row.column;
    var clears := u.expression.Null? && u.conditions.Omitted? && u.operator.Omitted?;
    var column :=
      if !u.expression.Given? && !u.conditions.Omitted? then
        if NoneOrEmpty(Presence(u.conditions)) then NullColumn
        else Conditions(DefaultsOfList(schemas, u.conditions.value))
      else if clears then NullColumn
      else column1;
    Row(ruleType, parameters, if clears then None else operator1, column)
  }

  /** What an update validated against `read` makes of the row that is `current` when it is written. */
  function Written<P>(known: string -> bool, schemas: Schemas<P>, read: Row<P>, current: Row<P>, u: Update<P>): Row<P> {
    Write(schemas, current, u, EffectiveRule(known, read, u).ruleType)
  }

  /** The list with every condition filled in. */
  predicate ListFilledIn<P(==)>(schemas: Schemas<P>, before: seq<Condition<P>>, after: seq<Condition<P>>) {
    |before| == |after| && forall i :: 0 <= i < |before| ==> IsFilledIn(schemas, before[i], after[i])
  }

  /**
   * What an update stores, column by column: submitted conditions and expressions with their
   * defaults, submitted parameters with the defaults of the rule type the update was validated as,
   * an empty list as null. A null expression alone clears operator and column; everything that is
   * not mentioned stays.
   */
  ghost predicate Stores<P(!new)>(schemas: Schemas<P>, before: Row<P>, after: Row<P>, u: Update<P>,
                                  validatedType: string)
  {
    var clears := u.expression.Null? && u.conditions.Omitted? && u.operator.Omitted?;
    && after.ruleType == u.ruleType.Or(before.ruleType)
    && (match u.parameters
        case None => after.parameters == before.parameters
        case Some(p) => IsFilledIn(schemas, Condition(validatedType, p), Condition(validatedType, after.parameters)))
    && after.operator == (if u.expression.Given? || u.operator.Null? || clears then None
                          else if u.operator.Given? then Some(u.operator.value)
                          else before.operator)
    && if u.expression.Given? then
         after.column.Expression? && FilledIn(schemas, u.expression.value, after.column.root)
       else if u.conditions.Given? && u.conditions.value != [] then
         after.column.Conditions? && ListFilledIn(schemas, u.conditions.value, after.column.list)
       else if clears || !u.conditions.Omitted? then after.column.NullColumn?
       else after.column == before.column
  }

  lemma WriteStores<P(!new)>(schemas: Schemas<P>, row: Row<P>, u: Update<P>, effectiveType: string)
    ensures Stores(schemas, row, Write(schemas, row, u, effectiveType), u, effectiveType)
  {
    if u.expression.Given? {
      DefaultsFillIn(schemas, u.expression.value);
    }
  }

  /** The columns an update statement names, with their new contents. */
  datatype UpdateData<+P> = UpdateData(
    ruleType: Option<string>,
    parameters: Option<P>,
    operator: Option<Option<Operator>>,
    column: Option<Column<P>>)

  function Applied<P>(data: UpdateData<P>, row: Row<P>): Row<P> {
    Row(data.ruleType.Or(row.ruleType), data.parameters.Or(row.parameters), data.operator.Or(row.operator),
        data.column.Or(row.column))
  }

  /** What validation ends with: an error, or the statement to be carried out. */
  datatype Validation<+P> =
    | Refused(error: RepresentationError)
    | OutOfScope
    | InvalidParameters(reason: ParameterError)
    | Statement(data: UpdateData<P>)

  /** A stored rule; the update schema has already accepted the request. */
  class RuleRecord<P(!new)> {
    var row: Row<P>

    constructor (row: Row<P>)
      ensures this.row == row
    {
      this.row := row;
    }

    /**
     * The part of the handler before the lease. The statement it prepares does to any row, not
     * only the one that was read, what the update is specified to do. Whether the filters and the
     * scope fit is known from columns outside the model.
     */
    method Validate(known: string -> bool, schemas: Schemas<P>, u: Update<P>, inScope: bool)
      returns (outcome: Validation<P>)
      requires SchemaAccepts(known, u)
      ensures outcome.Statement? <==> Accepted(known, schemas, row, u) && inScope
      ensures outcome.Refused? <==> !Represented(known, row, u)
      ensures RefusedBecause(EffectiveRule(known, row, u), HalfReplaces(known, row, u),
                             if outcome.Refused? then Some(outcome.error) else None)
      ensures outcome.OutOfScope? <==> Represented(known, row, u) && !inScope
      ensures outcome.InvalidParameters? <==>
              && Represented(known, row, u) && inScope
              && (u.ruleType.Some? || u.parameters.Some? || !u.conditions.Omitted? || !u.expression.Omitted?)
              && !ParametersPass(schemas, u.ruleType.Or(row.ruleType), u.parameters.Or(row.parameters),
                                 EffectiveConditions(known, row, u), EffectiveExpression(known, row, u))
      ensures outcome.Statement? ==>
                forall current :: Applied(outcome.data, current) == Written(known, schemas, row, current, u)
    {
      RefusalReason(known, row, u);
      hide RefusedBecause;
      var e := EffectiveRule(known, row, u);
      var error := RepresentationErrorOf(known, row, u);
      if error.Some? {
        return Refused(error.value);
      }
      if !inScope {
        return OutOfScope;
      }
      if u.ruleType.Some? || u.parameters.Some? || !u.conditions.Omitted? || !u.expression.Omitted? {
        var reason :=
          ValidateRuleParameters(schemas, e.ruleType, u.parameters.Or(row.parameters), e.conditions, e.expression);
        if reason.Some? {
          return InvalidParameters(reason.value);
        }
      }
      var data := BuildStatement(schemas, u, e.ruleType);
      return Statement(data);
    }

    method BuildStatement(schemas: Schemas<P>, u: Update<P>, effectiveType: string) returns (data: UpdateData<P>)
      ensures forall current :: Applied(data, current) == Write(schemas, current, u, effectiveType)
    {
      data := UpdateData(None, None, None, None);
      if u.ruleType.Some? {
        data := data.(ruleType := u.ruleType);
      }
      if u.parameters.Some? {
        data := data.(parameters := Some(DefaultsOf(schemas, Condition(effectiveType, u.parameters.value)).parameters));
      }
      if u.expression.Given? {
        data := data.(operator := Some(None), column := Some(Expression(ApplyDefaults(schemas, u.expression.value))));
      } else if !u.operator.Omitted? {
        data := data.(operator := Some(Presence(u.operator)));
      }
      if !u.expression.Given? && !u.conditions.Omitted? {
        data := data.(column := Some(if NoneOrEmpty(Presence(u.conditions)) then NullColumn
                                     else Conditions(DefaultsOfList(schemas, u.conditions.value))));
      } else if u.expression.Null? && u.conditions.Omitted? && u.operator.Omitted? {
        data := data.(column := Some(NullColumn), operator := Some(None));
      }
    }

    /** The part under the lease: the named columns change, in whatever row is stored by then. */
    method Store(data: UpdateData<P>)
      modifies this
      ensures row == Applied(data, old(row))
    {
      if data.ruleType.Some? { row := row.(ruleType := data.ruleType.value); }
      if data.parameters.Some? { row := row.(parameters := data.parameters.value); }
      if data.operator.Some? { row := row.(operator := data.operator.value); }
      if data.column.Some? { row := row.(column := data.column.value); }
    }

    /** Both parts with nothing in between: the handler writes exactly what it accepted. */
    method HandlePut(known: string -> bool, schemas: Schemas<P>, u: Update<P>, inScope: bool)
      returns (outcome: Validation<P>)
      requires SchemaAccepts(known, u)
      modifies this
      ensures outcome.Statement? <==> Accepted(known, schemas, old(row), u) && inScope
      ensures row == if outcome.Statement? then Written(known, schemas, old(row), old(row), u) else old(row)
      ensures outcome.Statement? ==> Stores(schemas, old(row), row, u, u.ruleType.Or(old(row).ruleType))
    {
      WriteStores(schemas, row, u, u.ruleType.Or(row.ruleType));
      outcome := Validate(known, schemas, u, inScope);
      if outcome.Statement? {
        Store(outcome.data);
      }
    }
  }

  // ----- Reading it back -----

  /** The expression the evaluator runs for a stored rule, if it can run it at all. */
  function Executable<P>(known: string -> bool, row: Row<P>): Option<Node<P>> {
    if StoredExpression(known, row).Some? then
      if row.operator.Some? || row.ruleType != COMPOSITE then None else StoredExpression(known, row)
    else if row.column.Expression? then None
    else if row.column.Conditions? && row.column.list != [] && row.operator.None? then None
    else if row.operator.Some? then
      if row.column.Conditions? && row.column.list != [] then
        var root := Group(row.operator.value, Leaves(row.column.list));
        if WellShaped(known, root) then Some(root) else None
      else None
    else if KnownLeafType(known, row.ruleType) then Some(Leaf(Condition(row.ruleType, row.parameters)))
    else None
  }

  function Leaves<P>(list: seq<Condition<P>>): seq<Node<P>> {
    seq(|list|, i requires 0 <= i < |list| => Leaf(list[i]))
  }

  /** The operator, conditions and expression that a response shows for a stored rule. */
  function Serialized<P>(known: string -> bool, row: Row<P>): Effective<P> {
    var runnable := Executable(known, row).Some?;
    var expression := if runnable then StoredExpression(known, row) else None;
    var conditions :=
      if StoredExpression(known, row).None? && row.column.Conditions? && runnable then Some(row.column.list)
      else None;
    Effective(row.ruleType, if conditions.Some? then row.operator else None, conditions, expression)
  }

  // ----- Stored is what was validated -----

  /** The validated rule with defaults filled into whatever the update itself supplied. */
  function WithDefaults<P>(schemas: Schemas<P>, u: Update<P>, e: Effective<P>): Effective<P> {
    e.(conditions := if u.conditions.Given? && e.conditions.Some?
                     then Some(DefaultsOfList(schemas, e.conditions.value)) else e.conditions,
       expression := if u.expression.Given? && e.expression.Some?
                     then Some(ApplyDefaults(schemas, e.expression.value)) else e.expression)
  }

  /**
   * The update drops expression and operator but does not mention conditions, so nothing
   * clears the shared column.
   */
  predicate LeavesColumnBehind<P>(row: Row<P>, u: Update<P>) {
    u.expression.Null? && u.operator.Null? && u.conditions.Omitted? && !row.column.NullColumn?
  }

  lemma DefaultsKeepLegacyList<P>(schemas: Schemas<P>, known: string -> bool, list: seq<Condition<P>>)
    requires LegacyList(known, list)
    ensures LegacyList(known, DefaultsOfList(schemas, list))
  {
  }

  lemma {:induction false} LeavesAreSmall<P>(known: string -> bool, list: seq<Condition<P>>)
    requires forall i :: 0 <= i < |list| ==> KnownLeafType(known, list[i].ruleType)
    ensures SizeAll(Leaves(list)) == |list| && DepthAll(Leaves(list)) <= 1 && SoundAll(known, Leaves(list))
  {
    if list != [] {
      LeavesAreSmall(known, list[1..]);
      assert Leaves(list)[1..] == Leaves(list[1..]);
    }
  }

  /** A list within the legacy limit always fits the expression budget. */
  lemma LegacyListRuns<P>(known: string -> bool, operator: Operator, list: seq<Condition<P>>)
    requires LegacyList(known, list) && list != []
    ensures WellShaped(known, Group(operator, Leaves(list)))
  {
    LeavesAreSmall(known, list);
  }

  /**
   * Two kinds of rows that no handler writes but that run all the same: an operator with a list on
   * a rule of another type than composite, and an empty list beside a single condition.
   */
  predicate RunsOutsideModes<P>(known: string -> bool, row: Row<P>) {
    && row.column.Conditions?
    && if row.operator.Some? then
         row.ruleType != COMPOSITE && row.column.list != [] && LegacyList(known, row.column.list)
       else KnownLeafType(known, row.ruleType) && row.column.list == []
  }

  /** Which rows run: those in a valid mode, and those two kinds. */
  lemma ValidRowsRun<P>(known: string -> bool, row: Row<P>)
    ensures Executable(known, row).Some? <==> ValidRow(known, row) || RunsOutsideModes(known, row)
    ensures !(ValidRow(known, row) && RunsOutsideModes(known, row))
  {
    if row.operator.Some? && row.column.Conditions? && row.column.list != [] {
      if LegacyList(known, row.column.list) {
        LegacyListRuns(known, row.operator.value, row.column.list);
      } else {
        LongListsDoNotRun(known, row.operator.value, row.column.list);
      }
    }
  }

  /** What a row in a valid mode runs as, and what a response shows of it. */
  lemma ValidRowsShow<P>(known: string -> bool, row: Row<P>)
    ensures LeafMode(known, row) ==>
              && Executable(known, row) == Some(Leaf(Condition(row.ruleType, row.parameters)))
              && Serialized(known, row) == Effective(row.ruleType, None, None, None)
    ensures ListMode(known, row) ==>
              && Executable(known, row) == Some(Group(row.operator.value, Leaves(row.column.list)))
              && Serialized(known, row) == Effective(COMPOSITE, row.operator, Some(row.column.list), None)
    ensures ExpressionMode(known, row) ==>
              && Executable(known, row) == Some(row.column.root)
              && Serialized(known, row) == Effective(COMPOSITE, None, None, Some(row.column.root))
  {
    if ListMode(known, row) {
      LegacyListRuns(known, row.operator.value, row.column.list);
    }
  }

  lemma {:induction false} LeavesAreCounted<P>(known: string -> bool, list: seq<Condition<P>>)
    ensures SizeAll(Leaves(list)) == |list|
    ensures SoundAll(known, Leaves(list)) ==> forall i :: 0 <= i < |list| ==> KnownLeafType(known, list[i].ruleType)
  {
    if list != [] {
      LeavesAreCounted(known, list[1..]);
      assert Leaves(list)[1..] == Leaves(list[1..]);
      if SoundAll(known, Leaves(list)) {
        assert Sound(known, Leaves(list)[0]);
        forall i | 0 <= i < |list| ensures KnownLeafType(known, list[i].ruleType) {
          if i > 0 {
            assert list[i] == list[1..][i - 1];
          }
        }
      }
    }
  }

  lemma LongListsDoNotRun<P>(known: string -> bool, operator: Operator, list: seq<Condition<P>>)
    requires !LegacyList(known, list)
    ensures !WellShaped(known, Group(operator, Leaves(list)))
  {
    LeavesAreCounted(known, list);
  }

  lemma WrittenPartsFit<P>(known: string -> bool, schemas: Schemas<P>, u: Update<P>)
    requires SchemaAccepts(known, u)
    ensures u.conditions.Given? ==> LegacyList(known, DefaultsOfList(schemas, u.conditions.value))
    ensures u.expression.Given? ==> WellShaped(known, ApplyDefaults(schemas, u.expression.value))
  {
    if u.conditions.Given? {
      DefaultsKeepLegacyList(schemas, known, u.conditions.value);
    }
    if u.expression.Given? {
      DefaultsKeepShape(schemas, known, u.expression.value);
    }
  }

  /** The rule as it was validated, with whatever the update supplied filled in. */
  ghost predicate ShowsFilledIn<P(!new)>(schemas: Schemas<P>, u: Update<P>, validated: Effective<P>,
                                         shown: Effective<P>)
  {
    && shown.ruleType == validated.ruleType && shown.operator == validated.operator
    && (match (validated.conditions, shown.conditions)
        case (Some(before), Some(after)) =>
          if u.conditions.Given? then ListFilledIn(schemas, before, after) else after == before
        case (None, None) => true
        case _ => false)
    && match (validated.expression, shown.expression)
       case (Some(before), Some(after)) =>
         if u.expression.Given? then FilledIn(schemas, before, after) else after == before
       case (None, None) => true
       case _ => false
  }

  lemma WithDefaultsIsFilledIn<P(!new)>(schemas: Schemas<P>, u: Update<P>, e: Effective<P>)
    ensures ShowsFilledIn(schemas, u, e, WithDefaults(schemas, u, e))
  {
    if e.expression.Some? {
      DefaultsFillIn(schemas, e.expression.value);
    }
  }

  /** The written row shows the validated rule, whether or not it can run. */
  lemma WrittenShowsValidated<P(!new)>(known: string -> bool, schemas: Schemas<P>, row: Row<P>, u: Update<P>)
    requires ValidRow(known, row) && Represented(known, row, u)
    ensures Serialized(known, Written(known, schemas, row, row, u))
         == WithDefaults(schemas, u, EffectiveRule(known, row, u))
    ensures ShowsFilledIn(schemas, u, EffectiveRule(known, row, u),
                          Serialized(known, Written(known, schemas, row, row, u)))
  {
    WithDefaultsIsFilledIn(schemas, u, EffectiveRule(known, row, u));
    hide ShowsFilledIn;
    WrittenPartsFit(known, schemas, u);
    var after := Written(known, schemas, row, row, u);
    if after.operator.Some? && after.column.Conditions? && after.column.list != [] {
      LegacyListRuns(known, after.operator.value, after.column.list);
    }
  }

  /** The tree that the validated rule stands for. */
  function EffectiveTree<P>(e: Effective<P>, parameters: P): Node<P> {
    if e.expression.Some? then e.expression.value
    else if e.operator.Some? && e.conditions.Some? then Group(e.operator.value, Leaves(e.conditions.value))
    else Leaf(Condition(e.ruleType, parameters))
  }

  /**
   * An accepted update of the row it was validated against leaves the rule in a valid mode,
   * running exactly the validated tree, if and only if it does not leave the column behind.
   */
  lemma UpdateKeepsModeIff<P>(known: string -> bool, schemas: Schemas<P>, row: Row<P>, u: Update<P>)
    requires ValidRow(known, row) && Represented(known, row, u)
    ensures var after := Written(known, schemas, row, row, u);
            var validated := WithDefaults(schemas, u, EffectiveRule(known, row, u));
            && (ValidRow(known, after) <==> !LeavesColumnBehind(row, u))
            && (Executable(known, after) == Some(EffectiveTree(validated, after.parameters))
                <==> !LeavesColumnBehind(row, u))
  {
    WrittenPartsFit(known, schemas, u);
    var after := Written(known, schemas, row, row, u);
    if after.operator.Some? && after.column.Conditions? && after.column.list != [] {
      LegacyListRuns(known, after.operator.value, after.column.list);
    }
  }

  /** Turning an expression into a single condition with explicit nulls leaves a rule that cannot run. */
  lemma LeftColumnBreaksMode<P>(known: string -> bool, schemas: Schemas<P>, root: Node<P>, parameters: P)
    requires WellShaped(known, root) && KnownLeafType(known, "monitored")
    requires !schemas(Condition("monitored", parameters)).Rejected?
    ensures var row := Row(COMPOSITE, parameters, None, Expression(root));
            var u: Update<P> := Update(Some("monitored"), None, Null, Omitted, Null);
            && ValidRow(known, row) && Accepted(known, schemas, row, u) && LeavesColumnBehind(row, u)
            && Executable(known, Written(known, schemas, row, row, u)).None?
            && !ValidRow(known, Written(known, schemas, row, row, u))
  {
    var u: Update<P> := Update(Some("monitored"), None, Null, Omitted, Null);
    UpdateKeepsModeIff(known, schemas, Row(COMPOSITE, parameters, None, Expression(root)), u);
  }

  /**
   * Updates that would end well but are refused: an empty condition list; anything that edits an
   * expression's operator or conditions without a new list or mentioning the expression; and a null
   * expression alone that would clear a list.
   */
  predicate RefusedAllTheSame<P>(row: Row<P>, u: Update<P>) {
    || (u.conditions.Given? && u.conditions.value == [])
    || (row.column.Expression? && u.expression.Omitted? && !u.operator.Given?
        && !(u.operator.Omitted? && u.conditions.Omitted?))
    || (row.column.Conditions? && u.expression.Null? && u.operator.Omitted? && u.conditions.Omitted?)
  }

  /**
   * Which updates are accepted as representing a rule: those that end in a valid mode, but for
   * some that are refused all the same, and those that leave the column behind under a single condition.
   */
  lemma RepresentedIff<P>(known: string -> bool, schemas: Schemas<P>, row: Row<P>, u: Update<P>)
    requires ValidRow(known, row) && SchemaAccepts(known, u)
    ensures Represented(known, row, u) <==>
            if LeavesColumnBehind(row, u) then u.ruleType.Or(row.ruleType) != COMPOSITE
            else ValidRow(known, Written(known, schemas, row, row, u)) && !RefusedAllTheSame(row, u)
  {
    WrittenPartsFit(known, schemas, u);
  }

  // ----- The row may have changed since it was read -----

  /** The rule type and operator that the update leaves in a row. */
  function TypeAfter<P>(current: Row<P>, u: Update<P>): string {
    u.ruleType.Or(current.ruleType)
  }

  function OperatorAfter<P>(current: Row<P>, u: Update<P>): Option<Operator> {
    if u.expression.Given? then None
    else if !u.operator.Omitted? then Presence(u.operator)
    else current.operator
  }

  /** The update, whatever it was validated against, suits the row it is about to be written to. */
  predicate FitsMode<P>(current: Row<P>, u: Update<P>) {
    var composite := TypeAfter(current, u) == COMPOSITE;
    if u.expression.Given? then composite
    else if u.conditions.Given? && u.conditions.value != [] then composite && OperatorAfter(current, u).Some?
    else if !u.conditions.Omitted? then !composite && OperatorAfter(current, u).None?
    else if u.expression.Null? && u.operator.Omitted? then !composite
    else if u.operator.Omitted? then composite == (current.ruleType == COMPOSITE)
    else if composite then current.column.Expression?
    else current.column.NullColumn?
  }

  /** A write based on an earlier read leaves a valid row exactly when it suits the present one. */
  lemma StaleWriteKeepsModeIff<P>(known: string -> bool, schemas: Schemas<P>, read: Row<P>, current: Row<P>,
                                  u: Update<P>)
    requires ValidRow(known, read) && ValidRow(known, current) && Represented(known, read, u)
    ensures ValidRow(known, Written(known, schemas, read, current, u)) <==> FitsMode(current, u)
  {
    WrittenPartsFit(known, schemas, u);
  }

  /** The two rows agree on being composite and on holding an expression. */
  predicate SameKind<P>(read: Row<P>, current: Row<P>) {
    && (read.ruleType == COMPOSITE <==> current.ruleType == COMPOSITE)
    && (read.column.Expression? <==> current.column.Expression?)
  }

  /** As long as nobody changed the kind of the rule since the read, only the column left behind matters. */
  lemma AgreeingReadKeepsModeIff<P>(known: string -> bool, schemas: Schemas<P>, read: Row<P>, current: Row<P>,
                                    u: Update<P>)
    requires ValidRow(known, read) && ValidRow(known, current) && Represented(known, read, u)
    requires SameKind(read, current)
    ensures ValidRow(known, Written(known, schemas, read, current, u)) <==> !LeavesColumnBehind(current, u)
  {
    StaleWriteKeepsModeIff(known, schemas, read, current, u);
  }

  /** One request makes an expression of a rule while another, which read it before, changes its type. */
  lemma StaleReadBreaksMode<P>(known: string -> bool, schemas: Schemas<P>, parameters: P)
    requires KnownLeafType(known, "monitored") && KnownLeafType(known, "unmonitored")
    requires !schemas(Condition("monitored", parameters)).Rejected?
    requires !schemas(Condition("unmonitored", parameters)).Rejected?
    ensures var row := Row("monitored", parameters, None, NullColumn);
            var tree := Leaf(Condition("monitored", parameters));
            var first := Update(Some(COMPOSITE), None, Omitted, Omitted, Given(tree));
            var second: Update<P> := Update(Some("unmonitored"), None, Omitted, Omitted, Omitted);
            var between := Written(known, schemas, row, row, first);
            && ValidRow(known, row) && Accepted(known, schemas, row, first) && Accepted(known, schemas, row, second)
            && ValidRow(known, between) && !FitsMode(between, second)
            && !ValidRow(known, Written(known, schemas, row, between, second))
  {
    var row := Row("monitored", parameters, None, NullColumn);
    var first := Update(Some(COMPOSITE), None, Omitted, Omitted, Given(Leaf(Condition("monitored", parameters))));
    UpdateKeepsModeIff(known, schemas, row, first);
  }

  /** At most one mode applies to any row. */
  lemma ModesExclude<P>(known: string -> bool, row: Row<P>)
    ensures !(LeafMode(known, row) && ListMode(known, row))
    ensures !(LeafMode(known, row) && ExpressionMode(known, row))
    ensures !(ListMode(known, row) && ExpressionMode(known, row))
  {
  }

  // ----- Runs of updates, each based on some earlier read -----

  /** A request that read the row as it was after the first `read` requests had been written. */
  datatype Request<+P> = Request(read: nat, update: Update<P>, inScope: bool)

  predicate WellTimed<P>(requests: seq<Request<P>>) {
    forall k :: 0 <= k < |requests| ==> requests[k].read <= k
  }

  /** The row after the first `k` requests. */
  function At<P>(known: string -> bool, schemas: Schemas<P>, row: Row<P>, requests: seq<Request<P>>, k: nat): Row<P>
    requires WellTimed(requests) && k <= |requests|
  {
    if k == 0 then row
    else
      var r := requests[k - 1];
      var current := At(known, schemas, row, requests, k - 1);
      var read := At(known, schemas, row, requests, r.read);
      if r.inScope && Accepted(known, schemas, read, r.update) then Written(known, schemas, read, current, r.update)
      else current
  }

  /** Request `k` passes validation, against the row it read. */
  predicate Writes<P>(known: string -> bool, schemas: Schemas<P>, row: Row<P>, requests: seq<Request<P>>, k: nat)
    requires WellTimed(requests) && k < |requests|
  {
    requests[k].inScope
    && Accepted(known, schemas, At(known, schemas, row, requests, requests[k].read), requests[k].update)
  }

  lemma AtNext<P>(known: string -> bool, schemas: Schemas<P>, row: Row<P>, requests: seq<Request<P>>, k: nat)
    requires WellTimed(requests) && k <= |requests|
    ensures k == 0 ==> At(known, schemas, row, requests, k) == row
    ensures k > 0 ==>
              var current := At(known, schemas, row, requests, k - 1);
              && requests[k - 1].read <= k - 1
              && (Writes(known, schemas, row, requests, k - 1) ==>
                    Accepted(known, schemas, At(known, schemas, row, requests, requests[k - 1].read),
                             requests[k - 1].update))
              && At(known, schemas, row, requests, k) ==
                 if Writes(known, schemas, row, requests, k - 1) then
                   Written(known, schemas, At(known, schemas, row, requests, requests[k - 1].read), current,
                           requests[k - 1].update)
                 else current
  {
    hide Accepted, Written;
  }

  ghost predicate AlwaysValid<P>(known: string -> bool, schemas: Schemas<P>, row: Row<P>, requests: seq<Request<P>>,
                                 n: nat)
    requires WellTimed(requests) && n <= |requests|
  {
    forall k: nat :: k <= n ==> ValidRow(known, At(known, schemas, row, requests, k))
  }

  ghost predicate AlwaysFits<P>(known: string -> bool, schemas: Schemas<P>, row: Row<P>, requests: seq<Request<P>>,
                                n: nat)
    requires WellTimed(requests) && n <= |requests|
  {
    forall k: nat :: k < n && Writes(known, schemas, row, requests, k) ==>
                       FitsMode(At(known, schemas, row, requests, k), requests[k].update)
  }

  /**
   * Over every run, whatever each request had read: the rule stays in a valid mode throughout if
   * and only if every write suits the row it is written to.
   */
  lemma {:induction false} RunKeepsModeIff<P>(
    known: string -> bool, schemas: Schemas<P>, row: Row<P>, requests: seq<Request<P>>, n: nat)
    requires ValidRow(known, row) && WellTimed(requests) && n <= |requests|
    ensures AlwaysValid(known, schemas, row, requests, n) <==> AlwaysFits(known, schemas, row, requests, n)
  {
    hide ValidRow, FitsMode, Accepted, Written, WellTimed;
    if n > 0 {
      RunKeepsModeIff(known, schemas, row, requests, n - 1);
      if AlwaysValid(known, schemas, row, requests, n - 1) {
        StepKeepsModeIff(known, schemas, row, requests, n - 1);
      }
    }
  }

  lemma StepKeepsModeIff<P>(known: string -> bool, schemas: Schemas<P>, row: Row<P>, requests: seq<Request<P>>, k: nat)
    requires WellTimed(requests) && k < |requests| && AlwaysValid(known, schemas, row, requests, k)
    ensures ValidRow(known, At(known, schemas, row, requests, k + 1)) <==>
            (Writes(known, schemas, row, requests, k) ==>
               FitsMode(At(known, schemas, row, requests, k), requests[k].update))
  {
    hide ValidRow, FitsMode, ParametersAccepted, Represented, Written;
    assert requests[k].read <= k;
    var read, current := At(known, schemas, row, requests, requests[k].read), At(known, schemas, row, requests, k);
    if Writes(known, schemas, row, requests, k) {
      StaleWriteKeepsModeIff(known, schemas, read, current, requests[k].update);
    }
  }

  // ----- Parameters -----

  /** No condition of the tree that the rule runs as is rejected by its schema. */
  predicate RowPasses<P>(known: string -> bool, schemas: Schemas<P>, row: Row<P>) {
    Executable(known, row).Some? ==> FirstFailure(schemas, Executable(known, row).value, []).None?
  }

  lemma {:induction false} LeavesPass<P>(schemas: Schemas<P>, list: seq<Condition<P>>, path: Path, from: nat)
    ensures FirstInChildren(schemas, Leaves(list), path, from).None? <==>
            forall i :: 0 <= i < |list| ==> !schemas(list[i]).Rejected?
  {
    if list != [] {
      assert Leaves(list)[1..] == Leaves(list[1..]);
      LeavesPass(schemas, list[1..], path, from + 1);
      assert forall i :: 0 < i < |list| ==> list[i] == list[1..][i - 1];
    }
  }

  /** What passing means in each of the three modes. */
  lemma PassingRows<P>(known: string -> bool, schemas: Schemas<P>, row: Row<P>)
    requires ValidRow(known, row)
    ensures RowPasses(known, schemas, row) <==>
            match row.column
            case NullColumn => !schemas(Condition(row.ruleType, row.parameters)).Rejected?
            case Conditions(list) => forall i :: 0 <= i < |list| ==> !schemas(list[i]).Rejected?
            case Expression(root) => FirstFailure(schemas, root, []).None?
  {
    if row.column.Conditions? {
      LegacyListRuns(known, row.operator.value, row.column.list);
      LeavesPass(schemas, row.column.list, [], 0);
    }
  }

  /** What passed before its defaults were filled in passes afterwards. */
  lemma DefaultsPass<P(!new)>(schemas: Schemas<P>, c: Condition<P>)
    requires Stable(schemas) && !schemas(c).Rejected?
    ensures !schemas(DefaultsOf(schemas, c)).Rejected?
  {
  }

  /**
   * A write that suits the row it is written to, which passes, leaves it passing exactly when the
   * single condition it ends as, if it ends as one, is accepted under the type it ends with.
   */
  lemma StaleWritePassesIff<P(!new)>(known: string -> bool, schemas: Schemas<P>, read: Row<P>, current: Row<P>,
                                     u: Update<P>)
    requires Stable(schemas) && ValidRow(known, read) && ValidRow(known, current)
    requires Accepted(known, schemas, read, u) && FitsMode(current, u) && RowPasses(known, schemas, current)
    ensures var after := Written(known, schemas, read, current, u);
            RowPasses(known, schemas, after) <==>
            (TypeAfter(current, u) != COMPOSITE ==>
               !schemas(Condition(TypeAfter(current, u), after.parameters)).Rejected?)
  {
    var after := Written(known, schemas, read, current, u);
    StaleWriteKeepsModeIff(known, schemas, read, current, u);
    PassingRows(known, schemas, after);
    PassingRows(known, schemas, current);
    if u.expression.Given? {
      DefaultsKeepVerdict(schemas, u.expression.value, []);
    } else if u.conditions.Given? {
      forall i | 0 <= i < |u.conditions.value| && after.ruleType == COMPOSITE
        ensures !schemas(DefaultsOf(schemas, u.conditions.value[i])).Rejected?
      {
        DefaultsPass(schemas, u.conditions.value[i]);
      }
    }
  }

  /**
   * The write suits the row it is written to, and if it ends as a single condition, the schema of
   * the type it ends with accepts the parameters it ends with.
   */
  predicate Suits<P>(schemas: Schemas<P>, current: Row<P>, u: Update<P>, after: Row<P>) {
    && FitsMode(current, u)
    && (TypeAfter(current, u) != COMPOSITE ==>
          !schemas(Condition(TypeAfter(current, u), after.parameters)).Rejected?)
  }

  /** The rule has been in a valid mode, with conditions that pass, after each of the first `n` requests. */
  ghost predicate AlwaysSound<P>(known: string -> bool, schemas: Schemas<P>, row: Row<P>, requests: seq<Request<P>>,
                                 n: nat)
    requires WellTimed(requests) && n <= |requests|
  {
    forall k: nat :: k <= n ==> var now := At(known, schemas, row, requests, k);
                                ValidRow(known, now) && RowPasses(known, schemas, now)
  }

  ghost predicate AlwaysSuits<P>(known: string -> bool, schemas: Schemas<P>, row: Row<P>, requests: seq<Request<P>>,
                                 n: nat)
    requires WellTimed(requests) && n <= |requests|
  {
    forall k: nat :: k < n && Writes(known, schemas, row, requests, k) ==>
                       Suits(schemas, At(known, schemas, row, requests, k), requests[k].update,
                             At(known, schemas, row, requests, k + 1))
  }

  /**
   * Over every run, whatever each request had read: the rule stays in a valid mode with conditions
   * that pass if and only if every write suits the row it is written to, and a single condition it
   * ends as is accepted under its type.
   */
  lemma {:induction false} RunKeepsRuleIff<P(!new)>(
    known: string -> bool, schemas: Schemas<P>, row: Row<P>, requests: seq<Request<P>>, n: nat)
    requires Stable(schemas) && ValidRow(known, row) && RowPasses(known, schemas, row)
    requires WellTimed(requests) && n <= |requests|
    ensures AlwaysSound(known, schemas, row, requests, n) <==> AlwaysSuits(known, schemas, row, requests, n)
  {
    hide ValidRow, RowPasses, Suits, WellTimed, Stable, At, Writes;
    AtNext(known, schemas, row, requests, 0);
    if n > 0 {
      RunKeepsRuleIff(known, schemas, row, requests, n - 1);
      if AlwaysSound(known, schemas, row, requests, n - 1) {
        StepKeepsRuleIff(known, schemas, row, requests, n - 1);
      }
    }
  }

  lemma StepKeepsRuleIff<P(!new)>(
    known: string -> bool, schemas: Schemas<P>, row: Row<P>, requests: seq<Request<P>>, k: nat)
    requires Stable(schemas) && WellTimed(requests) && k < |requests| && AlwaysSound(known, schemas, row, requests, k)
    ensures var next := At(known, schemas, row, requests, k + 1);
            ValidRow(known, next) && RowPasses(known, schemas, next) <==>
            (Writes(known, schemas, row, requests, k) ==>
               Suits(schemas, At(known, schemas, row, requests, k), requests[k].update, next))
  {
    hide ValidRow, RowPasses, FitsMode, Stable, ParametersAccepted, Represented, Written;
    assert requests[k].read <= k;
    var read, current := At(known, schemas, row, requests, requests[k].read), At(known, schemas, row, requests, k);
    if Writes(known, schemas, row, requests, k) {
      StaleWriteKeepsModeIff(known, schemas, read, current, requests[k].update);
      if FitsMode(current, requests[k].update) {
        StaleWritePassesIff(known, schemas, read, current, requests[k].update);
      }
    }
  }

  /** The two rows agree on all that validation looks at, except what a list contains. */
  ghost predicate SameRule<P>(read: Row<P>, current: Row<P>) {
    SameKind(read, current) && read.ruleType == current.ruleType && read.parameters == current.parameters
  }

  /** A write based on an agreeing read keeps mode and parameters, unless it leaves the column behind. */
  lemma AgreeingReadKeepsRule<P(!new)>(known: string -> bool, schemas: Schemas<P>, read: Row<P>, current: Row<P>,
                                       u: Update<P>)
    requires Stable(schemas) && ValidRow(known, read) && ValidRow(known, current)
    requires Accepted(known, schemas, read, u) && RowPasses(known, schemas, current) && SameRule(read, current)
    requires !LeavesColumnBehind(current, u)
    ensures var after := Written(known, schemas, read, current, u);
            ValidRow(known, after) && RowPasses(known, schemas, after)
  {
    AgreeingReadKeepsModeIff(known, schemas, read, current, u);
    StaleWriteKeepsModeIff(known, schemas, read, current, u);
    StaleWritePassesIff(known, schemas, read, current, u);
    PassingRows(known, schemas, current);
    var t := TypeAfter(current, u);
    if t != COMPOSITE {
      if u.parameters.Some? {
        DefaultsPass(schemas, Condition(t, u.parameters.value));
      }
    }
  }

  /** Every request that writes had read a rule that agrees with the present one. */
  ghost predicate ReadsAgree<P>(known: string -> bool, schemas: Schemas<P>, row: Row<P>, requests: seq<Request<P>>)
    requires WellTimed(requests)
  {
    forall k :: 0 <= k < |requests| && Writes(known, schemas, row, requests, k) ==>
                  var current := At(known, schemas, row, requests, k);
                  SameRule(At(known, schemas, row, requests, requests[k].read), current)
                  && !LeavesColumnBehind(current, requests[k].update)
  }

  /** Over every run of such requests the rule stays in a valid mode with parameters that pass. */
  lemma {:induction false} RunKeepsRule<P(!new)>(
    known: string -> bool, schemas: Schemas<P>, row: Row<P>, requests: seq<Request<P>>, k: nat)
    requires Stable(schemas) && ValidRow(known, row) && RowPasses(known, schemas, row)
    requires WellTimed(requests) && k <= |requests| && ReadsAgree(known, schemas, row, requests)
    ensures ValidRow(known, At(known, schemas, row, requests, k))
    ensures RowPasses(known, schemas, At(known, schemas, row, requests, k))
  {
    hide ValidRow, RowPasses, Accepted, Written, Stable, SameRule, LeavesColumnBehind, At, Writes;
    AtNext(known, schemas, row, requests, k);
    if k > 0 {
      var r := requests[k - 1];
      RunKeepsRule(known, schemas, row, requests, k - 1);
      RunKeepsRule(known, schemas, row, requests, r.read);
      if Writes(known, schemas, row, requests, k - 1) {
        AgreeingReadKeepsRule(known, schemas, At(known, schemas, row, requests, r.read),
                              At(known, schemas, row, requests, k - 1), r.update);
      }
    }
  }

  // ----- Creating a rule -----

  datatype Creation<+P> = Creation(
    ruleType: string,
    parameters: P,
    operator: Field<Operator>,
    conditions: Field<seq<Condition<P>>>,
    expression: Field<Node<P>>)

  predicate CreationAccepted<P>(known: string -> bool, c: Creation<P>) {
    && (known(c.ruleType) || c.ruleType == COMPOSITE)
    && (c.conditions.Given? ==> LegacyList(known, c.conditions.value))
    && (c.expression.Given? ==> WellShaped(known, c.expression.value))
    && !(c.ruleType == COMPOSITE && !c.expression.Given?
         && (!c.operator.Given? || NoneOrEmpty(Presence(c.conditions))))
    && !(c.ruleType != COMPOSITE && (c.operator.Given? || c.conditions.Given? || c.expression.Given?))
    && !(c.operator.Given? && NoneOrEmpty(Presence(c.conditions)))
    && !(c.expression.Given? && (c.operator.Given? || c.conditions.Given?))
  }

  /** A new rule is accepted in exactly one of three forms: a single condition, a list, or an expression. */
  lemma CreationForms<P>(known: string -> bool, c: Creation<P>)
    ensures CreationAccepted(known, c) <==>
            if c.ruleType != COMPOSITE then
              known(c.ruleType) && !c.operator.Given? && !c.conditions.Given? && !c.expression.Given?
            else if c.expression.Given? then
              WellShaped(known, c.expression.value) && !c.operator.Given? && !c.conditions.Given?
            else
              c.operator.Given? && c.conditions.Given? && c.conditions.value != []
              && LegacyList(known, c.conditions.value)
  {
  }

  /** What the schemas say of the new rule, after its defaults were filled in. */
  predicate CreationPasses<P>(schemas: Schemas<P>, c: Creation<P>) {
    ParametersPass(schemas, c.ruleType, DefaultsOf(schemas, Condition(c.ruleType, c.parameters)).parameters,
                   if c.conditions.Given? then Some(DefaultsOfList(schemas, c.conditions.value)) else None,
                   if c.expression.Given? then Some(ApplyDefaults(schemas, c.expression.value)) else None)
  }

  function Create<P>(schemas: Schemas<P>, c: Creation<P>): Row<P> {
    Row(c.ruleType,
        DefaultsOf(schemas, Condition(c.ruleType, c.parameters)).parameters,
        if c.expression.Given? then None else Presence(c.operator),
        if c.expression.Given? then Expression(ApplyDefaults(schemas, c.expression.value))
        else if NoneOrEmpty(Presence(c.conditions)) then NullColumn
        else Conditions(DefaultsOfList(schemas, c.conditions.value)))
  }

  /** Every rule starts in a valid mode, and with parameters that pass. */
  lemma CreatedRowIsValid<P>(known: string -> bool, schemas: Schemas<P>, c: Creation<P>)
    requires CreationAccepted(known, c)
    ensures ValidRow(known, Create(schemas, c))
    ensures CreationPasses(schemas, c) ==> RowPasses(known, schemas, Create(schemas, c))
  {
    if c.conditions.Given? {
      DefaultsKeepLegacyList(schemas, known, c.conditions.value);
    }
    if c.expression.Given? {
      DefaultsKeepShape(schemas, known, c.expression.value);
    }
    PassingRows(known, schemas, Create(schemas, c));
  }
}
