/**
 * Evidence fingerprints (apps/api/src/lib/evidence-fingerprint.ts, lines 26-64): the batch
 * form hashes the text of one canonical value, the accumulator feeds the hash the text of a
 * canonical array piece by piece. The hash is an arbitrary function of the text it was fed.
 */
module EvidenceFingerprint {
  import opened Json
  import opened Options
  import opened CanonicalEvidence
  import opened Orders

  // ----- JSON.stringify on canonical values -----

  /** The JSON value a canonical value prints as; undefined has none. */
  function ToJson(v: Value): Option<Json>
    decreases v, 1
  {
    match v
    case Undefined => None
    case Null => Some(Json.Null)
    case Bool(truth) => Some(Json.Bool(truth))
    case Number(lexeme) => Some(Json.Number(lexeme))
    case NonFinite(_) => Some(Json.Null)
    case Str(text) => Some(Json.Str(text))
    case Date(iso) => Some(Json.Str(iso))
    case Array(items) => Some(Json.Arr(ToItems(items)))
    case Object(properties) => Some(Json.Obj(ToMembers(properties)))
    case MapOf(_) => Some(Json.Obj([]))
    case SetOf(_) => Some(Json.Obj([]))
  }

  /** An array element; undefined becomes null. */
  function ToItem(v: Value): Json
    decreases v, 2
  {
    match ToJson(v)
    case Some(json) => json
    case None => Json.Null
  }

  function ToItems(items: seq<Value>): (r: seq<Json>)
    ensures |r| == |items|
    ensures forall i :: 0 <= i < |r| ==> r[i] == ToItem(items[i])
    decreases items, 0
  {
    if items == [] then [] else [ToItem(items[0])] + ToItems(items[1..])
  }

  /** The members of an object; undefined properties are left out. */
  function ToMembers(properties: seq<Entry>): seq<Member>
    decreases properties, 0
  {
    if properties == [] then []
    else
      (match ToJson(properties[0].value)
       case Some(json) => [Member(properties[0].key, json)]
       case None => [])
      + ToMembers(properties[1..])
  }

  function Stringify(v: Value): Option<Text> {
    match ToJson(v)
    case Some(json) => Some(Print(json))
    case None => None
  }

  // ----- The batch form -----

  /** The text the batch form feeds the hash; hashing a bare undefined throws. */
  function BatchText(v: Value, leq: Collation): Option<Text> {
    Stringify(Canon(v, leq))
  }

  /** The JSON values of the elements of a canonical array. */
  function Elements(values: seq<Value>, leq: Collation): seq<Json> {
    ToItems(CanonAll(values, leq))
  }

  lemma ArrayText(values: seq<Value>, leq: Collation)
    ensures BatchText(Array(values), leq) == Some([OPEN_BRACKET] + PrintItems(Elements(values, leq)) + [CLOSE_BRACKET])
  {
  }

  // ----- The accumulator -----

  lemma {:induction false} PrintItemsAppend(items: seq<Json>, item: Json)
    ensures PrintItems(items + [item])
         == PrintItems(items) + (if items == [] then [] else [COMMA]) + Print(item)
  {
    hide Print;
    if items == [] {
      assert items + [item] == [item];
    } else {
      var first, rest := items[0], items[1..];
      PrintItemsAppend(rest, item);
      assert items == [first] + rest && items + [item] == [first] + (rest + [item]);
      ItemsCons(first, rest);
      ItemsCons(first, rest + [item]);
    }
  }

  lemma ItemsCons(first: Json, rest: seq<Json>)
    ensures PrintItems([first] + rest) == Print(first) + (if rest == [] then [] else [COMMA] + PrintItems(rest))
  {
    hide Print;
    assert ([first] + rest)[1..] == rest;
  }

  lemma ElementsAppend(values: seq<Value>, value: Value, leq: Collation)
    ensures Elements(values + [value], leq) == Elements(values, leq) + [ToItem(Canon(value, leq))]
  {
    hide Canon, ToItem;
  }

  lemma ArrayPrint(items: seq<Json>)
    ensures Print(Json.Arr(items)) == [OPEN_BRACKET] + PrintItems(items) + [CLOSE_BRACKET]
    ensures |items| == 1 ==> PrintItems(items) == Print(items[0])
  {
  }

  /** Printing a one-element array and cutting off its brackets prints the element. */
  lemma SingleElement(v: Value)
    ensures Stringify(Array([v])).Some?
    ensures var text := Stringify(Array([v])).value;
            |text| >= 2 && text[1..|text| - 1] == Print(ToItem(v))
  {
    hide Print, ToItem;
    assert ToItems([v]) == [ToItem(v)];
    ArrayPrint([ToItem(v)]);
  }

  /** The text of the elements after one more value. */
  lemma ElementsText(values: seq<Value>, value: Value, leq: Collation)
    ensures PrintItems(Elements(values + [value], leq))
         == PrintItems(Elements(values, leq)) + (if values == [] then [] else [COMMA])
            + Print(ToItem(Canon(value, leq)))
  {
    hide Print, PrintItems;
    ElementsAppend(values, value, leq);
    PrintItemsAppend(Elements(values, leq), ToItem(Canon(value, leq)));
  }

  datatype AppendOutcome = Appended | AlreadyFinalized

  class ArrayAccumulator {
    const sha: Text -> string
    const leq: Collation

    /** Everything the hash was updated with, in order. */
    var fed: Text
    var count: nat
    var result: Option<string>

    /** The values appended so far. */
    ghost var values: seq<Value>

    ghost predicate Valid()
      reads this
    {
      && count == |values|
      && fed == [OPEN_BRACKET] + PrintItems(Elements(values, leq)) + (if result.Some? then [CLOSE_BRACKET] else [])
      && (result.Some? ==> result.value == sha(fed))
    }

    constructor (sha: Text -> string, leq: Collation)
      ensures Valid() && values == [] && result == None
      ensures this.sha == sha && this.leq == leq
    {
      this.sha, this.leq := sha, leq;
      fed := [OPEN_BRACKET];
      count, result := 0, None;
      values := [];
    }

    method Append(value: Value) returns (outcome: AppendOutcome)
      requires Valid()
      modifies this
      ensures Valid()
      ensures outcome == if old(result).Some? then AlreadyFinalized else Appended
      ensures outcome == AlreadyFinalized ==>
                fed == old(fed) && count == old(count) && result == old(result) && values == old(values)
      ensures outcome == Appended ==>
                values == old(values) + [value] && result == None && old(fed) <= fed
    {
      hide Stringify, Canon, Elements, Print, PrintItems, ToItem;
      if result != None {
        return AlreadyFinalized;
      }
      if count > 0 {
        fed := fed + [COMMA];
      }
      SingleElement(Canon(value, leq));
      var canonicalArrayValue := Stringify(Array([Canon(value, leq)])).value;
      fed := fed + canonicalArrayValue[1..|canonicalArrayValue| - 1];
      count := count + 1;

      ElementsText(values, value, leq);
      values := values + [value];
      return Appended;
    }

    /** The digest is the fingerprint of the materialized array, whenever it is asked for. */
    method Digest() returns (digest: string)
      requires Valid()
      modifies this
      ensures Valid() && values == old(values) && count == old(count)
      ensures result == Some(digest) && (old(result).Some? ==> digest == old(result).value)
      ensures BatchText(Array(values), leq) == Some(fed) && digest == sha(fed)
    {
      if result == None {
        fed := fed + [CLOSE_BRACKET];
        result := Some(sha(fed));
      }
      digest := result.value;
      ArrayText(values, leq);
    }
  }

  /** Appending all values and asking for the digest computes the batch fingerprint of the array. */
  method Accumulate(values: seq<Value>, sha: Text -> string, leq: Collation) returns (digest: string)
    ensures BatchText(Array(values), leq).Some?
    ensures digest == sha(BatchText(Array(values), leq).value)
  {
    var accumulator := new ArrayAccumulator(sha, leq);
    for i := 0 to |values|
      invariant accumulator.Valid() && accumulator.values == values[..i] && accumulator.result == None
      invariant accumulator.sha == sha && accumulator.leq == leq
    {
      var outcome := accumulator.Append(values[i]);
    }
    digest := accumulator.Digest();
    assert values[..|values|] == values;
  }

  // ----- What a fingerprint's text determines -----

  /** Every number in the value prints as JSON numbers do. */
  ghost predicate Printable(v: Value)
    decreases v
  {
    match v
    case Number(lexeme) => IsLexeme(lexeme)
    case Array(items) => forall i :: 0 <= i < |items| ==> Printable(items[i])
    case Object(properties) => forall i :: 0 <= i < |properties| ==> Printable(properties[i].value)
    case MapOf(entries) => forall i :: 0 <= i < |entries| ==> Printable(entries[i].value)
    case SetOf(members) => forall i :: 0 <= i < |members| ==> Printable(members[i])
    case _ => true
  }

  lemma {:induction false} CanonKeepsPrintable(v: Value, leq: Collation)
    requires Printable(v)
    ensures Printable(Canon(v, leq))
    decreases v
  {
    match v
    case Array(items) =>
      forall i | 0 <= i < |items| ensures Printable(CanonAll(items, leq)[i]) {
        CanonKeepsPrintable(items[i], leq);
      }
    case SetOf(members) =>
      var keyed := Keyed(CanonAll(members, leq));
      forall e | e in keyed ensures Printable(e.value) {
        var i :| 0 <= i < |members| && e == keyed[i];
        CanonKeepsPrintable(members[i], leq);
      }
      SortedPrintable(keyed, ByMember(leq));
    case MapOf(entries) =>
      var canon := CanonEntries(entries, leq);
      forall e | e in canon ensures Printable(e.value) {
        var i :| 0 <= i < |entries| && e == canon[i];
        CanonKeepsPrintable(entries[i].value, leq);
      }
      SortedPrintable(canon, ByKey(leq));
      PairsPrintable(Sort(canon, ByKey(leq)));
    case Object(properties) =>
      var canon := CanonEntries(properties, leq);
      forall e | e in canon ensures Printable(e.value) {
        var i :| 0 <= i < |properties| && e == canon[i];
        CanonKeepsPrintable(properties[i].value, leq);
      }
      SortedPrintable(canon, ByKey(leq));
      PlacedPrintable(Sort(canon, ByKey(leq)));
    case _ =>
  }

  lemma SortedPrintable(es: seq<Entry>, order: Order<Entry>)
    requires forall e :: e in es ==> Printable(e.value)
    ensures forall e :: e in Sort(es, order) ==> Printable(e.value)
    ensures Printable(Array(ValuesOf(Sort(es, order))))
  {
    forall e | e in Sort(es, order) ensures Printable(e.value) {
      assert e in multiset(es);
    }
  }

  lemma PairsPrintable(es: seq<Entry>)
    requires forall e :: e in es ==> Printable(e.value)
    ensures Printable(Array(Pairs(es)))
  {
    forall i | 0 <= i < |es| ensures Printable(Pairs(es)[i]) {
      assert es[i] in es;
      assert Printable(Value.Str(es[i].key));
    }
  }

  lemma PlacedPrintable(es: seq<Entry>)
    requires forall e :: e in es ==> Printable(e.value)
    ensures Printable(Object(FromEntries(es)))
  {
    FromEntriesPermutes(es);
    var placed := FromEntries(es);
    forall i | 0 <= i < |placed| ensures Printable(placed[i].value) {
      assert placed[i] in multiset(es);
    }
  }

  lemma {:induction false} PrintableIsWellFormed(v: Value)
    requires Printable(v)
    ensures WellFormed(ToItem(v))
    decreases v, 1
  {
    match v
    case Array(items) =>
      forall i | 0 <= i < |items| ensures WellFormed(ToItems(items)[i]) {
        PrintableIsWellFormed(items[i]);
      }
      assert ToItem(v) == Json.Arr(ToItems(items));
    case Object(properties) =>
      PrintableMembers(properties);
      var members := ToMembers(properties);
      assert ToItem(v) == Json.Obj(members);
      assert forall i :: 0 <= i < |members| ==> WellFormed(members[i].value);
    case _ =>
  }

  lemma {:induction false} PrintableMembers(properties: seq<Entry>)
    requires forall i :: 0 <= i < |properties| ==> Printable(properties[i].value)
    ensures forall i :: 0 <= i < |ToMembers(properties)| ==> WellFormed(ToMembers(properties)[i].value)
    decreases properties, 0
  {
    if properties != [] {
      PrintableIsWellFormed(properties[0].value);
      PrintableMembers(properties[1..]);
    }
  }

  /**
   * The text fed to the hash for an array decodes to exactly its canonical elements: two
   * sequences feed the same text if and only if their elements are the same JSON values.
   */
  lemma ArrayTextDecodes(vs: seq<Value>, ws: seq<Value>, leq: Collation)
    requires Printable(Array(vs)) && Printable(Array(ws))
    ensures BatchText(Array(vs), leq) == BatchText(Array(ws), leq) <==> Elements(vs, leq) == Elements(ws, leq)
  {
    CanonKeepsPrintable(Array(vs), leq);
    CanonKeepsPrintable(Array(ws), leq);
    PrintableIsWellFormed(Canon(Array(vs), leq));
    PrintableIsWellFormed(Canon(Array(ws), leq));
    ArrayText(vs, leq);
    ArrayText(ws, leq);
    var a, b := Json.Arr(Elements(vs, leq)), Json.Arr(Elements(ws, leq));
    assert ToItem(Canon(Array(vs), leq)) == a && ToItem(Canon(Array(ws), leq)) == b;
    assert BatchText(Array(vs), leq) == Some(Print(a)) && BatchText(Array(ws), leq) == Some(Print(b));
    if Print(a) == Print(b) {
      PrintIsInjective(a, b);
    }
  }

  // ----- What a fingerprint's text says about the evidence -----

  /** What prints as null among the items of a list. */
  predicate IsBlank(v: Value) {
    v.Null? || v.NonFinite? || v.Undefined?
  }

  predicate IsDefined(e: Entry) {
    !e.value.Undefined?
  }

  /** The properties of an object that are printed. */
  function Defined(v: Value): (r: seq<Entry>)
    requires v.Object?
    ensures forall i :: 0 <= i < |r| ==> Weight(r[i].value) < Weight(v)
  {
    WeightOfObject(v);
    DefinedAmong(v.properties);
    Filter(v.properties, IsDefined)
  }

  lemma DefinedAmong(es: seq<Entry>)
    ensures forall i :: 0 <= i < |Filter(es, IsDefined)| ==> Filter(es, IsDefined)[i] in es
  {
    forall i | 0 <= i < |Filter(es, IsDefined)| ensures Filter(es, IsDefined)[i] in es {
      FilterCounts(es, IsDefined, Filter(es, IsDefined)[i]);
      assert Filter(es, IsDefined)[i] in multiset(Filter(es, IsDefined));
      assert Filter(es, IsDefined)[i] in multiset(es);
    }
  }

  /**
   * The two values say the same as far as JSON can tell: numbers that are not finite, null and, in
   * a list, undefined are one, and undefined properties are no properties.
   */
  ghost predicate PrintAlike(v: Value, w: Value)
    decreases Weight(v)
  {
    if IsBlank(v) && IsBlank(w) then true
    else if IsText(v) && IsText(w) then TextOf(v) == TextOf(w)
    else if IsList(v) && IsList(w) then
      && |Items(v)| == |Items(w)|
      && exists p :: Pairing(p, |Items(v)|) && ItemsPrintAlike(v, w, p)
    else if v.Object? && w.Object? then
      && |Defined(v)| == |Defined(w)|
      && exists p :: Pairing(p, |Defined(v)|) && PropertiesPrintAlike(v, w, p)
    else v == w
  }

  ghost predicate ItemsPrintAlike(v: Value, w: Value, p: seq<nat>)
    requires IsList(v) && IsList(w) && |Items(v)| == |Items(w)| && Pairing(p, |Items(v)|)
    decreases Weight(v), 0
  {
    && (v.Array? && w.Array? ==> forall i :: 0 <= i < |p| ==> p[i] == i)
    && forall i :: 0 <= i < |p| ==> PrintAlike(Items(v)[i], Items(w)[p[i]])
  }

  ghost predicate PropertiesPrintAlike(v: Value, w: Value, p: seq<nat>)
    requires v.Object? && w.Object? && |Defined(v)| == |Defined(w)| && Pairing(p, |Defined(v)|)
    decreases Weight(v), 0
  {
    forall i :: 0 <= i < |p| ==>
      && Defined(w)[p[i]].key == Defined(v)[i].key
      && PrintAlike(Defined(v)[i].value, Defined(w)[p[i]].value)
  }

  /** The JSON value that a piece of evidence is printed as. */
  function Printed(v: Value, leq: Collation): Json {
    ToItem(Canon(v, leq))
  }

  lemma ItemIsJson(v: Value)
    ensures ToItem(v) == if v.Undefined? then Json.Null else ToJson(v).value
    ensures ToJson(v).None? <==> v.Undefined?
  {
  }

  lemma ToItemsMap(items: seq<Value>)
    ensures ToItems(items) == Mapped(items, ToItem)
  {
    hide ToItem;
  }

  lemma PrintedList(v: Value, leq: Collation)
    requires IsList(v)
    ensures Printed(v, leq).Arr?
    ensures multiset(Printed(v, leq).items) == multiset(Elements(Items(v), leq))
    ensures v.Array? ==> Printed(v, leq).items == Elements(Items(v), leq)
  {
    CanonOfList(v, leq);
    var items := Canon(v, leq).items;
    ItemIsJson(Canon(v, leq));
    assert Printed(v, leq) == Json.Arr(ToItems(items));
    hide Canon, ToItem, Items;
    ToItemsMap(items);
    ToItemsMap(CanonAll(Items(v), leq));
    MappedPermutes(items, CanonAll(Items(v), leq), ToItem);
  }

  function MemberOf(e: Entry): Member {
    Member(e.key, ToItem(e.value))
  }

  lemma {:induction false} ToMembersMap(es: seq<Entry>)
    ensures ToMembers(es) == Mapped(Filter(es, IsDefined), MemberOf)
  {
    if es != [] {
      var first, rest := es[0], es[1..];
      assert es == [first] + rest;
      ToMembersMap(rest);
      FilterCons(first, rest, IsDefined);
      MappedCons(first, Filter(rest, IsDefined), MemberOf);
      assert ToJson(first.value).Some? <==> IsDefined(first);
    }
  }

  lemma {:induction false} DefinedThenCanon(es: seq<Entry>, leq: Collation)
    ensures Filter(CanonEntries(es, leq), IsDefined) == CanonEntries(Filter(es, IsDefined), leq)
  {
    if es != [] {
      var first, rest := es[0], es[1..];
      assert es == [first] + rest;
      DefinedThenCanon(rest, leq);
      hide Filter;
      var canon := Entry(first.key, Canon(first.value, leq));
      assert CanonEntries(es, leq) == [canon] + CanonEntries(rest, leq);
      FilterCons(first, rest, IsDefined);
      FilterCons(canon, CanonEntries(rest, leq), IsDefined);
      CanonEntriesCons(first, Filter(rest, IsDefined), leq);
    } else {
      assert Filter(es, IsDefined) == [];
    }
  }

  lemma CanonEntriesCons(first: Entry, rest: seq<Entry>, leq: Collation)
    ensures CanonEntries([first] + rest, leq) == [Entry(first.key, Canon(first.value, leq))] + CanonEntries(rest, leq)
  {
    assert ([first] + rest)[1..] == rest;
  }

  lemma PrintedObject(v: Value, leq: Collation)
    requires v.Object?
    ensures Printed(v, leq).Obj?
    ensures multiset(Printed(v, leq).members) == multiset(Mapped(CanonEntries(Defined(v), leq), MemberOf))
  {
    CanonOfObject(v.properties, leq);
    var es := Canon(v, leq).properties;
    ItemIsJson(Canon(v, leq));
    assert Printed(v, leq) == Json.Obj(ToMembers(es));
    hide Canon, ToMembers, Filter, Mapped;
    ToMembersMap(es);
    FilterPermutes(es, CanonEntries(v.properties, leq), IsDefined);
    DefinedThenCanon(v.properties, leq);
    MappedPermutes(Filter(es, IsDefined), CanonEntries(Defined(v), leq), MemberOf);
  }

  lemma KindOfPrinted(v: Value, leq: Collation)
    ensures IsList(v) <==> Printed(v, leq).Arr?
    ensures v.Object? <==> Printed(v, leq).Obj?
    ensures IsBlank(v) <==> Printed(v, leq).Null?
    ensures IsText(v) <==> Printed(v, leq).Str?
    ensures v.Number? <==> Printed(v, leq).Number?
    ensures IsText(v) ==> Printed(v, leq).text == TextOf(v)
    ensures v.Number? ==> Printed(v, leq).lexeme == v.lexeme
    ensures v.Bool? ==> Printed(v, leq) == Json.Bool(v.truth)
  {
    ItemIsJson(Canon(v, leq));
    KindOfCanon(v, leq);
    hide Canon, ToItem;
  }

  /** Evidence printed as the same JSON value says the same, as far as JSON can tell. */
  lemma {:induction false} PrintedDeterminesEvidence(v: Value, w: Value, leq: Collation)
    requires Printed(v, leq) == Printed(w, leq)
    ensures PrintAlike(v, w)
    decreases Weight(v)
  {
    if IsList(v) && IsList(w) {
      PrintedDeterminesItems(v, w, leq);
    } else if v.Object? && w.Object? {
      PrintedDeterminesProperties(v, w, leq);
    } else {
      KindOfPrinted(v, leq);
      KindOfPrinted(w, leq);
      hide Printed;
    }
  }

  lemma {:induction false} PrintedDeterminesItems(v: Value, w: Value, leq: Collation)
    requires IsList(v) && IsList(w) && Printed(v, leq) == Printed(w, leq)
    ensures PrintAlike(v, w)
    decreases Weight(v), 0
  {
    PrintedList(v, leq);
    PrintedList(w, leq);
    hide *;
    var xs, ys := Items(v), Items(w);
    var a, b := Elements(xs, leq), Elements(ys, leq);
    ElementsAre(xs, leq);
    ElementsAre(ys, leq);
    var p := PairUp(a, b);
    if v.Array? && w.Array? {
      p := Identity(|a|);
      IdentityPairs(|a|);
    }
    forall i | 0 <= i < |p| ensures PrintAlike(xs[i], ys[p[i]]) {
      assert a[i] == b[p[i]];
      PrintedDeterminesEvidence(xs[i], ys[p[i]], leq);
    }
    PairedItemsPrintAlike(v, w, p);
  }

  lemma ElementsAre(values: seq<Value>, leq: Collation)
    ensures |Elements(values, leq)| == |values|
    ensures forall i :: 0 <= i < |values| ==> Elements(values, leq)[i] == Printed(values[i], leq)
  {
  }

  lemma PairedItemsPrintAlike(v: Value, w: Value, p: seq<nat>)
    requires IsList(v) && IsList(w) && |Items(v)| == |Items(w)| && Pairing(p, |Items(v)|)
    requires v.Array? && w.Array? ==> forall i :: 0 <= i < |p| ==> p[i] == i
    requires forall i :: 0 <= i < |p| ==> PrintAlike(Items(v)[i], Items(w)[p[i]])
    ensures PrintAlike(v, w)
  {
    hide Items, Pairing;
    assert ItemsPrintAlike(v, w, p);
  }

  lemma {:induction false} PrintedDeterminesProperties(v: Value, w: Value, leq: Collation)
    requires v.Object? && w.Object? && Printed(v, leq) == Printed(w, leq)
    ensures PrintAlike(v, w)
    decreases Weight(v), 0
  {
    PrintedObject(v, leq);
    PrintedObject(w, leq);
    hide *;
    var xs, ys := Defined(v), Defined(w);
    var a, b := Mapped(CanonEntries(xs, leq), MemberOf), Mapped(CanonEntries(ys, leq), MemberOf);
    MembersAre(xs, leq);
    MembersAre(ys, leq);
    var p := PairUp(a, b);
    forall i | 0 <= i < |p|
      ensures ys[p[i]].key == xs[i].key && PrintAlike(xs[i].value, ys[p[i]].value)
    {
      assert a[i] == b[p[i]];
      PrintedDeterminesEvidence(xs[i].value, ys[p[i]].value, leq);
    }
    PairedPropertiesPrintAlike(v, w, p);
  }

  lemma MembersAre(es: seq<Entry>, leq: Collation)
    ensures var members := Mapped(CanonEntries(es, leq), MemberOf);
            && |members| == |es|
            && forall i :: 0 <= i < |es| ==> members[i] == Member(es[i].key, Printed(es[i].value, leq))
  {
    hide Canon, ToItem;
    forall i | 0 <= i < |es|
      ensures MemberOf(CanonEntries(es, leq)[i]) == Member(es[i].key, Printed(es[i].value, leq))
    {
    }
  }

  lemma PairedPropertiesPrintAlike(v: Value, w: Value, p: seq<nat>)
    requires v.Object? && w.Object? && |Defined(v)| == |Defined(w)| && Pairing(p, |Defined(v)|)
    requires forall i :: 0 <= i < |p| ==> Defined(w)[p[i]].key == Defined(v)[i].key
    requires forall i :: 0 <= i < |p| ==> PrintAlike(Defined(v)[i].value, Defined(w)[p[i]].value)
    ensures PrintAlike(v, w)
  {
    hide Defined, Pairing;
    assert PropertiesPrintAlike(v, w, p);
  }

  /** Evidence with one fingerprint text says the same, as far as JSON can tell. */
  lemma TextDeterminesEvidence(v: Value, w: Value, leq: Collation)
    requires Printable(v) && Printable(w)
    requires BatchText(v, leq).Some? && BatchText(v, leq) == BatchText(w, leq)
    ensures PrintAlike(v, w)
  {
    CanonKeepsPrintable(v, leq);
    CanonKeepsPrintable(w, leq);
    PrintableIsWellFormed(Canon(v, leq));
    PrintableIsWellFormed(Canon(w, leq));
    ItemIsJson(Canon(v, leq));
    ItemIsJson(Canon(w, leq));
    assert BatchText(v, leq) == Some(Print(Printed(v, leq))) && BatchText(w, leq) == Some(Print(Printed(w, leq)));
    PrintIsInjective(Printed(v, leq), Printed(w, leq));
    PrintedDeterminesEvidence(v, w, leq);
  }

  /** The string forms that sets are sorted by are, for scalars, their JSON texts without quotes. */
  lemma StringFormsOfScalars(v: Value)
    requires v.Null? || v.Bool? || v.Number? || IsText(v)
    ensures if IsText(v) then StringForm(v) == TextOf(v) else Stringify(v) == Some(StringForm(v))
  {
    assert v.Null? ==> ToJson(v) == Some(Json.Null) && Print(Json.Null) == StringForm(v);
    assert v.Bool? ==> ToJson(v) == Some(Json.Bool(v.truth)) && Print(Json.Bool(v.truth)) == StringForm(v);
    assert v.Number? ==> ToJson(v) == Some(Json.Number(v.lexeme)) && Print(Json.Number(v.lexeme)) == StringForm(v);
    assert IsText(v) ==> StringForm(v) == TextOf(v);
  }

  /** Values that differ only in insertion order have one fingerprint text. */
  lemma SameEvidenceSameText(v: Value, w: Value, leq: Collation)
    requires TotalPreorder(leq) && SameEvidence(v, w, leq)
    ensures BatchText(v, leq) == BatchText(w, leq)
  {
    InsertionOrderIsIrrelevant(v, w, leq);
  }
}
