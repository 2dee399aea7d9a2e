/**
 * Canonical form of evidence values (apps/api/src/lib/evidence-fingerprint.ts, lines 3-24):
 * dates become strings, maps and sets become sorted arrays, and object keys are sorted, at
 * every depth. The locale order of strings is a parameter; it may tie different strings.
 */
module CanonicalEvidence {
  import opened Json
  import opened Options
  import opened Orders

  /** A JavaScript value as the canonicalizer distinguishes it. */
  datatype Value =
    | Undefined
    | Null
    | Bool(truth: bool)
    | Number(lexeme: Text)
    | NonFinite(name: Text)
    | Str(text: Text)
    | Date(iso: Text)
    | Array(items: seq<Value>)
    | Object(properties: seq<Entry>)
    | MapOf(entries: seq<Entry>)
    | SetOf(members: seq<Value>)

  /** A property, or a map entry with the string form of its key. */
  datatype Entry = Entry(key: Text, value: Value)

  type Collation = Order<Text>

  /** Entries are compared by their keys. */
  function ByKey(leq: Collation): Order<Entry> {
    (x: Entry, y: Entry) => leq(x.key, y.key)
  }

  lemma ByKeyOrders(leq: Collation)
    requires TotalPreorder(leq)
    ensures TotalPreorder(ByKey(leq))
  {
    forall a: Entry, b: Entry ensures ByKey(leq)(a, b) || ByKey(leq)(b, a) {
      assert leq(a.key, b.key) || leq(b.key, a.key);
    }
    forall a: Entry, b: Entry, c: Entry | ByKey(leq)(a, b) && ByKey(leq)(b, c) ensures ByKey(leq)(a, c) {
      assert leq(a.key, b.key) && leq(b.key, c.key);
    }
  }

  /** Set members are compared by their string forms, save that undefined comes after everything else. */
  function ByMember(leq: Collation): Order<Entry> {
    (x: Entry, y: Entry) => y.value.Undefined? || (!x.value.Undefined? && leq(x.key, y.key))
  }

  lemma ByMemberOrders(leq: Collation)
    requires TotalPreorder(leq)
    ensures TotalPreorder(ByMember(leq))
  {
    forall a: Entry, b: Entry ensures ByMember(leq)(a, b) || ByMember(leq)(b, a) {
      assert leq(a.key, b.key) || leq(b.key, a.key);
    }
    forall a: Entry, b: Entry, c: Entry | ByMember(leq)(a, b) && ByMember(leq)(b, c) ensures ByMember(leq)(a, c) {
      if !a.value.Undefined? && !b.value.Undefined? && !c.value.Undefined? {
        assert leq(a.key, b.key) && leq(b.key, c.key);
      }
    }
  }

  /** No two positions share a key. */
  ghost predicate KeysDiffer(es: seq<Entry>) {
    forall i, j :: 0 <= i < j < |es| ==> es[i].key != es[j].key
  }

  /** No two positions tie. */
  ghost predicate Apart(es: seq<Entry>, order: Order<Entry>) {
    forall i, j :: 0 <= i < j < |es| ==> !Ties(order, es[i], es[j])
  }

  lemma ApartDecides(es: seq<Entry>, order: Order<Entry>)
    requires TotalPreorder(order) && Apart(es, order)
    ensures AllDiffer(es) && TiesDecide(multiset(es), order)
  {
    assert forall e :: Ties(order, e, e);
  }

  /** No two positions hold the same entry. */
  ghost predicate AllDiffer(es: seq<Entry>) {
    forall i, j :: 0 <= i < j < |es| ==> es[i] != es[j]
  }

  // ----- What Object.fromEntries makes of sorted entries -----

  /** The number a digit string denotes. */
  function IndexValue(key: Text): nat {
    if key == [] then 0
    else 10 * IndexValue(key[..|key| - 1])
         + if 48 <= key[|key| - 1] <= 57 then key[|key| - 1] - 48 else 0
  }

  /** Keys that JavaScript objects enumerate first: canonical array indices. */
  predicate IsIndexKey(key: Text) {
    && key != [] && (forall i :: 0 <= i < |key| ==> 48 <= key[i] <= 57)
    && (key[0] == 48 ==> |key| == 1)
    && IndexValue(key) < 0xFFFF_FFFF
  }

  predicate IsIndexEntry(e: Entry) {
    IsIndexKey(e.key)
  }

  predicate IsOtherEntry(e: Entry) {
    !IsIndexKey(e.key)
  }

  predicate IndexOrder(a: Entry, b: Entry) {
    IndexValue(a.key) <= IndexValue(b.key)
  }

  /** The entries of a new object in enumeration order: indices ascending, then the rest as inserted. */
  function FromEntries(es: seq<Entry>): seq<Entry> {
    Sort(Filter(es, IsIndexEntry), IndexOrder) + Filter(es, IsOtherEntry)
  }

  lemma FromEntriesPermutes(es: seq<Entry>)
    ensures multiset(FromEntries(es)) == multiset(es)
  {
    hide Filter, Sort;
    forall e ensures multiset(FromEntries(es))[e] == multiset(es)[e] {
      FilterCounts(es, IsIndexEntry, e);
      FilterCounts(es, IsOtherEntry, e);
    }
  }

  /** A number written without leading zeros. */
  predicate IsNumeral(key: Text) {
    (forall i :: 0 <= i < |key| ==> 48 <= key[i] <= 57) && (key != [] ==> key[0] != 48)
  }

  lemma {:induction false} NumeralIsPositive(key: Text)
    requires IsNumeral(key) && key != []
    ensures IndexValue(key) > 0
  {
    if |key| > 1 {
      NumeralIsPositive(key[..|key| - 1]);
    }
  }

  lemma {:induction false} NumeralsDiffer(a: Text, b: Text)
    requires IsNumeral(a) && IsNumeral(b) && IndexValue(a) == IndexValue(b)
    ensures a == b
  {
    if a == [] || b == [] {
      if a != [] {
        NumeralIsPositive(a);
      }
      if b != [] {
        NumeralIsPositive(b);
      }
    } else {
      var a', b' := a[..|a| - 1], b[..|b| - 1];
      LastDigit(IndexValue(a'), a[|a| - 1] - 48, IndexValue(b'), b[|b| - 1] - 48);
      NumeralsDiffer(a', b');
      assert a == a' + [a[|a| - 1]] && b == b' + [b[|b| - 1]];
    }
  }

  lemma LastDigit(m: nat, d: nat, n: nat, e: nat)
    requires 10 * m + d == 10 * n + e && d < 10 && e < 10
    ensures m == n && d == e
  {
  }

  /** An array index is written in one way. */
  lemma IndexKeysDiffer(a: Text, b: Text)
    requires IsIndexKey(a) && IsIndexKey(b) && IndexValue(a) == IndexValue(b)
    ensures a == b
  {
    if a[0] != 48 {
      NumeralIsPositive(a);
    }
    if b[0] != 48 {
      NumeralIsPositive(b);
    }
    if a[0] != 48 && b[0] != 48 {
      NumeralsDiffer(a, b);
    } else {
      assert IndexValue([48]) == 10 * IndexValue([]);
      assert a[0] == 48 ==> a == [48];
      assert b[0] == 48 ==> b == [48];
    }
  }

  /** The decimal numeral of a number. */
  function Decimal(n: nat): Text {
    (if n < 10 then [] else Decimal(n / 10)) + [48 + n % 10]
  }

  lemma {:induction false} DecimalIsIndex(n: nat)
    ensures Decimal(n) != [] && forall i :: 0 <= i < |Decimal(n)| ==> 48 <= Decimal(n)[i] <= 57
    ensures Decimal(n)[0] == 48 ==> n == 0 && |Decimal(n)| == 1
    ensures IndexValue(Decimal(n)) == n
  {
    if n >= 10 {
      DecimalIsIndex(n / 10);
      assert Decimal(n)[..|Decimal(n)| - 1] == Decimal(n / 10);
    } else {
      assert Decimal(n) == [48 + n] && Decimal(n)[..0] == [];
    }
  }

  /** A key is an array index exactly when it is the numeral of a number below 2^32 - 1. */
  lemma IndexKeyIff(key: Text)
    ensures IsIndexKey(key) <==> exists n: nat :: n <= 4294967294 && key == Decimal(n)
    ensures IsIndexKey(key) ==> key == Decimal(IndexValue(key))
  {
    if IsIndexKey(key) {
      var n := IndexValue(key);
      DecimalIsIndex(n);
      hide IndexValue, Decimal;
      IndexKeysDiffer(key, Decimal(n));
    }
    forall n: nat | n <= 4294967294 && key == Decimal(n) ensures IsIndexKey(key) {
      DecimalIsIndex(n);
    }
  }

  /** The index entries of an object come out in one order, however they went in. */
  lemma IndexPartIsFixed(es: seq<Entry>, fs: seq<Entry>)
    requires KeysDiffer(es) && multiset(es) == multiset(fs)
    ensures Sort(Filter(es, IsIndexEntry), IndexOrder) == Sort(Filter(fs, IsIndexEntry), IndexOrder)
  {
    hide Filter, Sort, IsIndexKey, IndexValue;
    var kept := multiset(Filter(es, IsIndexEntry));
    forall x, y | x in kept && y in kept && Ties(IndexOrder, x, y) ensures x == y {
      FilterCounts(es, IsIndexEntry, x);
      FilterCounts(es, IsIndexEntry, y);
      IndexKeysDiffer(x.key, y.key);
      var i := SomewhereIn(x, es);
      var j := SomewhereIn(y, es);
    }
    FilterPermutes(es, fs, IsIndexEntry);
    SortIgnoresOrder(Filter(es, IsIndexEntry), Filter(fs, IsIndexEntry), IndexOrder);
  }

  // ----- The canonicalizer -----

  /** What `String(value)` yields for a canonical value. */
  function StringForm(value: Value): Text
    decreases value, 1
  {
    match value
    case Undefined => [117, 110, 100, 101, 102, 105, 110, 101, 100]
    case Null => NULL_TEXT
    case Bool(truth) => if truth then TRUE_TEXT else FALSE_TEXT
    case Number(lexeme) => lexeme
    case NonFinite(name) => name
    case Str(text) => text
    case Date(iso) => iso
    case Array(items) => JoinForms(items)
    case Object(_) => OBJECT_FORM
    case MapOf(_) => OBJECT_FORM
    case SetOf(_) => OBJECT_FORM
  }

  /** "[object Object]" */
  const OBJECT_FORM: Text := [91, 111, 98, 106, 101, 99, 116, 32, 79, 98, 106, 101, 99, 116, 93]

  /** `Array.prototype.join`: nothing stands for null and undefined. */
  function JoinForms(items: seq<Value>): Text
    decreases items, 0
  {
    if items == [] then []
    else
      var first := if items[0].Null? || items[0].Undefined? then [] else StringForm(items[0]);
      if |items| == 1 then first else first + [COMMA] + JoinForms(items[1..])
  }

  /** Joining goes piece by piece, with a comma in between; null and undefined leave nothing. */
  lemma {:induction false} JoinOfMore(a: seq<Value>, b: seq<Value>)
    requires a != [] && b != []
    ensures StringForm(Array(a + b)) == StringForm(Array(a)) + [COMMA] + StringForm(Array(b))
    ensures |a| == 1 ==> StringForm(Array(a)) == if a[0] in {Value.Null, Value.Undefined} then [] else StringForm(a[0])
    ensures StringForm(Array([])) == []
  {
    hide StringForm;
    ArrayForm(a);
    ArrayForm(b);
    ArrayForm(a + b);
    ArrayForm([]);
    var rest := a[1..];
    assert (a + b)[0] == a[0] && (a + b)[1..] == rest + b;
    if rest == [] {
      assert rest + b == b;
    } else {
      JoinOfMore(rest, b);
      ArrayForm(rest);
      ArrayForm(rest + b);
    }
  }

  lemma ArrayForm(items: seq<Value>)
    ensures StringForm(Array(items)) == JoinForms(items)
  {
  }

  function PairOf(e: Entry): Value {
    Array([Value.Str(e.key), e.value])
  }

  function Pairs(es: seq<Entry>): seq<Value> {
    seq(|es|, i requires 0 <= i < |es| => PairOf(es[i]))
  }

  function Keyed(values: seq<Value>): seq<Entry> {
    seq(|values|, i requires 0 <= i < |values| => Entry(StringForm(values[i]), values[i]))
  }

  function ValuesOf(es: seq<Entry>): seq<Value> {
    seq(|es|, i requires 0 <= i < |es| => es[i].value)
  }

  function Canon(value: Value, leq: Collation): Value
    decreases value, 1
  {
    match value
    case Date(iso) => Value.Str(iso)
    case MapOf(entries) => Array(Pairs(Sort(CanonEntries(entries, leq), ByKey(leq))))
    case SetOf(members) => Array(ValuesOf(Sort(Keyed(CanonAll(members, leq)), ByMember(leq))))
    case Array(items) => Array(CanonAll(items, leq))
    case Object(properties) => Object(FromEntries(Sort(CanonEntries(properties, leq), ByKey(leq))))
    case _ => value
  }

  function CanonAll(values: seq<Value>, leq: Collation): (r: seq<Value>)
    ensures |r| == |values|
    ensures forall i :: 0 <= i < |r| ==> r[i] == Canon(values[i], leq)
    decreases values, 0
  {
    if values == [] then [] else [Canon(values[0], leq)] + CanonAll(values[1..], leq)
  }

  function CanonEntries(es: seq<Entry>, leq: Collation): (r: seq<Entry>)
    ensures |r| == |es|
    ensures forall i :: 0 <= i < |r| ==> r[i] == Entry(es[i].key, Canon(es[i].value, leq))
    decreases es, 0
  {
    if es == [] then []
    else [Entry(es[0].key, Canon(es[0].value, leq))] + CanonEntries(es[1..], leq)
  }

  /** An entry with its value canonicalized, as a mapping of entries. */
  function CanonEntry(leq: Collation): Entry -> Entry {
    (e: Entry) => Entry(e.key, Canon(e.value, leq))
  }

  lemma CanonEntriesMap(es: seq<Entry>, leq: Collation)
    ensures CanonEntries(es, leq) == Mapped(es, CanonEntry(leq))
  {
    hide Canon;
  }

  /** Sorting properties before canonicalizing their values, as the code does, makes no difference. */
  lemma SortCommutesWithCanon(es: seq<Entry>, leq: Collation)
    ensures CanonEntries(Sort(es, ByKey(leq)), leq) == Sort(CanonEntries(es, leq), ByKey(leq))
  {
    hide Canon, Sort, CanonEntries, Mapped;
    CanonEntriesMap(es, leq);
    CanonEntriesMap(Sort(es, ByKey(leq)), leq);
    SortThenMap(es, CanonEntry(leq), ByKey(leq), ByKey(leq));
  }

  // ----- The result does not depend on insertion order -----

  /**
   * The two values differ at most in the order of object properties, of map entries and of set
   * members, at any depth, where the locale order tells the keys or string forms apart. Undefined
   * is told apart from every other member of a set.
   */
  ghost predicate SameEvidence(v: Value, w: Value, leq: Collation)
    decreases v, 1
  {
    match (v, w)
    case (Array(xs), Array(ys)) =>
      |xs| == |ys| && forall i :: 0 <= i < |xs| ==> SameEvidence(xs[i], ys[i], leq)
    case (Object(es), Object(fs)) => SameEntries(v, es, fs, leq)
    case (MapOf(es), MapOf(fs)) => SameEntries(v, es, fs, leq)
    case (SetOf(xs), SetOf(ys)) =>
      && |xs| == |ys|
      && Apart(Keyed(CanonAll(xs, leq)), ByMember(leq)) && Apart(Keyed(CanonAll(ys, leq)), ByMember(leq))
      && forall i :: 0 <= i < |xs| ==> exists j :: 0 <= j < |ys| && SameEvidence(xs[i], ys[j], leq)
    case _ => v == w
  }

  /** Entries with keys that do not tie, each with a counterpart of the same key. */
  ghost predicate SameEntries(v: Value, es: seq<Entry>, fs: seq<Entry>, leq: Collation)
    requires v == Object(es) || v == MapOf(es)
    decreases v, 0
  {
    && |es| == |fs| && Apart(es, ByKey(leq)) && Apart(fs, ByKey(leq))
    && forall i :: 0 <= i < |es| ==>
         exists j :: 0 <= j < |fs| && fs[j].key == es[i].key && SameEvidence(es[i].value, fs[j].value, leq)
  }

  /** Equally many different entries, each found on the other side, are the same entries. */
  lemma {:induction false} DistinctSubsetIsAll(a: seq<Entry>, b: multiset<Entry>)
    requires AllDiffer(a) && |a| == |b|
    requires forall e :: e in a ==> e in b
    ensures multiset(a) == b
  {
    if a == [] {
      assert b == multiset{};
    } else {
      HeadAndTail(a);
      var rest := b - multiset{a[0]};
      assert a[0] in a && b == rest + multiset{a[0]};
      forall e | e in a[1..] ensures e in rest {
        assert e in a && e != a[0];
      }
      DistinctSubsetIsAll(a[1..], rest);
    }
  }

  lemma SortIgnoresArrangement(a: seq<Entry>, b: seq<Entry>, order: Order<Entry>)
    requires TotalPreorder(order) && Apart(a, order) && |a| == |b|
    requires forall e :: e in a ==> e in b
    ensures Sort(a, order) == Sort(b, order)
  {
    hide Sort;
    ApartDecides(a, order);
    DistinctSubsetIsAll(a, multiset(b));
    SortIgnoresOrder(a, b, order);
  }

  /** Values that differ only in insertion order have one canonical form. */
  lemma {:induction false} InsertionOrderIsIrrelevant(v: Value, w: Value, leq: Collation)
    requires TotalPreorder(leq) && SameEvidence(v, w, leq)
    ensures Canon(v, leq) == Canon(w, leq)
    decreases v, 1
  {
    hide TotalPreorder;
    match (v, w)
    case (Array(xs), Array(ys)) =>
      forall i | 0 <= i < |xs| ensures Canon(xs[i], leq) == Canon(ys[i], leq) {
        InsertionOrderIsIrrelevant(xs[i], ys[i], leq);
      }
    case (Object(es), Object(fs)) => EntryOrderIsIrrelevant(v, es, fs, leq);
    case (MapOf(es), MapOf(fs)) => EntryOrderIsIrrelevant(v, es, fs, leq);
    case (SetOf(xs), SetOf(ys)) => MemberOrderIsIrrelevant(v, xs, ys, leq);
    case _ =>
  }

  lemma {:induction false} EntryOrderIsIrrelevant(v: Value, es: seq<Entry>, fs: seq<Entry>, leq: Collation)
    requires TotalPreorder(leq) && (v == Object(es) || v == MapOf(es)) && SameEntries(v, es, fs, leq)
    ensures Sort(CanonEntries(es, leq), ByKey(leq)) == Sort(CanonEntries(fs, leq), ByKey(leq))
    decreases v, 0
  {
    hide TotalPreorder, Canon, SameEvidence;
    var ce, cf := CanonEntries(es, leq), CanonEntries(fs, leq);
    forall e | e in ce ensures e in cf {
      var i :| 0 <= i < |ce| && ce[i] == e;
      var j :| 0 <= j < |fs| && fs[j].key == es[i].key && SameEvidence(es[i].value, fs[j].value, leq);
      InsertionOrderIsIrrelevant(es[i].value, fs[j].value, leq);
      assert cf[j] == e;
    }
    ByKeyOrders(leq);
    SortIgnoresArrangement(ce, cf, ByKey(leq));
  }

  lemma {:induction false} MemberOrderIsIrrelevant(v: Value, xs: seq<Value>, ys: seq<Value>, leq: Collation)
    requires TotalPreorder(leq) && v == SetOf(xs) && SameEvidence(v, SetOf(ys), leq)
    ensures Sort(Keyed(CanonAll(xs, leq)), ByMember(leq)) == Sort(Keyed(CanonAll(ys, leq)), ByMember(leq))
    decreases v, 0
  {
    hide TotalPreorder, Canon, StringForm;
    var kx, ky := Keyed(CanonAll(xs, leq)), Keyed(CanonAll(ys, leq));
    forall e | e in kx ensures e in ky {
      var i :| 0 <= i < |kx| && kx[i] == e;
      var j :| 0 <= j < |ys| && SameEvidence(xs[i], ys[j], leq);
      InsertionOrderIsIrrelevant(xs[i], ys[j], leq);
      assert ky[j] == e;
    }
    ByMemberOrders(leq);
    SortIgnoresArrangement(kx, ky, ByMember(leq));
  }

  // ----- Canonicalizing twice -----

  /** Objects hold each key once, as JavaScript objects do. */
  ghost predicate ProperObjects(v: Value)
    decreases v
  {
    match v
    case Array(items) => forall i :: 0 <= i < |items| ==> ProperObjects(items[i])
    case SetOf(members) => forall i :: 0 <= i < |members| ==> ProperObjects(members[i])
    case MapOf(entries) => forall i :: 0 <= i < |entries| ==> ProperObjects(entries[i].value)
    case Object(properties) =>
      && (forall i :: 0 <= i < |properties| ==> ProperObjects(properties[i].value))
      && KeysDiffer(properties)
    case _ => true
  }

  /** A value that canonicalizing leaves alone. */
  ghost predicate Fixed(v: Value, leq: Collation) {
    Canon(v, leq) == v
  }

  lemma AllFixed(values: seq<Value>, leq: Collation)
    requires forall v :: v in values ==> Fixed(v, leq)
    ensures CanonAll(values, leq) == values
  {
    forall i | 0 <= i < |values| ensures CanonAll(values, leq)[i] == values[i] {
      assert values[i] in values;
    }
  }

  lemma EntriesFixed(es: seq<Entry>, leq: Collation)
    requires forall e :: e in es ==> Fixed(e.value, leq)
    ensures CanonEntries(es, leq) == es
  {
    forall i | 0 <= i < |es| ensures CanonEntries(es, leq)[i] == es[i] {
      assert es[i] in es;
    }
  }

  lemma PairsFixed(es: seq<Entry>, leq: Collation)
    requires forall e :: e in es ==> Fixed(e.value, leq)
    ensures Fixed(Array(Pairs(es)), leq)
  {
    forall v | v in Pairs(es) ensures Fixed(v, leq) {
      var i :| 0 <= i < |es| && v == PairOf(es[i]);
      AllFixed([Value.Str(es[i].key), es[i].value], leq);
    }
    AllFixed(Pairs(es), leq);
  }

  lemma SortedMembersFixed(es: seq<Entry>, leq: Collation)
    requires forall e :: e in es ==> Fixed(e.value, leq)
    ensures Fixed(Array(ValuesOf(Sort(es, ByMember(leq)))), leq)
  {
    var values := ValuesOf(Sort(es, ByMember(leq)));
    forall v | v in values ensures Fixed(v, leq) {
      var i :| 0 <= i < |values| && v == Sort(es, ByMember(leq))[i].value;
      assert Sort(es, ByMember(leq))[i] in multiset(es);
    }
    AllFixed(values, leq);
  }

  /** Placing the properties of an object leaves its other keys in their order. */
  lemma OthersOfPlaced(es: seq<Entry>)
    ensures Filter(FromEntries(es), IsOtherEntry) == Filter(es, IsOtherEntry)
  {
    hide Filter, Sort, IsIndexKey;
    var indexed := Sort(Filter(es, IsIndexEntry), IndexOrder);
    forall e | e in indexed ensures IsIndexEntry(e) {
      assert e in multiset(indexed);
      FilterCounts(es, IsIndexEntry, e);
    }
    FilterConcat(indexed, Filter(es, IsOtherEntry), IsOtherEntry);
    FilterNone(indexed, IsOtherEntry);
    FilterTwice(es, IsOtherEntry);
  }

  /** Sorting the placed properties again and placing them again leads to the same object. */
  lemma PlacedTwice(es: seq<Entry>, leq: Collation)
    requires TotalPreorder(leq) && KeysDiffer(es)
    ensures var placed := FromEntries(Sort(es, ByKey(leq)));
            FromEntries(Sort(placed, ByKey(leq))) == placed
  {
    hide Filter, Sort, KeysDiffer, TotalPreorder, IsIndexEntry, IsOtherEntry;
    ByKeyOrders(leq);
    var sorted := Sort(es, ByKey(leq));
    var placed := FromEntries(sorted);
    FromEntriesPermutes(sorted);
    OthersOfPlaced(sorted);
    var again := Sort(placed, ByKey(leq));
    IndexPartIsFixed(es, sorted);
    IndexPartIsFixed(es, again);
    SortThenFilter(placed, ByKey(leq), IsOtherEntry);
    SortThenFilter(es, ByKey(leq), IsOtherEntry);
    SortSorts(Filter(es, IsOtherEntry), ByKey(leq));
    SortOfSorted(Filter(sorted, IsOtherEntry), ByKey(leq));
  }

  lemma SortedPropertiesFixed(es: seq<Entry>, leq: Collation)
    requires TotalPreorder(leq) && KeysDiffer(es)
    requires forall e :: e in es ==> Fixed(e.value, leq)
    ensures Fixed(Object(FromEntries(Sort(es, ByKey(leq)))), leq)
  {
    hide TotalPreorder, FromEntries, Sort, KeysDiffer;
    var placed := FromEntries(Sort(es, ByKey(leq)));
    FromEntriesPermutes(Sort(es, ByKey(leq)));
    forall e | e in placed ensures Fixed(e.value, leq) {
      assert e in multiset(es);
    }
    EntriesFixed(placed, leq);
    PlacedTwice(es, leq);
  }

  /** Canonicalizing a canonical value changes nothing. */
  lemma {:induction false} CanonIsIdempotent(v: Value, leq: Collation)
    requires TotalPreorder(leq) && ProperObjects(v)
    ensures Fixed(Canon(v, leq), leq)
    decreases v, 1
  {
    hide TotalPreorder, KeysDiffer;
    match v
    case Array(items) =>
      forall x | x in CanonAll(items, leq) ensures Fixed(x, leq) {
        var i :| 0 <= i < |items| && x == Canon(items[i], leq);
        CanonIsIdempotent(items[i], leq);
      }
      AllFixed(CanonAll(items, leq), leq);
    case SetOf(members) =>
      var keyed := Keyed(CanonAll(members, leq));
      forall e | e in keyed ensures Fixed(e.value, leq) {
        var i :| 0 <= i < |members| && e.value == Canon(members[i], leq);
        CanonIsIdempotent(members[i], leq);
      }
      SortedMembersFixed(keyed, leq);
    case MapOf(entries) =>
      CanonEntriesAreFixed(v, entries, leq);
      var sorted := Sort(CanonEntries(entries, leq), ByKey(leq));
      forall e | e in sorted ensures Fixed(e.value, leq) {
        assert e in multiset(CanonEntries(entries, leq));
      }
      PairsFixed(sorted, leq);
    case Object(properties) =>
      CanonEntriesAreFixed(v, properties, leq);
      SameKeysDiffer(properties, leq);
      SortedPropertiesFixed(CanonEntries(properties, leq), leq);
    case _ =>
  }

  lemma SameKeysDiffer(es: seq<Entry>, leq: Collation)
    requires KeysDiffer(es)
    ensures KeysDiffer(CanonEntries(es, leq))
  {
  }

  lemma {:induction false} CanonEntriesAreFixed(v: Value, es: seq<Entry>, leq: Collation)
    requires TotalPreorder(leq) && ProperObjects(v) && (v == Object(es) || v == MapOf(es))
    ensures forall e :: e in CanonEntries(es, leq) ==> Fixed(e.value, leq)
    decreases v, 0
  {
    forall e | e in CanonEntries(es, leq) ensures Fixed(e.value, leq) {
      var i :| 0 <= i < |es| && e.value == Canon(es[i].value, leq);
      CanonIsIdempotent(es[i].value, leq);
    }
  }

  // ----- Nothing but the order is lost -----

  /** Strings, and dates, which stand for their text. */
  predicate IsText(v: Value) {
    v.Str? || v.Date?
  }

  function TextOf(v: Value): Text
    requires IsText(v)
  {
    if v.Str? then v.text else v.iso
  }

  /** Arrays, sets, and maps, which stand for their pairs of key and value. */
  predicate IsList(v: Value) {
    v.Array? || v.SetOf? || v.MapOf?
  }

  function Items(v: Value): (r: seq<Value>)
    requires IsList(v)
    ensures forall i :: 0 <= i < |r| ==> Weight(r[i]) < Weight(v)
  {
    match v {
      case Array(items) => WeightOfItems(items); items
      case SetOf(members) => WeightOfItems(members); members
      case MapOf(entries) => WeightOfEntries(entries); Pairs(entries)
    }
  }

  ghost function Weight(v: Value): (n: nat)
    ensures n >= 1
    decreases v, 1
  {
    match v
    case Array(items) => 1 + WeightAll(items)
    case SetOf(members) => 1 + WeightAll(members)
    case MapOf(entries) => 1 + EntriesWeight(entries)
    case Object(properties) => 1 + EntriesWeight(properties)
    case _ => 1
  }

  ghost function WeightAll(values: seq<Value>): nat
    decreases values, 0
  {
    if values == [] then 0 else Weight(values[0]) + WeightAll(values[1..])
  }

  ghost function EntriesWeight(es: seq<Entry>): nat
    decreases es, 0
  {
    if es == [] then 0 else Weight(es[0].value) + 2 + EntriesWeight(es[1..])
  }

  lemma {:induction false} WeightOfItems(values: seq<Value>)
    ensures forall i :: 0 <= i < |values| ==> Weight(values[i]) <= WeightAll(values)
  {
    if values != [] {
      WeightOfItems(values[1..]);
      assert forall i :: 0 < i < |values| ==> values[i] == values[1..][i - 1];
    }
  }

  lemma {:induction false} WeightOfEntries(es: seq<Entry>)
    ensures forall i :: 0 <= i < |es| ==> Weight(es[i].value) + 2 <= EntriesWeight(es)
    ensures forall i :: 0 <= i < |es| ==> Weight(PairOf(es[i])) == Weight(es[i].value) + 2
  {
    forall i | 0 <= i < |es| ensures Weight(PairOf(es[i])) == Weight(es[i].value) + 2 {
      PairWeight(es[i]);
    }
    if es != [] {
      WeightOfEntries(es[1..]);
      assert forall i :: 0 < i < |es| ==> es[i] == es[1..][i - 1];
    }
  }

  lemma PairWeight(e: Entry)
    ensures Weight(PairOf(e)) == Weight(e.value) + 2
  {
    var items := [Value.Str(e.key), e.value];
    assert items[1..] == [e.value] && items[1..][1..] == [];
    assert WeightAll(items) == Weight(items[0]) + WeightAll(items[1..]);
    assert WeightAll([e.value]) == Weight(e.value) + WeightAll([]);
  }

  /**
   * The two values say the same: they differ at most in the order of properties, entries and
   * members, in dates written as text, and in maps and sets written as arrays.
   */
  ghost predicate Matches(v: Value, w: Value)
    decreases Weight(v)
  {
    if IsText(v) && IsText(w) then TextOf(v) == TextOf(w)
    else if IsList(v) && IsList(w) then
      && |Items(v)| == |Items(w)|
      && exists p :: Pairing(p, |Items(v)|) && MatchItems(v, w, p)
    else if v.Object? && w.Object? then
      && |v.properties| == |w.properties|
      && exists p :: Pairing(p, |v.properties|) && MatchProperties(v, w, p)
    else v == w
  }

  ghost predicate MatchItems(v: Value, w: Value, p: seq<nat>)
    requires IsList(v) && IsList(w) && |Items(v)| == |Items(w)| && Pairing(p, |Items(v)|)
    decreases Weight(v), 0
  {
    && (v.Array? && w.Array? ==> forall i :: 0 <= i < |p| ==> p[i] == i)
    && forall i :: 0 <= i < |p| ==> Matches(Items(v)[i], Items(w)[p[i]])
  }

  ghost predicate MatchProperties(v: Value, w: Value, p: seq<nat>)
    requires v.Object? && w.Object? && |v.properties| == |w.properties| && Pairing(p, |v.properties|)
    decreases Weight(v), 0
  {
    WeightOfEntries(v.properties);
    forall i :: 0 <= i < |p| ==>
      && w.properties[p[i]].key == v.properties[i].key
      && Matches(v.properties[i].value, w.properties[p[i]].value)
  }

  function ValueOf(e: Entry): Value {
    e.value
  }

  lemma CanonOfMembers(members: seq<Value>, leq: Collation)
    ensures Canon(SetOf(members), leq).Array?
    ensures multiset(Canon(SetOf(members), leq).items) == multiset(CanonAll(members, leq))
  {
    hide *;
    CanonOfSet(members, leq);
    var keyed := Keyed(CanonAll(members, leq));
    var sorted := Sort(keyed, ByMember(leq));
    MappedPermutes(sorted, keyed, ValueOf);
    ValuesAreMapped(sorted);
    KeyedHoldsValues(CanonAll(members, leq));
  }

  lemma ValuesAreMapped(es: seq<Entry>)
    ensures ValuesOf(es) == Mapped(es, ValueOf)
  {
    forall i | 0 <= i < |es| ensures ValuesOf(es)[i] == Mapped(es, ValueOf)[i] {
      assert ValueOf(es[i]) == es[i].value;
    }
  }

  lemma KeyedHoldsValues(values: seq<Value>)
    ensures Mapped(Keyed(values), ValueOf) == values
  {
    hide StringForm;
    forall i | 0 <= i < |values| ensures Mapped(Keyed(values), ValueOf)[i] == values[i] {
      assert ValueOf(Keyed(values)[i]) == values[i];
    }
  }

  lemma PairsAreMapped(es: seq<Entry>)
    ensures Pairs(es) == Mapped(es, PairOf)
  {
    hide PairOf;
  }

  lemma CanonOfMap(entries: seq<Entry>, leq: Collation)
    ensures Canon(MapOf(entries), leq) == Array(Pairs(Sort(CanonEntries(entries, leq), ByKey(leq))))
  {
    hide Sort, CanonEntries, Pairs, StringForm;
  }

  lemma CanonOfEntries(entries: seq<Entry>, leq: Collation)
    ensures Canon(MapOf(entries), leq).Array?
    ensures multiset(Canon(MapOf(entries), leq).items) == multiset(CanonAll(Pairs(entries), leq))
  {
    hide *;
    CanonOfMap(entries, leq);
    CanonOfPairs(entries, leq);
    var all := CanonEntries(entries, leq);
    var sorted := Sort(all, ByKey(leq));
    MappedPermutes(sorted, all, PairOf);
    PairsAreMapped(sorted);
    PairsAreMapped(all);
  }

  /** A canonical list holds exactly the canonical items of the list; an array keeps their order. */
  lemma CanonOfList(v: Value, leq: Collation)
    requires IsList(v)
    ensures Canon(v, leq).Array?
    ensures multiset(Canon(v, leq).items) == multiset(CanonAll(Items(v), leq))
    ensures v.Array? ==> Canon(v, leq).items == CanonAll(Items(v), leq)
  {
    match v
    case Array(items) =>
    case SetOf(members) => CanonOfMembers(members, leq);
    case MapOf(entries) => CanonOfEntries(entries, leq);
  }

  lemma CanonOfPairs(es: seq<Entry>, leq: Collation)
    ensures CanonAll(Pairs(es), leq) == Pairs(CanonEntries(es, leq))
  {
    hide Canon, CanonAll, CanonEntries, PairOf;
    forall i | 0 <= i < |es| ensures CanonAll(Pairs(es), leq)[i] == Pairs(CanonEntries(es, leq))[i] {
      CanonOfPair(es[i], leq);
    }
  }

  lemma CanonOfPair(e: Entry, leq: Collation)
    ensures Canon(PairOf(e), leq) == PairOf(Entry(e.key, Canon(e.value, leq)))
  {
    hide Sort, StringForm, FromEntries;
    var pair := [Value.Str(e.key), e.value];
    assert CanonAll(pair, leq) == [Value.Str(e.key), Canon(e.value, leq)];
  }

  lemma CanonOfObject(properties: seq<Entry>, leq: Collation)
    ensures Canon(Object(properties), leq).Object?
    ensures multiset(Canon(Object(properties), leq).properties) == multiset(CanonEntries(properties, leq))
  {
    hide Sort, FromEntries;
    FromEntriesPermutes(Sort(CanonEntries(properties, leq), ByKey(leq)));
  }

  /** Values with one canonical form say the same. */
  lemma {:induction false} CanonDeterminesEvidence(v: Value, w: Value, leq: Collation)
    requires Canon(v, leq) == Canon(w, leq)
    ensures Matches(v, w)
    decreases Weight(v)
  {
    if IsList(v) && IsList(w) {
      CanonDeterminesItems(v, w, leq);
    } else if v.Object? && w.Object? {
      CanonDeterminesProperties(v, w, leq);
    } else {
      KindOfCanon(v, leq);
      KindOfCanon(w, leq);
    }
  }

  lemma KindOfCanon(v: Value, leq: Collation)
    ensures IsList(v) <==> Canon(v, leq).Array?
    ensures v.Object? <==> Canon(v, leq).Object?
    ensures !IsList(v) && !v.Object? ==> Canon(v, leq) == if IsText(v) then Value.Str(TextOf(v)) else v
  {
  }

  lemma {:induction false} CanonDeterminesItems(v: Value, w: Value, leq: Collation)
    requires IsList(v) && IsList(w) && Canon(v, leq) == Canon(w, leq)
    ensures Matches(v, w)
    decreases Weight(v), 0
  {
    CanonOfList(v, leq);
    CanonOfList(w, leq);
    hide *;
    var xs, ys := Items(v), Items(w);
    var a, b := CanonAll(xs, leq), CanonAll(ys, leq);
    var p := PairUp(a, b);
    if v.Array? && w.Array? {
      p := Identity(|a|);
      IdentityPairs(|a|);
    }
    forall i | 0 <= i < |p| ensures Matches(xs[i], ys[p[i]]) {
      assert a[i] == b[p[i]];
      CanonDeterminesEvidence(xs[i], ys[p[i]], leq);
    }
    PairedItemsMatch(v, w, p);
  }

  lemma PairedItemsMatch(v: Value, w: Value, p: seq<nat>)
    requires IsList(v) && IsList(w) && |Items(v)| == |Items(w)| && Pairing(p, |Items(v)|)
    requires v.Array? && w.Array? ==> forall i :: 0 <= i < |p| ==> p[i] == i
    requires forall i :: 0 <= i < |p| ==> Matches(Items(v)[i], Items(w)[p[i]])
    ensures Matches(v, w)
  {
    assert MatchItems(v, w, p);
  }

  lemma {:induction false} CanonDeterminesProperties(v: Value, w: Value, leq: Collation)
    requires v.Object? && w.Object? && Canon(v, leq) == Canon(w, leq)
    ensures Matches(v, w)
    decreases Weight(v), 0
  {
    hide *;
    var xs, ys := v.properties, w.properties;
    CanonOfObject(xs, leq);
    CanonOfObject(ys, leq);
    assert v == Object(xs) && w == Object(ys);
    WeightOfObject(v);
    var a, b := CanonEntries(xs, leq), CanonEntries(ys, leq);
    var p := PairUp(a, b);
    forall i | 0 <= i < |p|
      ensures ys[p[i]].key == xs[i].key && Matches(xs[i].value, ys[p[i]].value)
    {
      assert a[i] == b[p[i]];
      CanonDeterminesEvidence(xs[i].value, ys[p[i]].value, leq);
    }
    PairedPropertiesMatch(v, w, p);
  }

  lemma WeightOfObject(v: Value)
    requires v.Object?
    ensures forall i :: 0 <= i < |v.properties| ==> Weight(v.properties[i].value) < Weight(v)
  {
    WeightOfEntries(v.properties);
  }

  lemma PairedPropertiesMatch(v: Value, w: Value, p: seq<nat>)
    requires v.Object? && w.Object? && |v.properties| == |w.properties| && Pairing(p, |v.properties|)
    requires forall i :: 0 <= i < |p| ==> w.properties[p[i]].key == v.properties[i].key
    requires forall i :: 0 <= i < |p| ==> Matches(v.properties[i].value, w.properties[p[i]].value)
    ensures Matches(v, w)
  {
    assert MatchProperties(v, w, p);
  }

  // ----- The order that is left -----

  /** The pairs of a canonical map come in the order of their keys. */
  lemma MapIsSorted(entries: seq<Entry>, leq: Collation, i: nat, j: nat)
    requires TotalPreorder(leq) && i < j < |entries|
    ensures Canon(MapOf(entries), leq).Array? && |Canon(MapOf(entries), leq).items| == |entries|
    ensures exists a, b ::
              && Canon(MapOf(entries), leq).items[i] == PairOf(a) && Canon(MapOf(entries), leq).items[j] == PairOf(b)
              && leq(a.key, b.key)
  {
    hide Sort, TotalPreorder, PairOf, Canon;
    ByKeyOrders(leq);
    CanonOfMap(entries, leq);
    var sorted := Sort(CanonEntries(entries, leq), ByKey(leq));
    SameSize(sorted, CanonEntries(entries, leq));
    SortSorts(CanonEntries(entries, leq), ByKey(leq));
    assert ByKey(leq)(sorted[i], sorted[j]);
    assert Pairs(sorted)[i] == PairOf(sorted[i]) && Pairs(sorted)[j] == PairOf(sorted[j]);
  }

  /** The items of a canonical set come in the order of their string forms, and undefined last. */
  lemma SetIsSorted(members: seq<Value>, leq: Collation, i: nat, j: nat)
    requires TotalPreorder(leq) && i < j < |members|
    ensures Canon(SetOf(members), leq).Array? && |Canon(SetOf(members), leq).items| == |members|
    ensures var items := Canon(SetOf(members), leq).items;
            items[j].Undefined? || (!items[i].Undefined? && leq(StringForm(items[i]), StringForm(items[j])))
  {
    hide Sort, TotalPreorder, StringForm, Canon;
    ByMemberOrders(leq);
    CanonOfSet(members, leq);
    var keyed := Keyed(CanonAll(members, leq));
    var sorted := Sort(keyed, ByMember(leq));
    SameSize(sorted, keyed);
    SortSorts(keyed, ByMember(leq));
    assert ByMember(leq)(sorted[i], sorted[j]);
    assert sorted[i] in multiset(keyed) && sorted[j] in multiset(keyed);
  }

  /** One property may come before the other: array indices come first, by number, then keys by their order. */
  predicate MayPrecede(a: Entry, b: Entry, leq: Collation) {
    if IsIndexKey(b.key) then IsIndexKey(a.key) && IndexValue(a.key) <= IndexValue(b.key)
    else IsIndexKey(a.key) || leq(a.key, b.key)
  }

  /** The properties of a canonical object come in that order. */
  lemma ObjectIsSorted(properties: seq<Entry>, leq: Collation, i: nat, j: nat)
    requires TotalPreorder(leq) && i < j < |properties|
    ensures Canon(Object(properties), leq).Object? && |Canon(Object(properties), leq).properties| == |properties|
    ensures MayPrecede(Canon(Object(properties), leq).properties[i], Canon(Object(properties), leq).properties[j], leq)
  {
    ObjectsLookAlike(properties, leq);
    ByKeyOrders(leq);
    var sorted := Sort(CanonEntries(properties, leq), ByKey(leq));
    assert Canon(Object(properties), leq) == Object(FromEntries(sorted));
    hide Sort, TotalPreorder, Canon, IsIndexKey, IndexValue, Filter;
    SortThenFilter(CanonEntries(properties, leq), ByKey(leq), IsOtherEntry);
    SortSorts(Filter(CanonEntries(properties, leq), IsOtherEntry), ByKey(leq));
    IndexOrderOrders();
    SortSorts(Filter(sorted, IsIndexEntry), IndexOrder);
    PlacedInOrder(Sort(Filter(sorted, IsIndexEntry), IndexOrder), Filter(sorted, IsOtherEntry), sorted, leq, i, j);
  }

  lemma IndexOrderOrders()
    ensures TotalPreorder(IndexOrder)
  {
    hide IndexValue;
  }

  lemma PlacedInOrder(indexed: seq<Entry>, others: seq<Entry>, es: seq<Entry>, leq: Collation, i: nat, j: nat)
    requires multiset(indexed) == multiset(Filter(es, IsIndexEntry)) && others == Filter(es, IsOtherEntry)
    requires Sorted(indexed, IndexOrder) && Sorted(others, ByKey(leq)) && i < j < |indexed + others|
    ensures MayPrecede((indexed + others)[i], (indexed + others)[j], leq)
  {
    hide Filter, IsIndexKey, IndexValue;
    forall k | 0 <= k < |indexed| ensures IsIndexEntry(indexed[k]) {
      FilterCounts(es, IsIndexEntry, indexed[k]);
      assert indexed[k] in multiset(indexed);
    }
    forall k | 0 <= k < |others| ensures IsOtherEntry(others[k]) {
      FilterCounts(es, IsOtherEntry, others[k]);
      assert others[k] in multiset(others);
    }
  }

  // ----- Exactly when insertion order does not matter -----

  /** A member with the string form of its canonical value, as a mapping of members. */
  function KeyedCanon(leq: Collation): Value -> Entry {
    (v: Value) => Entry(StringForm(Canon(v, leq)), Canon(v, leq))
  }

  lemma KeyedMap(members: seq<Value>, leq: Collation)
    ensures Keyed(CanonAll(members, leq)) == Mapped(members, KeyedCanon(leq))
  {
    hide Canon, StringForm;
  }

  /** The sorted values are enough to recover the sorted entries. */
  lemma ValuesDetermineKeyed(keyed: seq<Entry>, leq: Order<Entry>)
    requires forall e :: e in keyed ==> e.key == StringForm(e.value)
    ensures Keyed(ValuesOf(Sort(keyed, leq))) == Sort(keyed, leq)
  {
    var sorted := Sort(keyed, leq);
    forall i | 0 <= i < |sorted| ensures Keyed(ValuesOf(sorted))[i] == sorted[i] {
      assert sorted[i] in multiset(keyed);
    }
  }

  lemma CanonOfSet(members: seq<Value>, leq: Collation)
    ensures Canon(SetOf(members), leq) == Array(ValuesOf(Sort(Keyed(CanonAll(members, leq)), ByMember(leq))))
  {
    hide Sort, CanonAll, Keyed, ValuesOf, StringForm;
  }

  /** The canonical form of a set shows its sorted members with their string forms. */
  lemma SetShowsSorted(members: seq<Value>, leq: Collation)
    ensures Canon(SetOf(members), leq).Array?
    ensures Canon(SetOf(members), leq) == Array(ValuesOf(Sort(Kept(members, KeyedCanon(leq), Every), ByMember(leq))))
    ensures Keyed(Canon(SetOf(members), leq).items) == Sort(Kept(members, KeyedCanon(leq), Every), ByMember(leq))
  {
    hide StringForm, Sort, Canon, Mapped, ByMember;
    CanonOfSet(members, leq);
    KeyedMap(members, leq);
    KeepAll(Mapped(members, KeyedCanon(leq)));
    var keyed := Keyed(CanonAll(members, leq));
    ValuesDetermineKeyed(keyed, ByMember(leq));
  }

  ghost predicate OrderIrrelevant(members: seq<Value>, leq: Collation) {
    forall others: seq<Value> :: multiset(others) == multiset(members) ==>
                                   Canon(SetOf(others), leq) == Canon(SetOf(members), leq)
  }

  /**
   * The order of set members is irrelevant exactly when members whose string forms tie, undefined
   * aside, have the same canonical form; two different plain objects both print as
   * "[object Object]".
   */
  lemma MemberOrderIrrelevantIff(members: seq<Value>, leq: Collation)
    requires TotalPreorder(leq)
    ensures OrderIrrelevant(members, leq) <==> TiesDecide(multiset(Keyed(CanonAll(members, leq))), ByMember(leq))
  {
    hide TotalPreorder, Canon, Kept, Sort, KeyedCanon, TiesDecide;
    ByMemberOrders(leq);
    KeyedMap(members, leq);
    KeptIsAll(members, KeyedCanon(leq));
    ArrangementIrrelevantIff(members, KeyedCanon(leq), Every, ByMember(leq));
    forall others: seq<Value>
      ensures Canon(SetOf(others), leq) == Canon(SetOf(members), leq) <==>
              Sort(Kept(others, KeyedCanon(leq), Every), ByMember(leq)) ==
              Sort(Kept(members, KeyedCanon(leq), Every), ByMember(leq))
    {
      SetShowsSorted(others, leq);
      SetShowsSorted(members, leq);
    }
  }

  lemma KeptIsAll<A, T>(xs: seq<A>, f: A -> T)
    ensures Kept(xs, f, Every) == Mapped(xs, f)
  {
    KeepAll(Mapped(xs, f));
  }

  ghost predicate EntryOrderIrrelevant(entries: seq<Entry>, leq: Collation) {
    forall others: seq<Entry> :: multiset(others) == multiset(entries) ==>
                                   Canon(MapOf(others), leq) == Canon(MapOf(entries), leq)
  }

  lemma PairsDetermineEntries(es: seq<Entry>, fs: seq<Entry>)
    requires Pairs(es) == Pairs(fs)
    ensures es == fs
  {
    assert |es| == |Pairs(es)| == |Pairs(fs)| == |fs|;
    forall i | 0 <= i < |es| ensures es[i] == fs[i] {
      assert Pairs(es)[i] == Pairs(fs)[i];
      assert PairOf(es[i]).items[0] == PairOf(fs[i]).items[0] && PairOf(es[i]).items[1] == PairOf(fs[i]).items[1];
    }
  }

  lemma MapShowsSorted(entries: seq<Entry>, leq: Collation)
    ensures Canon(MapOf(entries), leq) == Array(Pairs(Sort(Kept(entries, CanonEntry(leq), Every), ByKey(leq))))
  {
    hide Sort;
    CanonEntriesMap(entries, leq);
    KeptIsAll(entries, CanonEntry(leq));
  }

  /** The order of map entries is irrelevant exactly when entries whose string keys tie are the same. */
  lemma EntryOrderIrrelevantIff(entries: seq<Entry>, leq: Collation)
    requires TotalPreorder(leq)
    ensures EntryOrderIrrelevant(entries, leq) <==> TiesDecide(multiset(CanonEntries(entries, leq)), ByKey(leq))
  {
    hide TotalPreorder, Canon, Kept, Sort, CanonEntry, TiesDecide, Pairs;
    ByKeyOrders(leq);
    CanonEntriesMap(entries, leq);
    KeptIsAll(entries, CanonEntry(leq));
    ArrangementIrrelevantIff(entries, CanonEntry(leq), Every, ByKey(leq));
    forall others: seq<Entry>
      ensures Canon(MapOf(others), leq) == Canon(MapOf(entries), leq) <==>
              Sort(Kept(others, CanonEntry(leq), Every), ByKey(leq)) ==
              Sort(Kept(entries, CanonEntry(leq), Every), ByKey(leq))
    {
      MapShowsSorted(others, leq);
      MapShowsSorted(entries, leq);
      var a, b := Sort(Kept(others, CanonEntry(leq), Every), ByKey(leq)),
                  Sort(Kept(entries, CanonEntry(leq), Every), ByKey(leq));
      if Pairs(a) == Pairs(b) {
        PairsDetermineEntries(a, b);
      }
    }
  }

  ghost predicate PropertyOrderIrrelevant(properties: seq<Entry>, leq: Collation) {
    forall others: seq<Entry> :: multiset(others) == multiset(properties) ==>
                                   Canon(Object(others), leq) == Canon(Object(properties), leq)
  }

  /** The properties of a canonical object: the index keys, then the others as sorted. */
  lemma ObjectShowsSorted(properties: seq<Entry>, leq: Collation)
    requires TotalPreorder(leq)
    ensures Canon(Object(properties), leq) ==
            Object(Sort(Filter(Sort(CanonEntries(properties, leq), ByKey(leq)), IsIndexEntry), IndexOrder)
                   + Sort(Kept(properties, CanonEntry(leq), IsOtherEntry), ByKey(leq)))
  {
    hide Sort, TotalPreorder, Filter, Mapped;
    ByKeyOrders(leq);
    CanonEntriesMap(properties, leq);
    SortThenFilter(CanonEntries(properties, leq), ByKey(leq), IsOtherEntry);
  }

  /**
   * The order of an object's properties is irrelevant exactly when no two of its keys tie, those
   * aside that are array indices.
   */
  lemma PropertyOrderIrrelevantIff(properties: seq<Entry>, leq: Collation)
    requires TotalPreorder(leq) && KeysDiffer(properties)
    ensures PropertyOrderIrrelevant(properties, leq) <==>
            TiesDecide(multiset(Filter(CanonEntries(properties, leq), IsOtherEntry)), ByKey(leq))
  {
    hide TotalPreorder, Canon, Filter, Mapped, Sort, CanonEntry, TiesDecide, IsOtherEntry, IsIndexEntry, KeysDiffer;
    ByKeyOrders(leq);
    CanonEntriesMap(properties, leq);
    SameKeysDiffer(properties, leq);
    ArrangementIrrelevantIff(properties, CanonEntry(leq), IsOtherEntry, ByKey(leq));
    forall others: seq<Entry> | multiset(others) == multiset(properties)
      ensures Canon(Object(others), leq) == Canon(Object(properties), leq) <==>
              Sort(Kept(others, CanonEntry(leq), IsOtherEntry), ByKey(leq)) ==
              Sort(Kept(properties, CanonEntry(leq), IsOtherEntry), ByKey(leq))
    {
      ObjectShowsSorted(others, leq);
      ObjectShowsSorted(properties, leq);
      CanonEntriesMap(others, leq);
      MappedPermutes(properties, others, CanonEntry(leq));
      IndexPartIsFixed(CanonEntries(properties, leq), Sort(CanonEntries(properties, leq), ByKey(leq)));
      IndexPartIsFixed(CanonEntries(properties, leq), Sort(CanonEntries(others, leq), ByKey(leq)));
      SameFront(Sort(Filter(Sort(CanonEntries(properties, leq), ByKey(leq)), IsIndexEntry), IndexOrder),
                Sort(Kept(others, CanonEntry(leq), IsOtherEntry), ByKey(leq)),
                Sort(Kept(properties, CanonEntry(leq), IsOtherEntry), ByKey(leq)));
    }
  }

  lemma SameFront<T>(a: seq<T>, b: seq<T>, c: seq<T>)
    ensures a + b == a + c <==> b == c
  {
    assert (a + b)[|a|..] == b && (a + c)[|a|..] == c;
  }

  // ----- Inputs for which it does, or does not, matter -----

  lemma KeyedTwo(v: Value, w: Value, leq: Collation)
    ensures Keyed(CanonAll([v, w], leq)) == [KeyedCanon(leq)(v), KeyedCanon(leq)(w)]
  {
    hide Canon, StringForm;
  }

  lemma TwoEntries(a: Entry, b: Entry, order: Order<Entry>)
    ensures TiesDecide(multiset([a, b]), order) <==> (Ties(order, a, b) ==> a == b)
  {
    assert a in multiset([a, b]) && b in multiset([a, b]);
    assert Ties(order, a, b) <==> Ties(order, b, a);
  }

  lemma ObjectsLookAlike(es: seq<Entry>, leq: Collation)
    ensures Canon(Object(es), leq).Object? && |Canon(Object(es), leq).properties| == |es|
    ensures StringForm(Canon(Object(es), leq)) == OBJECT_FORM
  {
    hide FromEntries, Sort;
    var sorted := Sort(CanonEntries(es, leq), ByKey(leq));
    FromEntriesPermutes(sorted);
    SameSize(FromEntries(sorted), sorted);
    SameSize(sorted, CanonEntries(es, leq));
  }

  /** A set of two plain objects of different size: exchanging them changes its canonical form. */
  lemma MemberOrderShows(es: seq<Entry>, fs: seq<Entry>, leq: Collation)
    requires TotalPreorder(leq) && |es| != |fs|
    ensures !OrderIrrelevant([Object(es), Object(fs)], leq)
  {
    hide OrderIrrelevant, TiesDecide, Canon, StringForm;
    KeyedTwo(Object(es), Object(fs), leq);
    ObjectsLookAlike(es, leq);
    ObjectsLookAlike(fs, leq);
    assert leq(OBJECT_FORM, OBJECT_FORM);
    MemberOrderIrrelevantIff([Object(es), Object(fs)], leq);
    TwoEntries(KeyedCanon(leq)(Object(es)), KeyedCanon(leq)(Object(fs)), ByMember(leq));
  }

  /** Undefined ties with no other member, not even with the string it prints as. */
  lemma UndefinedIsToldApart(v: Value, leq: Collation)
    requires TotalPreorder(leq)
    ensures OrderIrrelevant([Value.Undefined, v], leq)
  {
    hide OrderIrrelevant, TiesDecide, TotalPreorder;
    KeyedTwo(Value.Undefined, v, leq);
    MemberOrderIrrelevantIff([Value.Undefined, v], leq);
    TwoEntries(KeyedCanon(leq)(Value.Undefined), KeyedCanon(leq)(v), ByMember(leq));
  }

  /** A map with two different keys that tie: exchanging its entries changes its canonical form. */
  lemma EntryOrderShows(leq: Collation, a: Text, b: Text)
    requires TotalPreorder(leq) && Ties(leq, a, b) && a != b
    ensures !EntryOrderIrrelevant([Entry(a, Value.Null), Entry(b, Value.Null)], leq)
  {
    hide EntryOrderIrrelevant, TiesDecide, TotalPreorder;
    var entries := [Entry(a, Value.Null), Entry(b, Value.Null)];
    assert CanonEntries(entries, leq) == entries;
    EntryOrderIrrelevantIff(entries, leq);
    TwoEntries(entries[0], entries[1], ByKey(leq));
  }

  /** An object with two such keys: exchanging its properties changes its canonical form. */
  lemma PropertyOrderShows(leq: Collation, a: Text, b: Text)
    requires TotalPreorder(leq) && Ties(leq, a, b) && a != b && !IsIndexKey(a) && !IsIndexKey(b)
    ensures !PropertyOrderIrrelevant([Entry(a, Value.Null), Entry(b, Value.Null)], leq)
  {
    hide PropertyOrderIrrelevant, TiesDecide, TotalPreorder, IsIndexKey;
    var entries := [Entry(a, Value.Null), Entry(b, Value.Null)];
    assert CanonEntries(entries, leq) == entries;
    FilterCons(entries[1], [], IsOtherEntry);
    FilterCons(entries[0], [entries[1]], IsOtherEntry);
    assert entries == [entries[0]] + [entries[1]] && [entries[1]] == [entries[1]] + [];
    PropertyOrderIrrelevantIff(entries, leq);
    TwoEntries(entries[0], entries[1], ByKey(leq));
  }
}
