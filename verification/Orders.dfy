/**
 * Stable sorting by an order that may leave different elements tied, as `localeCompare` does
 * with canonically equivalent strings, and what the result owes to the original arrangement.
 */
module Orders {

  type Order<!T> = (T, T) -> bool

  ghost predicate TotalPreorder<T(!new)>(leq: Order<T>) {
    && (forall a, b :: leq(a, b) || leq(b, a))
    && (forall a, b, c :: leq(a, b) && leq(b, c) ==> leq(a, c))
  }

  predicate Ties<T>(leq: Order<T>, a: T, b: T) {
    leq(a, b) && leq(b, a)
  }

  // ----- Sorting -----

  function Insert<T>(x: T, sorted: seq<T>, leq: Order<T>): (r: seq<T>)
    ensures multiset(r) == multiset([x]) + multiset(sorted)
  {
    if sorted == [] || leq(x, sorted[0]) then [x] + sorted
    else
      assert sorted == [sorted[0]] + sorted[1..];
      [sorted[0]] + Insert(x, sorted[1..], leq)
  }

  function Sort<T>(xs: seq<T>, leq: Order<T>): (r: seq<T>)
    ensures multiset(r) == multiset(xs)
  {
    if xs == [] then []
    else
      assert xs == [xs[0]] + xs[1..];
      Insert(xs[0], Sort(xs[1..], leq), leq)
  }

  ghost predicate Sorted<T>(xs: seq<T>, leq: Order<T>) {
    forall i, j :: 0 <= i < j < |xs| ==> leq(xs[i], xs[j])
  }

  lemma {:induction false} InsertSorts<T(!new)>(x: T, sorted: seq<T>, leq: Order<T>)
    requires TotalPreorder(leq) && Sorted(sorted, leq)
    ensures Sorted(Insert(x, sorted, leq), leq)
  {
    if sorted != [] && !leq(x, sorted[0]) {
      InsertSorts(x, sorted[1..], leq);
      var rest := Insert(x, sorted[1..], leq);
      forall i | 0 <= i < |rest| ensures leq(sorted[0], rest[i]) {
        assert rest[i] in multiset(rest);
        assert rest[i] == x || rest[i] in sorted[1..];
      }
    }
  }

  lemma {:induction false} SortSorts<T(!new)>(xs: seq<T>, leq: Order<T>)
    requires TotalPreorder(leq)
    ensures Sorted(Sort(xs, leq), leq)
  {
    if xs != [] {
      SortSorts(xs[1..], leq);
      InsertSorts(xs[0], Sort(xs[1..], leq), leq);
    }
  }

  /** Sorting leaves a sorted list alone. */
  lemma {:induction false} SortOfSorted<T(!new)>(xs: seq<T>, leq: Order<T>)
    requires Sorted(xs, leq)
    ensures Sort(xs, leq) == xs
  {
    if xs != [] {
      SortOfSorted(xs[1..], leq);
    }
  }

  // ----- When the sorted arrangement is determined -----

  /** Elements that tie are the same element. */
  ghost predicate TiesDecide<T(!new)>(xs: multiset<T>, leq: Order<T>) {
    forall x, y :: x in xs && y in xs && Ties(leq, x, y) ==> x == y
  }

  lemma HeadAndTail<T>(xs: seq<T>)
    requires xs != []
    ensures multiset(xs) == multiset{xs[0]} + multiset(xs[1..])
    ensures multiset(xs[1..]) == multiset(xs) - multiset{xs[0]}
  {
    assert xs == [xs[0]] + xs[1..];
  }

  lemma LeastIsFirst<T(!new)>(a: seq<T>, x: T, leq: Order<T>)
    requires TotalPreorder(leq) && Sorted(a, leq) && x in multiset(a)
    ensures a != [] && leq(a[0], x)
  {
    var i :| 0 <= i < |a| && a[i] == x;
  }

  lemma SameLeast<T(!new)>(a: seq<T>, b: seq<T>, leq: Order<T>)
    requires TotalPreorder(leq) && Sorted(a, leq) && Sorted(b, leq)
    requires TiesDecide(multiset(a), leq) && multiset(a) == multiset(b) && a != [] && b != []
    ensures a[0] == b[0]
  {
    assert a[0] in multiset(a) && b[0] in multiset(b);
    LeastIsFirst(a, b[0], leq);
    LeastIsFirst(b, a[0], leq);
  }

  lemma TailInherits<T(!new)>(xs: seq<T>, leq: Order<T>)
    requires Sorted(xs, leq) && TiesDecide(multiset(xs), leq) && xs != []
    ensures Sorted(xs[1..], leq) && TiesDecide(multiset(xs[1..]), leq)
  {
    HeadAndTail(xs);
  }

  lemma SameSize<T>(a: seq<T>, b: seq<T>)
    requires multiset(a) == multiset(b)
    ensures |a| == |b|
  {
    assert |a| == |multiset(a)| && |b| == |multiset(b)|;
  }

  /** Elements without proper ties have one sorted arrangement. */
  lemma {:induction false} SortedIsUnique<T(!new)>(a: seq<T>, b: seq<T>, leq: Order<T>)
    requires TotalPreorder(leq) && Sorted(a, leq) && Sorted(b, leq)
    requires TiesDecide(multiset(a), leq) && multiset(a) == multiset(b)
    ensures a == b
    decreases |a|
  {
    hide *;
    SameSize(a, b);
    if a != [] {
      SameLeast(a, b, leq);
      TailInherits(a, leq);
      TailInherits(b, leq);
      SameRest(a, b);
      SortedIsUnique(a[1..], b[1..], leq);
      assert a == [a[0]] + a[1..];
      assert b == [b[0]] + b[1..];
    }
  }

  lemma SameRest<T>(a: seq<T>, b: seq<T>)
    requires multiset(a) == multiset(b) && a != [] && b != [] && a[0] == b[0]
    ensures multiset(a[1..]) == multiset(b[1..])
  {
    HeadAndTail(a);
    HeadAndTail(b);
  }

  lemma SortIgnoresOrder<T(!new)>(a: seq<T>, b: seq<T>, leq: Order<T>)
    requires TotalPreorder(leq) && TiesDecide(multiset(a), leq) && multiset(a) == multiset(b)
    ensures Sort(a, leq) == Sort(b, leq)
  {
    SortSorts(a, leq);
    SortSorts(b, leq);
    SortedIsUnique(Sort(a, leq), Sort(b, leq), leq);
  }

  // ----- Filtering and sorting -----

  function Filter<T>(xs: seq<T>, p: T -> bool): seq<T> {
    if xs == [] then []
    else if p(xs[0]) then [xs[0]] + Filter(xs[1..], p)
    else Filter(xs[1..], p)
  }

  lemma FilterCons<T>(x: T, rest: seq<T>, p: T -> bool)
    ensures Filter([x] + rest, p) == if p(x) then [x] + Filter(rest, p) else Filter(rest, p)
  {
    assert ([x] + rest)[1..] == rest;
  }

  lemma Reassociate<T>(x: T, a: seq<T>, b: seq<T>)
    ensures ([x] + a) + b == [x] + (a + b)
  {
  }

  lemma {:induction false} FilterConcat<T>(a: seq<T>, b: seq<T>, p: T -> bool)
    ensures Filter(a + b, p) == Filter(a, p) + Filter(b, p)
  {
    if a == [] {
      assert a + b == b;
    } else {
      hide Filter;
      var x, rest := a[0], a[1..];
      assert a == [x] + rest;
      FilterConcat(rest, b, p);
      Reassociate(x, rest, b);
      FilterCons(x, rest + b, p);
      FilterCons(x, rest, p);
      Reassociate(x, Filter(rest, p), Filter(b, p));
    }
  }

  lemma {:induction false} FilterCounts<T>(xs: seq<T>, p: T -> bool, x: T)
    ensures multiset(Filter(xs, p))[x] == if p(x) then multiset(xs)[x] else 0
  {
    if xs != [] {
      FilterCounts(xs[1..], p, x);
      HeadAndTail(xs);
    }
  }

  lemma FilterPermutes<T(!new)>(a: seq<T>, b: seq<T>, p: T -> bool)
    requires multiset(a) == multiset(b)
    ensures multiset(Filter(a, p)) == multiset(Filter(b, p))
  {
    forall x ensures multiset(Filter(a, p))[x] == multiset(Filter(b, p))[x] {
      FilterCounts(a, p, x);
      FilterCounts(b, p, x);
    }
  }

  lemma InsertInFront<T>(x: T, sorted: seq<T>, leq: Order<T>)
    requires sorted == [] || leq(x, sorted[0])
    ensures Insert(x, sorted, leq) == [x] + sorted
  {
  }

  lemma InsertBehind<T>(x: T, first: T, rest: seq<T>, leq: Order<T>)
    requires !leq(x, first)
    ensures Insert(x, [first] + rest, leq) == [first] + Insert(x, rest, leq)
  {
    assert ([first] + rest)[1..] == rest;
  }

  /** What comes first among the kept elements is not before what comes first of all. */
  lemma FirstKept<T(!new)>(sorted: seq<T>, leq: Order<T>, p: T -> bool)
    requires TotalPreorder(leq) && Sorted(sorted, leq) && Filter(sorted, p) != []
    ensures sorted != [] && leq(sorted[0], Filter(sorted, p)[0])
  {
    var first := Filter(sorted, p)[0];
    FilterCounts(sorted, p, first);
    assert first in multiset(Filter(sorted, p));
    LeastIsFirst(sorted, first, leq);
  }

  lemma {:induction false} InsertThenFilter<T(!new)>(x: T, sorted: seq<T>, leq: Order<T>, p: T -> bool)
    requires TotalPreorder(leq) && Sorted(sorted, leq)
    ensures Filter(Insert(x, sorted, leq), p)
         == if p(x) then Insert(x, Filter(sorted, p), leq) else Filter(sorted, p)
  {
    hide Filter, Insert;
    if sorted == [] || leq(x, sorted[0]) {
      InsertInFront(x, sorted, leq);
      FilterCons(x, sorted, p);
      if Filter(sorted, p) != [] {
        FirstKept(sorted, leq, p);
      }
      if p(x) {
        InsertInFront(x, Filter(sorted, p), leq);
      }
    } else {
      var first, rest := sorted[0], sorted[1..];
      assert sorted == [first] + rest;
      InsertThenFilter(x, rest, leq, p);
      hide TotalPreorder, Sorted;
      InsertBehind(x, first, rest, leq);
      FilterCons(first, Insert(x, rest, leq), p);
      FilterCons(first, rest, p);
      InsertBehind(x, first, Filter(rest, p), leq);
    }
  }

  /** It makes no difference whether one sorts or filters first. */
  lemma {:induction false} SortThenFilter<T(!new)>(xs: seq<T>, leq: Order<T>, p: T -> bool)
    requires TotalPreorder(leq)
    ensures Filter(Sort(xs, leq), p) == Sort(Filter(xs, p), leq)
  {
    hide Filter, Insert, Sort, TotalPreorder, Sorted;
    if xs == [] {
      NothingToSort(leq, p);
    } else {
      var first, rest := xs[0], xs[1..];
      assert xs == [first] + rest;
      SortThenFilter(rest, leq, p);
      SortSorts(rest, leq);
      InsertThenFilter(first, Sort(rest, leq), leq, p);
      SortCons(first, rest, leq);
      FilterCons(first, rest, p);
      SortCons(first, Filter(rest, p), leq);
    }
  }

  lemma SortCons<T>(x: T, rest: seq<T>, leq: Order<T>)
    ensures Sort([x] + rest, leq) == Insert(x, Sort(rest, leq), leq)
  {
    assert ([x] + rest)[1..] == rest;
  }

  lemma NothingToSort<T>(leq: Order<T>, p: T -> bool)
    ensures Filter([], p) == [] && Sort([], leq) == []
  {
  }

  lemma {:induction false} FilterTwice<T>(xs: seq<T>, p: T -> bool)
    ensures Filter(Filter(xs, p), p) == Filter(xs, p)
  {
    if xs != [] {
      hide Filter;
      var first, rest := xs[0], xs[1..];
      FilterTwice(rest, p);
      assert xs == [first] + rest;
      FilterCons(first, rest, p);
      FilterCons(first, Filter(rest, p), p);
    }
  }

  lemma {:induction false} FilterNone<T>(xs: seq<T>, p: T -> bool)
    requires forall x :: x in xs ==> !p(x)
    ensures Filter(xs, p) == []
  {
    if xs != [] {
      FilterNone(xs[1..], p);
    }
  }

  function Every<T>(x: T): bool {
    true
  }

  lemma {:induction false} KeepAll<T>(xs: seq<T>)
    ensures Filter(xs, Every) == xs
  {
    if xs != [] {
      KeepAll(xs[1..]);
    }
  }

  // ----- Mapping and sorting -----

  function Mapped<A, T>(xs: seq<A>, f: A -> T): seq<T> {
    seq(|xs|, i requires 0 <= i < |xs| => f(xs[i]))
  }

  /** The mapping keeps the order. */
  ghost predicate KeepsOrder<A(!new), T>(f: A -> T, leq: Order<A>, image: Order<T>) {
    forall a, b :: image(f(a), f(b)) == leq(a, b)
  }

  lemma MappedCons<A, T>(x: A, rest: seq<A>, f: A -> T)
    ensures Mapped([x] + rest, f) == [f(x)] + Mapped(rest, f)
  {
  }

  lemma {:induction false} InsertThenMap<A(!new), T>(
    x: A, sorted: seq<A>, f: A -> T, leq: Order<A>, image: Order<T>)
    requires KeepsOrder(f, leq, image)
    ensures Mapped(Insert(x, sorted, leq), f) == Insert(f(x), Mapped(sorted, f), image)
  {
    hide Insert;
    if sorted == [] || leq(x, sorted[0]) {
      InsertInFront(x, sorted, leq);
      MappedCons(x, sorted, f);
      InsertInFront(f(x), Mapped(sorted, f), image);
    } else {
      var first, rest := sorted[0], sorted[1..];
      assert sorted == [first] + rest;
      InsertThenMap(x, rest, f, leq, image);
      assert !image(f(x), f(first));
      hide Mapped, KeepsOrder;
      InsertBehind(x, first, rest, leq);
      MappedCons(first, Insert(x, rest, leq), f);
      MappedCons(first, rest, f);
      InsertBehind(f(x), f(first), Mapped(rest, f), image);
    }
  }

  /** A mapping that keeps the order may come before or after sorting. */
  lemma {:induction false} SortThenMap<A(!new), T>(xs: seq<A>, f: A -> T, leq: Order<A>, image: Order<T>)
    requires KeepsOrder(f, leq, image)
    ensures Mapped(Sort(xs, leq), f) == Sort(Mapped(xs, f), image)
  {
    if xs == [] {
      assert Mapped(xs, f) == [];
    } else {
      hide Insert, Mapped, Sort, KeepsOrder;
      var first, rest := xs[0], xs[1..];
      assert xs == [first] + rest;
      SortThenMap(rest, f, leq, image);
      InsertThenMap(first, Sort(rest, leq), f, leq, image);
      SortCons(first, rest, leq);
      MappedCons(first, rest, f);
      SortCons(f(first), Mapped(rest, f), image);
    }
  }

  // ----- Stability -----

  /** The elements that tie with `x`, in order. */
  function Tied<T>(xs: seq<T>, leq: Order<T>, x: T): seq<T> {
    Filter(xs, y => Ties(leq, x, y))
  }

  lemma {:induction false} SortOfTied<T(!new)>(xs: seq<T>, leq: Order<T>, x: T)
    requires TotalPreorder(leq)
    ensures Sorted(Tied(xs, leq, x), leq)
  {
    var tied := Tied(xs, leq, x);
    forall i, j | 0 <= i < j < |tied| ensures leq(tied[i], tied[j]) {
      FilterCounts(xs, y => Ties(leq, x, y), tied[i]);
      FilterCounts(xs, y => Ties(leq, x, y), tied[j]);
      assert tied[i] in multiset(tied) && tied[j] in multiset(tied);
    }
  }

  /** Sorting keeps elements that tie in their original order. */
  lemma SortIsStable<T(!new)>(xs: seq<T>, leq: Order<T>, x: T)
    requires TotalPreorder(leq)
    ensures Tied(Sort(xs, leq), leq, x) == Tied(xs, leq, x)
  {
    SortThenFilter(xs, leq, y => Ties(leq, x, y));
    SortOfTied(xs, leq, x);
    SortOfSorted(Tied(xs, leq, x), leq);
  }

  // ----- Exactly when the original arrangement does not show -----

  /** Some elements, each turned into what is sorted, without those that are left out. */
  function Kept<A, T>(xs: seq<A>, f: A -> T, p: T -> bool): seq<T> {
    Filter(Mapped(xs, f), p)
  }

  /** However the elements are arranged at first, sorting makes the same of them. */
  ghost predicate ArrangementIrrelevant<A(!new), T>(xs: seq<A>, f: A -> T, p: T -> bool, leq: Order<T>) {
    forall ys: seq<A> :: multiset(ys) == multiset(xs) ==> Sort(Kept(ys, f, p), leq) == Sort(Kept(xs, f, p), leq)
  }

  function Without<A>(xs: seq<A>, j: nat): seq<A>
    requires j < |xs|
  {
    xs[..j] + xs[j + 1..]
  }

  lemma WithoutAt<A>(xs: seq<A>, j: nat)
    requires j < |xs|
    ensures |Without(xs, j)| == |xs| - 1
    ensures multiset(Without(xs, j)) == multiset(xs) - multiset{xs[j]}
  {
    assert xs == xs[..j] + [xs[j]] + xs[j + 1..];
  }

  lemma MappedWithout<A, T>(xs: seq<A>, j: nat, f: A -> T)
    requires j < |xs|
    ensures multiset(Mapped(xs, f)) == multiset(Mapped(Without(xs, j), f)) + multiset{f(xs[j])}
  {
    assert Mapped(Without(xs, j), f) == Without(Mapped(xs, f), j);
    WithoutAt(Mapped(xs, f), j);
  }

  lemma SomewhereIn<A>(x: A, xs: seq<A>) returns (j: nat)
    requires x in multiset(xs)
    ensures j < |xs| && xs[j] == x
  {
    j :| 0 <= j < |xs| && xs[j] == x;
  }

  lemma {:induction false} MappedPermutes<A, T>(xs: seq<A>, ys: seq<A>, f: A -> T)
    requires multiset(xs) == multiset(ys)
    ensures multiset(Mapped(xs, f)) == multiset(Mapped(ys, f))
    decreases |xs|
  {
    hide *;
    SameSize(xs, ys);
    if xs == [] {
      assert ys == [];
    } else {
      assert xs[0] in multiset(xs);
      var j := SomewhereIn(xs[0], ys);
      WithoutAt(xs, 0);
      WithoutAt(ys, j);
      MappedWithout(xs, 0, f);
      MappedWithout(ys, j, f);
      MappedPermutes(Without(xs, 0), Without(ys, j), f);
    }
  }

  /** A rearrangement of `n` positions. */
  ghost predicate Pairing(p: seq<nat>, n: nat) {
    && |p| == n && (forall i :: 0 <= i < n ==> p[i] < n)
    && forall i, j :: 0 <= i < j < n ==> p[i] != p[j]
  }

  /** Where an element was before position `j` was taken out. */
  function Around(j: nat, k: nat): nat {
    if k < j then k else k + 1
  }

  lemma WithoutElement<T>(xs: seq<T>, j: nat, k: nat)
    requires j < |xs| && k < |xs| - 1
    ensures |Without(xs, j)| == |xs| - 1 && Around(j, k) < |xs| && Without(xs, j)[k] == xs[Around(j, k)]
  {
  }

  lemma PairOneMore(rest: seq<nat>, j: nat) returns (p: seq<nat>)
    requires Pairing(rest, |rest|) && j <= |rest|
    ensures Pairing(p, |rest| + 1) && p[0] == j
    ensures forall i :: 0 < i < |p| ==> p[i] == Around(j, rest[i - 1])
  {
    p := [j] + seq(|rest|, i requires 0 <= i < |rest| => Around(j, rest[i]));
  }

  /** Equal multisets can be paired up. */
  lemma {:induction false} PairUp<T>(a: seq<T>, b: seq<T>) returns (p: seq<nat>)
    requires multiset(a) == multiset(b)
    ensures |a| == |b| == |p| && Pairing(p, |a|)
    ensures forall i :: 0 <= i < |a| ==> p[i] < |b| && a[i] == b[p[i]]
  {
    SameSize(a, b);
    if a == [] {
      p := [];
    } else {
      HeadAndTail(a);
      assert a[0] in multiset(a);
      var j := SomewhereIn(a[0], b);
      WithoutAt(b, j);
      var rest := PairUp(a[1..], Without(b, j));
      p := PairOneMore(rest, j);
      hide Pairing, Without, Around;
      forall i | 0 <= i < |a| ensures p[i] < |b| && a[i] == b[p[i]] {
        if i > 0 {
          assert a[i] == a[1..][i - 1];
          WithoutElement(b, j, rest[i - 1]);
        }
      }
    }
  }

  function Identity(n: nat): (p: seq<nat>)
    ensures |p| == n && forall i :: 0 <= i < n ==> p[i] == i
  {
    seq(n, i => i)
  }

  lemma IdentityPairs(n: nat)
    ensures Pairing(Identity(n), n)
  {
  }

  /** A kept element splits what is kept, and what is kept of its ties. */
  lemma KeptSplit<A, T>(before: seq<A>, x: A, after: seq<A>, f: A -> T, p: T -> bool)
    requires p(f(x))
    ensures Kept(before + ([x] + after), f, p) == Kept(before, f, p) + ([f(x)] + Kept(after, f, p))
  {
    hide Filter;
    assert Mapped(before + ([x] + after), f) == Mapped(before, f) + ([f(x)] + Mapped(after, f));
    FilterConcat(Mapped(before, f), [f(x)] + Mapped(after, f), p);
    FilterCons(f(x), Mapped(after, f), p);
  }

  lemma TiedAt<A, T>(before: seq<A>, x: A, after: seq<A>, f: A -> T, p: T -> bool, leq: Order<T>, z: T)
    requires p(f(x)) && Ties(leq, z, f(x))
    ensures var tied := Tied(Kept(before + ([x] + after), f, p), leq, z);
            var at := |Tied(Kept(before, f, p), leq, z)|;
            at < |tied| && tied[at] == f(x)
  {
    hide Filter, Kept;
    KeptSplit(before, x, after, f, p);
    FilterConcat(Kept(before, f, p), [f(x)] + Kept(after, f, p), y => Ties(leq, z, y));
    FilterCons(f(x), Kept(after, f, p), y => Ties(leq, z, y));
  }

  lemma Exchange<A>(xs: seq<A>, i: nat, j: nat) returns (ys: seq<A>, xRest: seq<A>, yRest: seq<A>)
    requires i < j < |xs|
    ensures xs == xs[..i] + ([xs[i]] + xRest) && ys == xs[..i] + ([xs[j]] + yRest)
    ensures multiset(ys) == multiset(xs)
  {
    xRest := xs[i + 1..];
    yRest := xs[i + 1..j] + [xs[i]] + xs[j + 1..];
    ys := xs[..i] + ([xs[j]] + yRest);
    assert xs == xs[..i] + [xs[i]] + xs[i + 1..j] + [xs[j]] + xs[j + 1..];
  }

  /** Exchanging two kept elements that tie without being the same shows after sorting. */
  lemma ExchangeShows<A(!new), T(!new)>(xs: seq<A>, i: nat, j: nat, f: A -> T, p: T -> bool, leq: Order<T>)
    requires TotalPreorder(leq) && i < j < |xs|
    requires p(f(xs[i])) && p(f(xs[j])) && Ties(leq, f(xs[i]), f(xs[j])) && f(xs[i]) != f(xs[j])
    ensures !ArrangementIrrelevant(xs, f, p, leq)
  {
    hide Kept, Tied, Sort;
    var ys, xRest, yRest := Exchange(xs, i, j);
    var z := f(xs[i]);
    assert Ties(leq, z, z);
    TiedAt(xs[..i], xs[i], xRest, f, p, leq, z);
    TiedAt(xs[..i], xs[j], yRest, f, p, leq, z);
    SortIsStable(Kept(xs, f, p), leq, z);
    SortIsStable(Kept(ys, f, p), leq, z);
  }

  lemma KeptComesFrom<A, T>(xs: seq<A>, f: A -> T, p: T -> bool, t: T) returns (i: nat)
    requires t in multiset(Kept(xs, f, p))
    ensures i < |xs| && f(xs[i]) == t && p(t)
  {
    FilterCounts(Mapped(xs, f), p, t);
    i := SomewhereIn(t, Mapped(xs, f));
  }

  /** The original arrangement does not show exactly when kept elements that tie are the same. */
  lemma ArrangementIrrelevantIff<A(!new), T(!new)>(xs: seq<A>, f: A -> T, p: T -> bool, leq: Order<T>)
    requires TotalPreorder(leq)
    ensures ArrangementIrrelevant(xs, f, p, leq) <==> TiesDecide(multiset(Kept(xs, f, p)), leq)
  {
    hide TotalPreorder, Sort, Filter, Mapped;
    if TiesDecide(multiset(Kept(xs, f, p)), leq) {
      forall ys: seq<A> | multiset(ys) == multiset(xs)
        ensures Sort(Kept(ys, f, p), leq) == Sort(Kept(xs, f, p), leq)
      {
        MappedPermutes(xs, ys, f);
        FilterPermutes(Mapped(xs, f), Mapped(ys, f), p);
        SortIgnoresOrder(Kept(xs, f, p), Kept(ys, f, p), leq);
      }
    } else {
      var kept := multiset(Kept(xs, f, p));
      var s: T, t: T :| s in kept && t in kept && Ties(leq, s, t) && s != t;
      var i := KeptComesFrom(xs, f, p, s);
      var j := KeptComesFrom(xs, f, p, t);
      if i < j {
        ExchangeShows(xs, i, j, f, p, leq);
      } else {
        ExchangeShows(xs, j, i, f, p, leq);
      }
    }
  }
}
