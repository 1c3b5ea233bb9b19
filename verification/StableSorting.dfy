/**
 Stable sorting, as the library's `sort.SliceStable` promises it: the result is sorted and
 items the order does not tell apart keep their order.  Insertion sort has that property, and
 on a total preorder it is the only result that has it.
*/
module StableSorting {

  type Order<!T> = (T, T) -> bool

  /** `le` is a total preorder on the items. */
  ghost predicate IsOrder<T>(le: Order<T>, items: seq<T>) {
    && (forall a, b :: a in items && b in items ==> le(a, b) || le(b, a))
    && (forall a, b, c :: a in items && b in items && c in items && le(a, b) && le(b, c) ==> le(a, c))
  }

  ghost predicate IsSorted<T>(le: Order<T>, items: seq<T>) {
    forall i, j :: 0 <= i < j < |items| ==> le(items[i], items[j])
  }

  /** The items that the order does not tell apart from `p`, in order. */
  function Class<T>(le: Order<T>, p: T, items: seq<T>): seq<T> {
    if items == [] then []
    else (if le(p, items[0]) && le(items[0], p) then [items[0]] else []) + Class(le, p, items[1..])
  }

  ghost predicate IsStableSortOf<T>(le: Order<T>, sorted: seq<T>, items: seq<T>) {
    && IsSorted(le, sorted) && multiset(sorted) == multiset(items)
    && forall p :: p in items ==> Class(le, p, sorted) == Class(le, p, items)
  }

  function Insert<T>(le: Order<T>, x: T, items: seq<T>): seq<T> {
    if items == [] || le(x, items[0]) then [x] + items else [items[0]] + Insert(le, x, items[1..])
  }

  function Sort<T>(le: Order<T>, items: seq<T>): seq<T> {
    if items == [] then [] else Insert(le, items[0], Sort(le, items[1..]))
  }

  lemma {:induction false} InsertKeepsItems<T>(le: Order<T>, x: T, items: seq<T>)
    ensures multiset(Insert(le, x, items)) == multiset{x} + multiset(items)
  {
    if items == [] || le(x, items[0]) {
    } else {
      InsertKeepsItems(le, x, items[1..]);
      assert items == [items[0]] + items[1..];
    }
  }

  ghost predicate Within<T>(items: seq<T>, all: seq<T>) { forall i :: 0 <= i < |items| ==> items[i] in all }

  lemma {:induction false} InsertWithin<T>(le: Order<T>, x: T, items: seq<T>, all: seq<T>)
    requires x in all && Within(items, all)
    ensures Within(Insert(le, x, items), all)
  {
    if items != [] && !le(x, items[0]) {
      InsertWithin(le, x, items[1..], all);
    }
  }

  lemma {:induction false} SortWithin<T>(le: Order<T>, items: seq<T>, all: seq<T>)
    requires Within(items, all)
    ensures Within(Sort(le, items), all)
  {
    if items != [] {
      SortWithin(le, items[1..], all);
      InsertWithin(le, items[0], Sort(le, items[1..]), all);
    }
  }

  ghost predicate AllAbove<T>(le: Order<T>, x: T, items: seq<T>) { forall i :: 0 <= i < |items| ==> le(x, items[i]) }

  lemma {:induction false} InsertAbove<T>(le: Order<T>, low: T, x: T, items: seq<T>)
    requires le(low, x) && AllAbove(le, low, items)
    ensures AllAbove(le, low, Insert(le, x, items))
  {
    if items != [] && !le(x, items[0]) {
      InsertAbove(le, low, x, items[1..]);
    }
  }

  lemma {:induction false} InsertKeepsSorted<T>(le: Order<T>, x: T, items: seq<T>, all: seq<T>)
    requires IsOrder(le, all) && x in all && Within(items, all) && IsSorted(le, items)
    ensures IsSorted(le, Insert(le, x, items))
  {
    if items != [] {
      if le(x, items[0]) {
        forall j | 0 <= j < |items|
          ensures le(x, items[j])
        {
          assert le(items[0], items[j]);
        }
      } else {
        InsertKeepsSorted(le, x, items[1..], all);
        InsertAbove(le, items[0], x, items[1..]);
      }
    }
  }

  lemma ClassOfCons<T>(le: Order<T>, p: T, x: T, items: seq<T>)
    ensures Class(le, p, [x] + items) == (if le(p, x) && le(x, p) then [x] else []) + Class(le, p, items)
  {
    assert ([x] + items)[1..] == items;
  }

  /** Whatever `x` is carried past is smaller, so it is in no class of `x`. */
  lemma {:induction false} InsertKeepsClasses<T>(le: Order<T>, x: T, items: seq<T>, p: T, all: seq<T>)
    requires IsOrder(le, all) && x in all && p in all && Within(items, all)
    ensures Class(le, p, Insert(le, x, items)) == (if le(p, x) && le(x, p) then [x] else []) + Class(le, p, items)
  {
    if items == [] || le(x, items[0]) {
      ClassOfCons(le, p, x, items);
    } else {
      var y := items[0];
      InsertKeepsClasses(le, x, items[1..], p, all);
      ClassOfCons(le, p, y, Insert(le, x, items[1..]));
      assert le(x, p) && le(p, y) ==> le(x, y);
    }
  }

  lemma {:induction false} SortKeepsItems<T>(le: Order<T>, items: seq<T>)
    ensures multiset(Sort(le, items)) == multiset(items)
  {
    if items != [] {
      SortKeepsItems(le, items[1..]);
      InsertKeepsItems(le, items[0], Sort(le, items[1..]));
      assert items == [items[0]] + items[1..];
    }
  }

  lemma {:induction false} SortIsSorted<T>(le: Order<T>, items: seq<T>, all: seq<T>)
    requires IsOrder(le, all) && Within(items, all)
    ensures IsSorted(le, Sort(le, items))
  {
    if items != [] {
      SortIsSorted(le, items[1..], all);
      SortWithin(le, items[1..], all);
      InsertKeepsSorted(le, items[0], Sort(le, items[1..]), all);
    }
  }

  lemma {:induction false} SortKeepsClasses<T>(le: Order<T>, items: seq<T>, p: T, all: seq<T>)
    requires IsOrder(le, all) && p in all && Within(items, all)
    ensures Class(le, p, Sort(le, items)) == Class(le, p, items)
  {
    if items != [] {
      SortKeepsClasses(le, items[1..], p, all);
      SortWithin(le, items[1..], all);
      InsertKeepsClasses(le, items[0], Sort(le, items[1..]), p, all);
    }
  }

  lemma SortIsStable<T>(le: Order<T>, items: seq<T>)
    requires IsOrder(le, items)
    ensures IsStableSortOf(le, Sort(le, items), items)
  {
    SortIsSorted(le, items, items);
    SortKeepsItems(le, items);
    forall p | p in items
      ensures Class(le, p, Sort(le, items)) == Class(le, p, items)
    {
      SortKeepsClasses(le, items, p, items);
    }
  }

  /** Sorted lists with the same classes begin alike. */
  lemma SameFirst<T>(le: Order<T>, a: seq<T>, b: seq<T>, all: seq<T>)
    requires IsOrder(le, all) && a != [] && (forall y :: y in a || y in b ==> y in all)
    requires IsSorted(le, a) && IsSorted(le, b) && forall p :: p in all ==> Class(le, p, a) == Class(le, p, b)
    ensures b != [] && a[0] == b[0]
  {
    ClassBeginsWith(le, a, all);
    var x := a[0];
    InClass(le, x, x, b);
    ClassBeginsWith(le, b, all);
    var y := b[0];
    InClass(le, y, y, a);
    LeastIsFirst(le, a, y);
    LeastIsFirst(le, b, x);
    assert Class(le, x, b)[0] == y;
  }

  /** Sorted lists with the same classes are the same list. */
  lemma {:induction false} SameClassesSameList<T>(le: Order<T>, a: seq<T>, b: seq<T>, all: seq<T>)
    requires IsOrder(le, all) && (forall y :: y in a || y in b ==> y in all)
    requires IsSorted(le, a) && IsSorted(le, b) && forall p :: p in all ==> Class(le, p, a) == Class(le, p, b)
    ensures a == b
    decreases |a|
  {
    if a == [] {
      if b != [] {
        ClassBeginsWith(le, b, all);
      }
    } else {
      SameFirst(le, a, b, all);
      forall p | p in all
        ensures Class(le, p, a[1..]) == Class(le, p, b[1..])
      {
        SameTails(Class(le, p, a[1..]), Class(le, p, b[1..]), if le(p, a[0]) && le(a[0], p) then [a[0]] else []);
      }
      SameClassesSameList(le, a[1..], b[1..], all);
    }
  }

  lemma SameTails<T>(a: seq<T>, b: seq<T>, head: seq<T>)
    requires head + a == head + b
    ensures a == b
  {
    assert a == (head + a)[|head|..];
    assert b == (head + b)[|head|..];
  }

  lemma ClassBeginsWith<T>(le: Order<T>, items: seq<T>, all: seq<T>)
    requires IsOrder(le, all) && items != [] && forall y :: y in items ==> y in all
    ensures items[0] in all && Class(le, items[0], items) != [] && Class(le, items[0], items)[0] == items[0]
  {
    assert items[0] in items && le(items[0], items[0]);
  }

  lemma {:induction false} InClass<T>(le: Order<T>, p: T, x: T, items: seq<T>)
    requires x in Class(le, p, items)
    ensures x in items && le(p, x) && le(x, p)
  {
    if items != [] && !(le(p, items[0]) && le(items[0], p) && items[0] == x) {
      InClass(le, p, x, items[1..]);
    }
  }

  lemma LeastIsFirst<T>(le: Order<T>, items: seq<T>, x: T)
    requires IsSorted(le, items) && x in items && le(x, x)
    ensures le(items[0], x)
  {
    var k :| 0 <= k < |items| && items[k] == x;
  }

  /** The stable sort of an ordered list is unique: whatever algorithm the library uses, it
      returns this list. */
  lemma StableSortIsUnique<T>(le: Order<T>, sorted: seq<T>, items: seq<T>)
    requires IsOrder(le, items) && IsStableSortOf(le, sorted, items)
    ensures sorted == Sort(le, items)
  {
    SortIsStable(le, items);
    forall y | y in sorted || y in Sort(le, items)
      ensures y in items
    {
      assert y in multiset(sorted) || y in multiset(Sort(le, items));
    }
    SameClassesSameList(le, sorted, Sort(le, items), items);
  }

  /******* Items without duplicates *******/

  ghost predicate NoDuplicates<T>(items: seq<T>) {
    forall i, j :: 0 <= i < j < |items| ==> items[i] != items[j]
  }

  ghost predicate TellsApart<T>(le: Order<T>, items: seq<T>) {
    forall a, b :: a in items && b in items && le(a, b) && le(b, a) ==> a == b
  }

  lemma {:induction false} CountedOnce<T>(items: seq<T>, x: T)
    requires NoDuplicates(items)
    ensures multiset(items)[x] <= 1
  {
    if items != [] {
      assert items == [items[0]] + items[1..];
      CountedOnce(items[1..], x);
      if x == items[0] {
        assert x !in items[1..];
        assert x !in multiset(items[1..]);
      }
    }
  }

  lemma CountedTwice<T>(items: seq<T>, i: nat, j: nat)
    requires i < j < |items| && items[i] == items[j]
    ensures multiset(items)[items[i]] >= 2
  {
    assert items == items[..j] + items[j..];
    assert items[..j][i] in multiset(items[..j]) && items[j..][0] in multiset(items[j..]);
  }

  /** If the order tells all items apart and none occurs twice, sorting puts them in strict order:
      any sorting algorithm, stable or not, has this one result. */
  lemma SortIsStrict<T>(le: Order<T>, items: seq<T>)
    requires IsOrder(le, items) && TellsApart(le, items) && NoDuplicates(items)
    ensures var sorted := Sort(le, items);
      && |sorted| == |items| && Within(sorted, items) && Within(items, sorted)
      && forall i, j :: 0 <= i < j < |sorted| ==> le(sorted[i], sorted[j]) && !le(sorted[j], sorted[i])
  {
    var sorted := Sort(le, items);
    SortKeepsItems(le, items);
    SortIsSorted(le, items, items);
    SameItems(sorted, items);
    SameItems(items, sorted);
    forall i, j | 0 <= i < j < |sorted|
      ensures !le(sorted[j], sorted[i])
    {
      if le(sorted[j], sorted[i]) {
        IsMember(sorted, items, i);
        IsMember(sorted, items, j);
        CountedTwice(sorted, i, j);
        CountedOnce(items, sorted[i]);
      }
    }
  }

  lemma IsMember<T>(a: seq<T>, b: seq<T>, i: nat)
    requires multiset(a) == multiset(b) && i < |a|
    ensures a[i] in b
  {
    assert a[i] in multiset(a);
  }

  lemma SameItems<T>(a: seq<T>, b: seq<T>)
    requires multiset(a) == multiset(b)
    ensures |a| == |b| && Within(a, b)
  {
    assert |a| == |multiset(a)| && |b| == |multiset(b)|;
    forall i | 0 <= i < |a|
      ensures a[i] in b
    {
      IsMember(a, b, i);
    }
  }
}
