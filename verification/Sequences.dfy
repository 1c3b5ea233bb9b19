/** Sequences of sequences, and sequences cut into pages. */
module Sequences {

  function Flatten<T>(parts: seq<seq<T>>): seq<T> {
    if parts == [] then [] else parts[0] + Flatten(parts[1..])
  }

  lemma {:induction false} FlattenAppend<T>(a: seq<seq<T>>, b: seq<seq<T>>)
    ensures Flatten(a + b) == Flatten(a) + Flatten(b)
  {
    if a == [] {
      assert a + b == b;
    } else {
      assert (a + b)[1..] == a[1..] + b;
      FlattenAppend(a[1..], b);
      assert Flatten(a + b) == a[0] + Flatten((a + b)[1..]);
    }
  }

  lemma FlattenOne<T>(part: seq<T>)
    ensures Flatten([part]) == part
  {
    assert [part][1..] == [];
  }

  function Min(a: int, b: int): int { if a < b then a else b }

  function Max(a: int, b: int): int { if a > b then a else b }

  /** A sequence cut into pages of `size`; the empty sequence is one empty page. */
  function Pages<T>(items: seq<T>, size: nat): (pages: seq<seq<T>>)
    requires 0 < size
    ensures pages != [] && pages[0] == items[..Min(size, |items|)]
  {
    if |items| <= size then [items] else [items[..size]] + Pages(items[size..], size)
  }

  /** The pages hold the items in order, none more than `size`. */
  lemma {:induction false} PagesPartition<T>(items: seq<T>, size: nat)
    requires 0 < size
    ensures Flatten(Pages(items, size)) == items
    ensures forall i :: 0 <= i < |Pages(items, size)| ==> |Pages(items, size)[i]| <= size
  {
    if |items| <= size {
      FlattenOne(items);
    } else {
      PagesPartition(items[size..], size);
      assert Pages(items, size)[1..] == Pages(items[size..], size);
      assert items == items[..size] + items[size..];
    }
  }

  lemma OneMore(n: int, size: nat)
    ensures n * size == (n - 1) * size + size
  {
  }

  /** There are as many pages as the size asks for. */
  lemma {:induction false} PagesCount<T>(items: seq<T>, size: nat)
    requires 0 < size
    ensures var n := |Pages(items, size)|;
      (items == [] ==> n == 1) && (items != [] ==> (n - 1) * size < |items| <= n * size)
  {
    if |items| > size {
      PagesCount(items[size..], size);
      OneMore(|Pages(items, size)|, size);
      OneMore(|Pages(items, size)| - 1, size);
    } else {
      OneMore(1, size);
    }
  }

  /** The first pages of a sequence hold its first items. */
  lemma FirstPages<T>(items: seq<T>, size: nat, some: seq<seq<T>>)
    requires 0 < size && some <= Pages(items, size)
    ensures Flatten(some) <= items
    ensures forall i :: 0 <= i < |some| ==> |some[i]| <= size
  {
    var all := Pages(items, size);
    PagesPartition(items, size);
    assert all == some + all[|some|..];
    FlattenAppend(some, all[|some|..]);
    assert forall i :: 0 <= i < |some| ==> some[i] == all[i];
  }
}
