/** What is found in each item of a list, one after the other, and the items of a
    list that are kept. */
module Folds {

  function Each<T, F>(items: seq<T>, found: T -> seq<F>): seq<F> {
    if items == [] then [] else Each(items[..|items| - 1], found) + found(items[|items| - 1])
  }

  lemma EachMore<T, F>(items: seq<T>, k: nat, found: T -> seq<F>)
    requires k < |items|
    ensures Each(items[..k + 1], found) == Each(items[..k], found) + found(items[k])
  {
    assert items[..k + 1][..k] == items[..k];
  }

  lemma {:induction false} EachIsEmpty<T, F>(items: seq<T>, found: T -> seq<F>)
    ensures Each(items, found) == [] <==> forall item :: item in items ==> found(item) == []
  {
    if items != [] {
      var (front, last) := (items[..|items| - 1], items[|items| - 1]);
      EachIsEmpty(front, found);
      assert items == front + [last];
    }
  }

  lemma {:induction false} EachHolds<T, F>(items: seq<T>, found: T -> seq<F>, f: F)
    ensures f in Each(items, found) <==> exists item :: item in items && f in found(item)
  {
    if items != [] {
      var (front, last) := (items[..|items| - 1], items[|items| - 1]);
      EachHolds(front, found, f);
      assert items == front + [last];
    }
  }

  lemma {:induction false} EachSame<T, F>(items: seq<T>, found: T -> seq<F>, other: T -> seq<F>)
    requires forall item :: item in items ==> found(item) == other(item)
    ensures Each(items, found) == Each(items, other)
  {
    if items != [] {
      var (front, last) := (items[..|items| - 1], items[|items| - 1]);
      assert last in items;
      assert items == front + [last];
      EachSame(front, found, other);
    }
  }

  // ---- The items that are kept.

  function Kept<T>(s: seq<T>, keep: T -> bool): seq<T> {
    if s == [] then [] else (if keep(s[0]) then [s[0]] else []) + Kept(s[1..], keep)
  }

  lemma {:induction false} KeptMembers<T>(s: seq<T>, keep: T -> bool, x: T)
    ensures x in Kept(s, keep) <==> x in s && keep(x)
  {
    if s != [] {
      KeptMembers(s[1..], keep, x);
    }
  }

  lemma KeptOne<T>(x: T, keep: T -> bool)
    ensures Kept([x], keep) == if keep(x) then [x] else []
  {
    assert [x][1..] == [];
  }

  lemma {:induction false} KeptSplit<T>(a: seq<T>, b: seq<T>, keep: T -> bool)
    ensures Kept(a + b, keep) == Kept(a, keep) + Kept(b, keep)
  {
    if a == [] {
      assert a + b == b;
    } else {
      KeptSplit(a[1..], b, keep);
      assert (a + b)[1..] == a[1..] + b && (a + b)[0] == a[0];
      var first := if keep(a[0]) then [a[0]] else [];
      assert first + (Kept(a[1..], keep) + Kept(b, keep)) == first + Kept(a[1..], keep) + Kept(b, keep);
    }
  }
}
