/**
 Stable sorting, as the built-in sorts of the modelled code do it, and what determines its result; and lists
 without repeats.
 */
module Sorting {

  ghost predicate TotalPreorder<T(!new)>(le: (T, T) -> bool) {
    && (forall x, y :: le(x, y) || le(y, x))
    && (forall x, y, z :: le(x, y) && le(y, z) ==> le(x, z))
  }

  ghost predicate Sorted<T(!new)>(le: (T, T) -> bool, s: seq<T>) {
    forall i, j :: 0 <= i < j < |s| ==> le(s[i], s[j])
  }

  /** Puts `x` behind every element that may stand before it. */
  function Insert<T(!new)>(le: (T, T) -> bool, s: seq<T>, x: T): (r: seq<T>)
    ensures |r| == |s| + 1
    ensures forall e :: e in r <==> e in s || e == x
    ensures multiset(r) == multiset(s) + multiset{x}
  {
    if s == [] then [x]
    else
      var init, last := s[..|s| - 1], s[|s| - 1];
      assert s == init + [last];
      if le(last, x) then s + [x] else Insert(le, init, x) + [last]
  }

  /** The stable sort of `s`. */
  function StableSort<T(!new)>(le: (T, T) -> bool, s: seq<T>): (r: seq<T>)
    ensures |r| == |s|
    ensures forall e :: e in r <==> e in s
    ensures multiset(r) == multiset(s)
  {
    if s == [] then []
    else
      assert s == s[..|s| - 1] + [s[|s| - 1]];
      Insert(le, StableSort(le, s[..|s| - 1]), s[|s| - 1])
  }

  lemma {:induction false} InsertSorts<T(!new)>(le: (T, T) -> bool, s: seq<T>, x: T)
    requires TotalPreorder(le) && Sorted(le, s)
    ensures Sorted(le, Insert(le, s, x))
  {
    if s != [] && !le(s[|s| - 1], x) {
      var init, last := s[..|s| - 1], s[|s| - 1];
      InsertSorts(le, init, x);
      forall e | e in init ensures le(e, last) {
        var i :| 0 <= i < |init| && init[i] == e;
        assert s[i] == e;
      }
      assert forall e :: e in Insert(le, init, x) ==> le(e, last);
    } else if s != [] {
      assert forall i :: 0 <= i < |s| - 1 ==> le(s[i], s[|s| - 1]);
    }
  }

  lemma {:induction false} StableSortSorts<T(!new)>(le: (T, T) -> bool, s: seq<T>)
    requires TotalPreorder(le)
    ensures Sorted(le, StableSort(le, s))
  {
    if s == [] {
    } else {
      StableSortSorts(le, s[..|s| - 1]);
      InsertSorts(le, StableSort(le, s[..|s| - 1]), s[|s| - 1]);
    }
  }

  // ----- stability -----

  predicate Tied<T(!new)>(le: (T, T) -> bool, x: T, y: T) { le(x, y) && le(y, x) }

  /** The elements of `s` that are tied with `x`, in order. */
  function Class<T(!new)>(le: (T, T) -> bool, s: seq<T>, x: T): seq<T> {
    if s == [] then []
    else Class(le, s[..|s| - 1], x) + if Tied(le, x, s[|s| - 1]) then [s[|s| - 1]] else []
  }

  lemma ClassSnoc<T(!new)>(le: (T, T) -> bool, s: seq<T>, e: T, x: T)
    ensures Class(le, s + [e], x) == Class(le, s, x) + if Tied(le, x, e) then [e] else []
  {
    assert (s + [e])[..|s|] == s;
  }

  lemma NotBothTied<T(!new)>(le: (T, T) -> bool, x: T, e: T, last: T)
    requires TotalPreorder(le) && !le(last, e)
    ensures !Tied(le, x, e) || !Tied(le, x, last)
  {}

  lemma {:induction false} InsertKeepsClass<T(!new)>(le: (T, T) -> bool, s: seq<T>, e: T, x: T)
    requires TotalPreorder(le)
    ensures Class(le, Insert(le, s, e), x) == Class(le, s, x) + if Tied(le, x, e) then [e] else []
  {
    hide Tied, TotalPreorder;
    if s == [] {
      ClassSnoc(le, [], e, x);
      assert [] + [e] == [e];
    } else {
      var init, last := s[..|s| - 1], s[|s| - 1];
      if le(last, e) {
        ClassSnoc(le, s, e, x);
      } else {
        InsertKeepsClass(le, init, e, x);
        ClassSnoc(le, Insert(le, init, e), last, x);
        NotBothTied(le, x, e, last);
      }
    }
  }

  /** Tied elements keep their order. */
  lemma {:induction false} StableSortIsStable<T(!new)>(le: (T, T) -> bool, s: seq<T>, x: T)
    requires TotalPreorder(le)
    ensures Class(le, StableSort(le, s), x) == Class(le, s, x)
  {
    if s == [] {
    } else {
      StableSortIsStable(le, s[..|s| - 1], x);
      InsertKeepsClass(le, StableSort(le, s[..|s| - 1]), s[|s| - 1], x);
    }
  }

  lemma {:induction false} ClassMembers<T(!new)>(le: (T, T) -> bool, s: seq<T>, x: T)
    ensures forall e :: e in Class(le, s, x) <==> e in s && Tied(le, x, e)
  {
    if s == [] {
    } else {
      ClassMembers(le, s[..|s| - 1], x);
      assert s == s[..|s| - 1] + [s[|s| - 1]];
    }
  }

  /** A sorted sequence is determined by its classes. */
  lemma {:induction false} ClassesDetermine<T(!new)>(le: (T, T) -> bool, xs: seq<T>, ys: seq<T>)
    requires TotalPreorder(le) && Sorted(le, xs) && Sorted(le, ys)
    requires forall x :: Class(le, xs, x) == Class(le, ys, x)
    ensures xs == ys
  {
    if xs == [] || ys == [] {
      EmptyClasses(le, xs, ys);
    } else {
      var xi, x := xs[..|xs| - 1], xs[|xs| - 1];
      var yi, y := ys[..|ys| - 1], ys[|ys| - 1];
      LastTied(le, xs, ys);
      assert Class(le, xs, x)[|Class(le, xs, x)| - 1] == x;
      assert Class(le, ys, x)[|Class(le, ys, x)| - 1] == y;
      forall z ensures Class(le, xi, z) == Class(le, yi, z) {
        assert Class(le, xs, z) == Class(le, ys, z);
        var tail := if Tied(le, z, x) then [x] else [];
        assert Class(le, xi, z) + tail == Class(le, yi, z) + tail;
        assert Class(le, xi, z) == (Class(le, xi, z) + tail)[..|Class(le, xs, z)| - |tail|];
      }
      ClassesDetermine(le, xi, yi);
      assert xs == xi + [x] && ys == yi + [y];
    }
  }

  lemma EmptyClasses<T(!new)>(le: (T, T) -> bool, xs: seq<T>, ys: seq<T>)
    requires TotalPreorder(le)
    requires forall x :: Class(le, xs, x) == Class(le, ys, x)
    ensures xs == [] <==> ys == []
  {
    if xs != [] {
      ClassMembers(le, xs, xs[0]);
      ClassMembers(le, ys, xs[0]);
      assert xs[0] in Class(le, ys, xs[0]);
    }
    if ys != [] {
      ClassMembers(le, xs, ys[0]);
      ClassMembers(le, ys, ys[0]);
      assert ys[0] in Class(le, xs, ys[0]);
    }
  }

  lemma LastIsGreatest<T(!new)>(le: (T, T) -> bool, s: seq<T>, e: T)
    requires TotalPreorder(le) && Sorted(le, s) && e in s
    ensures le(e, s[|s| - 1])
  {}

  lemma LastTied<T(!new)>(le: (T, T) -> bool, xs: seq<T>, ys: seq<T>)
    requires TotalPreorder(le) && Sorted(le, xs) && Sorted(le, ys) && xs != [] && ys != []
    requires forall x :: Class(le, xs, x) == Class(le, ys, x)
    ensures Tied(le, xs[|xs| - 1], ys[|ys| - 1])
  {
    var x, y := xs[|xs| - 1], ys[|ys| - 1];
    ClassMembers(le, xs, x);
    ClassMembers(le, ys, x);
    ClassMembers(le, xs, y);
    ClassMembers(le, ys, y);
    assert x in Class(le, xs, x) && y in Class(le, ys, y);
    LastIsGreatest(le, ys, x);
    LastIsGreatest(le, xs, y);
  }

  // ----- repeats -----

  ghost predicate NoRepeats<T>(items: seq<T>) { forall i, j :: 0 <= i < j < |items| ==> items[i] != items[j] }

  /** `unique`: first occurrences, in order. */
  function Unique<T(==)>(items: seq<T>): seq<T> {
    if items == [] then []
    else
      var init, last := Unique(items[..|items| - 1]), items[|items| - 1];
      if last in init then init else init + [last]
  }

  lemma {:induction false} UniqueKeeps<T>(items: seq<T>)
    ensures NoRepeats(Unique(items)) && forall e :: e in Unique(items) <==> e in items
  {
    if items == [] {
    } else {
      UniqueKeeps(items[..|items| - 1]);
      assert items == items[..|items| - 1] + [items[|items| - 1]];
    }
  }

  /** `at` names places of `items` in order; `r` lists what stands there. */
  ghost predicate Picks<T(!new)>(items: seq<T>, at: seq<nat>, r: seq<T>) {
    && |at| == |r| && (forall k :: 0 <= k < |at| ==> at[k] < |items| && r[k] == items[at[k]])
    && (forall k, l :: 0 <= k < l < |at| ==> at[k] < at[l])
  }

  ghost predicate FirstAt<T(!new)>(items: seq<T>, n: nat) { n < |items| && items[n] !in items[..n] }

  lemma FirstInPrefix<T(!new)>(items: seq<T>, m: nat, n: nat)
    requires n < m <= |items|
    ensures FirstAt(items[..m], n) <==> FirstAt(items, n)
  {
    assert items[..m][..n] == items[..n];
  }

  lemma FirstIsInside<T(!new)>(items: seq<T>, n: nat)
    ensures FirstAt(items, n) ==> n < |items|
  {}

  /** The places of `before`, all below `n`, and `n` too when it is one. */
  lemma PlacesNext<T(!new)>(items: seq<T>, n: nat, before: seq<nat>)
    requires n < |items| && forall k: nat :: k in before <==> FirstAt(items[..n], k)
    ensures forall k: nat :: k in before <==> FirstAt(items, k) && k < n
    ensures forall k: nat :: k in (if FirstAt(items, n) then before + [n] else before) <==> FirstAt(items, k) && k <= n
  {
    forall k: nat ensures FirstAt(items[..n], k) <==> FirstAt(items, k) && k < n {
      if k < n { FirstInPrefix(items, n, k); }
    }
    hide FirstAt;
  }

  lemma PicksNext<T(!new)>(items: seq<T>, n: nat, at: seq<nat>, r: seq<T>)
    requires n < |items| && Picks(items[..n], at, r)
    ensures Picks(items, at, r) && Picks(items, at + [n], r + [items[n]])
  {}

  /** The unique items stand in the order of their first appearances. */
  lemma {:induction false} UniqueInOrder<T(!new)>(items: seq<T>) returns (at: seq<nat>)
    ensures Picks(items, at, Unique(items))
    ensures forall k: nat :: k in at <==> FirstAt(items, k)
  {
    if items == [] {
      at := [];
    } else {
      var n := |items| - 1;
      var init, last := items[..n], items[n];
      var before := UniqueInOrder(init);
      UniqueKeeps(init);
      PlacesNext(items, n, before);
      PicksNext(items, n, before, Unique(init));
      assert last in Unique(init) <==> !FirstAt(items, n);
      forall k: nat ensures FirstAt(items, k) ==> k <= n { FirstIsInside(items, k); }
      hide FirstAt, Picks;
      at := if FirstAt(items, n) then before + [n] else before;
    }
  }

  lemma {:induction false} UniqueOfDistinct<T>(items: seq<T>)
    requires NoRepeats(items)
    ensures Unique(items) == items
  {
    if items == [] {
    } else {
      var init, last := items[..|items| - 1], items[|items| - 1];
      UniqueOfDistinct(init);
      assert items == init + [last];
    }
  }

  lemma {:induction false} InsertKeepsDistinct<T(!new)>(le: (T, T) -> bool, s: seq<T>, x: T)
    requires NoRepeats(s) && x !in s
    ensures NoRepeats(Insert(le, s, x))
  {
    if s == [] {
    } else {
      var init, last := s[..|s| - 1], s[|s| - 1];
      assert s == init + [last];
      if !le(last, x) {
        InsertKeepsDistinct(le, init, x);
        forall i | 0 <= i < |init| ensures init[i] != last { assert s[i] != s[|s| - 1]; }
        assert last !in Insert(le, init, x);
      }
    }
  }

  /** Sorting a list without repeats leaves it without repeats. */
  lemma {:induction false} SortKeepsDistinct<T(!new)>(le: (T, T) -> bool, s: seq<T>)
    requires NoRepeats(s)
    ensures NoRepeats(StableSort(le, s))
  {
    if s == [] {
    } else {
      var init, last := s[..|s| - 1], s[|s| - 1];
      SortKeepsDistinct(le, init);
      assert last !in init;
      InsertKeepsDistinct(le, StableSort(le, init), last);
    }
  }
}
