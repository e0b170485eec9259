/**
 `Array.prototype.sort` with a comparator: the stable sort under a total preorder, when its
 result is a function of the multiset sorted, and when it is not.
 */
module Sorting {
  import opened Lists

  /** A consistent comparator: total, antisymmetric in sign, transitive. */
  ghost predicate TotalPreorder<T(!new)>(cmp: (T, T) -> int) {
    && (forall x, y :: Opposite(cmp, x, y))
    && (forall x, y, z :: Transitive(cmp, x, y, z))
  }

  ghost predicate Opposite<T>(cmp: (T, T) -> int, x: T, y: T) {
    cmp(x, y) < 0 <==> cmp(y, x) > 0
  }

  ghost predicate Transitive<T>(cmp: (T, T) -> int, x: T, y: T, z: T) {
    cmp(x, y) <= 0 && cmp(y, z) <= 0 ==> cmp(x, z) <= 0
  }

  ghost predicate Sorted<T>(cmp: (T, T) -> int, xs: seq<T>) {
    forall i, j :: 0 <= i < j < |xs| ==> cmp(xs[i], xs[j]) <= 0
  }

  /** Elements of `xs` that compare equal are equal. */
  ghost predicate Separates<T>(cmp: (T, T) -> int, xs: seq<T>) {
    forall x, y :: x in xs && y in xs && cmp(x, y) == 0 ==> x == y
  }

  function Insert<T>(cmp: (T, T) -> int, x: T, xs: seq<T>): seq<T> {
    if xs == [] then [x]
    else if cmp(x, xs[0]) <= 0 then [x] + xs
    else [xs[0]] + Insert(cmp, x, xs[1..])
  }

  /** The stable sort of `xs`: earlier elements stay before later ones that compare equal. */
  function Sort<T>(cmp: (T, T) -> int, xs: seq<T>): seq<T> {
    if xs == [] then [] else Insert(cmp, xs[0], Sort(cmp, xs[1..]))
  }

  /** A list included in another one, as multisets: its last element has a place there, and the rest fits in the rest. */
  lemma Place<T>(xs: seq<T>, ys: seq<T>) returns (i: nat)
    requires xs != [] && multiset(xs) <= multiset(ys)
    ensures i < |ys| && ys[i] == xs[|xs| - 1]
    ensures multiset(xs[..|xs| - 1]) <= multiset(Removed(ys, i))
    ensures multiset(xs) == multiset(ys) ==> multiset(xs[..|xs| - 1]) == multiset(Removed(ys, i))
  {
    var x := xs[|xs| - 1];
    assert x in multiset(xs) && x in multiset(ys);
    i :| 0 <= i < |ys| && ys[i] == x;
    assert xs == xs[..|xs| - 1] + [x];
    assert multiset(xs[..|xs| - 1]) == multiset(xs) - multiset{x};
  }

  lemma SortOne<T>(cmp: (T, T) -> int, x: T)
    ensures Sort(cmp, [x]) == [x]
  {
    assert [x][1..] == [];
  }

  lemma {:induction false} InsertMultiset<T>(cmp: (T, T) -> int, x: T, xs: seq<T>)
    ensures multiset(Insert(cmp, x, xs)) == multiset{x} + multiset(xs)
  {
    if xs != [] && cmp(x, xs[0]) > 0 {
      InsertMultiset(cmp, x, xs[1..]);
      assert xs == [xs[0]] + xs[1..];
    }
  }

  lemma {:induction false} SortMultiset<T>(cmp: (T, T) -> int, xs: seq<T>)
    ensures multiset(Sort(cmp, xs)) == multiset(xs)
    ensures |Sort(cmp, xs)| == |xs|
    ensures forall x :: x in Sort(cmp, xs) <==> x in xs
  {
    if xs != [] {
      SortMultiset(cmp, xs[1..]);
      InsertMultiset(cmp, xs[0], Sort(cmp, xs[1..]));
      assert xs == [xs[0]] + xs[1..];
    }
    assert |Sort(cmp, xs)| == |multiset(Sort(cmp, xs))| == |multiset(xs)| == |xs|;
    forall x ensures x in Sort(cmp, xs) <==> x in xs {
      assert x in multiset(Sort(cmp, xs)) <==> x in multiset(xs);
    }
  }

  lemma {:induction false} InsertSorted<T(!new)>(cmp: (T, T) -> int, x: T, xs: seq<T>)
    requires TotalPreorder(cmp) && Sorted(cmp, xs)
    ensures Sorted(cmp, Insert(cmp, x, xs))
  {
    if xs == [] {
    } else if cmp(x, xs[0]) <= 0 {
      forall i | 0 <= i < |xs| ensures cmp(x, xs[i]) <= 0 {
        assert i > 0 ==> cmp(xs[0], xs[i]) <= 0;
        assert Transitive(cmp, x, xs[0], xs[i]);
      }
    } else {
      var tail := Insert(cmp, x, xs[1..]);
      InsertSorted(cmp, x, xs[1..]);
      InsertMultiset(cmp, x, xs[1..]);
      assert Opposite(cmp, xs[0], x);
      forall i | 0 <= i < |tail| ensures cmp(xs[0], tail[i]) <= 0 {
        assert tail[i] in multiset(tail);
        if tail[i] != x {
          var j :| 0 <= j < |xs[1..]| && xs[1..][j] == tail[i];
          assert cmp(xs[0], xs[j + 1]) <= 0;
        }
      }
    }
  }

  lemma {:induction false} SortSorted<T(!new)>(cmp: (T, T) -> int, xs: seq<T>)
    requires TotalPreorder(cmp)
    ensures Sorted(cmp, Sort(cmp, xs))
  {
    if xs != [] {
      SortSorted(cmp, xs[1..]);
      InsertSorted(cmp, xs[0], Sort(cmp, xs[1..]));
    }
  }

  /** Sorting changes nothing in a sorted list. */
  lemma {:induction false} SortedStays<T>(cmp: (T, T) -> int, xs: seq<T>)
    requires Sorted(cmp, xs)
    ensures Sort(cmp, xs) == xs
  {
    if xs != [] {
      SortedStays(cmp, xs[1..]);
      assert xs == [xs[0]] + xs[1..];
    }
  }

  lemma HeadIsLeast<T(!new)>(cmp: (T, T) -> int, xs: seq<T>, y: T)
    requires TotalPreorder(cmp) && Sorted(cmp, xs) && y in xs
    ensures cmp(xs[0], y) <= 0
  {
    assert Opposite(cmp, y, y);
    var i :| 0 <= i < |xs| && xs[i] == y;
  }

  lemma TailMultiset<T>(xs: seq<T>)
    requires xs != []
    ensures multiset(xs[1..]) == multiset(xs) - multiset{xs[0]}
  {
    assert xs == [xs[0]] + xs[1..];
  }

  lemma {:induction false} SortedUnique<T(!new)>(cmp: (T, T) -> int, xs: seq<T>, ys: seq<T>)
    requires TotalPreorder(cmp) && Sorted(cmp, xs) && Sorted(cmp, ys)
    requires multiset(xs) == multiset(ys) && Separates(cmp, xs)
    ensures xs == ys
  {
    assert |xs| == |multiset(xs)| == |multiset(ys)| == |ys|;
    if xs != [] {
      SameLeast(cmp, xs, ys);
      TailMultiset(xs);
      TailMultiset(ys);
      SortedUnique(cmp, xs[1..], ys[1..]);
    }
  }

  lemma SameLeast<T(!new)>(cmp: (T, T) -> int, xs: seq<T>, ys: seq<T>)
    requires TotalPreorder(cmp) && Sorted(cmp, xs) && Sorted(cmp, ys)
    requires multiset(xs) == multiset(ys) && Separates(cmp, xs) && xs != [] && ys != []
    ensures xs[0] == ys[0]
  {
    assert xs[0] in multiset(ys) && ys[0] in multiset(xs);
    HeadIsLeast(cmp, xs, ys[0]);
    HeadIsLeast(cmp, ys, xs[0]);
    assert Opposite(cmp, xs[0], ys[0]);
  }

  /** Where the comparator separates the elements, the result does not depend on arrival order. */
  lemma SortPermutation<T(!new)>(cmp: (T, T) -> int, xs: seq<T>, ys: seq<T>)
    requires TotalPreorder(cmp) && Separates(cmp, xs)
    requires multiset(xs) == multiset(ys)
    ensures Sort(cmp, xs) == Sort(cmp, ys)
  {
    SortMultiset(cmp, xs);
    SortMultiset(cmp, ys);
    SortSorted(cmp, xs);
    SortSorted(cmp, ys);
    SortedUnique(cmp, Sort(cmp, xs), Sort(cmp, ys));
  }

  /** How many elements of `xs` come strictly before `x`. */
  function Below<T>(cmp: (T, T) -> int, x: T, xs: seq<T>): nat {
    if xs == [] then 0 else (if cmp(xs[0], x) < 0 then 1 else 0) + Below(cmp, x, xs[1..])
  }

  lemma {:induction false} InsertPosition<T(!new)>(cmp: (T, T) -> int, x: T, xs: seq<T>)
    requires TotalPreorder(cmp) && Sorted(cmp, xs)
    ensures Below(cmp, x, xs) < |Insert(cmp, x, xs)|
    ensures Insert(cmp, x, xs)[Below(cmp, x, xs)] == x
  {
    if xs == [] {
    } else if cmp(x, xs[0]) <= 0 {
      NoneBelow(cmp, x, xs);
    } else {
      assert Opposite(cmp, xs[0], x);
      InsertPosition(cmp, x, xs[1..]);
    }
  }

  lemma {:induction false} NoneBelow<T(!new)>(cmp: (T, T) -> int, x: T, xs: seq<T>)
    requires TotalPreorder(cmp) && Sorted(cmp, xs)
    requires xs != [] ==> cmp(x, xs[0]) <= 0
    ensures Below(cmp, x, xs) == 0
  {
    if xs != [] {
      assert Opposite(cmp, xs[0], x);
      if |xs| > 1 {
        assert cmp(xs[0], xs[1]) <= 0;
        assert Transitive(cmp, x, xs[0], xs[1]);
      }
      NoneBelow(cmp, x, xs[1..]);
    }
  }

  lemma {:induction false} BelowRemove<T>(cmp: (T, T) -> int, x: T, xs: seq<T>, i: nat)
    requires i < |xs|
    ensures Below(cmp, x, xs) == Below(cmp, x, xs[..i] + xs[i + 1..]) + (if cmp(xs[i], x) < 0 then 1 else 0)
  {
    var ys := xs[..i] + xs[i + 1..];
    if i == 0 {
      assert ys == xs[1..];
    } else {
      BelowRemove(cmp, x, xs[1..], i - 1);
      assert ys[1..] == xs[1..][..i - 1] + xs[1..][i..];
    }
  }

  lemma {:induction false} BelowPermutation<T>(cmp: (T, T) -> int, x: T, xs: seq<T>, ys: seq<T>)
    requires multiset(xs) == multiset(ys)
    ensures Below(cmp, x, xs) == Below(cmp, x, ys)
  {
    if xs == [] {
      assert |ys| == |multiset(ys)| == 0;
    } else {
      assert xs[0] in multiset(ys);
      var i :| 0 <= i < |ys| && ys[i] == xs[0];
      BelowRemove(cmp, x, ys, i);
      assert ys == ys[..i] + [ys[i]] + ys[i + 1..];
      assert xs == [xs[0]] + xs[1..];
      assert multiset(xs[1..]) == multiset(xs) - multiset{xs[0]};
      assert multiset(ys[..i] + ys[i + 1..]) == multiset(ys) - multiset{ys[i]};
      BelowPermutation(cmp, x, xs[1..], ys[..i] + ys[i + 1..]);
    }
  }

  /** `xs` with the element at `i` moved to the front. */
  function Fronted<T>(xs: seq<T>, i: nat): (ys: seq<T>)
    requires i < |xs|
    ensures multiset(ys) == multiset(xs)
  {
    assert xs == xs[..i] + [xs[i]] + xs[i + 1..];
    [xs[i]] + xs[..i] + xs[i + 1..]
  }

  lemma SortFronted<T(!new)>(cmp: (T, T) -> int, xs: seq<T>, i: nat)
    requires TotalPreorder(cmp) && i < |xs|
    ensures Below(cmp, xs[i], xs) < |xs|
    ensures |Sort(cmp, Fronted(xs, i))| == |xs|
    ensures Sort(cmp, Fronted(xs, i))[Below(cmp, xs[i], xs)] == xs[i]
  {
    var ys := Fronted(xs, i);
    var tail := Sort(cmp, ys[1..]);
    SortSorted(cmp, ys[1..]);
    InsertPosition(cmp, xs[i], tail);
    SortMultiset(cmp, ys[1..]);
    SortMultiset(cmp, ys);
    BelowPermutation(cmp, xs[i], tail, ys[1..]);
    assert Opposite(cmp, xs[i], xs[i]);
    BelowPermutation(cmp, xs[i], ys, xs);
    assert |ys| == |multiset(ys)| == |multiset(xs)| == |xs|;
  }

  lemma {:induction false} BelowEquivalent<T(!new)>(cmp: (T, T) -> int, a: T, b: T, xs: seq<T>)
    requires TotalPreorder(cmp) && cmp(a, b) == 0
    ensures Below(cmp, a, xs) == Below(cmp, b, xs)
  {
    if xs != [] {
      BelowEquivalent(cmp, a, b, xs[1..]);
      var y := xs[0];
      assert Opposite(cmp, a, b) && Opposite(cmp, y, a) && Opposite(cmp, y, b);
      assert Transitive(cmp, b, a, y) && Transitive(cmp, a, b, y);
    }
  }

  ghost predicate OrderFree<T(!new)>(cmp: (T, T) -> int, xs: seq<T>) {
    forall ys | multiset(ys) == multiset(xs) :: Sort(cmp, ys) == Sort(cmp, xs)
  }

  /** The result is the same for every arrival order exactly when equal-comparing elements are equal. */
  lemma SortOrderFree<T(!new)>(cmp: (T, T) -> int, xs: seq<T>)
    requires TotalPreorder(cmp)
    ensures OrderFree(cmp, xs) <==> Separates(cmp, xs)
  {
    if Separates(cmp, xs) {
      forall ys | multiset(ys) == multiset(xs) ensures Sort(cmp, ys) == Sort(cmp, xs) {
        SortPermutation(cmp, xs, ys);
      }
    } else {
      var a, b :| a in xs && b in xs && cmp(a, b) == 0 && a != b;
      var i :| 0 <= i < |xs| && xs[i] == a;
      var j :| 0 <= j < |xs| && xs[j] == b;
      SortFronted(cmp, xs, i);
      SortFronted(cmp, xs, j);
      BelowEquivalent(cmp, a, b, xs);
      assert Sort(cmp, Fronted(xs, i)) != Sort(cmp, Fronted(xs, j));
    }
  }

  /** Sorting by a key and then keeping only the keys sorts the keys. */
  lemma {:induction false} SortByKey<T, U>(key: T -> U, cmp: (U, U) -> int, order: (T, T) -> int, xs: seq<T>)
    requires forall x, y :: order(x, y) == cmp(key(x), key(y))
    ensures Map(key, Sort(order, xs)) == Sort(cmp, Map(key, xs))
  {
    if xs != [] {
      SortByKey(key, cmp, order, xs[1..]);
      InsertByKey(key, cmp, order, xs[0], Sort(order, xs[1..]));
      assert Map(key, xs)[1..] == Map(key, xs[1..]);
    }
  }

  lemma {:induction false} InsertByKey<T, U>(key: T -> U, cmp: (U, U) -> int, order: (T, T) -> int, x: T, xs: seq<T>)
    requires forall x, y :: order(x, y) == cmp(key(x), key(y))
    ensures Map(key, Insert(order, x, xs)) == Insert(cmp, key(x), Map(key, xs))
  {
    if xs != [] && order(x, xs[0]) > 0 {
      InsertByKey(key, cmp, order, x, xs[1..]);
      assert Map(key, xs)[1..] == Map(key, xs[1..]);
      assert Map(key, Insert(order, x, xs)) == [key(xs[0])] + Map(key, Insert(order, x, xs[1..]));
    }
  }
}
