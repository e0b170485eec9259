/** Sequences of results: flat map, and pages of a list. */
module Lists {

  lemma Associative<T>(a: seq<T>, b: seq<T>, c: seq<T>)
    ensures a + b + c == a + (b + c)
  {
  }

  function Map<T, U>(f: T -> U, xs: seq<T>): (ys: seq<U>)
    ensures |ys| == |xs|
    ensures forall i :: 0 <= i < |xs| ==> ys[i] == f(xs[i])
  {
    seq(|xs|, i requires 0 <= i < |xs| => f(xs[i]))
  }

  lemma MapAppend<T, U>(f: T -> U, xs: seq<T>, x: T)
    ensures Map(f, xs + [x]) == Map(f, xs) + [f(x)]
  {
  }

  /** The results of `f`, one after the other. */
  function Collect<T, U>(f: T -> seq<U>, xs: seq<T>): seq<U> {
    if xs == [] then [] else f(xs[0]) + Collect(f, xs[1..])
  }

  lemma CollectFirst<T, U>(f: T -> seq<U>, x: T, xs: seq<T>)
    ensures Collect(f, [x] + xs) == f(x) + Collect(f, xs)
  {
    assert ([x] + xs)[1..] == xs;
  }

  lemma {:induction false} CollectConcat<T, U>(f: T -> seq<U>, xs: seq<T>, ys: seq<T>)
    ensures Collect(f, xs + ys) == Collect(f, xs) + Collect(f, ys)
  {
    if xs == [] {
      assert xs + ys == ys;
    } else {
      assert xs + ys == [xs[0]] + (xs[1..] + ys);
      CollectConcat(f, xs[1..], ys);
      CollectFirst(f, xs[0], xs[1..] + ys);
      Associative(f(xs[0]), Collect(f, xs[1..]), Collect(f, ys));
    }
  }

  lemma CollectOne<T, U>(f: T -> seq<U>, x: T)
    ensures Collect(f, [x]) == f(x)
  {
    assert [x][1..] == [];
  }

  lemma CollectPrefix<T, U>(f: T -> seq<U>, xs: seq<T>, i: nat)
    requires i < |xs|
    ensures Collect(f, xs[..i + 1]) == Collect(f, xs[..i]) + f(xs[i])
  {
    CollectConcat(f, xs[..i], [xs[i]]);
    CollectOne(f, xs[i]);
    assert xs[..i + 1] == xs[..i] + [xs[i]];
  }

  lemma {:induction false} CollectSingles<T, U>(f: T -> seq<U>, g: T -> U, xs: seq<T>)
    requires forall x <- xs :: f(x) == [g(x)]
    ensures Collect(f, xs) == Map(g, xs)
  {
    if xs != [] {
      CollectSingles(f, g, xs[1..]);
      assert Map(g, xs) == [g(xs[0])] + Map(g, xs[1..]);
    }
  }

  /** `xs` without the element at `i`. */
  function Removed<T>(xs: seq<T>, i: nat): (ys: seq<T>)
    requires i < |xs|
    ensures |ys| == |xs| - 1
    ensures multiset(ys) == multiset(xs) - multiset{xs[i]}
  {
    assert xs == xs[..i] + [xs[i]] + xs[i + 1..];
    xs[..i] + xs[i + 1..]
  }

  lemma CollectSplit<T, U>(f: T -> seq<U>, xs: seq<T>, i: nat)
    requires i <= |xs|
    ensures Collect(f, xs) == Collect(f, xs[..i]) + Collect(f, xs[i..])
  {
    CollectConcat(f, xs[..i], xs[i..]);
    assert xs == xs[..i] + xs[i..];
  }

  lemma CollectRemove<T, U>(f: T -> seq<U>, xs: seq<T>, i: nat)
    requires i < |xs|
    ensures multiset(Collect(f, xs)) == multiset(f(xs[i])) + multiset(Collect(f, Removed(xs, i)))
  {
    CollectSplit(f, xs, i + 1);
    CollectPrefix(f, xs, i);
    CollectConcat(f, xs[..i], xs[i + 1..]);
  }

  lemma Without<T>(xs: seq<T>, ys: seq<T>) returns (i: nat)
    requires xs != [] && multiset(xs) == multiset(ys)
    ensures i < |ys| && ys[i] == xs[0] && multiset(xs[1..]) == multiset(Removed(ys, i))
  {
    assert xs[0] in multiset(xs) && xs[0] in multiset(ys);
    i :| 0 <= i < |ys| && ys[i] == xs[0];
    assert xs == [xs[0]] + xs[1..];
    assert multiset(xs[1..]) == multiset(xs) - multiset{xs[0]};
  }

  /** Rearranging the list only rearranges the results. */
  lemma {:induction false} CollectPermutation<T, U>(f: T -> seq<U>, xs: seq<T>, ys: seq<T>)
    requires multiset(xs) == multiset(ys)
    ensures multiset(Collect(f, xs)) == multiset(Collect(f, ys)) && |xs| == |ys|
  {
    assert |xs| == |multiset(xs)| == |multiset(ys)| == |ys|;
    if xs != [] {
      var i := Without(xs, ys);
      CollectRemove(f, ys, i);
      CollectPermutation(f, xs[1..], Removed(ys, i));
    }
  }

  /** The places of the elements with the property. */
  function Places<T>(p: T -> bool, xs: seq<T>): set<int> { set i | 0 <= i < |xs| && p(xs[i]) }

  lemma OneMorePlace<T>(p: T -> bool, xs: seq<T>, x: T)
    ensures |Places(p, xs + [x])| == |Places(p, xs)| + if p(x) then 1 else 0
  {
    assert Places(p, xs + [x]) == Places(p, xs) + if p(x) then {|xs|} else {};
  }

  // ---- Pages ----

  function Take<T>(n: int, xs: seq<T>): seq<T> {
    if n <= 0 then [] else if n < |xs| then xs[..n] else xs
  }

  function Drop<T>(n: int, xs: seq<T>): seq<T> {
    if n <= 0 then xs else if n < |xs| then xs[n..] else []
  }

  /** The page of `size` elements after the first `offset`. */
  function Page<T>(offset: int, size: int, xs: seq<T>): seq<T> { Take(size, Drop(offset, xs)) }

  /** `k * size`, added up page by page. */
  function PageStart(k: nat, size: nat): nat { if k == 0 then 0 else PageStart(k - 1, size) + size }

  lemma {:induction false} PageStartIsProduct(k: nat, size: nat)
    ensures PageStart(k, size) == k * size
  {
    if k > 0 {
      PageStartIsProduct(k - 1, size);
    }
  }

  /** The first `n` pages, one after the other. */
  function Pages<T>(n: nat, size: nat, xs: seq<T>): seq<T> {
    if n == 0 then [] else Pages(n - 1, size, xs) + Page(PageStart(n - 1, size), size, xs)
  }

  /** The first `n` values of `f`, one after the other. */
  function Concat<T>(n: nat, f: nat -> seq<T>): seq<T> {
    if n == 0 then [] else Concat(n - 1, f) + f(n - 1)
  }

  lemma {:induction false} ConcatPages<T>(n: nat, size: nat, xs: seq<T>, f: nat -> seq<T>)
    requires forall k: nat :: f(k) == Page(PageStart(k, size), size, xs)
    ensures Concat(n, f) == Pages(n, size, xs)
  {
    if n > 0 {
      ConcatPages(n - 1, size, xs, f);
    }
  }

  /** Consecutive pages lose and repeat nothing. */
  lemma {:induction false} PagesAreTake<T>(n: nat, size: nat, xs: seq<T>)
    ensures Pages(n, size, xs) == Take(PageStart(n, size), xs)
  {
    if n > 0 {
      PagesAreTake(n - 1, size, xs);
      TakePage(PageStart(n - 1, size), size, xs);
    }
  }

  lemma TakePage<T>(offset: nat, size: nat, xs: seq<T>)
    ensures Take(offset, xs) + Page(offset, size, xs) == Take(offset + size, xs)
  {
    if offset < |xs| {
      assert xs == xs[..offset] + xs[offset..];
    }
  }
}
