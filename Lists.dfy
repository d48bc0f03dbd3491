/** List operations shared by the scripts. */
module Lists {
  import opened Wrappers

  /** The least `q` in `[i, n)` with `m(q)`: where a left-to-right search
      such as `re.search` first succeeds. */
  function Leftmost(m: nat -> bool, i: nat, n: nat): (r: Option<nat>)
    decreases n - i
    ensures r.Some? ==> i <= r.value < n && m(r.value)
    ensures r.Some? ==> forall q :: i <= q < r.value ==> !m(q)
    ensures r.None? ==> forall q :: i <= q < n ==> !m(q)
  {
    if i >= n then None
    else if m(i) then Some(i)
    else Leftmost(m, i + 1, n)
  }

  /** `for x in items: if x not in acc: acc.append(x)`. */
  function AppendNew<T(==)>(acc: seq<T>, items: seq<T>): (r: seq<T>)
    ensures |r| >= |acc| && r[..|acc|] == acc
    ensures forall x :: x in items ==> x in r
    ensures forall x :: x in r ==> x in acc || x in items
    ensures forall i, j :: 0 <= i < j < |r| && |acc| <= j ==> r[i] != r[j]
  {
    if items == [] then acc
    else
      var init := AppendNew(acc, items[..|items| - 1]);
      var x := items[|items| - 1];
      assert forall y :: y in items ==> y in items[..|items| - 1] || y == x;
      if x in init then init else init + [x]
  }

  /** One more step of that loop. */
  lemma AppendNewSnoc<T>(acc: seq<T>, items: seq<T>, n: nat)
    requires n < |items|
    ensures var r := AppendNew(acc, items[..n]);
            AppendNew(acc, items[..n + 1]) == if items[n] in r then r else r + [items[n]]
  {
    assert items[..n + 1][..n] == items[..n];
  }

  /** The loop only ever appends: the result after the first `n` items is
      a prefix of the final one, so values keep the order in which they
      were first seen. */
  lemma {:induction false} AppendNewPrefix<T>(acc: seq<T>, items: seq<T>, n: nat)
    requires n <= |items|
    ensures AppendNew(acc, items[..n]) <= AppendNew(acc, items)
    decreases |items|
  {
    if n < |items| {
      var init := items[..|items| - 1];
      assert init[..n] == items[..n];
      AppendNewPrefix(acc, init, n);
    } else {
      assert items[..n] == items;
    }
  }

  function Map<T, U>(f: T -> U, xs: seq<T>): (r: seq<U>)
    ensures |r| == |xs|
  {
    if xs == [] then [] else Map(f, xs[..|xs| - 1]) + [f(xs[|xs| - 1])]
  }

  lemma MapSnoc<T, U>(f: T -> U, xs: seq<T>, x: T)
    ensures Map(f, xs + [x]) == Map(f, xs) + [f(x)]
  {
    assert (xs + [x])[..|xs|] == xs;
  }

  lemma {:induction false} MapAppend<T, U>(f: T -> U, xs: seq<T>, ys: seq<T>)
    ensures Map(f, xs + ys) == Map(f, xs) + Map(f, ys)
    decreases |ys|
  {
    if ys == [] {
      assert xs + ys == xs;
    } else {
      var init, y := ys[..|ys| - 1], ys[|ys| - 1];
      assert (xs + ys)[..|xs + ys| - 1] == xs + init;
      assert (xs + ys)[|xs + ys| - 1] == y;
      assert Map(f, xs + ys) == Map(f, xs + init) + [f(y)];
      MapAppend(f, xs, init);
      assert Map(f, ys) == Map(f, init) + [f(y)];
    }
  }

  /** The concatenation of `f(x)` over `xs`. */
  function FlatMap<T, U>(f: T -> seq<U>, xs: seq<T>): (r: seq<U>) {
    if xs == [] then [] else FlatMap(f, xs[..|xs| - 1]) + f(xs[|xs| - 1])
  }

  lemma FlatMapSnoc<T, U>(f: T -> seq<U>, xs: seq<T>, x: T)
    ensures FlatMap(f, xs + [x]) == FlatMap(f, xs) + f(x)
  {
    assert (xs + [x])[..|xs|] == xs;
  }

  lemma {:induction false} MapIndex<T, U>(f: T -> U, xs: seq<T>, k: nat)
    requires k < |xs|
    ensures Map(f, xs)[k] == f(xs[k])
  {
    if k < |xs| - 1 {
      MapIndex(f, xs[..|xs| - 1], k);
    }
  }

  /** The values of the elements for which `f` gives one, in order: a
      loop that appends `f(x)` whenever it is not `None`. */
  function Somes<T, U>(f: T -> Option<U>, xs: seq<T>): (r: seq<U>)
    ensures |r| <= |xs|
  {
    if xs == [] then []
    else
      var init := Somes(f, xs[..|xs| - 1]);
      match f(xs[|xs| - 1])
      case Some(u) => init + [u]
      case None => init
  }

  /** One more step of that loop. */
  lemma SomesSnoc<T, U>(f: T -> Option<U>, xs: seq<T>, n: nat)
    requires n < |xs|
    ensures Somes(f, xs[..n + 1]) == Somes(f, xs[..n]) + (if f(xs[n]).Some? then [f(xs[n]).value] else [])
  {
    assert xs[..n + 1][..n] == xs[..n];
  }

  lemma {:induction false} SomesAppend<T, U>(f: T -> Option<U>, xs: seq<T>, ys: seq<T>)
    ensures Somes(f, xs + ys) == Somes(f, xs) + Somes(f, ys)
    decreases |ys|
  {
    if ys == [] {
      assert xs + ys == xs;
    } else {
      var init := ys[..|ys| - 1];
      SomesAppend(f, xs, init);
      assert (xs + ys)[..|xs + ys| - 1] == xs + init;
    }
  }

  /** `[f(x) for x in xs if keep(x)]`. */
  function FilterMap<T, U>(keep: T -> bool, f: T -> U, xs: seq<T>): (r: seq<U>)
    ensures |r| <= |xs|
  {
    if xs == [] then []
    else
      var init := FilterMap(keep, f, xs[..|xs| - 1]);
      if keep(xs[|xs| - 1]) then init + [f(xs[|xs| - 1])] else init
  }

  lemma FilterMapSnoc<T, U>(keep: T -> bool, f: T -> U, xs: seq<T>, x: T)
    ensures FilterMap(keep, f, xs + [x]) == FilterMap(keep, f, xs) + (if keep(x) then [f(x)] else [])
  {
    assert (xs + [x])[..|xs|] == xs;
  }

  /** Filtering runs element by element, so results keep the input order. */
  lemma {:induction false} FilterMapAppend<T, U>(keep: T -> bool, f: T -> U, xs: seq<T>, ys: seq<T>)
    ensures FilterMap(keep, f, xs + ys) == FilterMap(keep, f, xs) + FilterMap(keep, f, ys)
    decreases |ys|
  {
    if ys == [] {
      assert xs + ys == xs;
    } else {
      var init, y := ys[..|ys| - 1], ys[|ys| - 1];
      assert (xs + ys)[..|xs + ys| - 1] == xs + init;
      assert (xs + ys)[|xs + ys| - 1] == y;
      FilterMapAppend(keep, f, xs, init);
    }
  }

  /** A result comes from a kept element, and every kept element gives one. */
  lemma {:induction false} FilterMapFrom<T, U>(keep: T -> bool, f: T -> U, xs: seq<T>)
    ensures forall y :: y in FilterMap(keep, f, xs) <==> exists k :: 0 <= k < |xs| && keep(xs[k]) && y == f(xs[k])
  {
    if xs != [] {
      var init := xs[..|xs| - 1];
      FilterMapFrom(keep, f, init);
      forall y
        ensures y in FilterMap(keep, f, xs) <==> exists k :: 0 <= k < |xs| && keep(xs[k]) && y == f(xs[k])
      {
        if exists k :: 0 <= k < |xs| && keep(xs[k]) && y == f(xs[k]) {
          var k :| 0 <= k < |xs| && keep(xs[k]) && y == f(xs[k]);
          if k < |init| {
            assert init[k] == xs[k];
          }
        }
        if y in FilterMap(keep, f, init) {
          var k :| 0 <= k < |init| && keep(init[k]) && y == f(init[k]);
          assert xs[k] == init[k];
        }
      }
    }
  }

  /** When every element is kept, filtering is mapping. */
  lemma {:induction false} FilterMapAll<T, U>(keep: T -> bool, f: T -> U, xs: seq<T>)
    requires forall k :: 0 <= k < |xs| ==> keep(xs[k])
    ensures FilterMap(keep, f, xs) == Map(f, xs)
  {
    if xs != [] {
      FilterMapAll(keep, f, xs[..|xs| - 1]);
    }
  }
}
