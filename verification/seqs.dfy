/** Generic sequence helpers standing in for Python list comprehensions
    and slices. */
module Seqs {
  import opened Wrappers

  function Min(a: int, b: int): int
  {
    if a <= b then a else b
  }

  /** `xs[:n]` for `n >= 0`. */
  function Take<T>(xs: seq<T>, n: nat): (r: seq<T>)
    ensures |r| == Min(n, |xs|)
    ensures r == xs[..|r|]
  {
    if n <= |xs| then xs[..n] else xs
  }

  /** `xs[lo:hi]` for `0 <= lo`, `0 <= hi`: both ends clamped to the length. */
  function Slice<T>(xs: seq<T>, lo: nat, hi: nat): (r: seq<T>)
    ensures |r| == if Min(hi, |xs|) <= lo then 0 else Min(hi, |xs|) - lo
    ensures lo < Min(hi, |xs|) ==> r == xs[lo..Min(hi, |xs|)]
  {
    var h := Min(hi, |xs|);
    if h <= lo then [] else xs[lo..h]
  }

  /** `[f(x).value for x in xs if f(x) is not None]`, in order. */
  function FilterMap<A, B>(xs: seq<A>, f: A -> Option<B>): (ys: seq<B>)
    ensures |ys| <= |xs|
    ensures forall y <- ys :: exists x <- xs :: f(x) == Some(y)
    ensures forall x <- xs :: f(x).Some? ==> f(x).value in ys
  {
    if |xs| == 0 then []
    else
      var rest := FilterMap(xs[1..], f);
      assert forall x <- xs[1..] :: x in xs;
      match f(xs[0])
      case Some(y) => [y] + rest
      case None => rest
  }

  /** `[x for x in xs if p(x)]`, in order. */
  function Filter<T>(xs: seq<T>, p: T -> bool): (ys: seq<T>)
    ensures |ys| <= |xs|
    ensures forall y <- ys :: y in xs && p(y)
    ensures forall x <- xs :: p(x) ==> x in ys
  {
    if |xs| == 0 then []
    else
      var rest := Filter(xs[1..], p);
      assert forall x <- xs[1..] :: x in xs;
      if p(xs[0]) then [xs[0]] + rest else rest
  }

  /** `[f(x) for x in xs]`. */
  function Map<A, B>(xs: seq<A>, f: A -> B): (ys: seq<B>)
    ensures |ys| == |xs|
    ensures forall i :: 0 <= i < |xs| ==> ys[i] == f(xs[i])
  {
    seq(|xs|, i requires 0 <= i < |xs| => f(xs[i]))
  }

  /** Two filter-maps that keep the same elements and agree on what they
      keep, up to projections `pf` and `pg`, give the same projected lists. */
  lemma {:induction false} FilterMapAligned<A, B, C, K>(xs: seq<A>, f: A -> Option<B>, g: A -> Option<C>,
                                                     pf: B -> K, pg: C -> K)
    requires forall i :: 0 <= i < |xs| ==> (f(xs[i]).Some? <==> g(xs[i]).Some?)
    requires forall i :: 0 <= i < |xs| ==> f(xs[i]).Some? ==> pf(f(xs[i]).value) == pg(g(xs[i]).value)
    ensures Map(FilterMap(xs, f), pf) == Map(FilterMap(xs, g), pg)
  {
    if |xs| > 0 {
      assert forall i :: 0 <= i < |xs| - 1 ==> xs[1..][i] == xs[i + 1];
      FilterMapAligned(xs[1..], f, g, pf, pg);
      var a := FilterMap(xs[1..], f);
      var b := FilterMap(xs[1..], g);
      if f(xs[0]).Some? {
        var y, z := f(xs[0]).value, g(xs[0]).value;
        assert FilterMap(xs, f) == [y] + a;
        assert FilterMap(xs, g) == [z] + b;
        MapCons(y, a, pf);
        MapCons(z, b, pg);
      } else {
        assert FilterMap(xs, f) == a;
        assert FilterMap(xs, g) == b;
      }
    }
  }

  lemma MapCons<A, B>(x: A, xs: seq<A>, f: A -> B)
    ensures Map([x] + xs, f) == [f(x)] + Map(xs, f)
  {
    assert forall i :: 0 < i < |xs| + 1 ==> ([x] + xs)[i] == xs[i - 1];
  }

  /** The index of the last element satisfying `p`, searching from the back. */
  function LastWhere<T>(xs: seq<T>, p: T -> bool): (r: Option<nat>)
    ensures r.None? <==> forall i :: 0 <= i < |xs| ==> !p(xs[i])
    ensures r.Some? ==> r.value < |xs| && p(xs[r.value])
    ensures r.Some? ==> forall j :: r.value < j < |xs| ==> !p(xs[j])
  {
    if |xs| == 0 then None
    else if p(xs[|xs| - 1]) then Some(|xs| - 1)
    else LastWhere(xs[..|xs| - 1], p)
  }

  /** Filtering a list with one more element at the end. */
  lemma {:induction false} FilterSnoc<T>(xs: seq<T>, x: T, p: T -> bool)
    ensures Filter(xs + [x], p) == Filter(xs, p) + (if p(x) then [x] else [])
  {
    if |xs| > 0 {
      assert (xs + [x])[1..] == xs[1..] + [x];
      FilterSnoc(xs[1..], x, p);
    }
  }

  /** `[x for x in xs if p(x)][-1]` is the element the backward search finds. */
  lemma {:induction false} FilterLastIsLastWhere<T>(xs: seq<T>, p: T -> bool)
    ensures Filter(xs, p) == [] <==> LastWhere(xs, p).None?
    ensures Filter(xs, p) != [] ==> Filter(xs, p)[|Filter(xs, p)| - 1] == xs[LastWhere(xs, p).value]
  {
    if |xs| > 0 {
      var init := xs[..|xs| - 1];
      var last := xs[|xs| - 1];
      assert xs == init + [last];
      FilterSnoc(init, last, p);
      if !p(last) {
        FilterLastIsLastWhere(init, p);
        assert LastWhere(xs, p) == LastWhere(init, p);
      }
    }
  }
}
