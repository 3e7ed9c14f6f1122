/** Blocks of output per element, the shape of every generator loop. */
module Lists {

  function FlatMap<A, B>(xs: seq<A>, f: A -> seq<B>): seq<B> {
    if xs == [] then [] else FlatMap(xs[..|xs| - 1], f) + f(xs[|xs| - 1])
  }

  lemma {:induction false} FlatMapRemove<A, B>(xs: seq<A>, i: nat, f: A -> seq<B>)
    requires i < |xs|
    ensures multiset(FlatMap(xs, f)) == multiset(FlatMap(xs[..i] + xs[i + 1..], f)) + multiset(f(xs[i]))
  {
    var last := |xs| - 1;
    var without := xs[..i] + xs[i + 1..];
    if i < last {
      FlatMapRemove(xs[..last], i, f);
      var less := xs[..last][..i] + xs[..last][i + 1..];
      assert without[..|without| - 1] == less && without[|without| - 1] == xs[last];
      assert FlatMap(without, f) == FlatMap(less, f) + f(xs[last]);
    } else {
      assert without == xs[..last];
    }
  }

  /** Reordering the input reorders the output. */
  lemma {:induction false} FlatMapPermutes<A, B>(xs: seq<A>, ys: seq<A>, f: A -> seq<B>)
    requires multiset(xs) == multiset(ys)
    ensures multiset(FlatMap(xs, f)) == multiset(FlatMap(ys, f))
    decreases |xs|
  {
    assert |xs| == |multiset(xs)| == |multiset(ys)| == |ys|;
    if xs != [] {
      var last := |xs| - 1;
      var x := xs[last];
      assert xs == xs[..last] + [x];
      assert x in multiset(ys);
      var i :| 0 <= i < |ys| && ys[i] == x;
      assert ys == ys[..i] + [x] + ys[i + 1..];
      assert multiset(ys[..i] + ys[i + 1..]) == multiset(ys) - multiset{x};
      FlatMapPermutes(xs[..last], ys[..i] + ys[i + 1..], f);
      FlatMapRemove(ys, i, f);
    }
  }

  lemma {:induction false} FlatMapExtends<A, B>(xs: seq<A>, f: A -> seq<B>, n: nat)
    requires n <= |xs|
    ensures FlatMap(xs[..n], f) <= FlatMap(xs, f)
  {
    if n < |xs| {
      assert xs[..|xs| - 1][..n] == xs[..n];
      FlatMapExtends(xs[..|xs| - 1], f, n);
    } else {
      assert xs[..n] == xs;
    }
  }
}
