/** Generic facts about mapping each element of a sequence to a (possibly empty) sequence. */
module Sequences {

  /** The concatenation of `f(x)` over `xs`, in order. */
  function FlatMap<A, B>(xs: seq<A>, f: A -> seq<B>): seq<B> {
    if xs == [] then [] else FlatMap(xs[..|xs| - 1], f) + f(xs[|xs| - 1])
  }

  lemma {:induction false} FlatMapAppend<A, B>(xs: seq<A>, ys: seq<A>, f: A -> seq<B>)
    ensures FlatMap(xs + ys, f) == FlatMap(xs, f) + FlatMap(ys, f)
    decreases |ys|
  {
    if ys == [] {
      assert xs + ys == xs;
    } else {
      var ys' := ys[..|ys| - 1];
      FlatMapAppend(xs, ys', f);
      assert (xs + ys)[..|xs + ys| - 1] == xs + ys';
    }
  }

  /** Extending the input by one element extends the result by that element's image. */
  lemma FlatMapSnoc<A, B>(xs: seq<A>, i: nat, f: A -> seq<B>)
    requires i < |xs|
    ensures FlatMap(xs[..i + 1], f) == FlatMap(xs[..i], f) + f(xs[i])
  {
    assert xs[..i + 1][..i] == xs[..i];
  }

  /** When every element maps to at most one element, the result is no longer than the input. */
  lemma {:induction false} FlatMapShorter<A, B>(xs: seq<A>, f: A -> seq<B>)
    requires forall x :: x in xs ==> |f(x)| <= 1
    ensures |FlatMap(xs, f)| <= |xs|
  {
    if xs != [] {
      FlatMapShorter(xs[..|xs| - 1], f);
    }
  }

  /**
   * When every element maps either to nothing or to `g` of the one element `keep` picks from
   * it, the result is `g` applied to everything `keep` picks, in order.
   */
  lemma {:induction false} FlatMapThrough<A, B, C>(xs: seq<A>, f: A -> seq<C>, keep: A -> seq<B>, g: B -> C)
    requires forall x :: |keep(x)| <= 1 && f(x) == (if keep(x) == [] then [] else [g(keep(x)[0])])
    ensures |FlatMap(xs, f)| == |FlatMap(xs, keep)|
    ensures forall k :: 0 <= k < |FlatMap(xs, f)| ==> FlatMap(xs, f)[k] == g(FlatMap(xs, keep)[k])
  {
    if xs != [] {
      var init, last := xs[..|xs| - 1], xs[|xs| - 1];
      FlatMapThrough(init, f, keep, g);
      assert FlatMap(xs, f) == FlatMap(init, f) + f(last);
      assert FlatMap(xs, keep) == FlatMap(init, keep) + keep(last);
    }
  }

  /** Every element of the result comes from the image of some input element. */
  lemma {:induction false} FlatMapMember<A, B>(xs: seq<A>, f: A -> seq<B>, y: B)
    requires y in FlatMap(xs, f)
    ensures exists k :: 0 <= k < |xs| && y in f(xs[k])
  {
    var init := xs[..|xs| - 1];
    if y in FlatMap(init, f) {
      FlatMapMember(init, f, y);
      var k :| 0 <= k < |init| && y in f(init[k]);
      assert xs[k] == init[k];
    } else {
      assert y in f(xs[|xs| - 1]);
    }
  }

  /** The number of elements of `xs` that satisfy `p` (`xs.filter(p).length`). */
  function CountWhere<A>(xs: seq<A>, p: A -> bool): (n: nat)
    ensures n <= |xs|
  {
    if xs == [] then 0 else CountWhere(xs[..|xs| - 1], p) + (if p(xs[|xs| - 1]) then 1 else 0)
  }

  /** When every element satisfies the test, all of them are counted. */
  lemma {:induction false} CountWhereAll<A>(xs: seq<A>, p: A -> bool)
    requires forall k :: 0 <= k < |xs| ==> p(xs[k])
    ensures CountWhere(xs, p) == |xs|
  {
    if xs != [] {
      CountWhereAll(xs[..|xs| - 1], p);
    }
  }

  /** A positive count means some element satisfies the test. */
  lemma {:induction false} CountWherePositive<A>(xs: seq<A>, p: A -> bool)
    ensures CountWhere(xs, p) > 0 <==> exists k :: 0 <= k < |xs| && p(xs[k])
  {
    if xs != [] {
      var init := xs[..|xs| - 1];
      CountWherePositive(init, p);
      if exists k :: 0 <= k < |init| && p(init[k]) {
        var k :| 0 <= k < |init| && p(init[k]);
        assert xs[k] == init[k];
      }
      if exists k :: 0 <= k < |xs| && p(xs[k]) {
        var k :| 0 <= k < |xs| && p(xs[k]);
        if k < |init| {
          assert init[k] == xs[k];
        }
      }
    }
  }
}
