/**
 * The loop shape both renderers share: walk the widget's shapes in document
 * order, turn each into an overlay element, and stop at the first shape that
 * cannot be turned into one (the highlight loop `return`s there; the arrow
 * loop throws there).
 */
module Scan {
  import opened Wrappers

  /** `f` applied to `xs[i..]` in order, up to the first element it maps to `None`. */
  function MapUntilNone<A, B>(f: A -> Option<B>, xs: seq<A>, i: nat): seq<B>
    requires i <= |xs|
    decreases |xs| - i
  {
    if i == |xs| then []
    else
      match f(xs[i])
      case None => []
      case Some(y) => [y] + MapUntilNone(f, xs, i + 1)
  }

  /**
   * The result stated per position: its k-th element is the image of
   * `xs[i + k]`, and when elements are left over, the first of them maps to
   * `None`.
   */
  lemma {:induction false} MapUntilNoneShape<A, B>(f: A -> Option<B>, xs: seq<A>, i: nat)
    requires i <= |xs|
    ensures |MapUntilNone(f, xs, i)| <= |xs| - i
    ensures forall k :: 0 <= k < |MapUntilNone(f, xs, i)| ==> f(xs[i + k]) == Some(MapUntilNone(f, xs, i)[k])
    ensures i + |MapUntilNone(f, xs, i)| < |xs| ==> f(xs[i + |MapUntilNone(f, xs, i)|]).None?
    decreases |xs| - i
  {
    if i < |xs| && f(xs[i]).Some? {
      var ys, rest := MapUntilNone(f, xs, i), MapUntilNone(f, xs, i + 1);
      MapUntilNoneShape(f, xs, i + 1);
      assert ys == [f(xs[i]).value] + rest;
      forall k | 1 <= k < |ys|
        ensures f(xs[i + k]) == Some(ys[k])
      {
        assert ys[k] == rest[k - 1];
      }
    }
  }

  /** Every element of the result is the image of some element of `xs[i..]`. */
  lemma {:induction false} MapUntilNoneImages<A, B>(f: A -> Option<B>, xs: seq<A>, i: nat, y: B)
    requires i <= |xs|
    requires y in MapUntilNone(f, xs, i)
    ensures exists k :: i <= k < |xs| && f(xs[k]) == Some(y)
    decreases |xs| - i
  {
    if i < |xs| && f(xs[i]).Some? && y != f(xs[i]).value {
      assert y in MapUntilNone(f, xs, i + 1);
      MapUntilNoneImages(f, xs, i + 1, y);
    }
  }

  /**
   * One pass of a loop that builds the result into `done`: if `xs[i]` has no
   * image the loop may stop, otherwise it appends the image and moves on.
   */
  lemma MapUntilNoneStep<A, B>(done: seq<B>, f: A -> Option<B>, xs: seq<A>, i: nat)
    requires i < |xs|
    requires done + MapUntilNone(f, xs, i) == MapUntilNone(f, xs, 0)
    ensures f(xs[i]).None? ==> done == MapUntilNone(f, xs, 0)
    ensures f(xs[i]).Some? ==> (done + [f(xs[i]).value]) + MapUntilNone(f, xs, i + 1) == MapUntilNone(f, xs, 0)
  {
    if f(xs[i]).Some? {
      var rest := MapUntilNone(f, xs, i + 1);
      assert (done + [f(xs[i]).value]) + rest == done + ([f(xs[i]).value] + rest);
    } else {
      assert done + [] == done;
    }
  }
}
