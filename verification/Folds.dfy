/** Folds whose result does not depend on the order of the elements. */
module Folds {

  type Step<!S, !R> = (S, R) -> S
  type Likeness<!S> = (S, S) -> bool

  function Fold<S, R>(step: Step<S, R>, start: S, elements: seq<R>): S {
    if elements == [] then start
    else
      var last := |elements| - 1;
      step(Fold(step, start, elements[..last]), elements[last])
  }

  /** Up to `same`, steps commute and do not tell equal states apart. */
  ghost predicate IsOrderBlind<S(!new), R(!new)>(step: Step<S, R>, same: Likeness<S>) {
    && (forall s :: same(s, s))
    && (forall s, t, u | same(s, t) && same(t, u) :: same(s, u))
    && (forall s, a, b :: same(step(step(s, a), b), step(step(s, b), a)))
    && (forall s, t, a | same(s, t) :: same(step(s, a), step(t, a)))
  }

  lemma FoldLast<S, R>(step: Step<S, R>, start: S, elements: seq<R>, last: R)
    ensures Fold(step, start, elements + [last]) == step(Fold(step, start, elements), last)
  {
    assert (elements + [last])[..|elements|] == elements;
  }

  lemma {:induction false} ElementMovesToTheEnd<S(!new), R(!new)>(
    step: Step<S, R>, same: Likeness<S>, start: S, before: seq<R>, element: R, after: seq<R>)
    requires IsOrderBlind(step, same)
    ensures same(step(Fold(step, start, before + after), element), Fold(step, start, before + [element] + after))
    decreases |after|
  {
    if after == [] {
      assert before + [element] + after == before + [element] && before + after == before;
      FoldLast(step, start, before, element);
    } else {
      var init, last := after[..|after| - 1], after[|after| - 1];
      assert before + [element] + after == (before + [element] + init) + [last];
      assert before + after == (before + init) + [last];
      ElementMovesToTheEnd(step, same, start, before, element, init);
      FoldLast(step, start, before + [element] + init, last);
      FoldLast(step, start, before + init, last);
    }
  }

  /** Permuting the elements of an order-blind fold changes nothing. */
  lemma {:induction false} PermutationsFoldAlike<S(!new), R(!new)>(
    step: Step<S, R>, same: Likeness<S>, start: S, xs: seq<R>, ys: seq<R>)
    requires IsOrderBlind(step, same) && multiset(xs) == multiset(ys)
    ensures same(Fold(step, start, xs), Fold(step, start, ys))
    decreases |xs|
  {
    if xs == [] {
      assert |multiset(ys)| == 0;
    } else {
      var init, last := xs[..|xs| - 1], xs[|xs| - 1];
      assert xs == init + [last];
      assert last in multiset(ys);
      var i :| 0 <= i < |ys| && ys[i] == last;
      var before, after := ys[..i], ys[i + 1..];
      assert ys == before + [last] + after;
      assert multiset(before + after) == multiset(ys) - multiset{last};
      PermutationsFoldAlike(step, same, start, init, before + after);
      ElementMovesToTheEnd(step, same, start, before, last, after);
    }
  }
}
