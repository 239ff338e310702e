/** Sorting and deduplication as a canonical form, for any total order. */
module Ordering {

  type Order<!T> = (T, T) -> bool

  ghost predicate IsTotalOrder<T(!new)>(leq: Order<T>) {
    && (forall a, b :: leq(a, b) || leq(b, a))
    && (forall a, b | leq(a, b) && leq(b, a) :: a == b)
    && (forall a, b, c | leq(a, b) && leq(b, c) :: leq(a, c))
  }

  predicate Sorted<T>(leq: Order<T>, xs: seq<T>) {
    forall i, j | 0 <= i < j < |xs| :: leq(xs[i], xs[j])
  }

  predicate StrictlySorted<T(==)>(leq: Order<T>, xs: seq<T>) {
    forall i, j | 0 <= i < j < |xs| :: leq(xs[i], xs[j]) && xs[i] != xs[j]
  }

  function Elements<T>(xs: seq<T>): set<T> {
    set x | x in xs
  }

  // ---------------------------------------------------------------- sort, then dedup

  function Insert<T>(leq: Order<T>, x: T, xs: seq<T>): seq<T> {
    if xs == [] then [x]
    else if leq(x, xs[0]) then [x] + xs
    else [xs[0]] + Insert(leq, x, xs[1..])
  }

  function Sort<T>(leq: Order<T>, xs: seq<T>): seq<T> {
    if xs == [] then [] else Insert(leq, xs[0], Sort(leq, xs[1..]))
  }

  /** Drops every element equal to its predecessor. */
  function Dedup<T(==)>(xs: seq<T>): seq<T> {
    if |xs| <= 1 then xs
    else if xs[0] == xs[1] then Dedup(xs[1..])
    else [xs[0]] + Dedup(xs[1..])
  }

  function Normal<T(==)>(leq: Order<T>, xs: seq<T>): seq<T> {
    Dedup(Sort(leq, xs))
  }

  lemma ElementsOfCons<T>(x: T, xs: seq<T>)
    ensures Elements([x] + xs) == {x} + Elements(xs)
  {
  }

  lemma {:induction false} InsertAddsOne<T>(leq: Order<T>, x: T, xs: seq<T>)
    ensures Elements(Insert(leq, x, xs)) == {x} + Elements(xs)
  {
    ElementsOfCons(x, xs);
    if xs != [] && !leq(x, xs[0]) {
      InsertAddsOne(leq, x, xs[1..]);
      assert xs == [xs[0]] + xs[1..];
      ElementsOfCons(xs[0], xs[1..]);
      ElementsOfCons(xs[0], Insert(leq, x, xs[1..]));
    }
  }

  predicate IsLeast<T(==)>(leq: Order<T>, x: T, xs: seq<T>) {
    forall i | 0 <= i < |xs| :: leq(x, xs[i])
  }

  lemma ConsKeepsSorted<T>(leq: Order<T>, x: T, xs: seq<T>)
    requires Sorted(leq, xs) && IsLeast(leq, x, xs)
    ensures Sorted(leq, [x] + xs)
  {
  }

  lemma LeastStaysLeast<T(!new)>(leq: Order<T>, x: T, head: T, tail: seq<T>)
    requires IsTotalOrder(leq) && IsLeast(leq, head, tail)
    ensures leq(head, x) ==> IsLeast(leq, head, Insert(leq, x, tail))
    ensures leq(x, head) ==> IsLeast(leq, x, [head] + tail)
  {
    var inserted := Insert(leq, x, tail);
    InsertAddsOne(leq, x, tail);
    assert forall i | 0 <= i < |inserted| :: inserted[i] in Elements(inserted);
  }

  lemma {:induction false} InsertKeepsSorted<T(!new)>(leq: Order<T>, x: T, xs: seq<T>)
    requires IsTotalOrder(leq) && Sorted(leq, xs)
    ensures Sorted(leq, Insert(leq, x, xs))
  {
    if xs != [] {
      var head, tail := xs[0], xs[1..];
      assert xs == [head] + tail;
      LeastStaysLeast(leq, x, head, tail);
      if leq(x, head) {
        ConsKeepsSorted(leq, x, xs);
      } else {
        InsertKeepsSorted(leq, x, tail);
        ConsKeepsSorted(leq, head, Insert(leq, x, tail));
      }
    }
  }

  lemma {:induction false} SortSorts<T(!new)>(leq: Order<T>, xs: seq<T>)
    requires IsTotalOrder(leq)
    ensures Sorted(leq, Sort(leq, xs))
    ensures Elements(Sort(leq, xs)) == Elements(xs)
  {
    if xs != [] {
      SortSorts(leq, xs[1..]);
      InsertKeepsSorted(leq, xs[0], Sort(leq, xs[1..]));
      InsertAddsOne(leq, xs[0], Sort(leq, xs[1..]));
      assert xs == [xs[0]] + xs[1..];
      ElementsOfCons(xs[0], xs[1..]);
    }
  }

  lemma {:induction false} DedupSeparates<T(!new)>(leq: Order<T>, xs: seq<T>)
    requires IsTotalOrder(leq) && Sorted(leq, xs)
    ensures StrictlySorted(leq, Dedup(xs))
    ensures Elements(Dedup(xs)) == Elements(xs)
  {
    if |xs| > 1 {
      var rest := xs[1..];
      DedupSeparates(leq, rest);
      assert xs == [xs[0]] + rest;
      ElementsOfCons(xs[0], rest);
      if xs[0] != xs[1] {
        var tail := Dedup(rest);
        ElementsOfCons(xs[0], tail);
        forall i | 0 <= i < |tail| ensures leq(xs[0], tail[i]) && xs[0] != tail[i] {
          assert tail[i] in Elements(rest);
          assert leq(xs[1], tail[i]);
        }
      }
    }
  }

  lemma NormalForm<T(!new)>(leq: Order<T>, xs: seq<T>)
    requires IsTotalOrder(leq)
    ensures StrictlySorted(leq, Normal(leq, xs))
    ensures Elements(Normal(leq, xs)) == Elements(xs)
  {
    SortSorts(leq, xs);
    DedupSeparates(leq, Sort(leq, xs));
  }

  lemma NoElements<T>(xs: seq<T>)
    ensures Elements(xs) == {} <==> xs == []
  {
    if xs != [] { assert xs[0] in Elements(xs); }
  }

  lemma {:induction false} StrictlySortedIsUnique<T(!new)>(leq: Order<T>, xs: seq<T>, ys: seq<T>)
    requires IsTotalOrder(leq)
    requires StrictlySorted(leq, xs) && StrictlySorted(leq, ys)
    requires Elements(xs) == Elements(ys)
    ensures xs == ys
  {
    NoElements(xs);
    NoElements(ys);
    if xs != [] {
      assert xs[0] in Elements(ys) && ys[0] in Elements(xs);
      assert leq(xs[0], ys[0]) && leq(ys[0], xs[0]);
      var xt, yt := xs[1..], ys[1..];
      assert Elements(xt) == Elements(xs) - {xs[0]};
      assert Elements(yt) == Elements(ys) - {ys[0]};
      StrictlySortedIsUnique(leq, xt, yt);
      assert xs == [xs[0]] + xt && ys == [ys[0]] + yt;
    }
  }

  /** Two lists have one normal form exactly when they have the same elements. */
  lemma NormalIsCanonical<T(!new)>(leq: Order<T>, xs: seq<T>, ys: seq<T>)
    requires IsTotalOrder(leq)
    ensures Normal(leq, xs) == Normal(leq, ys) <==> Elements(xs) == Elements(ys)
  {
    NormalForm(leq, xs);
    NormalForm(leq, ys);
    if Elements(xs) == Elements(ys) {
      StrictlySortedIsUnique(leq, Normal(leq, xs), Normal(leq, ys));
    }
  }

  // ---------------------------------------------------------------- dictionary order

  predicate Precedes<T(==)>(leq: Order<T>, a: seq<T>, b: seq<T>) {
    if a == [] then true
    else if b == [] then false
    else if a[0] == b[0] then Precedes(leq, a[1..], b[1..])
    else leq(a[0], b[0])
  }

  function Dictionary<T(==)>(leq: Order<T>): Order<seq<T>> {
    (a, b) => Precedes(leq, a, b)
  }

  lemma {:induction false} PrecedesIsTotal<T(!new)>(leq: Order<T>, a: seq<T>, b: seq<T>)
    requires IsTotalOrder(leq)
    ensures Precedes(leq, a, b) || Precedes(leq, b, a)
    ensures Precedes(leq, a, b) && Precedes(leq, b, a) ==> a == b
  {
    if a != [] && b != [] {
      PrecedesIsTotal(leq, a[1..], b[1..]);
      assert a == [a[0]] + a[1..] && b == [b[0]] + b[1..];
    }
  }

  lemma {:induction false} PrecedesIsTransitive<T(!new)>(leq: Order<T>, a: seq<T>, b: seq<T>, c: seq<T>)
    requires IsTotalOrder(leq) && Precedes(leq, a, b) && Precedes(leq, b, c)
    ensures Precedes(leq, a, c)
  {
    if a != [] && b != [] && c != [] && a[0] == b[0] == c[0] {
      PrecedesIsTransitive(leq, a[1..], b[1..], c[1..]);
    }
  }

  /** Dictionary order over a total order is total again, to any depth of nesting. */
  lemma DictionaryIsTotal<T(!new)>(leq: Order<T>)
    requires IsTotalOrder(leq)
    ensures IsTotalOrder(Dictionary(leq))
  {
    var order := Dictionary(leq);
    forall a, b ensures order(a, b) || order(b, a) { PrecedesIsTotal(leq, a, b); }
    forall a, b | order(a, b) && order(b, a) ensures a == b { PrecedesIsTotal(leq, a, b); }
    forall a, b, c | order(a, b) && order(b, c) ensures order(a, c) { PrecedesIsTransitive(leq, a, b, c); }
  }
}
