/** Order statistics and sums that read a list only through its multiset. */
module Statistics {
  import opened Protocol
  import opened Arithmetic
  import opened Ordering
  import opened Folds

  const LEQ_INT: Order<int> := (a, b) => a <= b
  const LEQ_REAL: Order<real> := (a, b) => a <= b

  /** The least integer not below `x`. */
  function Ceiling(x: real): (n: int)
    ensures n as real - 1.0 < x <= n as real
  {
    var floor := (-x).Floor;
    assert floor as real <= -x < floor as real + 1.0;
    -floor
  }

  function Rank(percentile: real, count: nat): (rank: int)
    ensures rank >= 0
  {
    var rank := Ceiling(percentile * count as real) - 1;
    if rank < 0 then 0 else rank
  }

  /** The nearest-rank percentile of a list. */
  function Percentile<T>(leq: Order<T>, values: seq<T>, percentile: real): Option<T>
    requires 0.0 <= percentile <= 1.0
  {
    if values == [] then None
    else
      RankIsWithin(percentile, |values|);
      SortKeepsLength(leq, values);
      Some(Sort(leq, values)[Rank(percentile, |values|)])
  }

  lemma RankIsWithin(percentile: real, count: nat)
    requires 0.0 <= percentile <= 1.0 && count > 0
    ensures Rank(percentile, count) < count
  {
    PartIsWithin(percentile, count as real);
  }

  /** The middle value, or the mean of the two middle values. */
  function Median(values: seq<int>): Option<real> {
    SortKeepsLength(LEQ_INT, values);
    var ordered, n := Sort(LEQ_INT, values), |values|;
    if n == 0 then None
    else if n % 2 == 1 then Some(ordered[n / 2] as real)
    else Some((ordered[n / 2 - 1] + ordered[n / 2]) as real / 2.0)
  }

  function Largest(values: seq<int>): Option<int> {
    SortKeepsLength(LEQ_INT, values);
    if values == [] then None else Some(Sort(LEQ_INT, values)[|values| - 1])
  }

  function Sum(values: seq<int>): int {
    Fold((sum: int, v: int) => sum + v, 0, values)
  }

  function AndThen<T, U>(f: T -> seq<U>): (seq<U>, T) -> seq<U> {
    (mapped, x) => mapped + f(x)
  }

  function FlatMap<T, U>(f: T -> seq<U>, xs: seq<T>): seq<U> {
    Fold(AndThen(f), [], xs)
  }

  // ---------------------------------------------------------------- sorting permutes

  lemma {:induction false} InsertPermutes<T>(leq: Order<T>, x: T, xs: seq<T>)
    ensures multiset(Insert(leq, x, xs)) == multiset([x]) + multiset(xs)
  {
    if xs != [] && !leq(x, xs[0]) {
      InsertPermutes(leq, x, xs[1..]);
      assert xs == [xs[0]] + xs[1..];
    }
  }

  lemma {:induction false} SortPermutes<T>(leq: Order<T>, xs: seq<T>)
    ensures multiset(Sort(leq, xs)) == multiset(xs)
  {
    if xs != [] {
      SortPermutes(leq, xs[1..]);
      InsertPermutes(leq, xs[0], Sort(leq, xs[1..]));
      assert xs == [xs[0]] + xs[1..];
    }
  }

  lemma SortKeepsLength<T>(leq: Order<T>, xs: seq<T>)
    ensures |Sort(leq, xs)| == |xs|
  {
    SortPermutes(leq, xs);
    assert |multiset(Sort(leq, xs))| == |multiset(xs)|;
  }

  lemma WithoutHead<T>(xs: seq<T>)
    requires xs != []
    ensures multiset(xs[1..]) == multiset(xs) - multiset{xs[0]}
  {
    assert xs == [xs[0]] + xs[1..];
  }

  lemma {:induction false} SortedIsUnique<T(!new)>(leq: Order<T>, xs: seq<T>, ys: seq<T>)
    requires IsTotalOrder(leq) && Sorted(leq, xs) && Sorted(leq, ys)
    requires multiset(xs) == multiset(ys)
    ensures xs == ys
  {
    assert |multiset(xs)| == |multiset(ys)|;
    if xs != [] {
      assert xs[0] in multiset(ys) && ys[0] in multiset(xs);
      assert leq(xs[0], ys[0]) && leq(ys[0], xs[0]);
      assert xs[0] == ys[0];
      WithoutHead(xs);
      WithoutHead(ys);
      SortedIsUnique(leq, xs[1..], ys[1..]);
    }
  }

  lemma PermutationsSortAlike<T(!new)>(leq: Order<T>, xs: seq<T>, ys: seq<T>)
    requires IsTotalOrder(leq) && multiset(xs) == multiset(ys)
    ensures Sort(leq, xs) == Sort(leq, ys) && |xs| == |ys|
  {
    SortSorts(leq, xs);
    SortSorts(leq, ys);
    SortPermutes(leq, xs);
    SortPermutes(leq, ys);
    SortedIsUnique(leq, Sort(leq, xs), Sort(leq, ys));
    assert |multiset(xs)| == |multiset(ys)|;
  }

  lemma PermutationsShareMiddleAndLargest(xs: seq<int>, ys: seq<int>)
    requires multiset(xs) == multiset(ys)
    ensures Median(xs) == Median(ys) && Largest(xs) == Largest(ys)
  {
    PermutationsSortAlike(LEQ_INT, xs, ys);
  }

  lemma PermutationsSharePercentile<T(!new)>(leq: Order<T>, xs: seq<T>, ys: seq<T>, percentile: real)
    requires IsTotalOrder(leq) && multiset(xs) == multiset(ys) && 0.0 <= percentile <= 1.0
    ensures Percentile(leq, xs, percentile) == Percentile(leq, ys, percentile)
  {
    PermutationsSortAlike(leq, xs, ys);
  }

  // ---------------------------------------------------------------- what a percentile is

  function KeepAtMost<T>(leq: Order<T>, bound: T): T -> seq<T> {
    v => if leq(v, bound) then [v] else []
  }

  function KeepBelow<T(==)>(leq: Order<T>, bound: T): T -> seq<T> {
    v => if leq(v, bound) && v != bound then [v] else []
  }

  function AtMost<T>(leq: Order<T>, values: seq<T>, bound: T): seq<T> {
    FlatMap(KeepAtMost(leq, bound), values)
  }

  function Below<T(==)>(leq: Order<T>, values: seq<T>, bound: T): seq<T> {
    FlatMap(KeepBelow(leq, bound), values)
  }

  lemma {:induction false} FlatMapBounds<T, U>(f: T -> seq<U>, xs: seq<T>, n: nat)
    requires n <= |xs| && forall i | 0 <= i < |xs| :: |f(xs[i])| <= 1
    ensures (forall i | 0 <= i < n :: |f(xs[i])| == 1) ==> |FlatMap(f, xs)| >= n
    ensures (forall i | n <= i < |xs| :: f(xs[i]) == []) ==> |FlatMap(f, xs)| <= n
  {
    if xs != [] {
      FlatMapBounds(f, xs[..|xs| - 1], if n == |xs| then n - 1 else n);
    }
  }

  lemma RankInSortedList<T(!new)>(leq: Order<T>, ordered: seq<T>, rank: nat)
    requires IsTotalOrder(leq) && Sorted(leq, ordered) && rank < |ordered|
    ensures |AtMost(leq, ordered, ordered[rank])| >= rank + 1
    ensures |Below(leq, ordered, ordered[rank])| <= rank
  {
    var value := ordered[rank];
    var atMost, below := KeepAtMost(leq, value), KeepBelow(leq, value);
    assert leq(value, value);
    FlatMapBounds(atMost, ordered, rank + 1);
    forall i | rank <= i < |ordered| ensures below(ordered[i]) == [] {
      assert leq(value, ordered[i]);
    }
    FlatMapBounds(below, ordered, rank);
  }

  lemma PermutationsCountAlike<T(!new)>(leq: Order<T>, xs: seq<T>, ys: seq<T>, bound: T)
    requires multiset(xs) == multiset(ys)
    ensures |AtMost(leq, xs, bound)| == |AtMost(leq, ys, bound)| && |Below(leq, xs, bound)| == |Below(leq, ys, bound)|
  {
    FlatMapPermutes(KeepAtMost(leq, bound), xs, ys);
    FlatMapPermutes(KeepBelow(leq, bound), xs, ys);
    assert |multiset(AtMost(leq, xs, bound))| == |multiset(AtMost(leq, ys, bound))|;
    assert |multiset(Below(leq, xs, bound))| == |multiset(Below(leq, ys, bound))|;
  }

  lemma OrderedMember<T(!new)>(leq: Order<T>, values: seq<T>, rank: nat)
    requires IsTotalOrder(leq) && rank < |values|
    ensures |Sort(leq, values)| == |values|
    ensures var value := Sort(leq, values)[rank];
            && value in values
            && |AtMost(leq, values, value)| >= rank + 1
            && |Below(leq, values, value)| <= rank
  {
    SortKeepsLength(leq, values);
    SortSorts(leq, values);
    SortPermutes(leq, values);
    var ordered := Sort(leq, values);
    assert ordered[rank] in multiset(ordered);
    RankInSortedList(leq, ordered, rank);
    PermutationsCountAlike(leq, ordered, values, ordered[rank]);
  }

  lemma RankIsNearest(percentile: real, count: nat)
    requires 0.0 <= percentile <= 1.0 && count > 0
    ensures percentile * count as real <= (Rank(percentile, count) + 1) as real
    ensures Rank(percentile, count) == 0 || Rank(percentile, count) as real < percentile * count as real
  {
  }

  /**
   The nearest-rank percentile is a member that at least that part of the values do not exceed, while
   fewer than that part, or none, lie strictly below it.
   */
  lemma PercentileIsNearestRank<T(!new)>(leq: Order<T>, values: seq<T>, percentile: real)
    requires IsTotalOrder(leq) && values != [] && 0.0 <= percentile <= 1.0
    ensures Percentile(leq, values, percentile).Some?
    ensures var value := Percentile(leq, values, percentile).value;
            && value in values
            && |AtMost(leq, values, value)| as real >= percentile * |values| as real
            && (|Below(leq, values, value)| == 0
                || |Below(leq, values, value)| as real < percentile * |values| as real)
  {
    RankIsWithin(percentile, |values|);
    RankIsNearest(percentile, |values|);
    OrderedMember(leq, values, Rank(percentile, |values|));
  }

  /** The median is the mean of the lower and the upper middle member, which coincide for an odd count. */
  lemma MedianIsTheMiddle(values: seq<int>) returns (low: int, high: int)
    requires values != []
    ensures Median(values) == Some((low + high) as real / 2.0)
    ensures low in values && high in values
    ensures 2 * |AtMost(LEQ_INT, values, low)| >= |values| && 2 * |Below(LEQ_INT, values, low)| < |values|
    ensures 2 * |AtMost(LEQ_INT, values, high)| > |values| && 2 * |Below(LEQ_INT, values, high)| <= |values|
  {
    var n := |values|;
    OrderedMember(LEQ_INT, values, (n - 1) / 2);
    OrderedMember(LEQ_INT, values, n / 2);
    low, high := Sort(LEQ_INT, values)[(n - 1) / 2], Sort(LEQ_INT, values)[n / 2];
    if n % 2 == 1 {
      assert (n - 1) / 2 == n / 2 && (low + high) as real / 2.0 == low as real;
    } else {
      assert (n - 1) / 2 == n / 2 - 1;
    }
  }

  lemma SortKeepsMembers<T>(leq: Order<T>, values: seq<T>, v: T)
    ensures v in Sort(leq, values) <==> v in values
  {
    SortPermutes(leq, values);
    assert v in multiset(Sort(leq, values)) <==> v in multiset(values);
  }

  lemma LargestIsGreatest(values: seq<int>)
    requires values != []
    ensures Largest(values).Some? && Largest(values).value in values
    ensures forall v | v in values :: v <= Largest(values).value
  {
    SortKeepsLength(LEQ_INT, values);
    SortSorts(LEQ_INT, values);
    var ordered := Sort(LEQ_INT, values);
    SortKeepsMembers(LEQ_INT, values, ordered[|ordered| - 1]);
    forall v | v in values ensures v <= ordered[|ordered| - 1] {
      SortKeepsMembers(LEQ_INT, values, v);
    }
  }

  lemma NothingHasNoStatistics()
    ensures Median([]) == None && Largest([]) == None && Sum([]) == 0
    ensures forall p: real | 0.0 <= p <= 1.0 :: Percentile(LEQ_REAL, [], p) == None
  {
  }

  // ---------------------------------------------------------------- permuted sums and maps

  lemma FlatMapPermutes<T(!new), U(!new)>(f: T -> seq<U>, xs: seq<T>, ys: seq<T>)
    requires multiset(xs) == multiset(ys)
    ensures multiset(FlatMap(f, xs)) == multiset(FlatMap(f, ys))
  {
    PermutationsFoldAlike(AndThen(f), (s: seq<U>, t: seq<U>) => multiset(s) == multiset(t), [], xs, ys);
  }

  lemma SumPermutes(xs: seq<int>, ys: seq<int>)
    requires multiset(xs) == multiset(ys)
    ensures Sum(xs) == Sum(ys)
  {
    PermutationsFoldAlike((sum: int, v: int) => sum + v, (s: int, t: int) => s == t, 0, xs, ys);
  }

  // ---------------------------------------------------------------- building sums and maps up

  lemma LastMapped<T, U>(f: T -> seq<U>, xs: seq<T>, x: T)
    ensures FlatMap(f, xs + [x]) == FlatMap(f, xs) + f(x)
  {
    FoldLast(AndThen(f), [], xs, x);
  }

  lemma LastSummed(values: seq<int>, v: int)
    ensures Sum(values + [v]) == Sum(values) + v
  {
    FoldLast((sum: int, x: int) => sum + x, 0, values, v);
  }

  lemma {:induction false} SumJoins(a: seq<int>, b: seq<int>)
    ensures Sum(a + b) == Sum(a) + Sum(b)
  {
    if b == [] {
      assert a + b == a;
    } else {
      var init, last := b[..|b| - 1], b[|b| - 1];
      assert b == init + [last] && a + b == (a + init) + [last];
      SumJoins(a, init);
      LastSummed(a + init, last);
      LastSummed(init, last);
    }
  }

  lemma {:induction false} FlatMapJoins<T, U>(f: T -> seq<U>, a: seq<T>, b: seq<T>)
    ensures FlatMap(f, a + b) == FlatMap(f, a) + FlatMap(f, b)
  {
    if b == [] {
      assert a + b == a;
    } else {
      var init, last := b[..|b| - 1], b[|b| - 1];
      assert b == init + [last] && a + b == (a + init) + [last];
      FlatMapJoins(f, a, init);
      LastMapped(f, a + init, last);
      LastMapped(f, init, last);
    }
  }

  /** Mapping twice is mapping once by what both do to each element. */
  lemma {:induction false} FlatMapFuses<T, U, W>(f: T -> seq<U>, g: U -> seq<W>, h: T -> seq<W>, xs: seq<T>)
    requires forall i | 0 <= i < |xs| :: FlatMap(g, f(xs[i])) == h(xs[i])
    ensures FlatMap(g, FlatMap(f, xs)) == FlatMap(h, xs)
  {
    if xs != [] {
      var init, last := xs[..|xs| - 1], xs[|xs| - 1];
      assert xs == init + [last];
      FlatMapFuses(f, g, h, init);
      LastMapped(f, init, last);
      LastMapped(h, init, last);
      FlatMapJoins(g, FlatMap(f, init), f(last));
    }
  }

  lemma {:induction false} MappedAlike<T, U>(f: T -> seq<U>, g: T -> seq<U>, xs: seq<T>)
    requires forall i | 0 <= i < |xs| :: f(xs[i]) == g(xs[i])
    ensures FlatMap(f, xs) == FlatMap(g, xs)
  {
    if xs != [] {
      var init, last := xs[..|xs| - 1], xs[|xs| - 1];
      assert xs == init + [last];
      MappedAlike(f, g, init);
      LastMapped(f, init, last);
      LastMapped(g, init, last);
    }
  }

  lemma {:induction false} MappedMember<T, U>(f: T -> seq<U>, xs: seq<T>, y: U)
    requires forall i | 0 <= i < |xs| :: |f(xs[i])| <= 1
    ensures y in FlatMap(f, xs) <==> exists i :: 0 <= i < |xs| && f(xs[i]) == [y]
  {
    if xs != [] {
      var init, last := xs[..|xs| - 1], xs[|xs| - 1];
      assert xs == init + [last];
      MappedMember(f, init, y);
      LastMapped(f, init, last);
      assert forall i | 0 <= i < |init| :: xs[i] == init[i];
    }
  }

  lemma OneMapped<T, U>(f: T -> seq<U>, x: T)
    ensures FlatMap(f, [x]) == f(x) && FlatMap(f, []) == []
  {
    LastMapped(f, [], x);
    assert [] + [x] == [x];
  }

  // ---------------------------------------------------------------- the values of a map

  lemma FewerKeys<K, V>(m: map<K, V>, key: K)
    requires key in m
    ensures |m - {key}| < |m|
  {
    assert (m - {key}).Keys == m.Keys - {key};
    assert |(m - {key}).Keys| == |m - {key}| && |m.Keys| == |m|;
  }

  ghost function SomeKey<K, V>(m: map<K, V>): (key: K)
    requires m != map[]
    ensures key in m
  {
    var key :| key in m;
    key
  }

  /** The values of a map, each key's once, in some order. */
  ghost function Listed<K, V>(m: map<K, V>): seq<V>
    decreases |m|
  {
    if m == map[] then []
    else
      FewerKeys(m, SomeKey(m));
      [m[SomeKey(m)]] + Listed(m - {SomeKey(m)})
  }

  lemma {:induction false} ListedIsAsLong<K, V>(m: map<K, V>)
    ensures |Listed(m)| == |m|
    decreases |m|
  {
    if m != map[] {
      var rest := m - {SomeKey(m)};
      FewerKeys(m, SomeKey(m));
      ListedIsAsLong(rest);
      assert rest.Keys == m.Keys - {SomeKey(m)};
      assert |rest.Keys| == |rest| && |m.Keys| == |m|;
    }
  }

  lemma {:induction false} ListedIsEachValue<K, V>(m: map<K, V>, value: V)
    ensures value in Listed(m) <==> exists key :: key in m && m[key] == value
    decreases |m|
  {
    if m != map[] {
      var first := SomeKey(m);
      FewerKeys(m, first);
      ListedIsEachValue(m - {first}, value);
      if key :| key in m && m[key] == value {
        assert key == first || key in m - {first};
      }
    }
  }

  lemma HeadCounts<T>(x: T, xs: seq<T>)
    ensures multiset([x] + xs) == multiset{x} + multiset(xs)
  {
  }

  lemma RemovedEitherWay<K, V>(m: map<K, V>, j: K, k: K)
    ensures (m - {j}) - {k} == (m - {k}) - {j}
  {
  }

  lemma ThreeInOrder<T>(rest: multiset<T>, x: multiset<T>, y: multiset<T>)
    ensures x + (rest + y) == (rest + x) + y
  {
  }

  lemma {:induction false} ListedWithout<K, V>(m: map<K, V>, key: K)
    requires key in m
    ensures multiset(Listed(m)) == multiset(Listed(m - {key})) + multiset{m[key]}
    decreases |m|
  {
    var first := SomeKey(m);
    FewerKeys(m, first);
    FewerKeys(m, key);
    HeadCounts(m[first], Listed(m - {first}));
    if first != key {
      ListedWithout(m - {first}, key);
      ListedWithout(m - {key}, first);
      RemovedEitherWay(m, first, key);
      ThreeInOrder(multiset(Listed((m - {first}) - {key})), multiset{m[first]}, multiset{m[key]});
    }
  }

  lemma AddedKeyRemoved<K, V>(m: map<K, V>, key: K, value: V)
    requires key !in m
    ensures m[key := value] - {key} == m
  {
  }

  /** A new key adds its value. */
  lemma ListedGrows<K, V>(m: map<K, V>, key: K, value: V)
    requires key !in m
    ensures multiset(Listed(m[key := value])) == multiset(Listed(m)) + multiset{value}
  {
    ListedWithout(m[key := value], key);
    AddedKeyRemoved(m, key, value);
  }

  ghost predicate Lists<K(!new)>(keys: seq<K>, of: set<K>) {
    (forall i, j | 0 <= i < j < |keys| :: keys[i] != keys[j]) && forall key :: key in keys <==> key in of
  }

  /** One key more adds its value, or nothing when the map lacks it. */
  lemma ListedWithKey<K, V>(m: map<K, V>, key: K)
    ensures multiset(Listed(m)) == multiset(Listed(m - {key})) + multiset(if key in m then [m[key]] else [])
  {
    if key in m {
      ListedWithout(m, key);
    } else {
      assert m - {key} == m;
    }
  }

  function Except<K(==), V>(f: K -> seq<V>, but: K): K -> seq<V> {
    (key: K) => if key == but then [] else f(key)
  }

  /** Walking the keys in any order gives the same values; keys that the map lacks must add none. */
  lemma {:induction false} ListedInAnyOrder<K(!new), V>(m: map<K, V>, keys: seq<K>, f: K -> seq<V>)
    requires (forall i, j | 0 <= i < j < |keys| :: keys[i] != keys[j]) && forall key | key in m :: key in keys
    requires forall key :: f(key) == if key in m then [m[key]] else []
    ensures multiset(FlatMap(f, keys)) == multiset(Listed(m))
    decreases |keys|
  {
    if keys == [] {
      assert m == map[];
    } else {
      var init, last := keys[..|keys| - 1], keys[|keys| - 1];
      assert keys == init + [last];
      forall key | key in m - {last} ensures key in init {
        assert key in keys;
      }
      ListedInAnyOrder(m - {last}, init, Except(f, last));
      MappedAlike(f, Except(f, last), init);
      LastMapped(f, init, last);
      ListedWithKey(m, last);
    }
  }
}
