/** The directly callable Array methods and their curried forms
    (fp-utils.js:62-93), as consumers of the adapters and the curry engine.
    The native methods themselves are parameters: each takes its receiver at
    index 0, as `Function.prototype.call` passes it. */
module ArrayMethods {
  import opened Callables
  import opened Adapters
  import opened CurryEngine

  /** `map = partial(reverse(Array.prototype.map))` */
  function ArrayMap<V>(nativeMap: Fn<V>): Fn<V> {
    Partial(Reverse(nativeMap), [])
  }

  /** `filter = partial(reverse(Array.prototype.filter))` */
  function ArrayFilter<V>(nativeFilter: Fn<V>): Fn<V> {
    Partial(Reverse(nativeFilter), [])
  }

  /** `reduce = reverse(Array.prototype.reduce)` */
  function ArrayReduce<V>(nativeReduce: Fn<V>): Fn<V> {
    Reverse(nativeReduce)
  }

  /** `tail = partial(reverse(Array.prototype.slice), 1)`, with `one` the number 1 */
  function ArrayTail<V>(nativeSlice: Fn<V>, one: V): Fn<V> {
    Partial(Reverse(nativeSlice), [one])
  }

  /** `curriedMap = curry(map, 2)` */
  function CurriedMap<V>(nativeMap: Fn<V>): Step<V> {
    Curry(ArrayMap(nativeMap), 2, [])
  }

  /** `curriedFilter = curry(filter, 2)` */
  function CurriedFilter<V>(nativeFilter: Fn<V>): Step<V> {
    Curry(ArrayFilter(nativeFilter), 2, [])
  }

  /** `curriedReduce = curry(reduce, 3)` */
  function CurriedReduce<V>(nativeReduce: Fn<V>): Step<V> {
    Curry(ArrayReduce(nativeReduce), 3, [])
  }

  /** `map(f, xs)` is `xs.map(f)`, `filter(p, xs)` is `xs.filter(p)`,
      `reduce(init, comb, xs)` is `xs.reduce(comb, init)` and `tail(xs)` is
      `xs.slice(1)`: the sequence ends up as the receiver. */
  lemma ReceiverIsTheSequence<V>(nativeMap: Fn<V>, nativeFilter: Fn<V>, nativeReduce: Fn<V>,
                                 nativeSlice: Fn<V>, one: V, f: V, init: V, xs: V)
    ensures ArrayMap(nativeMap)([f, xs]) == nativeMap([xs, f])
    ensures ArrayFilter(nativeFilter)([f, xs]) == nativeFilter([xs, f])
    ensures ArrayReduce(nativeReduce)([init, f, xs]) == nativeReduce([xs, f, init])
    ensures ArrayTail(nativeSlice, one)([xs]) == nativeSlice([xs, one])
  {
    forall k | 0 <= k < 2 ensures Reversed([f, xs])[k] == [f, xs][1 - k] {
      ReversedAt([f, xs], k);
    }
    forall k | 0 <= k < 2 ensures Reversed([one, xs])[k] == [one, xs][1 - k] {
      ReversedAt([one, xs], k);
    }
    forall k | 0 <= k < 3 ensures Reversed([init, f, xs])[k] == [init, f, xs][2 - k] {
      ReversedAt([init, f, xs], k);
    }
    assert Reversed([f, xs]) == [xs, f];
    assert Reversed([one, xs]) == [xs, one];
    assert Reversed([init, f, xs]) == [xs, f, init];
    assert [] + [f, xs] == [f, xs];
    assert ArrayMap(nativeMap)([f, xs]) == Reverse(nativeMap)([f, xs]);
    assert Reverse(nativeMap)([f, xs]) == nativeMap(ReverseArgs([f, xs]));
    assert ArrayFilter(nativeFilter)([f, xs]) == Reverse(nativeFilter)([f, xs]);
    assert Reverse(nativeFilter)([f, xs]) == nativeFilter(ReverseArgs([f, xs]));
    assert ArrayReduce(nativeReduce)([init, f, xs]) == nativeReduce(ReverseArgs([init, f, xs]));
    assert [one] + [xs] == [one, xs];
    assert ArrayTail(nativeSlice, one)([xs]) == Reverse(nativeSlice)([one, xs]);
    assert Reverse(nativeSlice)([one, xs]) == nativeSlice(ReverseArgs([one, xs]));
  }

  /** `curriedMap(f)(xs)` and `curriedFilter(p)(xs)` stage the two arguments
      of `map` and `filter`, and give what one call with both gives. */
  lemma CurriedMapFilterStages<V>(nativeMap: Fn<V>, nativeFilter: Fn<V>, f: V, xs: V)
    ensures Feed(CurriedMap(nativeMap), [[f], [xs]]) == Some(Done(nativeMap([xs, f])))
    ensures Feed(CurriedMap(nativeMap), [[f, xs]]) == Some(Done(nativeMap([xs, f])))
    ensures Feed(CurriedFilter(nativeFilter), [[f], [xs]]) == Some(Done(nativeFilter([xs, f])))
    ensures Feed(CurriedFilter(nativeFilter), [[f, xs]]) == Some(Done(nativeFilter([xs, f])))
  {
    var split, whole := [[f], [xs]], [[f, xs]];
    assert Flatten(split) == [f, xs] by {
      assert Flatten(split) == [f] + Flatten([[xs]]);
      assert Flatten([[xs]]) == [xs] + Flatten([]);
    }
    assert Flatten(whole) == [f, xs] by {
      assert Flatten(whole) == [f, xs] + Flatten([]);
    }
    CurryAllGroups(ArrayMap(nativeMap), 2, split);
    CurryAllGroups(ArrayMap(nativeMap), 2, whole);
    CurryAllGroups(ArrayFilter(nativeFilter), 2, split);
    CurryAllGroups(ArrayFilter(nativeFilter), 2, whole);
    ReceiverIsTheSequence(nativeMap, nativeFilter, nativeMap, nativeMap, f, f, f, xs);
  }

  /** `curriedReduce(init)(comb)(xs)` is `xs.reduce(comb, init)`. */
  lemma CurriedReduceStages<V>(nativeReduce: Fn<V>, init: V, comb: V, xs: V)
    ensures Feed(CurriedReduce(nativeReduce), [[init], [comb], [xs]]) ==
      Some(Done(nativeReduce([xs, comb, init])))
  {
    var groups := [[init], [comb], [xs]];
    assert Flatten(groups) == [init, comb, xs] by {
      assert Flatten(groups) == [init] + Flatten([[comb], [xs]]);
      assert Flatten([[comb], [xs]]) == [comb] + Flatten([[xs]]);
      assert Flatten([[xs]]) == [xs] + Flatten([]);
    }
    CurryAllGroups(ArrayReduce(nativeReduce), 3, groups);
    ReceiverIsTheSequence(nativeReduce, nativeReduce, nativeReduce, nativeReduce, init, comb, init, xs);
  }
}
