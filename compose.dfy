/** The composition engine (fp-utils.js:44-54): a left fold over a list of
    callables. The head receives the whole initial argument list; every later
    callable receives exactly the single result of its predecessor. */
module ComposeEngine {
  import opened Callables

  /** `Array.prototype.reduce` with an initial value, over callables. */
  function Reduce<V>(step: (Fn<V>, Fn<V>) -> Fn<V>, acc: Fn<V>, fs: seq<Fn<V>>): Fn<V>
    decreases |fs|
  {
    if fs == [] then acc else Reduce(step, step(acc, fs[0]), fs[1..])
  }

  /** The reducer of `composeRight`: chain `curr` after the accumulated callable. */
  function ChainLink<V>(acc: Fn<V>, curr: Fn<V>): Fn<V> {
    args => curr([acc(args)])
  }

  /** `composeRight(fn, ...rest)` */
  function ComposeRight<V>(fn: Fn<V>, rest: seq<Fn<V>>): Fn<V> {
    Reduce(ChainLink, fn, rest)
  }

  /** `compose(...fns)`: `composeRight` over the reversed list. With no
      callables the source yields `undefined` rather than a callable, so the
      list is non-empty. */
  function Compose<V>(fns: seq<Fn<V>>): Fn<V>
    requires fns != []
  {
    var r := Reversed(fns);
    ComposeRight(r[0], r[1..])
  }

  /** `baseComposeLeft(f, g)`: `f` takes the arguments, `g` its single result. */
  function BaseComposeLeft<V>(f: Fn<V>, g: Fn<V>): Fn<V> {
    args => g([f(args)])
  }

  /** `composeReduce(...fns)`: `reduce(baseComposeLeft)` without an initial
      value over the reversed list, so the first element starts the fold.
      With no callables that `reduce` throws, so the list is non-empty. */
  function ComposeReduce<V>(fns: seq<Fn<V>>): Fn<V>
    requires fns != []
  {
    var r := Reversed(fns);
    Reduce(BaseComposeLeft, r[0], r[1..])
  }

  /** Reference for left-to-right evaluation: start from `v`, then hand each
      callable in turn the single result of the one before. */
  function Pipe<V>(v: V, fs: seq<Fn<V>>): V
    decreases |fs|
  {
    if fs == [] then v else Pipe(fs[0]([v]), fs[1..])
  }

  /** Reference for mathematical composition `f0 ∘ f1 ∘ … ∘ fk`: the last
      callable takes the arguments, each earlier one the single result of the
      one after it. */
  function Nest<V>(fns: seq<Fn<V>>, args: seq<V>): V
    requires fns != []
    decreases |fns|
  {
    if |fns| == 1 then fns[0](args) else fns[0]([Nest(fns[1..], args)])
  }

  lemma {:induction false} PipeSnoc<V>(v: V, fs: seq<Fn<V>>, g: Fn<V>)
    ensures Pipe(v, fs + [g]) == g([Pipe(v, fs)])
    decreases |fs|
  {
    if fs == [] {
      assert Pipe(v, [g]) == Pipe(g([v]), []);
    } else {
      assert (fs + [g])[1..] == fs[1..] + [g];
      PipeSnoc(fs[0]([v]), fs[1..], g);
    }
  }

  /** The fold of `composeRight` evaluates left to right. */
  lemma {:induction false} ReduceChainLinkPipes<V>(acc: Fn<V>, fs: seq<Fn<V>>, args: seq<V>)
    ensures Reduce(ChainLink, acc, fs)(args) == Pipe(acc(args), fs)
    decreases |fs|
  {
    if fs != [] {
      ReduceChainLinkPipes(ChainLink(acc, fs[0]), fs[1..], args);
    }
  }

  /** The fold of `composeReduce` evaluates left to right as well. */
  lemma {:induction false} ReduceBaseComposeLeftPipes<V>(acc: Fn<V>, fs: seq<Fn<V>>, args: seq<V>)
    ensures Reduce(BaseComposeLeft, acc, fs)(args) == Pipe(acc(args), fs)
    decreases |fs|
  {
    if fs != [] {
      ReduceBaseComposeLeftPipes(BaseComposeLeft(acc, fs[0]), fs[1..], args);
    }
  }

  /** The head takes the whole argument list, each later callable one value,
      left to right; with no further callables the result is the head itself. */
  lemma ComposeRightPipes<V>(fn: Fn<V>, rest: seq<Fn<V>>, args: seq<V>)
    ensures ComposeRight(fn, rest)(args) == Pipe(fn(args), rest)
    ensures ComposeRight(fn, []) == fn
  {
    ReduceChainLinkPipes(fn, rest, args);
  }

  /** A composition of one callable builds nothing: `composeRight(fn)`,
      `compose(fn)` and `composeReduce(fn)` hand back `fn` itself, so a
      method keeps the receiver that a later `.call` passes it. */
  lemma SingleCompositionIsItsArgument<V>(fn: Fn<V>)
    ensures ComposeRight(fn, []) == fn
    ensures Compose([fn]) == fn
    ensures ComposeReduce([fn]) == fn
  {
  }

  /** `composeRight(f, g, h)(xs) = h(g(f(xs)))` */
  lemma ComposeRightThree<V>(f: Fn<V>, g: Fn<V>, h: Fn<V>, xs: seq<V>)
    ensures ComposeRight(f, [g, h])(xs) == h([g([f(xs)])])
  {
    ComposeRightPipes(f, [g, h], xs);
    assert Pipe(f(xs), [g, h]) == Pipe(g([f(xs)]), [h]);
    assert Pipe(g([f(xs)]), [h]) == Pipe(h([g([f(xs)])]), []);
  }

  /** Fold ordering: composing onto an already composed chain is composing
      with the concatenated list. */
  lemma ComposeRightAppend<V>(fn: Fn<V>, a: seq<Fn<V>>, b: seq<Fn<V>>, args: seq<V>)
    ensures ComposeRight(fn, a + b)(args) == ComposeRight(ComposeRight(fn, a), b)(args)
  {
    PipeAppend(fn(args), a, b);
    ComposeRightPipes(fn, a + b, args);
    ComposeRightPipes(fn, a, args);
    ComposeRightPipes(ComposeRight(fn, a), b, args);
  }

  lemma {:induction false} PipeAppend<V>(v: V, a: seq<Fn<V>>, b: seq<Fn<V>>)
    ensures Pipe(v, a + b) == Pipe(Pipe(v, a), b)
    decreases |a|
  {
    if a == [] {
      assert a + b == b;
    } else {
      assert (a + b)[1..] == a[1..] + b;
      PipeAppend(a[0]([v]), a[1..], b);
    }
  }

  /** `compose(f, g, h)(x) = f(g(h(x)))`: right-to-left evaluation with the
      last callable taking the whole argument list. */
  lemma {:induction false} ComposeNests<V>(fns: seq<Fn<V>>, args: seq<V>)
    requires fns != []
    ensures Compose(fns)(args) == Nest(fns, args)
    decreases |fns|
  {
    var r := Reversed(fns);
    ComposeRightPipes(r[0], r[1..], args);
    if |fns| == 1 {
      assert r == Reversed(fns[1..]) + [fns[0]];
      assert r == [fns[0]];
    } else {
      var t := Reversed(fns[1..]);
      assert r == t + [fns[0]];
      assert r[0] == t[0] && r[1..] == t[1..] + [fns[0]];
      PipeSnoc(t[0](args), t[1..], fns[0]);
      ComposeNests(fns[1..], args);
      ComposeRightPipes(t[0], t[1..], args);
    }
  }

  /** `compose` is `composeRight` of the reversed list, pointwise in both
      directions: composing the reversed list right to left gives the
      original left-to-right chain. */
  lemma ComposeReversesComposeRight<V>(fn: Fn<V>, rest: seq<Fn<V>>, args: seq<V>)
    ensures Compose(Reversed([fn] + rest))(args) == ComposeRight(fn, rest)(args)
  {
    ReversedInvolutive([fn] + rest);
    assert Reversed(Reversed([fn] + rest)) == [fn] + rest;
  }

  /** `composeReduce` and `compose` build the same callable. */
  lemma ComposeReduceAgrees<V>(fns: seq<Fn<V>>, args: seq<V>)
    requires fns != []
    ensures ComposeReduce(fns)(args) == Compose(fns)(args) == Nest(fns, args)
  {
    var r := Reversed(fns);
    ReduceBaseComposeLeftPipes(r[0], r[1..], args);
    ComposeRightPipes(r[0], r[1..], args);
    ComposeNests(fns, args);
  }
}
