/** The curry engine (fp-utils.js:18-34): an arity-gated accumulator of
    arguments. A curried callable that still waits for arguments is an
    immutable Node; calling it builds a new list with `concat`, so a node can
    be completed any number of times. */
module CurryEngine {
  import opened Callables
  import opened Adapters

  /** Which closure a pending node stands for:
      Variadic  the closure of `curry`, taking any number of arguments and
                currying again over the extended list (line 22);
      HandOff   the closure of `curryUglyButt`, taking one argument and
                handing the extended list to `curry` (line 27);
      Unary     the closure of `currySimple`, taking one argument and
                calling `currySimple` again (line 33). */
  datatype Mode = Variadic | HandOff | Unary

  /** A closure over the target, its arity and the arguments collected so far.
      For a Unary node `arity` is the target's declared parameter count. */
  datatype Node<!V> = Node(mode: Mode, fn: Fn<V>, arity: int, acc: seq<V>)

  /** What a curry call returns: another closure, or the target's result. */
  datatype Step<!V> = Pending(node: Node<V>) | Done(value: V)

  /** A node the engine can produce: it still lacks at least one argument. */
  predicate Waiting<V>(n: Node<V>) {
    |n.acc| < n.arity
  }

  /** `curry(fn, arity, args)` */
  function Curry<V>(fn: Fn<V>, arity: int, args: seq<V>): Step<V> {
    if |args| < arity then Pending(Node(Variadic, fn, arity, args)) else Done(fn(args))
  }

  /** `curryUglyButt(fn, arity, args)` */
  function CurryUglyButt<V>(fn: Fn<V>, arity: int, args: seq<V>): Step<V> {
    if |args| < arity then Pending(Node(HandOff, fn, arity, args)) else Done(fn(args))
  }

  /** `currySimple(fn, args)`, with `fn.length` given as `length` */
  function CurrySimple<V>(fn: Fn<V>, length: int, args: seq<V>): Step<V> {
    if |args| < length then Pending(Node(Unary, fn, length, args)) else Done(fn(args))
  }

  /** Calling a pending closure with the argument list `next`. The one-parameter
      closures bind `x` to the first argument and ignore the others. */
  function Call<V>(n: Node<V>, next: seq<V>): Step<V>
    requires n.mode != Variadic ==> next != []
  {
    match n.mode
    case Variadic => Curry(n.fn, n.arity, n.acc + next)
    case HandOff => Curry(n.fn, n.arity, n.acc + [next[0]])
    case Unary => CurrySimple(n.fn, n.arity, n.acc + [next[0]])
  }

  /** Calling the result of each call with the next argument list. None when a
      call is made on a result the target already returned: that call is no
      longer the engine's. */
  function Feed<V>(s: Step<V>, groups: seq<seq<V>>): Option<Step<V>>
    requires NonEmptyGroups(groups)
    decreases |groups|
  {
    if groups == [] then Some(s)
    else
      match s
      case Done(_) => None
      case Pending(n) => Feed(Call(n, groups[0]), groups[1..])
  }

  /** Arity gate: every engine entry point returns a closure exactly while the
      collected arguments are fewer than the arity; that closure keeps the
      target, the arity and precisely the collected arguments, and is Waiting.
      Otherwise the target is called at once with every collected argument,
      however many more than the arity there are. With arity 0, or starting
      arguments that already meet the arity, no closure is ever returned. */
  lemma CurryGate<V>(fn: Fn<V>, arity: int, args: seq<V>)
    ensures Curry(fn, arity, args).Pending? <==> |args| < arity
    ensures CurryUglyButt(fn, arity, args).Pending? <==> |args| < arity
    ensures Curry(fn, arity, args).Pending? ==>
      var n := Curry(fn, arity, args).node;
      Waiting(n) && n.mode == Variadic && n.fn == fn && n.arity == arity && n.acc == args
    ensures CurryUglyButt(fn, arity, args).Pending? ==>
      var n := CurryUglyButt(fn, arity, args).node;
      Waiting(n) && n.mode == HandOff && n.fn == fn && n.arity == arity && n.acc == args
    ensures CurrySimple(fn, arity, args).Pending? <==> |args| < arity
    ensures CurrySimple(fn, arity, args).Pending? ==>
      var n := CurrySimple(fn, arity, args).node;
      Waiting(n) && n.mode == Unary && n.fn == fn && n.arity == arity && n.acc == args
    ensures arity <= |args| ==>
      Curry(fn, arity, args) == CurryUglyButt(fn, arity, args) == CurrySimple(fn, arity, args) == Done(fn(args))
  {
  }

  /** A variadic closure: unsaturated, it returns a closure over `acc ++ next`
      without calling the target; saturated, it calls the target with
      `acc ++ next`, nothing truncated. Calling it with no arguments gives
      back the same node. */
  lemma CallVariadic<V>(n: Node<V>, next: seq<V>)
    requires n.mode == Variadic
    ensures Call(n, next).Pending? <==> |n.acc| + |next| < n.arity
    ensures Call(n, next).Pending? ==> Call(n, next).node == n.(acc := n.acc + next)
    ensures Call(n, next).Done? ==> Call(n, next).value == n.fn(n.acc + next)
    ensures Waiting(n) ==> Call(n, []) == Pending(n)
  {
  }

  /** The one-parameter closures add exactly one argument per call, the first
      one passed; a curryUglyButt closure turns into a variadic one after its
      first call, a currySimple closure stays one-parameter. */
  lemma CallOneParameter<V>(n: Node<V>, next: seq<V>)
    requires n.mode != Variadic && next != []
    ensures Call(n, next) == Call(n, [next[0]])
    ensures Call(n, next).Pending? <==> |n.acc| + 1 < n.arity
    ensures Call(n, next).Pending? ==>
      Call(n, next).node ==
        n.(mode := if n.mode == HandOff then Variadic else Unary, acc := n.acc + [next[0]])
    ensures Call(n, next).Done? ==> Call(n, next).value == n.fn(n.acc + [next[0]])
  {
  }

  /** Split invariance for a variadic node: whatever the grouping of the
      arguments into calls, if only the last call reaches the arity, the
      target receives the node's arguments followed by all of them, in order,
      overflow included. */
  lemma {:induction false} SplitInvariance<V>(n: Node<V>, groups: seq<seq<V>>)
    requires n.mode == Variadic && Waiting(n)
    requires NonEmptyGroups(groups) && groups != []
    requires |n.acc| + |Flatten(groups[..|groups| - 1])| < n.arity <= |n.acc| + |Flatten(groups)|
    ensures Feed(Pending(n), groups) == Some(Done(n.fn(n.acc + Flatten(groups))))
    decreases |groups|
  {
    var g, rest := groups[0], groups[1..];
    assert Flatten(groups) == g + Flatten(rest);
    if rest == [] {
      assert Flatten(rest) == [];
      assert g + Flatten(rest) == g;
    } else {
      var init := groups[..|groups| - 1];
      assert init == [g] + rest[..|rest| - 1];
      assert Flatten(init) == g + Flatten(rest[..|rest| - 1]);
      var m := n.(acc := n.acc + g);
      assert Call(n, g) == Pending(m);
      assert NonEmptyGroups(rest);
      SplitInvariance(m, rest);
      assert m.acc + Flatten(rest) == n.acc + Flatten(groups);
    }
  }

  /** Sums of the argument counts of the calls: a proper prefix of calls that
      each pass something passes fewer arguments than all of them. */
  lemma {:induction false} FlattenInitShorter<T>(groups: seq<seq<T>>)
    requires NonEmptyGroups(groups) && groups != []
    ensures |Flatten(groups[..|groups| - 1])| < |Flatten(groups)|
  {
    var init := groups[..|groups| - 1];
    assert groups == init + [groups[|groups| - 1]];
    FlattenSnoc(init, groups[|groups| - 1]);
  }

  /** `curry(fn, n)` applied group by group to n arguments, every group
      non-empty, gives `fn` applied to all n arguments at once. */
  lemma CurryAllGroups<V>(fn: Fn<V>, arity: nat, groups: seq<seq<V>>)
    requires NonEmptyGroups(groups)
    requires |Flatten(groups)| == arity
    ensures Feed(Curry(fn, arity, []), groups) == Some(Done(fn(Flatten(groups))))
  {
    if groups == [] {
      assert Flatten(groups) == [];
    } else {
      FlattenInitShorter(groups);
      SplitInvariance(Node(Variadic, fn, arity, []), groups);
      assert [] + Flatten(groups) == Flatten(groups);
    }
  }

  /** Re-callability: one pending node completed along two different call
      sequences gives two results, each determined by that node's arguments
      and its own completion alone. */
  lemma Recallable<V>(n: Node<V>, first: seq<seq<V>>, second: seq<seq<V>>)
    requires n.mode == Variadic && Waiting(n)
    requires NonEmptyGroups(first) && NonEmptyGroups(second)
    requires |n.acc| + |Flatten(first)| == n.arity == |n.acc| + |Flatten(second)|
    ensures Feed(Pending(n), first) == Some(Done(n.fn(n.acc + Flatten(first))))
    ensures Feed(Pending(n), second) == Some(Done(n.fn(n.acc + Flatten(second))))
  {
    assert first != [] && second != [];
    FlattenInitShorter(first);
    FlattenInitShorter(second);
    SplitInvariance(n, first);
    SplitInvariance(n, second);
  }

  /** currySimple: a one-parameter node fed one call per missing argument
      calls the target with the collected arguments followed by the first
      argument of every call; any further arguments of a call are dropped. */
  lemma {:induction false} SimpleOnePerCall<V>(n: Node<V>, groups: seq<seq<V>>)
    requires n.mode == Unary && Waiting(n)
    requires NonEmptyGroups(groups)
    requires |n.acc| + |groups| == n.arity
    ensures Feed(Pending(n), groups) == Some(Done(n.fn(n.acc + Heads(groups))))
    decreases |groups|
  {
    var g, rest := groups[0], groups[1..];
    assert Heads(groups) == [g[0]] + Heads(rest);
    var m := n.(acc := n.acc + [g[0]]);
    assert Feed(Pending(n), groups) == Feed(Call(n, g), rest);
    if rest == [] {
      assert Heads(groups) == [g[0]];
      assert Call(n, g) == Done(n.fn(m.acc));
    } else {
      assert Call(n, g) == Pending(m);
      SimpleOnePerCall(m, rest);
      assert m.acc + Heads(rest) == n.acc + Heads(groups);
    }
  }

  /** curryUglyButt: the first call contributes one argument, every later call
      all of its arguments, and the target gets them in that order. */
  lemma UglyButtHandsOff<V>(n: Node<V>, groups: seq<seq<V>>)
    requires n.mode == HandOff && Waiting(n)
    requires NonEmptyGroups(groups) && groups != []
    requires |n.acc| + 1 + |Flatten(groups[1..])| == n.arity
    ensures Feed(Pending(n), groups) ==
      Some(Done(n.fn(n.acc + [groups[0][0]] + Flatten(groups[1..]))))
  {
    var rest := groups[1..];
    var m := Node(Variadic, n.fn, n.arity, n.acc + [groups[0][0]]);
    assert NonEmptyGroups(rest);
    if rest == [] {
      assert Flatten(rest) == [];
      assert m.acc + Flatten(rest) == m.acc;
    } else {
      assert Call(n, groups[0]) == Pending(m);
      FlattenInitShorter(rest);
      SplitInvariance(m, rest);
    }
  }

  /** The third parameter of `curry` pre-binds arguments exactly as `partial`
      does: once the later arguments saturate the node, the target sees the
      bound ones first. */
  lemma CurryPrebindsLikePartial<V>(fn: Fn<V>, arity: int, bound: seq<V>, rest: seq<V>)
    requires |bound| < arity <= |bound| + |rest|
    ensures Curry(fn, arity, bound).Pending?
    ensures Call(Curry(fn, arity, bound).node, rest) == Done(Partial(fn, bound)(rest))
  {
  }
}
