/** Partial application and the two argument-order adapters (fp-utils.js:7-16).
    Each adapter hands its underlying callable a reshaped argument list whose
    element 0 is the receiver. */
module Adapters {
  import opened Callables

  /** `partial(fn, ...bound)`: `fn.bind(null, ...bound)`, so the bound
      arguments come first and the later ones follow them. */
  function Partial<V>(fn: Fn<V>, bound: seq<V>): Fn<V> {
    rest => fn(bound + rest)
  }

  /** The argument list `reverse(fn)` hands to `fn`: `args.reverse()` spread
      into `fn.call`, so its first element becomes the receiver. */
  function ReverseArgs<V>(args: seq<V>): seq<V> {
    Reversed(args)
  }

  /** `reverse(fn)`: an arrow that calls `fn` through `.call`, so `fn`
      receives the whole reversed list with element 0 as its receiver. */
  function Reverse<V>(fn: Fn<V>): Fn<V> {
    args => fn(ReverseArgs(args))
  }

  /** `.call(...l)` on a callable the library builds: an arrow function or the
      bound function of `partial`. Either ignores its receiver `l[0]`, so only
      the rest of the list reaches it; with nothing passed, nothing reaches
      it. A one-callable composition builds nothing: it hands back its
      argument, and this does not apply to it. */
  function ArrowAsMethod<V>(g: Fn<V>): Fn<V> {
    l => if l == [] then g([]) else g(l[1..])
  }

  /** The argument list `dataLast(fn)` hands to `fn`: `args.pop()` is
      evaluated first and becomes the receiver, the shortened `args` follow.
      With no arguments the receiver is `undefined` and nothing follows, which
      this model writes as the empty list. */
  function DataLastArgs<V>(args: seq<V>): seq<V> {
    if args == [] then [] else [args[|args| - 1]] + args[..|args| - 1]
  }

  /** `dataLast(fn)`: an arrow that calls `fn` through `.call` as well. */
  function DataLast<V>(fn: Fn<V>): Fn<V> {
    args => fn(DataLastArgs(args))
  }

  /** Binding twice is binding once with both prefixes, and binding nothing
      changes nothing. */
  lemma PartialPrefixes<V>(fn: Fn<V>, a: seq<V>, b: seq<V>, rest: seq<V>)
    ensures Partial(Partial(fn, a), b)(rest) == Partial(fn, a + b)(rest) == fn(a + b + rest)
    ensures Partial(fn, [])(rest) == fn(rest)
  {
    assert a + (b + rest) == a + b + rest;
    assert [] + rest == rest;
  }

  /** `reverse(fn)` passes the last argument as receiver and argument k at
      position |args| - 1 - k; nothing is lost or added. */
  lemma ReverseArgsPositions<V>(args: seq<V>)
    ensures |ReverseArgs(args)| == |args|
    ensures forall k | 0 <= k < |args| :: ReverseArgs(args)[k] == args[|args| - 1 - k]
    ensures args != [] ==> ReverseArgs(args)[0] == args[|args| - 1]
  {
    forall k | 0 <= k < |args|
      ensures ReverseArgs(args)[k] == args[|args| - 1 - k]
    {
      ReversedAt(args, k);
    }
  }

  /** `reverse(reverse(fn))`: the outer adapter hands the original last
      argument to the inner arrow as its receiver, which the arrow drops; the
      inner adapter then restores the order of the others, so `fn` sees every
      argument but the last, in its original order. */
  lemma ReverseTwiceDropsLast<V>(fn: Fn<V>, args: seq<V>)
    ensures args != [] ==> Reverse(ArrowAsMethod(Reverse(fn)))(args) == fn(args[..|args| - 1])
    ensures args == [] ==> Reverse(ArrowAsMethod(Reverse(fn)))(args) == fn([])
  {
    var inner := ArrowAsMethod(Reverse(fn));
    assert Reverse(inner)(args) == inner(ReverseArgs(args));
    assert ReverseArgs(args) == Reversed(args);
    if args != [] {
      var init, last := args[..|args| - 1], args[|args| - 1];
      assert args == init + [last];
      ReversedAppend(init, [last]);
      assert Reversed([last]) == [last];
      assert Reversed(args)[1..] == Reversed(init);
      assert inner(Reversed(args)) == Reverse(fn)(Reversed(init));
      assert Reverse(fn)(Reversed(init)) == fn(ReverseArgs(Reversed(init)));
      assert ReverseArgs(Reversed(init)) == Reversed(Reversed(init));
      ReversedInvolutive(init);
    } else {
      assert inner([]) == Reverse(fn)([]);
      assert Reverse(fn)([]) == fn(ReverseArgs(args));
      assert ReverseArgs(args) == [];
    }
  }

  /** Reversing twice is not the identity: on `[1, 2, 3]` a callable that
      counts its arguments sees two of them. */
  lemma ReverseTwiceIsNotIdentity()
    ensures var count: Fn<int> := xs => |xs|;
      Reverse(ArrowAsMethod(Reverse(count)))([1, 2, 3]) == 2 != count([1, 2, 3])
  {
    var count: Fn<int> := xs => |xs|;
    ReverseTwiceDropsLast(count, [1, 2, 3]);
  }

  /** `dataLast` over an arrow the library made: the popped last argument
      becomes the ignored receiver, so the arrow sees the others only. */
  lemma DataLastOverArrowDropsLast<V>(g: Fn<V>, args: seq<V>)
    requires args != []
    ensures DataLast(ArrowAsMethod(g))(args) == g(args[..|args| - 1])
  {
    assert DataLastArgs(args)[1..] == args[..|args| - 1];
  }

  /** `dataLast(fn)` passes the last argument as receiver and keeps the others
      in their original order: a rotation, so moving the receiver back to the
      end restores the call's arguments. */
  lemma DataLastRotates<V>(args: seq<V>)
    requires args != []
    ensures |DataLastArgs(args)| == |args|
    ensures DataLastArgs(args)[0] == args[|args| - 1]
    ensures DataLastArgs(args)[1..] == args[..|args| - 1]
    ensures DataLastArgs(args)[1..] + [DataLastArgs(args)[0]] == args
    ensures multiset(DataLastArgs(args)) == multiset(args)
  {
  }

  /** With two or fewer arguments the adapters agree; from three on
      `reverse` also reverses the non-receiver arguments. */
  lemma ReverseMatchesDataLastUpToTwo<V>(args: seq<V>)
    requires |args| <= 2
    ensures ReverseArgs(args) == DataLastArgs(args)
  {
    if |args| == 1 {
      assert Reversed(args) == Reversed(args[1..]) + [args[0]];
    } else if |args| == 2 {
      assert Reversed(args[1..]) == Reversed(args[2..]) + [args[1]];
      assert Reversed(args[1..]) == [args[1]];
    }
  }

  /** On three arguments the adapters hand over the same list exactly when
      the first two arguments are equal. */
  lemma ReverseDiffersFromDataLastOnThree(x: int, y: int, z: int)
    ensures ReverseArgs([x, y, z]) == DataLastArgs([x, y, z]) <==> x == y
  {
    ReversedAt([x, y, z], 0);
    ReversedAt([x, y, z], 1);
    ReversedAt([x, y, z], 2);
    assert ReverseArgs([x, y, z]) == [z, y, x];
    assert DataLastArgs([x, y, z]) == [z, x, y];
  }
}
