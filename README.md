# fp-utils combinator core in Dafny

A model of the combinator core of the `fp-utils` library (`src/fp-utils.js`):
partial application and the argument-order adapters `reverse` and `dataLast`,
the curry engine (`curry` and its unexported variants `curryUglyButt` and
`currySimple`), and the composition engine (`composeRight`, `compose`, and the
unexported `baseComposeLeft`/`composeReduce` and `composeVerbose`). The
directly callable and curried Array methods appear as consumers of that core.

How JavaScript is represented:

- A callable is a total function `Fn<V> = seq<V> -> V` from its whole
  positional argument list to one value. `reverse` and `dataLast` call their
  target through `.call`, which makes element 0 of the list the receiver
  (`this`). For a method such as `Array.prototype.map`, the model's list
  therefore starts with the receiver.
- The callables the library builds ignore `this`: the arrow functions, and
  the bound function `partial` returns. Handed to `reverse` or `dataLast`,
  such a callable loses element 0 of the list it gets through `.call`.
  `Adapters.ArrowAsMethod` writes that call out, so `reverse(reverse(fn))`
  is `Reverse(ArrowAsMethod(Reverse(fn)))`, not `Reverse(Reverse(fn))`.
- The exception is a composition of one callable. `composeRight(fn)`,
  `compose(fn)` and `composeReduce(fn)` build nothing and hand back `fn`
  itself. A method passed there keeps its receiver, and `ArrowAsMethod`
  does not apply to it.
- A curried callable that still waits for arguments is an immutable value
  `Node(mode, fn, arity, acc)`. The three closures of lines 22, 27 and 33
  are told apart by `mode`. A curry call returns `Step`: `Pending(node)` or
  `Done(result)`. `Feed` makes successive calls, one argument list per call.
- `composeRight` and `compose` are a `Reduce` over a list of callables. Two
  independent definitions serve as references. `Pipe` evaluates left to
  right. `Nest` is mathematical composition `f0 ∘ f1 ∘ … ∘ fk`.
- `composeVerbose` mutates the array its closure captured. It is a class
  `Chain` whose `Call` method changes the field `fns`.

Files: `callables.dfy` (shared types and sequence lemmas), `adapters.dfy`,
`curry.dfy`, `compose.dfy`, `compose_verbose.dfy`, `array_methods.dfy`,
`scenarios.dfy` (the library's usage examples).

Two edge cases, as the code has them:

- `dataLast` with no arguments: the code (`src/fp-utils.js:16`) passes
  `undefined` as the receiver and raises no error of its own. The model hands
  the underlying callable the empty list.
- Composing no callables: `compose()` and `composeReduce()` have no useful
  result in the code. The model requires a non-empty list; see "## Left out".

## Model

| member | source | states |
|---|---|---|
| Adapters.PartialPrefixes | src/fp-utils.js:7-9 | bound arguments come before the later ones; binding twice equals binding the concatenation once; binding nothing changes nothing |
| Adapters.ReverseArgsPositions | src/fp-utils.js:12-13 | `reverse(fn)` hands `fn` every argument, argument k at position n-1-k; the last argument becomes the receiver |
| Adapters.ReverseTwiceDropsLast | src/fp-utils.js:12-13 | `reverse(reverse(fn))` loses the last argument: the inner arrow drops the receiver `.call` gives it, and `fn` gets the other arguments in their original order; with no arguments `fn` gets none |
| Adapters.ReverseTwiceIsNotIdentity | src/fp-utils.js:12-13 | a callable that counts its arguments, reversed twice and called with three, counts two |
| Adapters.DataLastOverArrowDropsLast | src/fp-utils.js:12-16 | `dataLast` over an arrow the library returned: the popped last argument becomes the ignored receiver, so the arrow gets only the others |
| Adapters.DataLastRotates | src/fp-utils.js:16 | `dataLast(fn)` makes the last argument the receiver and keeps the others in original order; it is a permutation, and moving the receiver back to the end restores the call |
| Adapters.ReverseMatchesDataLastUpToTwo | src/fp-utils.js:12-16 | on at most two arguments, `reverse` and `dataLast` hand over the same list |
| Adapters.ReverseDiffersFromDataLastOnThree | src/fp-utils.js:12-16 | on three arguments `[x, y, z]` the two lists are equal exactly when x == y, because `reverse` also reverses the non-receiver arguments |
| CurryEngine.CurryGate | src/fp-utils.js:20-34 | `curry`/`curryUglyButt`/`currySimple` return a closure iff the collected arguments are fewer than the arity; the closure keeps fn, arity and exactly those arguments and still lacks one; otherwise fn is called at once with every argument (arity 0 or already-met arity) |
| CurryEngine.CallVariadic | src/fp-utils.js:20-23 | a variadic closure unsaturated returns a closure over `acc ++ next` without calling fn; saturated, it calls fn with `acc ++ next`, overflow included; calling it with no arguments gives the same node |
| CurryEngine.CallOneParameter | src/fp-utils.js:25-34 | a one-parameter closure adds exactly the first argument of a call and drops the rest; a `curryUglyButt` closure becomes variadic after one call, a `currySimple` closure stays one-parameter |
| CurryEngine.SplitInvariance | src/fp-utils.js:20-23 | for any grouping of arguments into non-empty calls where only the last call reaches the arity, fn receives the node's arguments followed by all of them in order, overflow included |
| CurryEngine.CurryAllGroups | src/fp-utils.js:20-23 | `curry(fn, n)` applied group by group to n arguments gives `fn` of all n arguments at once |
| CurryEngine.Recallable | src/fp-utils.js:22 | one pending node completed along two different call sequences gives two results, each from that node's arguments plus its own completion only |
| CurryEngine.SimpleOnePerCall | src/fp-utils.js:31-34 | `currySimple` fed one call per missing argument calls fn with the collected arguments followed by the first argument of every call |
| CurryEngine.UglyButtHandsOff | src/fp-utils.js:25-28 | `curryUglyButt` takes one argument on its first call and every argument of each later call, and fn receives them in that order |
| CurryEngine.CurryPrebindsLikePartial | src/fp-utils.js:20-23 | the third parameter of `curry` pre-binds arguments as `partial` does: the saturating call gives `partial(fn, ...bound)(...rest)` |
| ComposeEngine.ReduceChainLinkPipes | src/fp-utils.js:48-51 | the fold with the `composeRight` reducer evaluates left to right, each callable receiving the single previous result |
| ComposeEngine.ReduceBaseComposeLeftPipes | src/fp-utils.js:44-45 | the fold with `baseComposeLeft` evaluates left to right in the same way |
| ComposeEngine.ComposeRightPipes | src/fp-utils.js:48-51 | `composeRight(fn, ...rest)` applies fn to the whole argument list, then each later callable to one value; with no further callables it is fn itself |
| ComposeEngine.SingleCompositionIsItsArgument | src/fp-utils.js:44-54 | `composeRight(fn)`, `compose(fn)` and `composeReduce(fn)` return `fn` itself, not a new callable |
| ComposeEngine.ComposeRightThree | src/fp-utils.js:48-51 | `composeRight(f, g, h)(xs) = h(g(f(xs)))` |
| ComposeEngine.ComposeRightAppend | src/fp-utils.js:48-51 | composing onto an already composed chain equals composing with the concatenated list |
| ComposeEngine.ComposeNests | src/fp-utils.js:53-54 | `compose(...fns)` is the mathematical composition: the last callable takes the arguments, each earlier one the single result of the one after it |
| ComposeEngine.ComposeReversesComposeRight | src/fp-utils.js:53-54 | `compose` of the reversed list equals `composeRight` of the list |
| ComposeEngine.ComposeReduceAgrees | src/fp-utils.js:44-45 | `composeReduce` and `compose` give the same result on every argument list |
| ComposeVerbose.Chain.constructor | src/fp-utils.js:37 | the returned closure starts with the captured list of callables |
| ComposeVerbose.Chain.Call | src/fp-utils.js:37-42 | one call returns the mathematical composition of the callables the closure holds and removes the last one from the captured array; with none left the call fails |
| Scenarios.SecondCallSeesShorterChain | src/fp-utils.js:37-42 | `composeVerbose(addOne, triple)` called with 4 gives 13, then 5, then fails, while `compose` gives 13 |
| ArrayMethods.ReceiverIsTheSequence | src/fp-utils.js:62-72 | `map(f, xs)`, `filter(p, xs)`, `reduce(init, comb, xs)` and `tail(xs)` call the native method on the receiver `xs` with `f`, `p`, `(comb, init)` and `1` |
| ArrayMethods.CurriedMapFilterStages | src/fp-utils.js:81-87 | `curriedMap(f)(xs)` and `curriedFilter(p)(xs)` equal `xs.map(f)` and `xs.filter(p)`, as does one call with both arguments |
| ArrayMethods.CurriedReduceStages | src/fp-utils.js:93 | `curriedReduce(init)(comb)(xs)` equals `xs.reduce(comb, init)` |
| Scenarios.CurrySumThreeExamples | src/fp-utils.spec.js:29-37 | `plusFive(9) = 14`, `plusFive(10) = 15`, `numsPlusOne(3)(6) = 10`, `curriedSumThree(1)(4)(9) = 14` |
| Scenarios.CurriedDouble | src/fp-utils.spec.js:52-53 | `curry(multiply)` waits for arguments, `curry(multiply)(2)` is the node holding 2, and calling it with any x gives 2 * x |
| Scenarios.ComposeExamples | src/fp-utils.spec.js:41-55 | `compose(addOne, addTwo, triple)(4) = 15`, `composeRight(addOne, addTwo, triple)(4) = 21`, `compose(double, double, double)(3) = 24` |

## Findings

| source | as written | input that shows it | evidently intended | confidence | as-written member | corrected member |
|---|---|---|---|---|---|---|
| src/fp-utils.js:38 | `fns.pop()` removes the last callable from the array that the returned closure captured, so each call shortens the chain for the next call | `c = composeVerbose(addOne, triple)`: `c(4)` gives 13, a second `c(4)` gives 5, a third throws | every call gives `addOne(triple(4)) = 13`, as `compose` does | not executed; high, since the mutation is explicit in the code | Scenarios.SecondCallSeesShorterChain | ComposeEngine.ComposeNests |

## Left out

- Arity introspection through `fn.length` (`src/fp-utils.js:19-20, 32`) is not modelled. `curry`'s arity is an explicit parameter, and so is `currySimple`'s `length`.
- `this`, `bind`, `call` and `apply` are not modelled as such. A receiver passed through `.call` is element 0 of the argument list (lines 13 and 16). The `null` receivers that `partial` binds (line 8) and that `fn.apply(null, args)` passes (lines 23, 28 and 34) are not represented: those calls hand over the positional arguments only.
- CurryEngine.Call: a one-parameter closure (lines 27 and 33) called with no argument binds `x` to `undefined`. The model requires at least one argument there, because a generic value type has no `undefined`. Extra arguments are dropped, as in the source.
- CurryEngine.Feed: every call in a sequence passes at least one argument, for the same reason. A variadic call with none is covered by CurryEngine.CallVariadic.
- ComposeEngine.Compose, ComposeEngine.ComposeReduce: an empty list of callables is excluded by a precondition. In the code, `composeReduce()` runs `reduce` on an empty list with no initial value, which throws a TypeError as soon as the chain is built (`src/fp-utils.js:45`). `compose()` calls `composeRight()`, whose `reduce` starts from `undefined` and returns it, so the error comes only when that `undefined` is called (`src/fp-utils.js:48-54`). Neither outcome is a callable, and the model represents neither.
- The in-place `reverse()`/`pop()` on rest-parameter arrays (`src/fp-utils.js:13, 16, 45, 54`) is modelled as building a new list. Those arrays are fresh for every call, so nothing can observe the mutation. The mutation in `composeVerbose` can be observed, and it is modelled as state.
- A value that the target returns is a plain value. Calling it again is `None` in `Feed`, because such a call is outside the engine. Callables returned as results are not modelled.
- The native `Array.prototype.map/filter/reduce/slice` are parameters. Their element-wise behaviour and the `.toString()` comparisons of the examples are not modelled.
- JavaScript arithmetic (`NaN` for missing arguments, floating point) is not modelled. The scenario functions read a missing argument as 0.
- The test helpers `test` in `src/fp-utils.spec.js` and `src/fp-utils.test.js` are not modelled. They only throw on a mismatch.
