/** The library's own usage examples (fp-utils.spec.js:28-55) as facts about
    the model, on integer arguments. */
module Scenarios {
  import opened Callables
  import opened CurryEngine
  import opened ComposeEngine
  import opened ComposeVerbose

  function Arg(xs: seq<int>, i: nat): int {
    if i < |xs| then xs[i] else 0
  }

  /** `sumThree`: the sum of its three parameters */
  function SumThree(xs: seq<int>): int {
    Arg(xs, 0) + Arg(xs, 1) + Arg(xs, 2)
  }

  /** `multiply`: the product of its two parameters */
  function Multiply(xs: seq<int>): int {
    Arg(xs, 0) * Arg(xs, 1)
  }

  function AddOne(xs: seq<int>): int { Arg(xs, 0) + 1 }
  function AddTwo(xs: seq<int>): int { Arg(xs, 0) + 2 }
  function Triple(xs: seq<int>): int { Arg(xs, 0) * 3 }

  /** `curriedSumThree = curry(sumThree)`, `numsPlusOne = curriedSumThree(1)`,
      `plusFive = numsPlusOne(4)`: completing `plusFive` with 9 and then with
      10, and `numsPlusOne` with 3 and 6, gives 14, 15 and 10, and the
      three-step call gives 14 as well. */
  lemma CurrySumThreeExamples()
    ensures Curry(SumThree, 3, []).Pending?
    ensures var numsPlusOne := Call(Curry(SumThree, 3, []).node, [1]);
      numsPlusOne.Pending? &&
      var plusFive := Call(numsPlusOne.node, [4]);
      plusFive.Pending? &&
      Call(plusFive.node, [9]) == Done(14) &&
      Call(plusFive.node, [10]) == Done(15) &&
      Feed(numsPlusOne, [[3], [6]]) == Some(Done(10))
    ensures Feed(Curry(SumThree, 3, []), [[1], [4], [9]]) == Some(Done(14))
  {
  }

  /** `double = curry(multiply)(2)`: the engine returns a node holding 2,
      and that node computes 2 * x for every x. */
  lemma CurriedDouble(x: int)
    ensures Curry(Multiply, 2, []).Pending?
    ensures Call(Curry(Multiply, 2, []).node, [2]) == Pending(Node(Variadic, Multiply, 2, [2]))
    ensures Call(Call(Curry(Multiply, 2, []).node, [2]).node, [x]) == Done(2 * x)
  {
  }

  /** `double` as a callable: the node `curry(multiply)(2)` called with `xs`. */
  function Double(xs: seq<int>): int {
    match Call(Curry(Multiply, 2, []).node, [2])
    case Pending(n) =>
      (match Call(n, xs)
       case Done(v) => v
       case Pending(_) => 0)
    case Done(v) => v
  }

  /** `compose(addOne, addTwo, triple)(4) == 15`,
      `composeRight(addOne, addTwo, triple)(4) == 21` and
      `compose(double, double, double)(3) == 24`. */
  lemma ComposeExamples()
    ensures Compose([AddOne, AddTwo, Triple])([4]) == 15
    ensures ComposeRight(AddOne, [AddTwo, Triple])([4]) == 21
    ensures Compose([Double, Double, Double])([3]) == 24
  {
    ComposeNests([AddOne, AddTwo, Triple], [4]);
    assert [AddOne, AddTwo, Triple][1..] == [AddTwo, Triple];
    assert [AddTwo, Triple][1..] == [Triple];
    assert Nest([Triple], [4]) == 12;
    assert Nest([AddTwo, Triple], [4]) == 14;
    assert Nest([AddOne, AddTwo, Triple], [4]) == 15;
    ComposeRightThree(AddOne, AddTwo, Triple, [4]);
    ComposeNests([Double, Double, Double], [3]);
    assert [Double, Double, Double][1..] == [Double, Double];
    assert [Double, Double][1..] == [Double];
    CurriedDouble(3);
    CurriedDouble(6);
    CurriedDouble(12);
    assert Nest([Double], [3]) == 6;
    assert Nest([Double, Double], [3]) == 12;
    assert Nest([Double, Double, Double], [3]) == 24;
  }

  /** The second call of one `composeVerbose(addOne, triple)` sees a chain
      without `triple`, and a third call finds nothing to pop; `compose`
      gives the first result on every call. */
  method SecondCallSeesShorterChain() returns (first: Option<int>, second: Option<int>, third: Option<int>)
    ensures first == Some(13) && second == Some(5) && third == None
    ensures Compose([AddOne, Triple])([4]) == 13
  {
    var c := new Chain([AddOne, Triple]);
    first := c.Call([4]);
    assert [AddOne, Triple][1..] == [Triple];
    second := c.Call([4]);
    third := c.Call([4]);
    ComposeNests([AddOne, Triple], [4]);
  }
}
