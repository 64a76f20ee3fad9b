/** Shared vocabulary of the combinator library: callables, argument lists and
    the sequence operations the combinators are specified with. */
module Callables {

  /** A callable takes its whole positional argument list and returns one value.
      A method-style callable finds its receiver (`this`) at index 0. */
  type Fn<!V> = seq<V> -> V

  datatype Option<T> = None | Some(value: T)

  /** The list in the opposite order (what `Array.prototype.reverse` leaves behind). */
  function Reversed<T>(s: seq<T>): (r: seq<T>)
    ensures |r| == |s|
  {
    if s == [] then [] else Reversed(s[1..]) + [s[0]]
  }

  lemma {:induction false} ReversedAt<T>(s: seq<T>, k: nat)
    requires k < |s|
    ensures Reversed(s)[k] == s[|s| - 1 - k]
  {
    if k < |s| - 1 {
      ReversedAt(s[1..], k);
    }
  }

  lemma {:induction false} ReversedAppend<T>(a: seq<T>, b: seq<T>)
    ensures Reversed(a + b) == Reversed(b) + Reversed(a)
  {
    if a == [] {
      assert a + b == b;
    } else {
      assert (a + b)[1..] == a[1..] + b;
      ReversedAppend(a[1..], b);
    }
  }

  lemma {:induction false} ReversedInvolutive<T>(s: seq<T>)
    ensures Reversed(Reversed(s)) == s
  {
    if s != [] {
      ReversedAppend(Reversed(s[1..]), [s[0]]);
      assert Reversed([s[0]]) == [s[0]];
      ReversedInvolutive(s[1..]);
    }
  }

  /** Every call in a sequence of calls passes at least one argument. */
  predicate NonEmptyGroups<T>(groups: seq<seq<T>>) {
    forall i | 0 <= i < |groups| :: groups[i] != []
  }

  /** All arguments of a sequence of calls, in the order they were passed. */
  function Flatten<T>(groups: seq<seq<T>>): seq<T> {
    if groups == [] then [] else groups[0] + Flatten(groups[1..])
  }

  lemma {:induction false} FlattenSnoc<T>(groups: seq<seq<T>>, g: seq<T>)
    ensures Flatten(groups + [g]) == Flatten(groups) + g
  {
    if groups == [] {
      assert [g][1..] == [];
    } else {
      assert (groups + [g])[1..] == groups[1..] + [g];
      FlattenSnoc(groups[1..], g);
    }
  }

  /** The first argument of every call, in order. */
  function Heads<T>(groups: seq<seq<T>>): (r: seq<T>)
    requires NonEmptyGroups(groups)
    ensures |r| == |groups|
    ensures forall i | 0 <= i < |groups| :: r[i] == groups[i][0]
  {
    seq(|groups|, i requires 0 <= i < |groups| => groups[i][0])
  }
}
