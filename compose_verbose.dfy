/** `composeVerbose` (fp-utils.js:37-42), the unexported first version of
    `compose`. The callable it returns closes over its rest-parameter array
    `fns` and pops from that very array on every call, so the array is state
    that each call changes. */
module ComposeVerbose {
  import opened Callables
  import opened ComposeEngine

  /** The callable `composeVerbose(...fns)` together with the array it captured. */
  class Chain<V> {
    var fns: seq<Fn<V>>

    constructor (fns: seq<Fn<V>>)
      ensures this.fns == fns
    {
      this.fns := fns;
    }

    /** One call with argument list `args`. `fns.pop()` removes the last
        callable from the captured array and applies it to `args`; the
        remaining ones are applied right to left by the recursive call, which
        spreads them into a fresh array and so leaves the captured one alone.
        With nothing left to pop, the source calls `undefined` and throws:
        None. */
    method Call(args: seq<V>) returns (r: Option<V>)
      modifies this
      ensures old(fns) == [] ==> r == None && fns == []
      ensures old(fns) != [] ==>
        r == Some(Nest(old(fns), args)) && fns == old(fns)[..|old(fns)| - 1]
    {
      if fns == [] {
        return None;
      }
      ghost var all := fns;
      var last := fns[|fns| - 1];
      fns := fns[..|fns| - 1];
      var result := last(args);
      var i := |fns|;
      assert all[i..] == [last];
      while i > 0
        invariant 0 <= i <= |fns| && fns == all[..|all| - 1]
        invariant result == Nest(all[i..], args)
      {
        i := i - 1;
        assert all[i..][1..] == all[i + 1..];
        result := fns[i]([result]);
      }
      assert all[0..] == all;
      r := Some(result);
    }
  }
}
