/** The function-nesting depth of a node: the callback-nesting rule's walk up the
    parent chain.

    The walker passes each node the kinds of its strict ancestors, ROOT FIRST and
    PARENT LAST, in place of the parser's parent pointers; climbing to the parent
    is stepping one position towards the front of that sequence.
 */
module Ancestry {
  import opened Syntax

  /** Number of function-like kinds among `ancestors`. */
  function FunctionAncestorCount(ancestors: seq<Kind>): (d: nat)
    ensures d <= |ancestors|
  {
    if ancestors == [] then 0
    else (if IsFunctionLike(ancestors[0]) then 1 else 0) + FunctionAncestorCount(ancestors[1..])
  }

  /** Stepping down into a child adds the current node's kind to the chain. */
  lemma {:induction false} FunctionAncestorCountSnoc(ancestors: seq<Kind>, k: Kind)
    ensures FunctionAncestorCount(ancestors + [k])
         == FunctionAncestorCount(ancestors) + (if IsFunctionLike(k) then 1 else 0)
  {
    if ancestors == [] {
      assert ancestors + [k] == [k];
      assert [k][1..] == [];
    } else {
      assert (ancestors + [k])[1..] == ancestors[1..] + [k];
      FunctionAncestorCountSnoc(ancestors[1..], k);
    }
  }

  /** Counts the function-like ancestors from the parent upward, one step at a
      time, until the chain runs out above the root. */
  method NestingDepth(ancestors: seq<Kind>) returns (depth: nat)
    ensures depth == FunctionAncestorCount(ancestors)
  {
    depth := 0;
    var i := |ancestors|;  // the current ancestor is ancestors[i - 1]; none once i == 0
    while i > 0
      invariant 0 <= i <= |ancestors|
      invariant depth == FunctionAncestorCount(ancestors[i..])
    {
      var current := ancestors[i - 1];
      if IsFunctionLike(current) {
        depth := depth + 1;
      }
      assert ancestors[i - 1..][1..] == ancestors[i..];
      i := i - 1;
    }
    assert ancestors[0..] == ancestors;
  }
}
