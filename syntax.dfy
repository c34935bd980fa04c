/** The syntax tree the analyzer walks, and the node classifier its rules share.

    The tree comes from the TypeScript parser, which is not modelled: a value of
    `Node` stands for one parsed node together with the line numbers the parser's
    position mapping gives for its start and end. Only the node kinds some rule
    tests are told apart; every other kind is `Other`.
 */
module Syntax {

  /** The syntax kinds the analyzer distinguishes. `Parameter` is the kind of the
      nodes in a function's parameter list; `Other` is every kind no rule tests
      (source files, identifiers, call expressions, blocks, ...). */
  datatype Kind =
    | AnyKeyword
    | FunctionDeclaration
    | MethodDeclaration
    | ArrowFunction
    | FunctionExpression
    | NumericLiteral
    | ClassDeclaration
    | NonNullExpression
    | VariableDeclaration
    | EnumMember
    | PropertyAssignment
    | PropertyDeclaration
    | Parameter
    | Other

  /** One node of the tree.
      - `startLine`, `endLine`: the 0-based lines of the node's start and end positions;
      - `value`: for a numeric literal, the number its text denotes (unused otherwise);
      - `children`: the nodes the parser's child enumeration yields, in source order. */
  datatype Node = Node(kind: Kind, startLine: nat, endLine: nat, value: real, children: seq<Node>)

  /** Named function, class method, arrow function or function expression. */
  predicate IsFunctionLike(k: Kind) {
    k == FunctionDeclaration || k == MethodDeclaration || k == ArrowFunction || k == FunctionExpression
  }

  /** The kinds the callback-nesting rule fires on: the function-like kinds except methods. */
  predicate IsCallback(k: Kind) {
    k == ArrowFunction || k == FunctionExpression || k == FunctionDeclaration
  }

  /** A parent kind that makes a numeric literal a named constant rather than a magic number. */
  predicate IsDeclarationContext(k: Kind) {
    k == VariableDeclaration || k == EnumMember || k == PropertyAssignment || k == PropertyDeclaration
  }

  /** The literal values the magic-number rule never reports. */
  predicate IsExemptValue(v: real) {
    v == 0.0 || v == 1.0 || v == -1.0
  }

  /** The nodes of `cs` that have kind `k`, in their original order (the source's
      `filter` by kind). */
  function OfKind(cs: seq<Node>, k: Kind): (r: seq<Node>)
    ensures |r| <= |cs|
  {
    if cs == [] then []
    else (if cs[0].kind == k then [cs[0]] else []) + OfKind(cs[1..], k)
  }

  /** `OfKind` keeps exactly the nodes of kind `k`, and keeps everything when every node has that kind. */
  lemma {:induction false} OfKindSelects(cs: seq<Node>, k: Kind)
    ensures forall c :: c in OfKind(cs, k) <==> c in cs && c.kind == k
    ensures (forall c :: c in cs ==> c.kind == k) ==> OfKind(cs, k) == cs
  {
    if cs != [] {
      OfKindSelects(cs[1..], k);
      assert cs == [cs[0]] + cs[1..];
    }
  }

  /** The filter on a list with a first element. */
  lemma OfKindCons(c: Node, cs: seq<Node>, k: Kind)
    ensures OfKind([c] + cs, k) == (if c.kind == k then [c] else []) + OfKind(cs, k)
  {
    assert ([c] + cs)[0] == c && ([c] + cs)[1..] == cs;
  }

  /** Filtering a concatenation filters each part. */
  lemma {:induction false} OfKindAppend(a: seq<Node>, b: seq<Node>, k: Kind)
    ensures OfKind(a + b, k) == OfKind(a, k) + OfKind(b, k)
  {
    if a == [] {
      assert a + b == b;
    } else {
      var head := if a[0].kind == k then [a[0]] else [];
      assert a == [a[0]] + a[1..];
      assert a + b == [a[0]] + (a[1..] + b);
      OfKindCons(a[0], a[1..], k);
      OfKindCons(a[0], a[1..] + b, k);
      OfKindAppend(a[1..], b, k);
      assert head + (OfKind(a[1..], k) + OfKind(b, k)) == head + OfKind(a[1..], k) + OfKind(b, k);
    }
  }

  /** The positions in `cs` that hold a node of kind `k`, however the nodes of
      other kinds are interleaved with them. */
  function PositionsOfKind(cs: seq<Node>, k: Kind): set<int> {
    set i | 0 <= i < |cs| && cs[i].kind == k
  }

  /** One more node adds its own position when it has kind `k`. */
  lemma PositionsOfKindSnoc(front: seq<Node>, last: Node, k: Kind)
    ensures PositionsOfKind(front + [last], k)
         == PositionsOfKind(front, k) + (if last.kind == k then {|front|} else {})
  {
    var cs := front + [last];
    forall i | i in PositionsOfKind(cs, k)
      ensures i in PositionsOfKind(front, k) + (if last.kind == k then {|front|} else {})
    {
      if i < |front| {
        assert front[i] == cs[i];
      }
    }
    forall i | i in PositionsOfKind(front, k) ensures i in PositionsOfKind(cs, k) {
      assert cs[i] == front[i];
    }
  }

  /** The filter keeps one node per position of kind `k`. */
  lemma {:induction false} OfKindCountsPositions(cs: seq<Node>, k: Kind)
    ensures |OfKind(cs, k)| == |PositionsOfKind(cs, k)|
    decreases |cs|
  {
    if cs != [] {
      var front := cs[..|cs| - 1];
      var last := cs[|cs| - 1];
      assert cs == front + [last];
      OfKindCountsPositions(front, k);
      OfKindAppend(front, [last], k);
      assert [last][1..] == [];
      PositionsOfKindSnoc(front, last, k);
      assert |front| !in PositionsOfKind(front, k);
    }
  }

  /** Length of a function-like node's parameter list: its direct children of kind
      `Parameter` are exactly its parameters. */
  function ParameterCount(n: Node): nat {
    |OfKind(n.children, Parameter)|
  }

  /** Number of a class's members that are method declarations: among the direct
      children of a class declaration only its members can be methods. */
  function MethodCount(n: Node): nat {
    |OfKind(n.children, MethodDeclaration)|
  }

  /** End line minus start line, as the god-class rule measures a class. */
  function LineSpan(n: Node): int {
    n.endLine - n.startLine
  }
}
