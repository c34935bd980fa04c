/** The rule thresholds at their boundaries, for any arrangement of a node's children, and
    the two `any` annotations of a sample function.
 */
module Scenarios {
  import opened Syntax
  import opened Report
  import opened Rules
  import opened Walker
  import opened Properties

  /** A function-like node, whatever children come before, between and after its
      parameters (name, modifiers, type parameters, return type, body), is reported
      for a long parameter list exactly when it has four parameters or more: three
      still pass. */
  lemma LongParamListBoundary(n: Node, ancestors: seq<Kind>)
    requires IsFunctionLike(n.kind)
    ensures CountId(NodeFindings(n, ancestors), LongParamList)
         == if |PositionsOfKind(n.children, Parameter)| >= 4 then 1 else 0
  {
    OfKindCountsPositions(n.children, Parameter);
    NodeFindingsCount(n, ancestors, LongParamList);
  }

  /** A class, whatever members and other children surround its methods, is reported
      exactly when it has 21 methods or more, or ends 301 lines or more below its
      first line. */
  lemma GodClassBoundary(n: Node, ancestors: seq<Kind>)
    requires n.kind == ClassDeclaration
    ensures CountId(NodeFindings(n, ancestors), GodClass)
         == if |PositionsOfKind(n.children, MethodDeclaration)| >= 21 || n.endLine >= n.startLine + 301 then 1 else 0
  {
    OfKindCountsPositions(n.children, MethodDeclaration);
    NodeFindingsCount(n, ancestors, GodClass);
  }

  /** A literal in an arithmetic expression is a magic number even inside the
      initializer of a declared constant (`const tax = basePrice * 1.15`), while the
      same literal directly named by a declaration (`const TAX_RATE = 1.15`) is not;
      0, 1 and -1 are never reported. Here `operation` is the kind of the
      expression the literal is an operand of. */
  lemma MagicNumberContexts(value: real, line: nat, outer: seq<Kind>, operation: Kind)
    requires !IsDeclarationContext(operation)
    ensures var literal := Node(NumericLiteral, line, line, value, []);
      && CountId(NodeFindings(literal, outer + [VariableDeclaration, operation]), MagicNumber)
         == (if value == 0.0 || value == 1.0 || value == -1.0 then 0 else 1)
      && CountId(NodeFindings(literal, outer + [VariableDeclaration]), MagicNumber) == 0
  {
    var literal := Node(NumericLiteral, line, line, value, []);
    var inExpression := outer + [VariableDeclaration, operation];
    var named := outer + [VariableDeclaration];
    assert inExpression[|inExpression| - 1] == operation;
    assert named[|named| - 1] == VariableDeclaration;
    NodeFindingsCount(literal, inExpression, MagicNumber);
    NodeFindingsCount(literal, named, MagicNumber);
  }

  /** A node without children counts only itself. */
  lemma LeafKindCount(n: Node, k: Kind)
    requires n.children == []
    ensures KindCount(n, k) == if n.kind == k then 1 else 0
  {
  }

  /** Counting over siblings: the first one's subtree, then the others. */
  lemma ChildrenKindCountCons(c: Node, cs: seq<Node>, k: Kind)
    ensures ChildrenKindCount([c] + cs, k) == KindCount(c, k) + ChildrenKindCount(cs, k)
  {
    assert ([c] + cs)[0] == c && ([c] + cs)[1..] == cs;
  }

  /** `function process(data: any): any { return data; }`: an `any` in the
      parameter's type and another as the return type give two any-type findings,
      whatever the name and the body hold otherwise. */
  lemma AnyParameterAndReturn(process: Node, name: Node, parameter: Node, any: Node, body: Node)
    requires process.kind == FunctionDeclaration && process.children == [name, parameter, any, body]
    requires parameter.kind == Parameter && parameter.children == [name, any]
    requires any.kind == AnyKeyword && any.children == []
    requires name.kind == Other && name.children == []
    requires KindCount(body, AnyKeyword) == 0
    ensures CountId(Analyze(process), AnyType) == 2
  {
    OnePerOccurrence(process);
    LeafKindCount(name, AnyKeyword);
    LeafKindCount(any, AnyKeyword);
    ChildrenKindCountCons(any, [], AnyKeyword);
    ChildrenKindCountCons(name, [any], AnyKeyword);
    assert [name] + [any] == parameter.children;
    ChildrenKindCountCons(body, [], AnyKeyword);
    ChildrenKindCountCons(any, [body], AnyKeyword);
    ChildrenKindCountCons(parameter, [any, body], AnyKeyword);
    ChildrenKindCountCons(name, [parameter, any, body], AnyKeyword);
    assert [name] + [parameter, any, body] == process.children;
  }
}
