/** The walker: one pre-order traversal that runs the rule set on every node and
    appends what it finds to a single result list, which is returned as it is.
 */
module Walker {
  import opened Syntax
  import opened Report
  import opened Ancestry
  import opened Rules

  /** Findings of the subtree rooted at `n`, whose strict ancestors have kinds
      `ancestors`: the node's own findings, then those of each child, left to right. */
  function Findings(n: Node, ancestors: seq<Kind>): seq<Finding>
    decreases n
  {
    NodeFindings(n, ancestors) + ChildrenFindings(n.children, ancestors + [n.kind])
  }

  /** Findings of the sibling subtrees `cs`, in order; `ancestors` ends with their parent's kind. */
  function ChildrenFindings(cs: seq<Node>, ancestors: seq<Kind>): seq<Finding>
    decreases cs
  {
    if cs == [] then [] else Findings(cs[0], ancestors) + ChildrenFindings(cs[1..], ancestors)
  }

  /** The analysis of a whole tree: the walk starts at the root, which has no parent. */
  function Analyze(root: Node): seq<Finding> {
    Findings(root, [])
  }

  /** Visiting one more sibling appends its subtree's findings. */
  lemma {:induction false} ChildrenFindingsSnoc(cs: seq<Node>, c: Node, ancestors: seq<Kind>)
    ensures ChildrenFindings(cs + [c], ancestors) == ChildrenFindings(cs, ancestors) + Findings(c, ancestors)
  {
    if cs == [] {
      assert cs + [c] == [c];
      assert [c][1..] == [];
    } else {
      assert (cs + [c])[1..] == cs[1..] + [c];
      ChildrenFindingsSnoc(cs[1..], c, ancestors);
    }
  }

  lemma AppendSix(b: seq<Finding>, e1: seq<Finding>, e2: seq<Finding>, e3: seq<Finding>,
                  e4: seq<Finding>, e5: seq<Finding>, e6: seq<Finding>)
    ensures b + e1 + e2 + e3 + e4 + e5 + e6 == b + (e1 + (e2 + (e3 + (e4 + (e5 + e6)))))
  {
  }

  /** The state of one analysis call: the result list the walk appends to. */
  class Collector {
    var results: seq<Finding>

    constructor ()
      ensures results == []
    {
      results := [];
    }

    /** 1. An explicit `any` type. */
    method CheckAnyType(node: Node, ancestors: seq<Kind>)
      modifies this
      ensures results == old(results) + Emit(AnyType, node, ancestors)
    {
      if node.kind == AnyKeyword {
        results := results + [Finding(AnyType, AnyUsage, node.startLine + 1)];
      }
    }

    /** 2. A function-like node with more than three parameters. */
    method CheckLongParamList(node: Node, ancestors: seq<Kind>)
      modifies this
      ensures results == old(results) + Emit(LongParamList, node, ancestors)
    {
      if IsFunctionLike(node.kind) {
        var count := ParameterCount(node);
        if count > 3 {
          results := results + [Finding(LongParamList, Params(count), node.startLine + 1)];
        }
      }
    }

    /** 3. A numeric literal other than 0, 1 and -1 whose parent is not a declaration. */
    method CheckMagicNumber(node: Node, ancestors: seq<Kind>)
      modifies this
      ensures results == old(results) + Emit(MagicNumber, node, ancestors)
    {
      if node.kind == NumericLiteral {
        var value := node.value;
        if value != 0.0 && value != 1.0 && value != -1.0 {
          var isDeclaration := |ancestors| > 0 && IsDeclarationContext(ancestors[|ancestors| - 1]);
          if !isDeclaration {
            results := results + [Finding(MagicNumber, Literal(value), node.startLine + 1)];
          }
        }
      }
    }

    /** 4. A class with more than 20 methods or spanning more than 300 lines. */
    method CheckGodClass(node: Node, ancestors: seq<Kind>)
      modifies this
      ensures results == old(results) + Emit(GodClass, node, ancestors)
    {
      if node.kind == ClassDeclaration {
        var methodCount := MethodCount(node);
        var startLine: int := node.startLine;
        var endLine: int := node.endLine;
        var lineCount := endLine - startLine;
        if methodCount > 20 || lineCount > 300 {
          results := results + [Finding(GodClass, ClassSize(methodCount, lineCount), node.startLine + 1)];
        }
      }
    }

    /** 5. A callback nested inside more than four functions. */
    method CheckCallbackHell(node: Node, ancestors: seq<Kind>)
      modifies this
      ensures results == old(results) + Emit(CallbackHell, node, ancestors)
    {
      if IsCallback(node.kind) {
        var depth := NestingDepth(ancestors);
        if depth > 4 {
          results := results + [Finding(CallbackHell, Depth(depth), node.startLine + 1)];
        }
      }
    }

    /** 6. A non-null assertion. */
    method CheckNonNullAssertion(node: Node, ancestors: seq<Kind>)
      modifies this
      ensures results == old(results) + Emit(NonNullAssertion, node, ancestors)
    {
      if node.kind == NonNullExpression {
        results := results + [Finding(NonNullAssertion, NonNullUsage, node.startLine + 1)];
      }
    }

    /** Runs the six rules on `node` in order, appending a finding for each that fires. */
    method CheckNode(node: Node, ancestors: seq<Kind>)
      modifies this
      ensures results == old(results) + NodeFindings(node, ancestors)
    {
      ghost var before := results;
      CheckAnyType(node, ancestors);
      CheckLongParamList(node, ancestors);
      CheckMagicNumber(node, ancestors);
      CheckGodClass(node, ancestors);
      CheckCallbackHell(node, ancestors);
      CheckNonNullAssertion(node, ancestors);
      AppendSix(before, Emit(AnyType, node, ancestors), Emit(LongParamList, node, ancestors),
        Emit(MagicNumber, node, ancestors), Emit(GodClass, node, ancestors),
        Emit(CallbackHell, node, ancestors), Emit(NonNullAssertion, node, ancestors));
      NodeFindingsUnfold(node, ancestors);
    }

    /** Checks `node`, then visits its children left to right. */
    method Visit(node: Node, ancestors: seq<Kind>)
      modifies this
      ensures results == old(results) + Findings(node, ancestors)
      decreases node
    {
      ghost var before := results;
      CheckNode(node, ancestors);

      var inner := ancestors + [node.kind];
      var i := 0;
      while i < |node.children|
        invariant 0 <= i <= |node.children|
        invariant results == before + NodeFindings(node, ancestors) + ChildrenFindings(node.children[..i], inner)
      {
        Visit(node.children[i], inner);
        ChildrenFindingsSnoc(node.children[..i], node.children[i], inner);
        assert node.children[..i + 1] == node.children[..i] + [node.children[i]];
        i := i + 1;
      }
      assert node.children[..i] == node.children;
    }
  }

  /** Analyzes a tree: one walk with a fresh result list, returned unchanged. */
  method AnalyzeCode(root: Node) returns (results: seq<Finding>)
    ensures results == Analyze(root)
  {
    var collector := new Collector();
    collector.Visit(root, []);
    results := collector.results;
  }
}
