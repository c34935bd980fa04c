/** What the analysis promises about a whole tree.

    The reference point is the plain pre-order traversal `Preorder`: the list of
    every node visited, each with its ancestor chain. The analysis is the rule set
    applied to each visit in that order, and the counting, line and severity
    properties follow from it.
 */
module Properties {
  import opened Syntax
  import opened Report
  import opened Ancestry
  import opened Rules
  import opened Walker

  /** One visit of the walk: a node and the kinds of its strict ancestors, root first. */
  datatype Visited = Visited(node: Node, ancestors: seq<Kind>)

  /** Every node of the subtree `n`, node before descendants, earlier children first. */
  function Preorder(n: Node, ancestors: seq<Kind>): seq<Visited>
    decreases n
  {
    [Visited(n, ancestors)] + PreorderChildren(n.children, ancestors + [n.kind])
  }

  function PreorderChildren(cs: seq<Node>, ancestors: seq<Kind>): seq<Visited>
    decreases cs
  {
    if cs == [] then [] else Preorder(cs[0], ancestors) + PreorderChildren(cs[1..], ancestors)
  }

  /** The rule set run on each visit in turn, the findings laid end to end. */
  function RulesOver(vs: seq<Visited>): seq<Finding> {
    if vs == [] then [] else NodeFindings(vs[0].node, vs[0].ancestors) + RulesOver(vs[1..])
  }

  /** Number of visits on which rule `id` fires. */
  function FiringCount(vs: seq<Visited>, id: RuleId): nat {
    if vs == [] then 0
    else (if Fires(id, vs[0].node, vs[0].ancestors) then 1 else 0) + FiringCount(vs[1..], id)
  }

  /** Number of nodes of kind `k` in the subtree `n`. */
  function KindCount(n: Node, k: Kind): nat
    decreases n
  {
    (if n.kind == k then 1 else 0) + ChildrenKindCount(n.children, k)
  }

  function ChildrenKindCount(cs: seq<Node>, k: Kind): nat
    decreases cs
  {
    if cs == [] then 0 else KindCount(cs[0], k) + ChildrenKindCount(cs[1..], k)
  }

  /** The 0-based start lines of the nodes of the subtree `n`. */
  function StartLines(n: Node): set<nat>
    decreases n
  {
    {n.startLine} + ChildrenStartLines(n.children)
  }

  function ChildrenStartLines(cs: seq<Node>): set<nat>
    decreases cs
  {
    if cs == [] then {} else StartLines(cs[0]) + ChildrenStartLines(cs[1..])
  }

  // ---------------------------------------------------------------------------
  // The walk is the rule set applied along the pre-order traversal

  lemma {:induction false} RulesOverAppend(a: seq<Visited>, b: seq<Visited>)
    ensures RulesOver(a + b) == RulesOver(a) + RulesOver(b)
  {
    if a == [] {
      assert a + b == b;
    } else {
      assert (a + b)[1..] == a[1..] + b;
      RulesOverAppend(a[1..], b);
    }
  }

  /** The walker's output is exactly the rule set applied to the visits in pre-order:
      nothing is dropped, added or reordered. */
  lemma {:induction false} FindingsArePreorder(n: Node, ancestors: seq<Kind>)
    ensures Findings(n, ancestors) == RulesOver(Preorder(n, ancestors))
    decreases n
  {
    ChildrenFindingsArePreorder(n.children, ancestors + [n.kind]);
    var own := [Visited(n, ancestors)];
    RulesOverAppend(own, PreorderChildren(n.children, ancestors + [n.kind]));
    assert own[1..] == [];
  }

  lemma {:induction false} ChildrenFindingsArePreorder(cs: seq<Node>, ancestors: seq<Kind>)
    ensures ChildrenFindings(cs, ancestors) == RulesOver(PreorderChildren(cs, ancestors))
    decreases cs
  {
    if cs != [] {
      FindingsArePreorder(cs[0], ancestors);
      ChildrenFindingsArePreorder(cs[1..], ancestors);
      RulesOverAppend(Preorder(cs[0], ancestors), PreorderChildren(cs[1..], ancestors));
    }
  }

  /** A node is visited before all of its descendants, and every later visit is
      below it: its ancestor chain extends the node's own chain and kind. */
  lemma {:induction false} PreorderOuterFirst(n: Node, ancestors: seq<Kind>)
    ensures Preorder(n, ancestors)[0] == Visited(n, ancestors)
    ensures forall v :: v in Preorder(n, ancestors)[1..] ==> ancestors + [n.kind] <= v.ancestors
    decreases n
  {
    PreorderChildrenBelow(n.children, ancestors + [n.kind]);
    assert Preorder(n, ancestors)[1..] == PreorderChildren(n.children, ancestors + [n.kind]);
  }

  lemma {:induction false} PreorderChildrenBelow(cs: seq<Node>, ancestors: seq<Kind>)
    ensures forall v :: v in PreorderChildren(cs, ancestors) ==> ancestors <= v.ancestors
    decreases cs
  {
    if cs != [] {
      PreorderOuterFirst(cs[0], ancestors);
      PreorderChildrenBelow(cs[1..], ancestors);
      var head := Preorder(cs[0], ancestors);
      assert head == [head[0]] + head[1..];
      forall v | v in head[1..] ensures ancestors <= v.ancestors {
        var e := ancestors + [cs[0].kind];
        assert e <= v.ancestors;
        assert v.ancestors[..|ancestors|] == e[..|ancestors|] == ancestors;
      }
    }
  }

  // ---------------------------------------------------------------------------
  // How many findings each rule produces

  lemma {:induction false} CountIdRulesOver(vs: seq<Visited>, id: RuleId)
    ensures CountId(RulesOver(vs), id) == FiringCount(vs, id)
  {
    if vs != [] {
      NodeFindingsCount(vs[0].node, vs[0].ancestors, id);
      CountIdAppend(NodeFindings(vs[0].node, vs[0].ancestors), RulesOver(vs[1..]), id);
      CountIdRulesOver(vs[1..], id);
    }
  }

  /** Each rule reports once for every visited node it fires on, and never otherwise. */
  lemma AnalyzeCountsFirings(root: Node, id: RuleId)
    ensures CountId(Analyze(root), id) == FiringCount(Preorder(root, []), id)
  {
    FindingsArePreorder(root, []);
    CountIdRulesOver(Preorder(root, []), id);
  }

  /** The findings of rule `id` in `fs`, in their order. */
  function ById(fs: seq<Finding>, id: RuleId): seq<Finding> {
    if fs == [] then [] else (if fs[0].id == id then [fs[0]] else []) + ById(fs[1..], id)
  }

  /** What rule `id` reports on each visit in turn. */
  function Reports(vs: seq<Visited>, id: RuleId): seq<Finding> {
    if vs == [] then [] else Emit(id, vs[0].node, vs[0].ancestors) + Reports(vs[1..], id)
  }

  lemma {:induction false} ByIdAppend(a: seq<Finding>, b: seq<Finding>, id: RuleId)
    ensures ById(a + b, id) == ById(a, id) + ById(b, id)
  {
    if a == [] {
      assert a + b == b;
    } else {
      var head := if a[0].id == id then [a[0]] else [];
      assert (a + b)[0] == a[0];
      assert (a + b)[1..] == a[1..] + b;
      assert ById(a + b, id) == head + ById(a[1..] + b, id);
      ByIdAppend(a[1..], b, id);
      assert ById(a, id) == head + ById(a[1..], id);
    }
  }

  lemma {:induction false} ByIdEmitAll(ids: seq<RuleId>, n: Node, ancestors: seq<Kind>, id: RuleId)
    requires InRuleOrder(ids)
    ensures ById(EmitAll(ids, n, ancestors), id) == if id in ids then Emit(id, n, ancestors) else []
  {
    if ids != [] {
      var head := Emit(ids[0], n, ancestors);
      ByIdAppend(head, EmitAll(ids[1..], n, ancestors), id);
      ByIdEmitAll(ids[1..], n, ancestors, id);
      EmitShape(ids[0], n, ancestors);
      if head != [] {
        assert head == [head[0]] && head[0] in head;
        assert head[1..] == [];
      }
      if id == ids[0] {
        assert id !in ids[1..];
      }
    }
  }

  lemma {:induction false} ByIdRulesOver(vs: seq<Visited>, id: RuleId)
    ensures ById(RulesOver(vs), id) == Reports(vs, id)
  {
    if vs != [] {
      RuleOrderComplete();
      ByIdEmitAll(RuleOrder, vs[0].node, vs[0].ancestors, id);
      ByIdAppend(NodeFindings(vs[0].node, vs[0].ancestors), RulesOver(vs[1..]), id);
      ByIdRulesOver(vs[1..], id);
    }
  }

  /** The findings of each rule are, in order, one per visit the rule fires on, each
      with that node's observation and line: the walk's output is determined,
      finding by finding, by the rule table and the traversal order. */
  lemma AnalyzeReportsEachFiring(root: Node, id: RuleId)
    ensures ById(Analyze(root), id) == Reports(Preorder(root, []), id)
  {
    FindingsArePreorder(root, []);
    ByIdRulesOver(Preorder(root, []), id);
  }

  /** The rules whose condition is the node's kind alone. */
  predicate KindRule(id: RuleId, k: Kind) {
    (id == AnyType && k == AnyKeyword) || (id == NonNullAssertion && k == NonNullExpression)
  }

  lemma {:induction false} KindRuleCount(n: Node, ancestors: seq<Kind>, id: RuleId, k: Kind)
    requires KindRule(id, k)
    ensures CountId(Findings(n, ancestors), id) == KindCount(n, k)
    decreases n
  {
    NodeFindingsCount(n, ancestors, id);
    CountIdAppend(NodeFindings(n, ancestors), ChildrenFindings(n.children, ancestors + [n.kind]), id);
    ChildrenKindRuleCount(n.children, ancestors + [n.kind], id, k);
  }

  lemma {:induction false} ChildrenKindRuleCount(cs: seq<Node>, ancestors: seq<Kind>, id: RuleId, k: Kind)
    requires KindRule(id, k)
    ensures CountId(ChildrenFindings(cs, ancestors), id) == ChildrenKindCount(cs, k)
    decreases cs
  {
    if cs != [] {
      KindRuleCount(cs[0], ancestors, id, k);
      ChildrenKindRuleCount(cs[1..], ancestors, id, k);
      CountIdAppend(Findings(cs[0], ancestors), ChildrenFindings(cs[1..], ancestors), id);
    }
  }

  /** One any-type finding per `any` keyword and one non-null-assertion finding per
      `!` assertion anywhere in the tree, wherever they occur. */
  lemma OnePerOccurrence(root: Node)
    ensures CountId(Analyze(root), AnyType) == KindCount(root, AnyKeyword)
    ensures CountId(Analyze(root), NonNullAssertion) == KindCount(root, NonNullExpression)
  {
    KindRuleCount(root, [], AnyType, AnyKeyword);
    KindRuleCount(root, [], NonNullAssertion, NonNullExpression);
  }

  // ---------------------------------------------------------------------------
  // Lines, names, messages and severities

  lemma {:induction false} FindingsNormalized(n: Node, ancestors: seq<Kind>)
    ensures forall f :: f in Findings(n, ancestors) ==>
      Justified(f) && f.line >= 1 && f.line - 1 in StartLines(n)
    decreases n
  {
    NodeFindingsShape(n, ancestors);
    ChildrenFindingsNormalized(n.children, ancestors + [n.kind]);
  }

  lemma {:induction false} ChildrenFindingsNormalized(cs: seq<Node>, ancestors: seq<Kind>)
    ensures forall f :: f in ChildrenFindings(cs, ancestors) ==>
      Justified(f) && f.line >= 1 && f.line - 1 in ChildrenStartLines(cs)
    decreases cs
  {
    if cs != [] {
      FindingsNormalized(cs[0], ancestors);
      ChildrenFindingsNormalized(cs[1..], ancestors);
    }
  }

  /** Every finding is on the 1-based line of some node's start, and its
      description shows the count, value or depth that crossed its rule's threshold. */
  lemma AnalyzeNormalized(root: Node)
    ensures forall f :: f in Analyze(root) ==>
      && f.line >= 1
      && f.line - 1 in StartLines(root)
      && Justified(f)
  {
    FindingsNormalized(root, []);
  }

  /** When every node starts within the first `total` lines of the source, every
      reported line is between 1 and `total`. */
  lemma LinesWithinSource(root: Node, total: nat)
    requires forall l :: l in StartLines(root) ==> l < total
    ensures forall f :: f in Analyze(root) ==> 1 <= f.line <= total
  {
    AnalyzeNormalized(root);
  }

  /** No finding at all exactly when no rule fires on any visited node. */
  lemma {:induction false} RulesOverEmpty(vs: seq<Visited>)
    ensures RulesOver(vs) == [] <==> forall i, id :: 0 <= i < |vs| ==> !Fires(id, vs[i].node, vs[i].ancestors)
  {
    if vs != [] {
      RulesOverEmpty(vs[1..]);
      var own := NodeFindings(vs[0].node, vs[0].ancestors);
      if own == [] {
        forall id ensures !Fires(id, vs[0].node, vs[0].ancestors) {
          NodeFindingsCount(vs[0].node, vs[0].ancestors, id);
        }
      } else {
        var id := own[0].id;
        NodeFindingsCount(vs[0].node, vs[0].ancestors, id);
      }
      forall i, id | 0 < i < |vs| && !Fires(id, vs[i].node, vs[i].ancestors)
        ensures !Fires(id, vs[1..][i - 1].node, vs[1..][i - 1].ancestors)
      {
      }
    }
  }

  lemma AnalyzeEmpty(root: Node)
    ensures Analyze(root) == [] <==>
      forall i, id :: 0 <= i < |Preorder(root, [])| ==>
        !Fires(id, Preorder(root, [])[i].node, Preorder(root, [])[i].ancestors)
  {
    FindingsArePreorder(root, []);
    RulesOverEmpty(Preorder(root, []));
  }

  // ---------------------------------------------------------------------------
  // Callback nesting

  /** `k + 1` arrow functions, each passed as the argument of a call inside the
      previous one, starting on line `line`. */
  function ArrowChain(k: nat, line: nat): Node
    decreases k
  {
    var inner := if k == 0 then [] else [Node(Other, line, line, 0.0, [ArrowChain(k - 1, line + 1)])];
    Node(ArrowFunction, line, line + 2 * k, 0.0, inner)
  }

  /** The count of one rule in a subtree: the node's own, then its children's. */
  lemma FindingsCountSplit(n: Node, ancestors: seq<Kind>, id: RuleId)
    ensures CountId(Findings(n, ancestors), id)
         == (if Fires(id, n, ancestors) then 1 else 0) + CountId(ChildrenFindings(n.children, ancestors + [n.kind]), id)
  {
    NodeFindingsCount(n, ancestors, id);
    CountIdAppend(NodeFindings(n, ancestors), ChildrenFindings(n.children, ancestors + [n.kind]), id);
  }

  lemma SingleChild(c: Node, ancestors: seq<Kind>)
    ensures ChildrenFindings([c], ancestors) == Findings(c, ancestors)
  {
    assert [c][1..] == [];
  }

  /** A node no rule fires on passes on the count of its only child, one level deeper. */
  lemma SilentParent(p: Node, ancestors: seq<Kind>, id: RuleId)
    requires |p.children| == 1 && !Fires(id, p, ancestors)
    ensures CountId(Findings(p, ancestors), id) == CountId(Findings(p.children[0], ancestors + [p.kind]), id)
  {
    FindingsCountSplit(p, ancestors, id);
    assert p.children == [p.children[0]];
    SingleChild(p.children[0], ancestors + [p.kind]);
  }

  /** How many of the depths `d`, `d + 1`, ..., `d + k` exceed 4. */
  function Excess(d: nat, k: nat): nat {
    if d + k <= 4 then 0 else if d > 4 then k + 1 else d + k - 4
  }

  /** One more arrow at depth `d` adds one finding exactly when `d` exceeds 4. */
  lemma ExcessStep(d: nat, k: nat)
    requires k > 0
    ensures Excess(d, k) == (if d > 4 then 1 else 0) + Excess(d + 1, k - 1)
  {
  }

  /** Callback-hell findings in the arrow chain `ArrowChain(k, line)` below `ancestors`. */
  function ChainCount(k: nat, line: nat, ancestors: seq<Kind>): nat {
    CountId(Findings(ArrowChain(k, line), ancestors), CallbackHell)
  }

  /** The outermost arrow of a chain is reported exactly when it is nested more
      than four deep; below it, the rest of the chain sits inside the arrow and the
      call between them, which no rule reports on. */
  lemma ArrowChainSplit(k: nat, line: nat, ancestors: seq<Kind>)
    requires k > 0
    ensures ChainCount(k, line, ancestors)
         == (if FunctionAncestorCount(ancestors) > 4 then 1 else 0) + ChainCount(k - 1, line + 1, ancestors + [ArrowFunction, Other])
  {
    var n := ArrowChain(k, line);
    var inner := ancestors + [ArrowFunction];
    var call := n.children[0];
    assert n.kind == ArrowFunction && n.children == [call];
    FindingsCountSplit(n, ancestors, CallbackHell);
    SingleChild(call, inner);
    SilentParent(call, inner, CallbackHell);
    assert inner + [call.kind] == ancestors + [ArrowFunction, Other];
  }

  /** The chain's innermost arrow: nothing below it. */
  lemma ArrowChainEnd(line: nat, ancestors: seq<Kind>)
    ensures ChainCount(0, line, ancestors) == if FunctionAncestorCount(ancestors) > 4 then 1 else 0
  {
    var n := ArrowChain(0, line);
    assert n.kind == ArrowFunction && n.children == [];
    FindingsCountSplit(n, ancestors, CallbackHell);
  }

  /** Two more kinds on the chain, one of them function-like, deepen it by one. */
  lemma DeeperByOne(ancestors: seq<Kind>)
    ensures FunctionAncestorCount(ancestors + [ArrowFunction, Other]) == FunctionAncestorCount(ancestors) + 1
  {
    FunctionAncestorCountSnoc(ancestors, ArrowFunction);
    FunctionAncestorCountSnoc(ancestors + [ArrowFunction], Other);
    assert ancestors + [ArrowFunction] + [Other] == ancestors + [ArrowFunction, Other];
  }

  /** In a chain of `k + 1` nested arrow functions below `d` enclosing functions,
      the arrow at position `j` is nested `d + j` deep, so every arrow from the one
      at depth 5 inward gets its own callback-hell finding. */
  lemma {:induction false} ArrowChainCallbackHell(k: nat, line: nat, ancestors: seq<Kind>)
    ensures ChainCount(k, line, ancestors) == Excess(FunctionAncestorCount(ancestors), k)
    decreases k
  {
    if k == 0 {
      ArrowChainEnd(line, ancestors);
    } else {
      ArrowChainSplit(k, line, ancestors);
      DeeperByOne(ancestors);
      ArrowChainCallbackHell(k - 1, line + 1, ancestors + [ArrowFunction, Other]);
      ExcessStep(FunctionAncestorCount(ancestors), k);
    }
  }

  /** A named function holding five nested callbacks gives exactly one callback-hell
      finding; with six nested callbacks it gives two. */
  lemma NestedCallbacks(line: nat)
    ensures CountId(Analyze(Node(FunctionDeclaration, line, line + 12, 0.0, [ArrowChain(4, line + 1)])), CallbackHell) == 1
    ensures CountId(Analyze(Node(FunctionDeclaration, line, line + 14, 0.0, [ArrowChain(5, line + 1)])), CallbackHell) == 2
  {
    var five := Node(FunctionDeclaration, line, line + 12, 0.0, [ArrowChain(4, line + 1)]);
    var six := Node(FunctionDeclaration, line, line + 14, 0.0, [ArrowChain(5, line + 1)]);
    NestedCallbacksIn(five, 4);
    NestedCallbacksIn(six, 5);
  }

  lemma NestedCallbacksIn(f: Node, k: nat)
    requires f.kind == FunctionDeclaration && f.children == [ArrowChain(k, f.startLine + 1)]
    ensures CountId(Analyze(f), CallbackHell) == Excess(1, k)
  {
    var chain := ArrowChain(k, f.startLine + 1);
    NodeFindingsCount(f, [], CallbackHell);
    assert FunctionAncestorCount([]) == 0;
    CountIdAppend(NodeFindings(f, []), ChildrenFindings(f.children, [FunctionDeclaration]), CallbackHell);
    assert ChildrenFindings(f.children, [FunctionDeclaration]) == Findings(chain, [FunctionDeclaration]);
    FunctionAncestorCountSnoc([], FunctionDeclaration);
    assert [] + [FunctionDeclaration] == [FunctionDeclaration];
    ArrowChainCallbackHell(k, f.startLine + 1, [FunctionDeclaration]);
  }
}
