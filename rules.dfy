/** The rule set: for each of the six rules, when it fires on a node and what it
    reports, and the findings of one node as the six rules produce them in order.
 */
module Rules {
  import opened Syntax
  import opened Report
  import opened Ancestry

  /** The parent of a node is the last kind of its ancestor chain. A node without a
      parent (the root) is not in a declaration context. */
  predicate InDeclarationContext(ancestors: seq<Kind>) {
    |ancestors| > 0 && IsDeclarationContext(ancestors[|ancestors| - 1])
  }

  /** The rule table: does rule `id` fire on node `n` whose strict ancestors have
      the kinds `ancestors`? */
  predicate Fires(id: RuleId, n: Node, ancestors: seq<Kind>) {
    match id
    case AnyType => n.kind == AnyKeyword
    case LongParamList => IsFunctionLike(n.kind) && ParameterCount(n) > 3
    case MagicNumber =>
      n.kind == NumericLiteral && !IsExemptValue(n.value) && !InDeclarationContext(ancestors)
    case GodClass => n.kind == ClassDeclaration && (MethodCount(n) > 20 || LineSpan(n) > 300)
    case CallbackHell => IsCallback(n.kind) && FunctionAncestorCount(ancestors) > 4
    case NonNullAssertion => n.kind == NonNullExpression
  }

  /** What rule `id` reports about node `n`. */
  function Observed(id: RuleId, n: Node, ancestors: seq<Kind>): Description {
    match id
    case AnyType => AnyUsage
    case LongParamList => Params(ParameterCount(n))
    case MagicNumber => Literal(n.value)
    case GodClass => ClassSize(MethodCount(n), LineSpan(n))
    case CallbackHell => Depth(FunctionAncestorCount(ancestors))
    case NonNullAssertion => NonNullUsage
  }

  /** The description of a finding shows the fact that made its rule fire. */
  predicate Justified(f: Finding) {
    match f.id
    case AnyType => f.description == AnyUsage
    case LongParamList => f.description.Params? && f.description.count > 3
    case MagicNumber => f.description.Literal? && !IsExemptValue(f.description.value)
    case GodClass => f.description.ClassSize? && (f.description.methods > 20 || f.description.lines > 300)
    case CallbackHell => f.description.Depth? && f.description.depth > 4
    case NonNullAssertion => f.description == NonNullUsage
  }

  /** Zero or one finding of rule `id` for node `n`. */
  function Emit(id: RuleId, n: Node, ancestors: seq<Kind>): seq<Finding> {
    if Fires(id, n, ancestors) then [Normalize(id, Observed(id, n, ancestors), n.startLine)] else []
  }

  /** The rule set, in the fixed order the walker evaluates it on every node. */
  const RuleOrder: seq<RuleId> :=
    [AnyType, LongParamList, MagicNumber, GodClass, CallbackHell, NonNullAssertion]

  /** The findings of the rules `ids` on one node, rule after rule, each independent of the others. */
  function EmitAll(ids: seq<RuleId>, n: Node, ancestors: seq<Kind>): seq<Finding> {
    if ids == [] then [] else Emit(ids[0], n, ancestors) + EmitAll(ids[1..], n, ancestors)
  }

  /** The findings of one node. */
  function NodeFindings(n: Node, ancestors: seq<Kind>): seq<Finding> {
    EmitAll(RuleOrder, n, ancestors)
  }

  /** Rule identifiers listed strictly in rule order (so each at most once). */
  predicate InRuleOrder(ids: seq<RuleId>) {
    forall i, j :: 0 <= i < j < |ids| ==> Rank(ids[i]) < Rank(ids[j])
  }

  /** Findings listed strictly in rule order (so at most one per rule). */
  predicate FindingsInRuleOrder(fs: seq<Finding>) {
    forall i, j :: 0 <= i < j < |fs| ==> Rank(fs[i].id) < Rank(fs[j].id)
  }

  lemma EmitShape(id: RuleId, n: Node, ancestors: seq<Kind>)
    ensures var fs := Emit(id, n, ancestors);
      |fs| <= 1 && forall f :: f in fs ==> f.id == id && Justified(f) && f.line == n.startLine + 1
  {
  }

  lemma {:induction false} EmitAllMembers(ids: seq<RuleId>, n: Node, ancestors: seq<Kind>)
    ensures var fs := EmitAll(ids, n, ancestors);
      |fs| <= |ids| && forall f :: f in fs ==> f.id in ids && Justified(f) && f.line == n.startLine + 1
  {
    if ids != [] {
      EmitShape(ids[0], n, ancestors);
      EmitAllMembers(ids[1..], n, ancestors);
    }
  }

  /** Putting at most one finding of a rule before findings of later rules keeps rule order. */
  lemma OrderedPrepend(head: seq<Finding>, rest: seq<Finding>, id: RuleId)
    requires |head| <= 1 && forall f :: f in head ==> f.id == id
    requires forall f :: f in rest ==> Rank(id) < Rank(f.id)
    requires FindingsInRuleOrder(rest)
    ensures FindingsInRuleOrder(head + rest)
  {
    var fs := head + rest;
    forall i, j | 0 <= i < j < |fs| ensures Rank(fs[i].id) < Rank(fs[j].id) {
      if i < |head| {
        assert fs[i] == head[0] && fs[j] == rest[j - |head|] && rest[j - |head|] in rest;
      } else {
        assert fs[i] == rest[i - |head|] && fs[j] == rest[j - |head|];
      }
    }
  }

  lemma {:induction false} EmitAllOrdered(ids: seq<RuleId>, n: Node, ancestors: seq<Kind>)
    requires InRuleOrder(ids)
    ensures FindingsInRuleOrder(EmitAll(ids, n, ancestors))
  {
    if ids != [] {
      var rest := EmitAll(ids[1..], n, ancestors);
      EmitShape(ids[0], n, ancestors);
      EmitAllMembers(ids[1..], n, ancestors);
      EmitAllOrdered(ids[1..], n, ancestors);
      forall f | f in rest ensures Rank(ids[0]) < Rank(f.id) {
        var j :| 0 <= j < |ids[1..]| && ids[1..][j] == f.id;
        assert ids[1 + j] == f.id;
      }
      OrderedPrepend(Emit(ids[0], n, ancestors), rest, ids[0]);
    }
  }

  lemma {:induction false} EmitAllCount(ids: seq<RuleId>, n: Node, ancestors: seq<Kind>, id: RuleId)
    requires InRuleOrder(ids)
    ensures CountId(EmitAll(ids, n, ancestors), id) == if id in ids && Fires(id, n, ancestors) then 1 else 0
  {
    if ids != [] {
      CountIdAppend(Emit(ids[0], n, ancestors), EmitAll(ids[1..], n, ancestors), id);
      EmitAllCount(ids[1..], n, ancestors, id);
      if id == ids[0] {
        assert id !in ids[1..];
      }
    }
  }

  /** The rules from position `k` on: the rule at `k`, then the rest. */
  lemma EmitAllFrom(k: nat, n: Node, ancestors: seq<Kind>)
    requires k < |RuleOrder|
    ensures EmitAll(RuleOrder[k..], n, ancestors)
         == Emit(RuleOrder[k], n, ancestors) + EmitAll(RuleOrder[k + 1..], n, ancestors)
  {
    assert RuleOrder[k..][1..] == RuleOrder[k + 1..];
  }

  /** The six rules' findings, written out in rule order. */
  lemma NodeFindingsUnfold(n: Node, ancestors: seq<Kind>)
    ensures NodeFindings(n, ancestors)
         == Emit(AnyType, n, ancestors) + (Emit(LongParamList, n, ancestors) + (Emit(MagicNumber, n, ancestors)
          + (Emit(GodClass, n, ancestors) + (Emit(CallbackHell, n, ancestors) + Emit(NonNullAssertion, n, ancestors)))))
  {
    assert RuleOrder[0..] == RuleOrder;
    EmitAllFrom(0, n, ancestors);
    EmitAllFrom(1, n, ancestors);
    EmitAllFrom(2, n, ancestors);
    EmitAllFrom(3, n, ancestors);
    EmitAllFrom(4, n, ancestors);
    EmitAllFrom(5, n, ancestors);
    assert RuleOrder[6..] == [];
  }

  /** A node has at most one finding per rule, in rule order, each justified by
      its description and all on the node's own line, made 1-based. */
  lemma NodeFindingsShape(n: Node, ancestors: seq<Kind>)
    ensures var fs := NodeFindings(n, ancestors);
      && |fs| <= 6
      && FindingsInRuleOrder(fs)
      && (forall f :: f in fs ==> Justified(f) && f.line == n.startLine + 1)
  {
    RuleOrderComplete();
    EmitAllMembers(RuleOrder, n, ancestors);
    EmitAllOrdered(RuleOrder, n, ancestors);
  }

  /** The rule set lists every rule once, in rule order. */
  lemma RuleOrderComplete()
    ensures InRuleOrder(RuleOrder)
    ensures forall id :: id in RuleOrder
  {
    forall id ensures id in RuleOrder {
      match id
      case AnyType => assert RuleOrder[0] == id;
      case LongParamList => assert RuleOrder[1] == id;
      case MagicNumber => assert RuleOrder[2] == id;
      case GodClass => assert RuleOrder[3] == id;
      case CallbackHell => assert RuleOrder[4] == id;
      case NonNullAssertion => assert RuleOrder[5] == id;
    }
  }

  /** Rule `id` reports node `n` exactly once when its condition holds, never otherwise. */
  lemma NodeFindingsCount(n: Node, ancestors: seq<Kind>, id: RuleId)
    ensures CountId(NodeFindings(n, ancestors), id) == if Fires(id, n, ancestors) then 1 else 0
  {
    RuleOrderComplete();
    EmitAllCount(RuleOrder, n, ancestors, id);
  }
}
