# TypeScript anti-pattern analyzer, modelled in Dafny

The analyzer takes a TypeScript syntax tree and walks it once, in pre-order. At every node
it runs six fixed rules in a fixed order:

1. any-type
2. long-param-list
3. magic-number
4. god-class
5. callback-hell
6. non-null-assertion

Each rule that fires appends one anti-pattern record to a single result list. The list is
returned as it is.

A record carries:
- the rule's identifier, name, remediation message and severity, all fixed per rule;
- a description of what was observed;
- the 1-based line of the node it is about.

## Modules

- `syntax.dfy` (`Syntax`): the tree as the parser hands it over.
  - A `Node` has a kind, 0-based start and end lines, the value of a numeric literal, and its children in source order.
  - Only the kinds some rule tests are told apart.
  - The module also holds the kind classifiers the rules share, and the member filter behind the god-class method count.
- `report.dfy` (`Report`): the result record `Finding` (the source's `AntiPatternResult`).
  - The identifier, name, message and severity are functions of the rule, exactly as the source writes them.
  - `CountId` counts the findings of one rule.
- `ancestry.dfy` (`Ancestry`): the callback rule's walk up the parent chain.
  - The walker passes each node the kinds of its strict ancestors, in place of parent pointers.
  - `NestingDepth` is the source's `while` loop, proved equal to the count `FunctionAncestorCount`.
- `rules.dfy` (`Rules`): the rule table.
  - `Fires` says when each rule fires and `Observed` what it reports.
  - `NodeFindings` gives the findings of one node, the six rules in order.
- `walker.dfy` (`Walker`): the walk itself.
  - The class `Collector` holds the result list that the six check methods append to, as the source's `results.push` does.
  - `Visit` runs the checks, then visits the children left to right.
  - `AnalyzeCode` makes a fresh list, walks from the root and returns the list.
  - Every method is proved to leave the list equal to the old list followed by the pure pre-order specification `Findings`.
- `properties.dfy` (`Properties`): what the analysis promises about a whole tree.
  - These facts are stated against the plain pre-order traversal `Preorder`:
    - order;
    - one finding per firing;
    - one finding per `any` and `!` occurrence;
    - the line and description bounds;
    - the empty result;
    - callback nesting.
- `scenarios.dfy` (`Scenarios`): the thresholds at their boundaries, for any arrangement of a node's children, and the two `any` annotations of `process(data: any): any`.

## Model

| member | source | states |
|---|---|---|
| Syntax.OfKindSelects | src/lib/analyzer.ts:91 | the member filter keeps exactly the children of the requested kind, and all of them when every child has that kind |
| Syntax.OfKindCountsPositions | src/lib/analyzer.ts:91 | the filtered list has one element per position holding a node of the requested kind, wherever those positions are |
| Syntax.OfKindAppend | src/lib/analyzer.ts:91 | filtering a concatenation of member lists is the concatenation of the filtered lists |
| Ancestry.FunctionAncestorCount | src/lib/analyzer.ts:111-118 | the nesting depth never exceeds the number of ancestors |
| Ancestry.FunctionAncestorCountSnoc | src/lib/analyzer.ts:114-115 | stepping into a child raises the depth by one exactly when the parent is a function, method, arrow function or function expression |
| Ancestry.NestingDepth | src/lib/analyzer.ts:111-118 | the loop from the parent up to the root returns the number of function-like ancestors |
| Rules.NodeFindingsCount | src/lib/analyzer.ts:31-142 | on one node each rule reports exactly once if its condition holds and never otherwise |
| Rules.NodeFindingsShape | src/lib/analyzer.ts:29-142 | one node gets at most six findings, strictly in rule order; each is on the node's start line plus one, and its description shows the count, value or depth that crossed the threshold |
| Rules.EmitAllOrdered | src/lib/analyzer.ts:30-133 | rules evaluated in rule order give findings in rule order |
| Walker.Collector.CheckAnyType | src/lib/analyzer.ts:31-40 | appends one finding to the results exactly for an `any` keyword |
| Walker.Collector.CheckLongParamList | src/lib/analyzer.ts:45-56 | appends one finding exactly for a function-like node with more than three parameters, reporting their number |
| Walker.Collector.CheckMagicNumber | src/lib/analyzer.ts:59-87 | appends one finding exactly for a literal other than 0, 1 and -1 whose parent is no variable, enum member, property assignment or property declaration |
| Walker.Collector.CheckGodClass | src/lib/analyzer.ts:90-106 | appends one finding exactly for a class with more than 20 methods or spanning more than 300 lines |
| Walker.Collector.CheckCallbackHell | src/lib/analyzer.ts:110-130 | appends one finding exactly for an arrow function, function expression or function declaration nested in more than four functions |
| Walker.Collector.CheckNonNullAssertion | src/lib/analyzer.ts:133-142 | appends one finding exactly for a non-null assertion |
| Walker.Collector.CheckNode | src/lib/analyzer.ts:30-142 | appends the node's findings of all six rules, in rule order, to what was there |
| Walker.Collector.Visit | src/lib/analyzer.ts:29-145 | appends the findings of the whole subtree in pre-order to what was there, removing or reordering nothing |
| Walker.Collector.constructor | src/lib/analyzer.ts:27 | the result list starts empty |
| Walker.AnalyzeCode | src/lib/analyzer.ts:27-150 | returns exactly the pre-order findings of the tree, from the root with no parent |
| Properties.FindingsArePreorder | src/lib/analyzer.ts:29-147 | the walk's output is the rule set applied to every visited node in pre-order, nothing dropped, added or reordered |
| Properties.PreorderOuterFirst | src/lib/analyzer.ts:144 | a node is visited before all its descendants, and every later visit of its subtree is below it |
| Properties.AnalyzeReportsEachFiring | src/lib/analyzer.ts:27-150 | the findings of each rule are, in order, one per visited node the rule fires on, with that node's observation and line |
| Properties.AnalyzeCountsFirings | src/lib/analyzer.ts:29-147 | the number of findings of each rule equals the number of visited nodes it fires on |
| Properties.OnePerOccurrence | src/lib/analyzer.ts:31-142 | one any-type finding per `any` keyword and one non-null-assertion finding per `!` assertion anywhere in the tree |
| Properties.AnalyzeNormalized | src/lib/analyzer.ts:36-138 | every reported line is at least 1 and is some node's 0-based start line plus one; every description shows its rule's threshold crossed |
| Properties.LinesWithinSource | src/lib/analyzer.ts:36-138 | when all nodes start within the first `total` lines, every reported line lies between 1 and `total` |
| Properties.AnalyzeEmpty | src/lib/analyzer.ts:27-150 | the result is empty exactly when no rule fires on any node of the tree |
| Properties.ArrowChainCallbackHell | src/lib/analyzer.ts:110-130 | in a chain of nested callbacks every callback nested more than four deep gets its own finding, not only the innermost |
| Properties.NestedCallbacks | src/scripts/test-analyzer.ts:43-56 | a function holding five nested callbacks gives one callback-hell finding, and six nested callbacks give two |
| Properties.NestedCallbacksIn | test-files/bad-code.ts:33-47 | a function declaration holding a chain of `k + 1` nested callbacks gives as many findings as callbacks sit deeper than four |
| Scenarios.LongParamListBoundary | src/lib/analyzer.ts:45-56 | a function, method, arrow function or function expression with four parameters or more is reported once, with three or fewer it is not, whatever other children surround the parameters |
| Scenarios.GodClassBoundary | src/lib/analyzer.ts:90-106 | a class is reported once when it has 21 methods or more, or ends 301 lines or more below its start, and not otherwise, whatever other members its methods are mixed with |
| Scenarios.MagicNumberContexts | src/lib/analyzer.ts:59-87 | a literal inside an expression is reported even in a constant's initializer; the same literal named directly by a declaration is not; 0, 1 and -1 never are |
| Scenarios.AnyParameterAndReturn | src/scripts/test-analyzer.ts:6-8 | a function with an `any` parameter type and an `any` return type gives two any-type findings |

Four facts hold by construction of `Finding`:
- Each finding's identifier, name, message and severity are the functions `RuleText`, `NameOf`, `MessageOf` and `SeverityOf` of its rule (src/lib/analyzer.ts:33-38 and so on).
- So any two findings of the same rule agree on all four.
- The severities are any-type high, long-param-list medium, magic-number low, god-class high, callback-hell high and non-null-assertion medium.
- The source writes these values as literals at each push, and no other values occur.

## Modelling decisions

- **Ancestors.** The parent pointer and the ancestor loop are replaced by the sequence of the strict ancestors' kinds, root first and parent last. Climbing to the parent is one step towards the front of the sequence.
- **Root.** The walk starts at the root with no ancestors, and a node without a parent is not in a declaration context. In the source the root is always a source file, never a numeric literal, so its missing parent is never looked at.
- **Parameters.** Parameters are the `Parameter`-kind children of a function-like node. Its other children (name, type parameters, return type, body) are never parameters.
- **Methods.** A class's methods are its `MethodDeclaration` children: among those children only members can be methods.
- **Counts and spans.** The parameter count, the method count and the line span are computed from the tree, not stored beside it.
- **Descriptions.** A description is kept as the values it interpolates (`Params(count)`, `Literal(value)`, `ClassSize(methods, lines)`, `Depth(depth)`), not as rendered text.
- **The callback rule.** It counts methods among the enclosing functions, but fires only on arrow functions, function expressions and function declarations, never on a method itself (src/lib/analyzer.ts:110 and :114).

## Left out

- The TypeScript parser and its position mapping: the tree and each node's 0-based start and end line are inputs.
- The choice between TS and TSX parsing by file name: it changes only the parser.
- The conversion of a literal's text to a floating-point number: a literal's value is an exact `real`, compared only with 0, 1 and -1.
  - The parser gives `-1` as a unary minus applied to the literal `1`, so the `-1` exemption never applies in practice.
  - The model allows negative literal values all the same.
- The rendering of descriptions as text, including JavaScript's number formatting.
- The server action around the analyzer: its artificial delay, and the catch-all that turns any failure into an empty list. These are asynchronous plumbing, outside the analyzer.
- The user-interface components, including file-size formatting and upload validation: these are rendering and browser state.
- The console test script and the sample files: they appear only as node shapes in `Scenarios` and `Properties.NestedCallbacks`.
- Properties.NestedCallbacks: the chain puts a single non-function node between two callbacks where the parser has a call, a block and a statement, and leaves out the callbacks' parameters; it states how many callbacks are reported, not which.
