/** The analyzer's result record and the normalizer that builds it.

    Every finding carries a fixed rule identifier, name, remediation message and
    severity, a description of what was observed and the 1-based line of the node
    it is about.
 */
module Report {

  /** The six compiled-in rules, in the order the walker runs them on each node. */
  datatype RuleId =
    | AnyType
    | LongParamList
    | MagicNumber
    | GodClass
    | CallbackHell
    | NonNullAssertion

  datatype Severity = High | Medium | Low

  /** What a finding observed: the values its description interpolates. */
  datatype Description =
    | AnyUsage                               // Usage of "any" disables type checking.
    | Params(count: nat)                     // Function has <count> parameters.
    | Literal(value: real)                   // Unnamed numeric literal "<value>" found.
    | ClassSize(methods: nat, lines: int)    // Class has <methods> methods and <lines> lines.
    | Depth(depth: nat)                      // Function nesting depth is <depth>.
    | NonNullUsage                           // Usage of "!" operator.

  /** One reported anti-pattern occurrence (the source's `AntiPatternResult`). The
      identifier string, name, remediation message and severity are fixed per rule,
      so they are functions of `id` rather than stored per finding. */
  datatype Finding = Finding(id: RuleId, description: Description, line: int) {
    function IdText(): string { RuleText(id) }
    function Name(): string { NameOf(id) }
    function Message(): string { MessageOf(id) }
    function Severity(): Severity { SeverityOf(id) }
  }

  /** Position of a rule in the walker's fixed order, from 1 to 6. */
  function Rank(id: RuleId): nat {
    match id
    case AnyType => 1
    case LongParamList => 2
    case MagicNumber => 3
    case GodClass => 4
    case CallbackHell => 5
    case NonNullAssertion => 6
  }

  /** The stable identifier string of each rule. */
  function RuleText(id: RuleId): string {
    match id
    case AnyType => "any-type"
    case LongParamList => "long-param-list"
    case MagicNumber => "magic-number"
    case GodClass => "god-class"
    case CallbackHell => "callback-hell"
    case NonNullAssertion => "non-null-assertion"
  }

  function NameOf(id: RuleId): string {
    match id
    case AnyType => "Any Type Abuse"
    case LongParamList => "Long Parameter List"
    case MagicNumber => "Magic Number"
    case GodClass => "God Class"
    case CallbackHell => "Callback Hell"
    case NonNullAssertion => "Non-Null Assertion"
  }

  function MessageOf(id: RuleId): string {
    match id
    case AnyType => "Avoid using \"any\". It bypasses the type system."
    case LongParamList => "Consider refactoring to use a parameter object."
    case MagicNumber => "Extract this number into a named constant."
    case GodClass => "This class does too much. Verify Single Responsibility Principle."
    case CallbackHell => "Refactor using Promises or Async/Await to flatten the code."
    case NonNullAssertion => "Avoid non-null assertions. Use optional chaining or guard clauses."
  }

  function SeverityOf(id: RuleId): Severity {
    match id
    case AnyType => High
    case LongParamList => Medium
    case MagicNumber => Low
    case GodClass => High
    case CallbackHell => High
    case NonNullAssertion => Medium
  }

  /** Builds the finding of rule `id` for a node that starts on the 0-based line
      `startLine`: reported lines are 1-based. */
  function Normalize(id: RuleId, d: Description, startLine: nat): Finding {
    Finding(id, d, startLine + 1)
  }

  /** Number of findings in `fs` produced by rule `id`. */
  function CountId(fs: seq<Finding>, id: RuleId): (c: nat)
    ensures c <= |fs|
    ensures c == 0 <==> forall f :: f in fs ==> f.id != id
  {
    if fs == [] then 0
    else (if fs[0].id == id then 1 else 0) + CountId(fs[1..], id)
  }

  lemma {:induction false} CountIdAppend(a: seq<Finding>, b: seq<Finding>, id: RuleId)
    ensures CountId(a + b, id) == CountId(a, id) + CountId(b, id)
  {
    if a == [] {
      assert a + b == b;
    } else {
      assert (a + b)[1..] == a[1..] + b;
      CountIdAppend(a[1..], b, id);
    }
  }
}
