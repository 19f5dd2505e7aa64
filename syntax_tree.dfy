/**
 * The syntax tree (the classes under ILMath/SyntaxTree).
 *
 * The shown files come from two revisions. The parser builds flat
 * `ExpressionNode`/`TermNode` lists whose odd positions hold operator-only
 * `OperatorNode` markers, and `ExponentNode(base, exponent)`; the back ends
 * read an `OperatorNode` with `Left`, `Right` and `Operator`. `Node` holds
 * both readings of `OperatorNode`: `OperatorNode(op)` is the marker the
 * parser builds and `BinaryNode(op, left, right)` is the node the back ends
 * compile. Nodes are immutable values.
 */
module SyntaxTree {
  import opened Chars

  /**
   * The operator kinds. `Undefined(code)` stands for an enum value outside
   * the named members (C# enums are integers); the back ends' default arms
   * exist for it.
   */
  datatype OperatorType =
    | Plus | Minus | Multiplication | Division | Modulo | Exponent
    | Undefined(code: int)

  /** `Enum.ToString`: the member's name, or the number for an unnamed value. */
  function OperatorName(op: OperatorType): (r: string)
    ensures |r| > 0
    ensures !op.Undefined? ==> 'A' <= r[0] <= 'Z'
    ensures op.Undefined? ==> r[0] == '-' || IsDigit(r[0])
  {
    match op
    case Plus => "Plus"
    case Minus => "Minus"
    case Multiplication => "Multiplication"
    case Division => "Division"
    case Modulo => "Modulo"
    case Exponent => "Exponent"
    case Undefined(code) => IntToString(code)
  }

  datatype Node =
    | NumberNode(value: real)
    | VariableNode(identifier: string)
    | OperatorNode(op: OperatorType)
    | BinaryNode(op: OperatorType, left: Node, right: Node)
    | UnaryNode(op: OperatorType, child: Node)
    | FunctionNode(identifier: string, parameters: seq<Node>)
    | TermNode(children: seq<Node>)
    | ExpressionNode(children: seq<Node>)
    | ExponentNode(base: Node, exponent: Node)

  /**
   * `EnumerateChildren`. Leaves and the operator marker have none; a unary
   * node has its operand; a function node its parameters in order; a term
   * its children. A `BinaryNode` yields [left, right]: the shown
   * `OperatorNode` yields nothing, and this is the assumption under which
   * the scratch-buffer pre-pass sees the operands at all. `ExpressionNode`
   * and `ExponentNode` do not declare the method in the shown files; they
   * are given their children and [base, exponent].
   */
  function Children(n: Node): (r: seq<Node>)
    ensures forall c :: c in r ==> c < n
    ensures n.FunctionNode? ==> r == n.parameters
    ensures n.NumberNode? || n.VariableNode? || n.OperatorNode? ==> r == []
  {
    match n
    case NumberNode(_) => []
    case VariableNode(_) => []
    case OperatorNode(_) => []
    case BinaryNode(_, left, right) => [left, right]
    case UnaryNode(_, child) => [child]
    case FunctionNode(_, parameters) => parameters
    case TermNode(children) => children
    case ExpressionNode(children) => children
    case ExponentNode(b, e) => [b, e]
  }

  /**
   * The trees the back ends are written for: numbers, variables, binary
   * nodes with a named operator, unary plus or minus, and function calls,
   * all the way down.
   */
  predicate WellFormed(n: Node) {
    match n
    case NumberNode(_) => true
    case VariableNode(_) => true
    case BinaryNode(op, left, right) => !op.Undefined? && WellFormed(left) && WellFormed(right)
    case UnaryNode(op, child) => (op == Plus || op == Minus) && WellFormed(child)
    case FunctionNode(_, parameters) => forall p :: p in parameters ==> WellFormed(p)
    case _ => false
  }

  /** Whether some function node in the tree has at least one parameter. */
  predicate HasParameterizedCall(n: Node) {
    (n.FunctionNode? && |n.parameters| > 0) || exists c :: c in Children(n) && HasParameterizedCall(c)
  }

  // ---------------------------------------------------------------------------
  // ToString. A double's text (`NumberNode`, invariant culture) is library
  // code, so it is a parameter.

  /** The class name each rendering starts with. */
  function KindName(n: Node): string {
    match n
    case NumberNode(_) => "Number"
    case VariableNode(_) => "Variable"
    case OperatorNode(_) => "Operator"
    case BinaryNode(_, _, _) => "Operator"
    case UnaryNode(_, _) => "Unary"
    case FunctionNode(_, _) => "Function"
    case TermNode(_) => "Term"
    case ExpressionNode(_) => "Expression"
    case ExponentNode(_, _) => "Exponent"
  }

  /** `node.GetType()` as the back ends' "Unknown node type" messages print it. */
  function NodeTypeName(n: Node): string {
    "ILMath.SyntaxTree." + KindName(n) + "Node"
  }

  /** `ToString`: the class name, then its fields in parentheses, children joined by ", ". */
  function Render(n: Node, formatDouble: real -> string): (r: string)
    ensures |r| > |KindName(n)| + 1
    ensures r[..|KindName(n)| + 1] == KindName(n) + "(" && r[|r| - 1] == ')'
  {
    var body := match n
      case NumberNode(v) => formatDouble(v)
      case VariableNode(id) => id
      case OperatorNode(op) => OperatorName(op)
      case BinaryNode(op, _, _) => OperatorName(op)
      case UnaryNode(op, child) => OperatorName(op) + ", " + Render(child, formatDouble)
      case FunctionNode(id, parameters) => id + ", " + RenderList(parameters, formatDouble)
      case TermNode(children) => RenderList(children, formatDouble)
      case ExpressionNode(children) => RenderList(children, formatDouble)
      case ExponentNode(b, e) => Render(b, formatDouble) + ", " + Render(e, formatDouble);
    var r := KindName(n) + "(" + body + ")";
    assert r[..|KindName(n)| + 1] == KindName(n) + "(";
    r
  }

  /** `string.Join(", ", nodes)`. */
  function RenderList(ns: seq<Node>, formatDouble: real -> string): string {
    if ns == [] then ""
    else if |ns| == 1 then Render(ns[0], formatDouble)
    else Render(ns[0], formatDouble) + ", " + RenderList(ns[1..], formatDouble)
  }

  /** A call without parameters still renders the separator: "Function(f, )". */
  lemma RenderEmptyCall(formatDouble: real -> string)
    ensures Render(FunctionNode("f", []), formatDouble) == "Function(f, )"
  {
  }

  /** "Unary(Minus, Variable(x))": the operator, then the child. */
  lemma RenderUnary(formatDouble: real -> string)
    ensures Render(UnaryNode(Minus, VariableNode("x")), formatDouble) == "Unary(Minus, Variable(x))"
  {
  }
}
