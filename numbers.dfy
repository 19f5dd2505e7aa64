/**
 * The numeric domain of the evaluators.
 *
 * Every value the source computes is a `double`. The model does not fix an
 * arithmetic: a value is the term that names how it was computed, so the
 * operations are uninterpreted. Two back ends that produce the same term
 * produce the same `double` under IEEE 754, whatever the rounding rules are.
 */
module Numbers {

  datatype Num =
    | Literal(value: real)                 // a constant, e.g. the value of a number literal
    | Sum(left: Num, right: Num)           // left + right
    | Difference(left: Num, right: Num)    // left - right
    | Product(left: Num, right: Num)       // left * right
    | Quotient(left: Num, right: Num)      // left / right
    | Remainder(left: Num, right: Num)     // left % right (truncated remainder, C#'s `%`)
    | Power(left: Num, right: Num)         // Math.Pow(left, right)
    | Negation(operand: Num)               // -operand
    | Host(name: string, args: seq<Num>)   // a host library value or call, e.g. Math.Sin(args)

  /** The value a fresh `localloc` block holds in every slot: all bits zero, +0.0. */
  const Zero: Num := Literal(0.0)
}
