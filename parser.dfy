/**
 * The recursive-descent parser of ILMath/Parser.cs.
 *
 * The lexer never rescans, so the parser is modelled over the lexer's token
 * sequence (`Lexing.Tokenize`) and a position in it: the position is the
 * lexer's cursor. `ParseExpression`, `ParseTerm`, ... say what each parser
 * method returns and where it leaves the cursor; the class `Parser` runs the
 * same methods on a mutable position and is proved against them. The lazy
 * `yield` enumerators of the source are drained by `ToList` inside the node
 * constructors before the next `Consume`, so they are eager here.
 */
module Parsing {
  import opened Wrappers
  import opened Chars
  import opened Tokens
  import opened Lexing
  import opened SyntaxTree

  /** `ParserException("Unexpected token: {current} (expected: {type})")`. */
  datatype ParseError = UnexpectedToken(found: Token, expected: TokenType) {
    function Message(): string {
      "Unexpected token: " + found.ToString() + " (expected: " + TypeName(expected) + ")"
    }
  }

  // ---------------------------------------------------------------------------
  // `double.Parse` of a literal's text, as its exact decimal value.

  function DigitValue(c: char): nat {
    if IsDigit(c) then (c as int - '0' as int) as nat else 0
  }

  /** The value of a run of decimal digits. */
  function DigitsValue(s: string): nat {
    if s == [] then 0 else DigitsValue(s[..|s| - 1]) * 10 + DigitValue(s[|s| - 1])
  }

  function Pow10(n: nat): (r: nat)
    ensures r > 0
  {
    if n == 0 then 1 else 10 * Pow10(n - 1)
  }

  /** The position of the decimal point, or the length when there is none. */
  function PointIndex(s: string): (d: nat)
    ensures d <= |s|
  {
    if s == [] then 0
    else if s[0] == '.' then 0
    else 1 + PointIndex(s[1..])
  }

  /**
   * The value of a Number token's text (digits, optionally a point and more
   * digits): the digits before the point plus the fraction after it.
   */
  function LiteralValue(s: string): real {
    var d := PointIndex(s);
    var frac := if d < |s| then s[d + 1..] else "";
    DigitsValue(s[..d]) as real + DigitsValue(frac) as real / Pow10(|frac|) as real
  }

  /** A literal without a point is worth its digits. */
  lemma {:induction false} WholeLiteralValue(s: string)
    requires '.' !in s
    ensures LiteralValue(s) == DigitsValue(s) as real
  {
    WholePointIndex(s);
    assert s[..|s|] == s;
  }

  lemma {:induction false} WholePointIndex(s: string)
    requires '.' !in s
    ensures PointIndex(s) == |s|
  {
    if s != [] {
      assert s[0] in s;
      assert forall c :: c in s[1..] ==> c in s;
      WholePointIndex(s[1..]);
    }
  }

  /** Literals with a fraction, and with a point but no fraction digits. */
  lemma LiteralValueExamples()
    ensures LiteralValue("2.5") == 5.0 / 2.0
    ensures LiteralValue("0.25") == 1.0 / 4.0
    ensures LiteralValue("3.") == 3.0
    ensures LiteralValue("42") == 42.0
  {
    assert PointIndex("2.5") == 1;
    assert PointIndex("0.25") == 1;
    assert DigitsValue("25") == 25;
    assert PointIndex("3.") == 1;
    WholeLiteralValue("42");
    assert DigitsValue("42") == 42;
  }

  // ---------------------------------------------------------------------------
  // What each parser method does, from a cursor position.

  /**
   * What the parser relies on in a lexer's token stream: it ends with the
   * one `EndOfInput` (which carries no text), and identifiers and numbers
   * carry their text.
   */
  predicate Parsable(ts: seq<Token>) {
    && |ts| > 0
    && ts[|ts| - 1] == OfType(EndOfInput)
    && (forall k :: 0 <= k < |ts| - 1 ==> ts[k].tokenType != EndOfInput)
    && (forall k :: 0 <= k < |ts| && ts[k].tokenType in {Identifier, Number} ==> ts[k].value.Some?)
  }

  lemma ValidIsParsable(ts: seq<Token>)
    requires ValidTokenStream(ts)
    ensures Parsable(ts)
  {
  }

  /** A cursor position in a parsable stream. */
  predicate At(ts: seq<Token>, p: nat) {
    Parsable(ts) && p < |ts|
  }

  /**
   * `Consume(type)`: advances past the current token when it has that kind
   * (past `EndOfInput` the lexer yields `EndOfInput` again, so the cursor
   * stays), and raises otherwise.
   */
  function ConsumeAt(ts: seq<Token>, p: nat, t: TokenType): (r: Result<nat, ParseError>)
    requires At(ts, p)
    ensures r.Success? <==> ts[p].tokenType == t
    ensures r.Failure? ==> r.error == UnexpectedToken(ts[p], t)
    ensures r.Success? && t != EndOfInput ==> r.value == p + 1 && r.value < |ts|
    ensures r.Success? && t == EndOfInput ==> r.value == p == |ts| - 1
  {
    if ts[p].tokenType != t then Failure(UnexpectedToken(ts[p], t))
    else if t == EndOfInput then Success(p)
    else Success(p + 1)
  }

  /**
   * The outcome of a parser method from a cursor position: the value it
   * returns and the position it leaves the cursor at, or the exception.
   */
  datatype Parsed<+T> = Parsed(value: T, next: nat) | Rejected(error: ParseError)

  /**
   * The children of an `ExpressionNode` or a `TermNode`: an operand, then
   * any number of (marker, operand) pairs, the markers drawn from `ops`.
   */
  predicate Alternates(cs: seq<Node>, ops: set<OperatorType>) {
    && |cs| % 2 == 1
    && (forall k :: 0 <= k < |cs| && k % 2 == 0 ==> !cs[k].OperatorNode?)
    && (forall k :: 0 <= k < |cs| && k % 2 == 1 ==> cs[k].OperatorNode? && cs[k].op in ops)
  }

  const AdditiveOps: set<OperatorType> := {OperatorType.Plus, OperatorType.Minus}
  const MultiplicativeOps: set<OperatorType> := {OperatorType.Multiplication, OperatorType.Division, OperatorType.Modulo}

  /** `Root`: an expression followed by `EndOfInput`. */
  function ParseRoot(ts: seq<Token>): (r: Result<Node, ParseError>)
    requires Parsable(ts)
  {
    var e := ParseExpression(ts, 0);
    if e.Rejected? then Failure(e.error)
    else
      var end := ConsumeAt(ts, e.next, EndOfInput);
      if end.Failure? then Failure(end.error) else Success(e.value)
  }

  /** `Parse`: the tree for a source text. */
  function Parse(input: string): Result<Node, ParseError> {
    TokenizeValid(input);
    ValidIsParsable(Tokenize(input));
    ParseRoot(Tokenize(input))
  }

  /** `Expression`: a term, then the loop over `+` and `-`, collected into an `ExpressionNode`. */
  function ParseExpression(ts: seq<Token>, p: nat): (r: Parsed<Node>)
    requires At(ts, p)
    ensures r.Parsed? ==> p < r.next < |ts|
    decreases |ts| - p, 4
  {
    var first := ParseTerm(ts, p);
    if first.Rejected? then Rejected(first.error)
    else
      var rest := ExpressionRest(ts, first.next, [first.value]);
      if rest.Rejected? then Rejected(rest.error) else Parsed(ExpressionNode(rest.value), rest.next)
  }

  /** The loop of `Expression`: while the current token is `+` or `-`, a marker and another term. */
  function ExpressionRest(ts: seq<Token>, p: nat, acc: seq<Node>): (r: Parsed<seq<Node>>)
    requires At(ts, p)
    ensures r.Parsed? ==> p <= r.next < |ts|
    decreases |ts| - p, 0
  {
    var t := ts[p].tokenType;
    if t == TokenType.Plus || t == TokenType.Minus then
      var op := if t == TokenType.Plus then OperatorType.Plus else OperatorType.Minus;
      var term := ParseTerm(ts, p + 1);
      if term.Rejected? then Rejected(term.error)
      else ExpressionRest(ts, term.next, acc + [OperatorNode(op), term.value])
    else
      Parsed(acc, p)
  }

  /** `Term`: an operand, then the loop over `*`, `/` and `%`, collected into a `TermNode`. */
  function ParseTerm(ts: seq<Token>, p: nat): (r: Parsed<Node>)
    requires At(ts, p)
    ensures r.Parsed? ==> p < r.next < |ts|
    decreases |ts| - p, 3
  {
    var first := ParseExponent(ts, p);
    if first.Rejected? then Rejected(first.error)
    else
      var rest := TermRest(ts, first.next, [first.value]);
      if rest.Rejected? then Rejected(rest.error) else Parsed(TermNode(rest.value), rest.next)
  }

  /** The loop of `Term`: while the current token is `*`, `/` or `%`, a marker and another operand. */
  function TermRest(ts: seq<Token>, p: nat, acc: seq<Node>): (r: Parsed<seq<Node>>)
    requires At(ts, p)
    ensures r.Parsed? ==> p <= r.next < |ts|
    decreases |ts| - p, 0
  {
    var t := ts[p].tokenType;
    if t == TokenType.Multiplication || t == TokenType.Division || t == TokenType.Modulo then
      var op :=
        if t == TokenType.Multiplication then OperatorType.Multiplication
        else if t == TokenType.Division then OperatorType.Division
        else OperatorType.Modulo;
      var operand := ParseExponent(ts, p + 1);
      if operand.Rejected? then Rejected(operand.error)
      else TermRest(ts, operand.next, acc + [OperatorNode(op), operand.value])
    else
      Parsed(acc, p)
  }

  /** `Exponent`: a factor, and when `^` follows, an `ExponentNode` whose exponent is parsed by this same rule. */
  function ParseExponent(ts: seq<Token>, p: nat): (r: Parsed<Node>)
    requires At(ts, p)
    ensures r.Parsed? ==> p < r.next < |ts|
    decreases |ts| - p, 2
  {
    var b := ParseFactor(ts, p);
    if b.Rejected? then b
    else if ts[b.next].tokenType == Power then
      var e := ParseExponent(ts, b.next + 1);
      if e.Rejected? then e else Parsed(ExponentNode(b.value, e.value), e.next)
    else
      b
  }

  /**
   * `Factor`: a function call or a variable, a parenthesised expression, a
   * unary sign in front of a factor, or a number; anything else is reported
   * as a token where a Number was expected.
   */
  function ParseFactor(ts: seq<Token>, p: nat): (r: Parsed<Node>)
    requires At(ts, p)
    ensures r.Parsed? ==> p < r.next < |ts|
    ensures ts[p].tokenType !in {Identifier, OpenParenthesis, TokenType.Plus, TokenType.Minus, Number}
      ==> r == Rejected(UnexpectedToken(ts[p], Number))
    decreases |ts| - p, 1
  {
    var t := ts[p].tokenType;
    if t == Identifier then ParseNamed(ts, p)
    else if t == OpenParenthesis then ParseGroup(ts, p)
    else if t == TokenType.Plus || t == TokenType.Minus then ParseSigned(ts, p)
    else ParseNumber(ts, p)
  }

  /** An identifier: a call when `(` follows, whose parameters must be closed by `)`; a variable otherwise. */
  function ParseNamed(ts: seq<Token>, p: nat): (r: Parsed<Node>)
    requires At(ts, p) && ts[p].tokenType == Identifier
    ensures r.Parsed? ==> p < r.next < |ts|
    ensures r.Parsed? ==> (r.value.VariableNode? || r.value.FunctionNode?) && r.value.identifier == ts[p].value.value
    ensures ts[p + 1].tokenType != OpenParenthesis ==> r == Parsed(VariableNode(ts[p].value.value), p + 1)
    ensures ts[p + 1].tokenType == OpenParenthesis && r.Parsed? ==> r.value.FunctionNode? && ts[r.next - 1].tokenType == CloseParenthesis
    decreases |ts| - p, 0
  {
    var identifier := ts[p].value.value;
    if ts[p + 1].tokenType == OpenParenthesis then
      var parameters := ParseParameters(ts, p + 2);
      if parameters.Rejected? then Rejected(parameters.error)
      else
        var close := ConsumeAt(ts, parameters.next, CloseParenthesis);
        if close.Failure? then Rejected(close.error)
        else Parsed(FunctionNode(identifier, parameters.value), close.value)
    else
      Parsed(VariableNode(identifier), p + 1)
  }

  /** `( expression )`: the inner `ExpressionNode` itself, once the `)` is there. */
  function ParseGroup(ts: seq<Token>, p: nat): (r: Parsed<Node>)
    requires At(ts, p) && ts[p].tokenType == OpenParenthesis
    ensures r.Parsed? ==> p < r.next < |ts|
    decreases |ts| - p, 0
  {
    var inner := ParseExpression(ts, p + 1);
    if inner.Rejected? then inner
    else
      var close := ConsumeAt(ts, inner.next, CloseParenthesis);
      if close.Failure? then Rejected(close.error) else Parsed(inner.value, close.value)
  }

  /** A sign in front of a factor: a `UnaryNode`, never simplified away. */
  function ParseSigned(ts: seq<Token>, p: nat): (r: Parsed<Node>)
    requires At(ts, p) && ts[p].tokenType in {TokenType.Plus, TokenType.Minus}
    ensures r.Parsed? ==> p < r.next < |ts|
    decreases |ts| - p, 0
  {
    var op := if ts[p].tokenType == TokenType.Plus then OperatorType.Plus else OperatorType.Minus;
    var operand := ParseFactor(ts, p + 1);
    if operand.Rejected? then operand else Parsed(UnaryNode(op, operand.value), operand.next)
  }

  /** Anything else must be a Number token; its text is converted to its value. */
  function ParseNumber(ts: seq<Token>, p: nat): (r: Parsed<Node>)
    requires At(ts, p)
    ensures r.Parsed? ==> r.next == p + 1 < |ts|
  {
    var next := ConsumeAt(ts, p, Number);
    if next.Failure? then Rejected(next.error)
    else Parsed(NumberNode(LiteralValue(ts[p].value.value)), next.value)
  }

  /** `Parameters`: nothing before a `)`, otherwise expressions separated by commas. */
  function ParseParameters(ts: seq<Token>, p: nat): (r: Parsed<seq<Node>>)
    requires At(ts, p)
    ensures r.Parsed? ==> p <= r.next < |ts|
    decreases |ts| - p, 5
  {
    if ts[p].tokenType == CloseParenthesis then Parsed([], p)
    else
      var first := ParseExpression(ts, p);
      if first.Rejected? then Rejected(first.error)
      else ParametersRest(ts, first.next, [first.value])
  }

  /** The loop of `Parameters`: while the current token is `,`, another expression. */
  function ParametersRest(ts: seq<Token>, p: nat, acc: seq<Node>): (r: Parsed<seq<Node>>)
    requires At(ts, p)
    ensures r.Parsed? ==> p <= r.next < |ts|
    decreases |ts| - p, 0
  {
    if ts[p].tokenType == Comma then
      var e := ParseExpression(ts, p + 1);
      if e.Rejected? then Rejected(e.error)
      else ParametersRest(ts, e.next, acc + [e.value])
    else
      Parsed(acc, p)
  }

  // ---------------------------------------------------------------------------
  // The shapes of the trees the parser builds.

  /** An `ExpressionNode` alternating terms with Plus/Minus markers. */
  predicate IsExpressionTree(n: Node)
    decreases n, 1
  {
    && n.ExpressionNode?
    && Alternates(n.children, AdditiveOps)
    && forall k :: 0 <= k < |n.children| && k % 2 == 0 ==> IsTermTree(n.children[k])
  }

  /** A `TermNode` alternating exponent operands with Multiplication/Division/Modulo markers. */
  predicate IsTermTree(n: Node)
    decreases n, 0
  {
    && n.TermNode?
    && Alternates(n.children, MultiplicativeOps)
    && forall k :: 0 <= k < |n.children| && k % 2 == 0 ==> IsExponentTree(n.children[k])
  }

  /** A factor, or an `ExponentNode` whose base is a factor and whose exponent is again of this shape. */
  predicate IsExponentTree(n: Node)
    decreases n, 3
  {
    || IsFactorTree(n)
    || (n.ExponentNode? && IsFactorTree(n.base) && IsExponentTree(n.exponent))
  }

  /** A number, a variable, a call on expressions, a signed factor, or a parenthesised expression. */
  predicate IsFactorTree(n: Node)
    decreases n, 2
  {
    match n
    case NumberNode(_) => true
    case VariableNode(_) => true
    case FunctionNode(_, parameters) => forall q :: q in parameters ==> IsExpressionTree(q)
    case UnaryNode(op, child) => op in {OperatorType.Plus, OperatorType.Minus} && IsFactorTree(child)
    case ExpressionNode(_) => IsExpressionTree(n)
    case _ => false
  }

  lemma AlternatesExtend(acc: seq<Node>, ops: set<OperatorType>, op: OperatorType, operand: Node)
    requires Alternates(acc, ops) && op in ops && !operand.OperatorNode?
    ensures Alternates(acc + [OperatorNode(op), operand], ops)
  {
    var cs := acc + [OperatorNode(op), operand];
    forall k | 0 <= k < |cs|
      ensures k % 2 == 0 ==> !cs[k].OperatorNode?
      ensures k % 2 == 1 ==> cs[k].OperatorNode? && cs[k].op in ops
    {
      if k < |acc| {
        assert cs[k] == acc[k];
      }
    }
  }

  /** Every successful `Root` is an expression tree, and it consumed every token up to the end. */
  lemma RootShape(ts: seq<Token>)
    requires Parsable(ts)
    ensures ParseRoot(ts).Success? ==> IsExpressionTree(ParseRoot(ts).value)
    ensures ParseRoot(ts).Success? <==> ParseExpression(ts, 0).Parsed? && ParseExpression(ts, 0).next == |ts| - 1
  {
    ExpressionShape(ts, 0);
  }

  /** Every tree `Parse` returns is an `ExpressionNode` of the alternating shape. */
  lemma ParseShape(input: string)
    ensures Parse(input).Success? ==> IsExpressionTree(Parse(input).value)
  {
    TokenizeValid(input);
    ValidIsParsable(Tokenize(input));
    RootShape(Tokenize(input));
  }

  lemma {:induction false} ExpressionShape(ts: seq<Token>, p: nat)
    requires At(ts, p)
    ensures ParseExpression(ts, p).Parsed? ==> IsExpressionTree(ParseExpression(ts, p).value)
    decreases |ts| - p, 4
  {
    var first := ParseTerm(ts, p);
    TermShape(ts, p);
    if first.Parsed? {
      ExpressionRestShape(ts, first.next, [first.value]);
    }
  }

  lemma {:induction false} ExpressionRestShape(ts: seq<Token>, p: nat, acc: seq<Node>)
    requires At(ts, p)
    requires Alternates(acc, AdditiveOps) && forall k :: 0 <= k < |acc| && k % 2 == 0 ==> IsTermTree(acc[k])
    ensures var r := ExpressionRest(ts, p, acc);
      r.Parsed? ==> Alternates(r.value, AdditiveOps) && forall k :: 0 <= k < |r.value| && k % 2 == 0 ==> IsTermTree(r.value[k])
    decreases |ts| - p, 0
  {
    var t := ts[p].tokenType;
    if t == TokenType.Plus || t == TokenType.Minus {
      var op := if t == TokenType.Plus then OperatorType.Plus else OperatorType.Minus;
      var term := ParseTerm(ts, p + 1);
      TermShape(ts, p + 1);
      if term.Parsed? {
        var cs := acc + [OperatorNode(op), term.value];
        AlternatesExtend(acc, AdditiveOps, op, term.value);
        assert forall k :: 0 <= k < |cs| && k % 2 == 0 ==> IsTermTree(cs[k]) by {
          forall k | 0 <= k < |cs| && k % 2 == 0 ensures IsTermTree(cs[k]) {
            if k < |acc| { assert cs[k] == acc[k]; }
          }
        }
        ExpressionRestShape(ts, term.next, cs);
      }
    }
  }

  lemma {:induction false} TermShape(ts: seq<Token>, p: nat)
    requires At(ts, p)
    ensures ParseTerm(ts, p).Parsed? ==> IsTermTree(ParseTerm(ts, p).value)
    decreases |ts| - p, 3
  {
    var first := ParseExponent(ts, p);
    ExponentShape(ts, p);
    if first.Parsed? {
      TermRestShape(ts, first.next, [first.value]);
    }
  }

  lemma {:induction false} TermRestShape(ts: seq<Token>, p: nat, acc: seq<Node>)
    requires At(ts, p)
    requires Alternates(acc, MultiplicativeOps) && forall k :: 0 <= k < |acc| && k % 2 == 0 ==> IsExponentTree(acc[k])
    ensures var r := TermRest(ts, p, acc);
      r.Parsed? ==> Alternates(r.value, MultiplicativeOps) && forall k :: 0 <= k < |r.value| && k % 2 == 0 ==> IsExponentTree(r.value[k])
    decreases |ts| - p, 0
  {
    var t := ts[p].tokenType;
    if t == TokenType.Multiplication || t == TokenType.Division || t == TokenType.Modulo {
      var op :=
        if t == TokenType.Multiplication then OperatorType.Multiplication
        else if t == TokenType.Division then OperatorType.Division
        else OperatorType.Modulo;
      var operand := ParseExponent(ts, p + 1);
      ExponentShape(ts, p + 1);
      if operand.Parsed? {
        var cs := acc + [OperatorNode(op), operand.value];
        AlternatesExtend(acc, MultiplicativeOps, op, operand.value);
        assert forall k :: 0 <= k < |cs| && k % 2 == 0 ==> IsExponentTree(cs[k]) by {
          forall k | 0 <= k < |cs| && k % 2 == 0 ensures IsExponentTree(cs[k]) {
            if k < |acc| { assert cs[k] == acc[k]; }
          }
        }
        TermRestShape(ts, operand.next, cs);
      }
    }
  }

  lemma {:induction false} ExponentShape(ts: seq<Token>, p: nat)
    requires At(ts, p)
    ensures ParseExponent(ts, p).Parsed? ==> IsExponentTree(ParseExponent(ts, p).value)
    ensures ParseExponent(ts, p).Parsed? ==> !ParseExponent(ts, p).value.OperatorNode?
    decreases |ts| - p, 2
  {
    var b := ParseFactor(ts, p);
    FactorShape(ts, p);
    if b.Parsed? && ts[b.next].tokenType == Power {
      ExponentShape(ts, b.next + 1);
    }
  }

  lemma {:induction false} FactorShape(ts: seq<Token>, p: nat)
    requires At(ts, p)
    ensures ParseFactor(ts, p).Parsed? ==> IsFactorTree(ParseFactor(ts, p).value)
    decreases |ts| - p, 1
  {
    var t := ts[p].tokenType;
    if t == Identifier {
      var r := ParseNamed(ts, p);
      if ts[p + 1].tokenType == OpenParenthesis {
        ParametersShape(ts, p + 2);
        if r.Parsed? {
          assert r.value == FunctionNode(ts[p].value.value, ParseParameters(ts, p + 2).value);
        }
      } else {
        assert r.value == VariableNode(ts[p].value.value);
      }
      assert ParseFactor(ts, p) == r;
    } else if t == OpenParenthesis {
      ExpressionShape(ts, p + 1);
      var r := ParseGroup(ts, p);
      if r.Parsed? {
        assert r.value == ParseExpression(ts, p + 1).value;
        assert IsFactorTree(r.value);
      }
    } else if t == TokenType.Plus || t == TokenType.Minus {
      FactorShape(ts, p + 1);
      var r := ParseSigned(ts, p);
      if r.Parsed? {
        var op := if t == TokenType.Plus then OperatorType.Plus else OperatorType.Minus;
        assert r.value == UnaryNode(op, ParseFactor(ts, p + 1).value);
      }
    }
  }

  lemma {:induction false} ParametersShape(ts: seq<Token>, p: nat)
    requires At(ts, p)
    ensures ParseParameters(ts, p).Parsed? ==> forall q :: q in ParseParameters(ts, p).value ==> IsExpressionTree(q)
    decreases |ts| - p, 5
  {
    if ts[p].tokenType != CloseParenthesis {
      var first := ParseExpression(ts, p);
      ExpressionShape(ts, p);
      if first.Parsed? {
        ParametersRestShape(ts, first.next, [first.value]);
      }
    }
  }

  lemma {:induction false} ParametersRestShape(ts: seq<Token>, p: nat, acc: seq<Node>)
    requires At(ts, p)
    requires forall q :: q in acc ==> IsExpressionTree(q)
    ensures ParametersRest(ts, p, acc).Parsed? ==> forall q :: q in ParametersRest(ts, p, acc).value ==> IsExpressionTree(q)
    decreases |ts| - p, 0
  {
    if ts[p].tokenType == Comma {
      var e := ParseExpression(ts, p + 1);
      ExpressionShape(ts, p + 1);
      if e.Parsed? {
        ParametersRestShape(ts, e.next, acc + [e.value]);
      }
    }
  }

  // ---------------------------------------------------------------------------
  // Concrete parses, on the lexer's tokens.

  const EndToken := OfType(EndOfInput)

  /** "4 5": the expression stops after 4, and `Root` then finds 5 where the end was expected. */
  lemma TwoNumbersAreRejected()
    ensures ParseRoot([WithValue(Number, "4"), WithValue(Number, "5"), EndToken])
         == Failure(UnexpectedToken(WithValue(Number, "5"), EndOfInput))
  {
    var ts := [WithValue(Number, "4"), WithValue(Number, "5"), EndToken];
    assert Parsable(ts);
    var four := NumberNode(LiteralValue("4"));
    assert ParseNumber(ts, 0) == Parsed(four, 1);
    assert ParseFactor(ts, 0) == Parsed(four, 1);
    assert ParseExponent(ts, 0) == Parsed(four, 1);
    assert TermRest(ts, 1, [four]) == Parsed([four], 1);
    assert ParseTerm(ts, 0) == Parsed(TermNode([four]), 1);
    assert ExpressionRest(ts, 1, [TermNode([four])]) == Parsed([TermNode([four])], 1);
    assert ParseExpression(ts, 0) == Parsed(ExpressionNode([TermNode([four])]), 1);
  }

  /**
   * The text "4 5" lexes to exactly the tokens above, so parsing the text
   * fails the same way.
   */
  lemma TwoNumbersTextIsRejected()
    ensures Tokenize("4 5") == [WithValue(Number, "4"), WithValue(Number, "5"), EndToken]
    ensures Parse("4 5") == Failure(UnexpectedToken(WithValue(Number, "5"), EndOfInput))
  {
    var s := "4 5";
    assert Scan(s, 3) == (EndToken, 3);
    assert TokensFrom(s, 3) == [EndToken];
    assert SkipWhitespace(s, 1) == 2 && DigitsEnd(s, 2) == 3 && NumberEnd(s, 2) == 3 && s[2..3] == "5";
    assert Scan(s, 1) == (WithValue(Number, "5"), 3);
    assert TokensFrom(s, 1) == [WithValue(Number, "5"), EndToken];
    assert SkipWhitespace(s, 0) == 0 && DigitsEnd(s, 0) == 1 && NumberEnd(s, 0) == 1 && s[0..1] == "4";
    assert Scan(s, 0) == (WithValue(Number, "4"), 1);
    TwoNumbersAreRejected();
  }

  /** "a ^ b ^ c" nests to the right. */
  lemma PowerIsRightAssociative()
    ensures ParseRoot([WithValue(Identifier, "a"), OfType(Power), WithValue(Identifier, "b"), OfType(Power), WithValue(Identifier, "c"), EndToken])
         == Success(ExpressionNode([TermNode([ExponentNode(VariableNode("a"), ExponentNode(VariableNode("b"), VariableNode("c")))])]))
  {
    var ts := [WithValue(Identifier, "a"), OfType(Power), WithValue(Identifier, "b"), OfType(Power), WithValue(Identifier, "c"), EndToken];
    assert Parsable(ts);
    var a, b, c := VariableNode("a"), VariableNode("b"), VariableNode("c");
    assert ParseNamed(ts, 4) == Parsed(c, 5);
    assert ParseExponent(ts, 4) == Parsed(c, 5);
    assert ParseNamed(ts, 2) == Parsed(b, 3);
    assert ParseExponent(ts, 2) == Parsed(ExponentNode(b, c), 5);
    assert ParseNamed(ts, 0) == Parsed(a, 1);
    var x := ExponentNode(a, ExponentNode(b, c));
    assert ParseExponent(ts, 0) == Parsed(x, 5);
    assert TermRest(ts, 5, [x]) == Parsed([x], 5);
    assert ParseTerm(ts, 0) == Parsed(TermNode([x]), 5);
    assert ExpressionRest(ts, 5, [TermNode([x])]) == Parsed([TermNode([x])], 5);
    assert ParseExpression(ts, 0) == Parsed(ExpressionNode([TermNode([x])]), 5);
  }

  /** "f()" is a call with no parameters. */
  lemma EmptyArgumentList()
    ensures ParseRoot([WithValue(Identifier, "f"), OfType(OpenParenthesis), OfType(CloseParenthesis), EndToken])
         == Success(ExpressionNode([TermNode([FunctionNode("f", [])])]))
  {
    var ts := [WithValue(Identifier, "f"), OfType(OpenParenthesis), OfType(CloseParenthesis), EndToken];
    assert Parsable(ts);
    var x := FunctionNode("f", []);
    assert ParseParameters(ts, 2) == Parsed([], 2);
    assert ParseNamed(ts, 0) == Parsed(x, 3);
    assert ParseExponent(ts, 0) == Parsed(x, 3);
    assert TermRest(ts, 3, [x]) == Parsed([x], 3);
    assert ParseTerm(ts, 0) == Parsed(TermNode([x]), 3);
    assert ExpressionRest(ts, 3, [TermNode([x])]) == Parsed([TermNode([x])], 3);
    assert ParseExpression(ts, 0) == Parsed(ExpressionNode([TermNode([x])]), 3);
  }

  /** "--5": each sign is its own `UnaryNode`. */
  lemma SignsNest()
    ensures ParseRoot([OfType(TokenType.Minus), OfType(TokenType.Minus), WithValue(Number, "5"), EndToken])
         == Success(ExpressionNode([TermNode([UnaryNode(OperatorType.Minus, UnaryNode(OperatorType.Minus, NumberNode(5.0)))])]))
  {
    var ts := [OfType(TokenType.Minus), OfType(TokenType.Minus), WithValue(Number, "5"), EndToken];
    assert Parsable(ts);
    assert LiteralValue("5") == 5.0;
    var five := NumberNode(5.0);
    assert ParseNumber(ts, 2) == Parsed(five, 3);
    assert ParseFactor(ts, 2) == Parsed(five, 3);
    assert ParseSigned(ts, 1) == Parsed(UnaryNode(OperatorType.Minus, five), 3);
    var x := UnaryNode(OperatorType.Minus, UnaryNode(OperatorType.Minus, five));
    assert ParseSigned(ts, 0) == Parsed(x, 3);
    assert ParseExponent(ts, 0) == Parsed(x, 3);
    assert TermRest(ts, 3, [x]) == Parsed([x], 3);
    assert ParseTerm(ts, 0) == Parsed(TermNode([x]), 3);
    assert ExpressionRest(ts, 3, [TermNode([x])]) == Parsed([TermNode([x])], 3);
    assert ParseExpression(ts, 0) == Parsed(ExpressionNode([TermNode([x])]), 3);
  }

  /** "sin(pi": the call's `)` is missing. */
  lemma UnclosedCallIsRejected()
    ensures ParseRoot([WithValue(Identifier, "sin"), OfType(OpenParenthesis), WithValue(Identifier, "pi"), EndToken])
         == Failure(UnexpectedToken(EndToken, CloseParenthesis))
  {
    var ts := [WithValue(Identifier, "sin"), OfType(OpenParenthesis), WithValue(Identifier, "pi"), EndToken];
    assert Parsable(ts);
    var pi := VariableNode("pi");
    assert ParseNamed(ts, 2) == Parsed(pi, 3);
    assert ParseExponent(ts, 2) == Parsed(pi, 3);
    assert TermRest(ts, 3, [pi]) == Parsed([pi], 3);
    assert ParseTerm(ts, 2) == Parsed(TermNode([pi]), 3);
    var e := ExpressionNode([TermNode([pi])]);
    assert ExpressionRest(ts, 3, [TermNode([pi])]) == Parsed([TermNode([pi])], 3);
    assert ParseExpression(ts, 2) == Parsed(e, 3);
    assert ParametersRest(ts, 3, [e]) == Parsed([e], 3);
    assert ParseParameters(ts, 2) == Parsed([e], 3);
    var error := UnexpectedToken(EndToken, CloseParenthesis);
    assert ParseNamed(ts, 0) == Rejected(error);
    assert ParseExponent(ts, 0) == Rejected(error);
    assert ParseTerm(ts, 0) == Rejected(error);
    assert ParseExpression(ts, 0) == Rejected(error);
  }

  /** "(x)": the group is the inner `ExpressionNode` itself, inside the outer term. */
  lemma GroupIsInnerExpression()
    ensures ParseRoot([OfType(OpenParenthesis), WithValue(Identifier, "x"), OfType(CloseParenthesis), EndToken])
         == Success(ExpressionNode([TermNode([ExpressionNode([TermNode([VariableNode("x")])])])]))
  {
    var ts := [OfType(OpenParenthesis), WithValue(Identifier, "x"), OfType(CloseParenthesis), EndToken];
    assert Parsable(ts);
    var x := VariableNode("x");
    assert ParseNamed(ts, 1) == Parsed(x, 2);
    assert ParseExponent(ts, 1) == Parsed(x, 2);
    assert TermRest(ts, 2, [x]) == Parsed([x], 2);
    assert ParseTerm(ts, 1) == Parsed(TermNode([x]), 2);
    var inner := ExpressionNode([TermNode([x])]);
    assert ExpressionRest(ts, 2, [TermNode([x])]) == Parsed([TermNode([x])], 2);
    assert ParseExpression(ts, 1) == Parsed(inner, 2);
    assert ParseGroup(ts, 0) == Parsed(inner, 3);
    assert ParseExponent(ts, 0) == Parsed(inner, 3);
    assert TermRest(ts, 3, [inner]) == Parsed([inner], 3);
    assert ParseTerm(ts, 0) == Parsed(TermNode([inner]), 3);
    assert ExpressionRest(ts, 3, [TermNode([inner])]) == Parsed([TermNode([inner])], 3);
    assert ParseExpression(ts, 0) == Parsed(ExpressionNode([TermNode([inner])]), 3);
  }

  /** "*": a token that cannot start a factor is reported as not being a Number. */
  lemma OperatorIsNotAFactor()
    ensures ParseRoot([OfType(TokenType.Multiplication), EndToken])
         == Failure(UnexpectedToken(OfType(TokenType.Multiplication), Number))
  {
    var ts := [OfType(TokenType.Multiplication), EndToken];
    assert Parsable(ts);
    var error := UnexpectedToken(OfType(TokenType.Multiplication), Number);
    assert ParseNumber(ts, 0) == Rejected(error);
    assert ParseFactor(ts, 0) == Rejected(error);
    assert ParseExponent(ts, 0) == Rejected(error);
    assert ParseTerm(ts, 0) == Rejected(error);
    assert ParseExpression(ts, 0) == Rejected(error);
  }

  /** The tokens of "1 - 2 * 3". */
  const OneMinusTwoTimesThree := [
    WithValue(Number, "1"), OfType(TokenType.Minus), WithValue(Number, "2"),
    OfType(TokenType.Multiplication), WithValue(Number, "3"), EndToken]

  lemma ProductIsOneTerm()
    ensures Parsable(OneMinusTwoTimesThree)
    ensures ParseTerm(OneMinusTwoTimesThree, 2)
         == Parsed(TermNode([NumberNode(2.0), OperatorNode(OperatorType.Multiplication), NumberNode(3.0)]), 5)
  {
    var ts := OneMinusTwoTimesThree;
    assert Parsable(ts);
    assert LiteralValue("2") == 2.0 && LiteralValue("3") == 3.0;
    var two, three := NumberNode(2.0), NumberNode(3.0);
    var times := OperatorNode(OperatorType.Multiplication);
    assert ParseNumber(ts, 2) == Parsed(two, 3);
    assert ParseExponent(ts, 2) == Parsed(two, 3);
    assert ParseNumber(ts, 4) == Parsed(three, 5);
    assert ParseExponent(ts, 4) == Parsed(three, 5);
    assert TermRest(ts, 5, [two, times, three]) == Parsed([two, times, three], 5);
    assert [two] + [times, three] == [two, times, three];
    assert TermRest(ts, 3, [two]) == Parsed([two, times, three], 5);
  }

  /** "1 - 2 * 3": the additive list holds two terms, the second a multiplicative list. */
  lemma PrecedenceOfTerms()
    ensures ParseRoot(OneMinusTwoTimesThree)
         == Success(ExpressionNode([
              TermNode([NumberNode(1.0)]),
              OperatorNode(OperatorType.Minus),
              TermNode([NumberNode(2.0), OperatorNode(OperatorType.Multiplication), NumberNode(3.0)])]))
  {
    var ts := OneMinusTwoTimesThree;
    ProductIsOneTerm();
    assert LiteralValue("1") == 1.0;
    var one := NumberNode(1.0);
    assert ParseNumber(ts, 0) == Parsed(one, 1);
    assert ParseExponent(ts, 0) == Parsed(one, 1);
    assert TermRest(ts, 1, [one]) == Parsed([one], 1);
    assert ParseTerm(ts, 0) == Parsed(TermNode([one]), 1);
    var second := TermNode([NumberNode(2.0), OperatorNode(OperatorType.Multiplication), NumberNode(3.0)]);
    var children := [TermNode([one]), OperatorNode(OperatorType.Minus), second];
    assert ExpressionRest(ts, 5, children) == Parsed(children, 5);
    assert [TermNode([one])] + [OperatorNode(OperatorType.Minus), second] == children;
    assert ExpressionRest(ts, 1, [TermNode([one])]) == Parsed(children, 5);
    assert ParseExpression(ts, 0) == Parsed(ExpressionNode(children), 5);
  }

  // ---------------------------------------------------------------------------
  // The parser object: the methods of the source, run on the lexer's cursor.

  /** How a parser method's outcome and the cursor it leaves relate to its specification. */
  predicate Agrees<T(==)>(r: Result<T, ParseError>, spec: Parsed<T>, position: nat) {
    if spec.Parsed? then r == Success(spec.value) && position == spec.next
    else r == Failure(spec.error)
  }

  /** Scanning at the end of the input yields `EndOfInput` and leaves the cursor there. */
  lemma ScanAtEnd(input: string)
    ensures Scan(input, |input|) == (OfType(EndOfInput), |input|)
  {
  }

  /** The lexer's cursor after each token of `TokensFrom(input, i)`. */
  ghost function CursorsFrom(input: string, i: nat): (cs: seq<nat>)
    requires i <= |input|
    decreases |input| - i
  {
    var (t, j) := Scan(input, i);
    if t.tokenType == EndOfInput then [j] else [j] + CursorsFrom(input, j)
  }

  /**
   * The lexer's run as a chain: `tokens[k + 1]` is what the lexer scans from
   * the cursor `ends[k]` it was left at by `tokens[k]`, and the last cursor
   * is the end of the input.
   */
  ghost predicate ScanChain(input: string, tokens: seq<Token>, ends: seq<nat>) {
    && |ends| == |tokens| > 0
    && (forall k :: 0 <= k < |ends| ==> ends[k] <= |input|)
    && ends[|ends| - 1] == |input|
    && (forall k {:trigger Scan(input, ends[k])} :: 0 <= k < |tokens| - 1 ==> Scan(input, ends[k]) == (tokens[k + 1], ends[k + 1]))
  }

  lemma {:induction false} CursorsChain(input: string, i: nat)
    requires i <= |input|
    ensures ScanChain(input, TokensFrom(input, i), CursorsFrom(input, i))
    ensures (TokensFrom(input, i)[0], CursorsFrom(input, i)[0]) == Scan(input, i)
    decreases |input| - i
  {
    var (t, j) := Scan(input, i);
    if t.tokenType != EndOfInput {
      CursorsChain(input, j);
      var ts, es := TokensFrom(input, j), CursorsFrom(input, j);
      assert TokensFrom(input, i) == [t] + ts;
      assert CursorsFrom(input, i) == [j] + es;
      forall k | 0 <= k < |ts|
        ensures k + 1 < |ts| ==> Scan(input, es[k]) == (ts[k + 1], es[k + 1])
      {
      }
    }
  }

  class Parser {
    const lexer: Lexer
    /** The tokens the lexer hands out from the parser's construction on. */
    ghost const tokens: seq<Token>
    /** How many of them have been consumed. */
    ghost var position: nat

    /** The lexer's cursor after each of `tokens`. */
    ghost const ends: seq<nat>

    /**
     * The lexer's current token is `tokens[position]` and its cursor is
     * where that token ended, so its next scans produce the rest of `tokens`.
     */
    ghost predicate Valid()
      reads this, lexer
    {
      && lexer.Valid()
      && Parsable(tokens)
      && ScanChain(lexer.input, tokens, ends)
      && position < |tokens|
      && lexer.currentToken == tokens[position]
      && lexer.index == ends[position]
    }

    /** The lexer is injected; it has already scanned its current token from some position `start`. */
    constructor(lexer: Lexer, ghost start: nat)
      requires lexer.Valid() && start <= |lexer.input|
      requires (lexer.currentToken, lexer.index) == Scan(lexer.input, start)
      ensures Valid() && this.lexer == lexer
      ensures tokens == TokensFrom(lexer.input, start) && position == 0
    {
      this.lexer := lexer;
      tokens := TokensFrom(lexer.input, start);
      ends := CursorsFrom(lexer.input, start);
      position := 0;
      new;
      TokensFromValid(lexer.input, start);
      ValidIsParsable(tokens);
      CursorsChain(lexer.input, start);
    }

    /** `Parse`: the whole token stream as one expression. */
    method Parse() returns (r: Result<Node, ParseError>)
      requires Valid() && position == 0
      modifies this, lexer
      ensures r == ParseRoot(tokens)
    {
      r := Root();
    }

    method Root() returns (r: Result<Node, ParseError>)
      requires Valid() && position == 0
      modifies this, lexer
      ensures r == ParseRoot(tokens)
    {
      var node :- Expression();
      :- Consume(EndOfInput);
      return Success(node);
    }

    /** `Consume`: the lexer advances when its current token has kind `t`; otherwise the parse fails naming both. */
    method Consume(t: TokenType) returns (r: Outcome<ParseError>)
      requires Valid()
      modifies this, lexer
      ensures Valid()
      ensures ConsumeAt(tokens, old(position), t).Success? ==> r == Pass && position == ConsumeAt(tokens, old(position), t).value
      ensures ConsumeAt(tokens, old(position), t).Failure? ==> r == Fail(ConsumeAt(tokens, old(position), t).error)
    {
      ghost var before := lexer.index;
      var consumed := lexer.Consume(t);
      if !consumed {
        return Fail(UnexpectedToken(lexer.currentToken, t));
      }
      if t == EndOfInput {
        ScanAtEnd(lexer.input);
      } else {
        position := position + 1;
      }
      return Pass;
    }

    method Expression() returns (r: Result<Node, ParseError>)
      requires Valid()
      modifies this, lexer
      ensures Valid()
      ensures Agrees(r, ParseExpression(tokens, old(position)), position)
      decreases |tokens| - position, 4
    {
      var first :- Term();
      ghost var afterFirst := position;
      var children := [first];
      while lexer.currentToken.tokenType == TokenType.Plus || lexer.currentToken.tokenType == TokenType.Minus
        invariant Valid() && old(position) < position
        invariant ExpressionRest(tokens, afterFirst, [first]) == ExpressionRest(tokens, position, children)
        decreases |tokens| - position
      {
        var op := if lexer.currentToken.tokenType == TokenType.Plus then OperatorType.Plus else OperatorType.Minus;
        var _ := Consume(lexer.currentToken.tokenType);
        var term :- Term();
        children := children + [OperatorNode(op), term];
      }
      return Success(ExpressionNode(children));
    }

    method Term() returns (r: Result<Node, ParseError>)
      requires Valid()
      modifies this, lexer
      ensures Valid()
      ensures Agrees(r, ParseTerm(tokens, old(position)), position)
      decreases |tokens| - position, 3
    {
      var first :- Exponent();
      ghost var afterFirst := position;
      var children := [first];
      while
        || lexer.currentToken.tokenType == TokenType.Multiplication
        || lexer.currentToken.tokenType == TokenType.Division
        || lexer.currentToken.tokenType == TokenType.Modulo
        invariant Valid() && old(position) < position
        invariant TermRest(tokens, afterFirst, [first]) == TermRest(tokens, position, children)
        decreases |tokens| - position
      {
        var op :=
          if lexer.currentToken.tokenType == TokenType.Multiplication then OperatorType.Multiplication
          else if lexer.currentToken.tokenType == TokenType.Division then OperatorType.Division
          else OperatorType.Modulo;
        var _ := Consume(lexer.currentToken.tokenType);
        var operand :- Exponent();
        children := children + [OperatorNode(op), operand];
      }
      return Success(TermNode(children));
    }

    method Exponent() returns (r: Result<Node, ParseError>)
      requires Valid()
      modifies this, lexer
      ensures Valid()
      ensures Agrees(r, ParseExponent(tokens, old(position)), position)
      decreases |tokens| - position, 2
    {
      var base :- Factor();
      if lexer.currentToken.tokenType == Power {
        var _ := Consume(Power);
        var exponent :- Exponent();
        return Success(ExponentNode(base, exponent));
      }
      return Success(base);
    }

    method Factor() returns (r: Result<Node, ParseError>)
      requires Valid()
      modifies this, lexer
      ensures Valid()
      ensures Agrees(r, ParseFactor(tokens, old(position)), position)
      decreases |tokens| - position, 1
    {
      if lexer.currentToken.tokenType == Identifier {
        r := Named();
      } else if lexer.currentToken.tokenType == OpenParenthesis {
        r := Group();
      } else if lexer.currentToken.tokenType == TokenType.Plus || lexer.currentToken.tokenType == TokenType.Minus {
        r := Signed();
      } else {
        r := NumberLiteral();
      }
    }

    /** The identifier branch of `Factor`. */
    method Named() returns (r: Result<Node, ParseError>)
      requires Valid() && lexer.currentToken.tokenType == Identifier
      modifies this, lexer
      ensures Valid()
      ensures Agrees(r, ParseNamed(tokens, old(position)), position)
      decreases |tokens| - position, 0
    {
      var identifier := lexer.currentToken.value.value;
      var _ := Consume(Identifier);
      if lexer.currentToken.tokenType == OpenParenthesis {
        var _ := Consume(OpenParenthesis);
        var parameters :- Parameters();
        :- Consume(CloseParenthesis);
        return Success(FunctionNode(identifier, parameters));
      }
      return Success(VariableNode(identifier));
    }

    /** The parenthesis branch of `Factor`. */
    method Group() returns (r: Result<Node, ParseError>)
      requires Valid() && lexer.currentToken.tokenType == OpenParenthesis
      modifies this, lexer
      ensures Valid()
      ensures Agrees(r, ParseGroup(tokens, old(position)), position)
      decreases |tokens| - position, 0
    {
      var _ := Consume(OpenParenthesis);
      var node :- Expression();
      :- Consume(CloseParenthesis);
      return Success(node);
    }

    /** The sign branch of `Factor`. */
    method Signed() returns (r: Result<Node, ParseError>)
      requires Valid() && lexer.currentToken.tokenType in {TokenType.Plus, TokenType.Minus}
      modifies this, lexer
      ensures Valid()
      ensures Agrees(r, ParseSigned(tokens, old(position)), position)
      decreases |tokens| - position, 0
    {
      var op := if lexer.currentToken.tokenType == TokenType.Plus then OperatorType.Plus else OperatorType.Minus;
      var _ := Consume(lexer.currentToken.tokenType);
      var operand :- Factor();
      return Success(UnaryNode(op, operand));
    }

    /** The last branch of `Factor`: "probably a number". */
    method NumberLiteral() returns (r: Result<Node, ParseError>)
      requires Valid()
      modifies this, lexer
      ensures Valid()
      ensures Agrees(r, ParseNumber(tokens, old(position)), position)
    {
      var token := lexer.currentToken;
      :- Consume(Number);
      return Success(NumberNode(LiteralValue(token.value.value)));
    }

    method Parameters() returns (r: Result<seq<Node>, ParseError>)
      requires Valid()
      modifies this, lexer
      ensures Valid()
      ensures Agrees(r, ParseParameters(tokens, old(position)), position)
      decreases |tokens| - position, 5
    {
      if lexer.currentToken.tokenType == CloseParenthesis {
        return Success([]);
      }
      var first :- Expression();
      ghost var afterFirst := position;
      var parameters := [first];
      while lexer.currentToken.tokenType == Comma
        invariant Valid() && old(position) < position
        invariant ParametersRest(tokens, afterFirst, [first]) == ParametersRest(tokens, position, parameters)
        decreases |tokens| - position
      {
        var _ := Consume(Comma);
        var expression :- Expression();
        parameters := parameters + [expression];
      }
      return Success(parameters);
    }
  }
}
