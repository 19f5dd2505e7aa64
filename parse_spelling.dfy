/**
 * What a parse stands for: the tokens a syntax tree spells back.
 *
 * The parser keeps every token it reads in the tree it returns: an
 * identifier's name, a number's value, an operator or sign as a marker or a
 * `UnaryNode`, `^` as an `ExponentNode`, and parentheses and commas as the
 * structure of groups and calls. `Spell` reads a tree back as the symbols of
 * those tokens, and `ParseRootSpelling` proves that a successful parse spells
 * exactly the tokens before `EndOfInput`. A number's text is read as its
 * value, so `2.50` and `2.5` spell alike.
 */
module ParseSpelling {
  import opened Wrappers
  import opened Tokens
  import opened Lexing
  import opened SyntaxTree
  import opened Parsing

  /** What a token contributes to a tree: its kind, an identifier's name, or a number's value. */
  datatype Symbol = KindSymbol(kind: TokenType) | NameSymbol(name: string) | NumberSymbol(value: real)

  function SymbolOf(t: Token): Symbol {
    if t.tokenType == Identifier && t.value.Some? then NameSymbol(t.value.value)
    else if t.tokenType == Number && t.value.Some? then NumberSymbol(LiteralValue(t.value.value))
    else KindSymbol(t.tokenType)
  }

  /** The symbols of the tokens from position `p` up to, not including, `q`. */
  function Symbols(ts: seq<Token>, p: nat, q: nat): (r: seq<Symbol>)
    requires p <= q <= |ts|
    ensures |r| == q - p
    ensures forall k :: 0 <= k < q - p ==> r[k] == SymbolOf(ts[p + k])
  {
    seq(q - p, k requires 0 <= k < q - p => SymbolOf(ts[p + k]))
  }

  lemma SymbolsSplit(ts: seq<Token>, p: nat, m: nat, q: nat)
    requires p <= m <= q <= |ts|
    ensures Symbols(ts, p, q) == Symbols(ts, p, m) + Symbols(ts, m, q)
  {
    var whole, left, right := Symbols(ts, p, q), Symbols(ts, p, m), Symbols(ts, m, q);
    forall k | 0 <= k < q - p
      ensures whole[k] == (left + right)[k]
    {
      if k >= m - p {
        assert right[k - (m - p)] == SymbolOf(ts[m + (k - (m - p))]);
      }
    }
  }

  /** The token kind an operator is written with. */
  function OperatorToken(op: OperatorType): TokenType {
    match op
    case Plus => TokenType.Plus
    case Minus => TokenType.Minus
    case Multiplication => TokenType.Multiplication
    case Division => TokenType.Division
    case Modulo => TokenType.Modulo
    case Exponent => Power
    case Undefined(_) => Unknown
  }

  // ---------------------------------------------------------------------------
  // Reading a tree back.

  /** The symbols a tree stands for, written where no parentheses are needed. */
  function Spell(n: Node): seq<Symbol>
    decreases n, 1
  {
    match n
    case NumberNode(v) => [NumberSymbol(v)]
    case VariableNode(id) => [NameSymbol(id)]
    case OperatorNode(op) => [KindSymbol(OperatorToken(op))]
    case BinaryNode(op, left, right) => SpellFactor(left) + [KindSymbol(OperatorToken(op))] + SpellFactor(right)
    case UnaryNode(op, child) => [KindSymbol(OperatorToken(op))] + SpellFactor(child)
    case FunctionNode(id, ps) =>
      [NameSymbol(id), KindSymbol(OpenParenthesis)] + SpellParameters(ps) + [KindSymbol(CloseParenthesis)]
    case TermNode(cs) => SpellFactors(cs)
    case ExpressionNode(cs) => SpellAll(cs)
    case ExponentNode(b, e) => SpellFactor(b) + [KindSymbol(Power)] + SpellFactor(e)
  }

  /** The symbols of a tree in factor position: an expression there is a parenthesised group. */
  function SpellFactor(n: Node): seq<Symbol>
    decreases n, 2
  {
    if n.ExpressionNode? then [KindSymbol(OpenParenthesis)] + Spell(n) + [KindSymbol(CloseParenthesis)]
    else Spell(n)
  }

  /** The children of an expression, one after another. */
  function SpellAll(cs: seq<Node>): seq<Symbol>
    decreases cs, 0
  {
    if cs == [] then [] else SpellAll(cs[..|cs| - 1]) + Spell(cs[|cs| - 1])
  }

  /** The children of a term, each in factor position. */
  function SpellFactors(cs: seq<Node>): seq<Symbol>
    decreases cs, 0
  {
    if cs == [] then [] else SpellFactors(cs[..|cs| - 1]) + SpellFactor(cs[|cs| - 1])
  }

  /** The parameters of a call, separated by commas. */
  function SpellParameters(ps: seq<Node>): seq<Symbol>
    decreases ps, 0
  {
    if ps == [] then []
    else if |ps| == 1 then Spell(ps[0])
    else SpellParameters(ps[..|ps| - 1]) + [KindSymbol(Comma)] + Spell(ps[|ps| - 1])
  }

  lemma SpellAllSnoc(cs: seq<Node>, c: Node)
    ensures SpellAll(cs + [c]) == SpellAll(cs) + Spell(c)
  {
    assert (cs + [c])[..|cs|] == cs;
  }

  lemma SpellFactorsSnoc(cs: seq<Node>, c: Node)
    ensures SpellFactors(cs + [c]) == SpellFactors(cs) + SpellFactor(c)
  {
    assert (cs + [c])[..|cs|] == cs;
  }

  lemma SpellParametersSnoc(ps: seq<Node>, q: Node)
    requires ps != []
    ensures SpellParameters(ps + [q]) == SpellParameters(ps) + [KindSymbol(Comma)] + Spell(q)
  {
    assert (ps + [q])[..|ps|] == ps;
  }

  // ---------------------------------------------------------------------------
  // Every parser method returns a tree that spells the tokens it consumed.

  lemma {:induction false} ExpressionSpelling(ts: seq<Token>, p: nat)
    requires At(ts, p)
    ensures ParseExpression(ts, p).Parsed? ==>
      Spell(ParseExpression(ts, p).value) == Symbols(ts, p, ParseExpression(ts, p).next)
    decreases |ts| - p, 4
  {
    var r := ParseExpression(ts, p);
    if r.Parsed? {
      var first := ParseTerm(ts, p);
      TermSpelling(ts, p);
      var rest := ExpressionRest(ts, first.next, [first.value]);
      ExpressionRestSpelling(ts, first.next, [first.value]);
      assert r.value == ExpressionNode(rest.value) && r.next == rest.next;
      SpellAllSnoc([], first.value);
      assert [] + [first.value] == [first.value];
      assert SpellAll([first.value]) == Symbols(ts, p, first.next);
      SymbolsSplit(ts, p, first.next, rest.next);
      assert SpellAll(rest.value) == Symbols(ts, p, r.next);
    }
  }

  lemma {:induction false} ExpressionRestSpelling(ts: seq<Token>, p: nat, acc: seq<Node>)
    requires At(ts, p)
    ensures ExpressionRest(ts, p, acc).Parsed? ==>
      SpellAll(ExpressionRest(ts, p, acc).value) == SpellAll(acc) + Symbols(ts, p, ExpressionRest(ts, p, acc).next)
    decreases |ts| - p, 0
  {
    var r := ExpressionRest(ts, p, acc);
    var t := ts[p].tokenType;
    if r.Parsed? && (t == TokenType.Plus || t == TokenType.Minus) {
      var op := if t == TokenType.Plus then OperatorType.Plus else OperatorType.Minus;
      var term := ParseTerm(ts, p + 1);
      TermSpelling(ts, p + 1);
      var acc' := acc + [OperatorNode(op), term.value];
      assert r == ExpressionRest(ts, term.next, acc');
      ExpressionRestSpelling(ts, term.next, acc');
      assert SymbolOf(ts[p]) == KindSymbol(OperatorToken(op));
      ExtendTerms(ts, p, term.next, r.next, acc, op, term.value);
    } else if r.Parsed? {
      assert r.next == p;
      assert Symbols(ts, p, p) == [];
    }
  }

  /** One more `+ term` at the end of an expression spells one more operator token and the term's tokens. */
  lemma ExtendTerms(ts: seq<Token>, p: nat, m: nat, q: nat, acc: seq<Node>, op: OperatorType, term: Node)
    requires p + 1 <= m <= q <= |ts|
    requires SymbolOf(ts[p]) == KindSymbol(OperatorToken(op))
    requires Spell(term) == Symbols(ts, p + 1, m)
    ensures SpellAll(acc + [OperatorNode(op), term]) + Symbols(ts, m, q) == SpellAll(acc) + Symbols(ts, p, q)
  {
    assert acc + [OperatorNode(op), term] == (acc + [OperatorNode(op)]) + [term];
    SpellAllSnoc(acc + [OperatorNode(op)], term);
    SpellAllSnoc(acc, OperatorNode(op));
    assert Symbols(ts, p, p + 1) == [KindSymbol(OperatorToken(op))];
    SymbolsSplit(ts, p, p + 1, q);
    SymbolsSplit(ts, p + 1, m, q);
  }

  lemma {:induction false} TermSpelling(ts: seq<Token>, p: nat)
    requires At(ts, p)
    ensures ParseTerm(ts, p).Parsed? ==>
      Spell(ParseTerm(ts, p).value) == Symbols(ts, p, ParseTerm(ts, p).next)
    decreases |ts| - p, 3
  {
    var r := ParseTerm(ts, p);
    if r.Parsed? {
      var first := ParseExponent(ts, p);
      ExponentSpelling(ts, p);
      var rest := TermRest(ts, first.next, [first.value]);
      TermRestSpelling(ts, first.next, [first.value]);
      assert r.value == TermNode(rest.value) && r.next == rest.next;
      SpellFactorsSnoc([], first.value);
      assert [] + [first.value] == [first.value];
      assert SpellFactors([first.value]) == Symbols(ts, p, first.next);
      SymbolsSplit(ts, p, first.next, rest.next);
      assert SpellFactors(rest.value) == Symbols(ts, p, r.next);
    }
  }

  lemma {:induction false} TermRestSpelling(ts: seq<Token>, p: nat, acc: seq<Node>)
    requires At(ts, p)
    ensures TermRest(ts, p, acc).Parsed? ==>
      SpellFactors(TermRest(ts, p, acc).value) == SpellFactors(acc) + Symbols(ts, p, TermRest(ts, p, acc).next)
    decreases |ts| - p, 0
  {
    var r := TermRest(ts, p, acc);
    var t := ts[p].tokenType;
    if r.Parsed? && (t == TokenType.Multiplication || t == TokenType.Division || t == TokenType.Modulo) {
      var op :=
        if t == TokenType.Multiplication then OperatorType.Multiplication
        else if t == TokenType.Division then OperatorType.Division
        else OperatorType.Modulo;
      var operand := ParseExponent(ts, p + 1);
      ExponentSpelling(ts, p + 1);
      var acc' := acc + [OperatorNode(op), operand.value];
      assert r == TermRest(ts, operand.next, acc');
      TermRestSpelling(ts, operand.next, acc');
      assert SymbolOf(ts[p]) == KindSymbol(OperatorToken(op));
      ExtendFactors(ts, p, operand.next, r.next, acc, op, operand.value);
    } else if r.Parsed? {
      assert r.next == p;
      assert Symbols(ts, p, p) == [];
    }
  }

  /** One more `* operand` at the end of a term spells one more operator token and the operand's tokens. */
  lemma ExtendFactors(ts: seq<Token>, p: nat, m: nat, q: nat, acc: seq<Node>, op: OperatorType, operand: Node)
    requires p + 1 <= m <= q <= |ts|
    requires SymbolOf(ts[p]) == KindSymbol(OperatorToken(op))
    requires SpellFactor(operand) == Symbols(ts, p + 1, m)
    ensures SpellFactors(acc + [OperatorNode(op), operand]) + Symbols(ts, m, q) == SpellFactors(acc) + Symbols(ts, p, q)
  {
    assert acc + [OperatorNode(op), operand] == (acc + [OperatorNode(op)]) + [operand];
    SpellFactorsSnoc(acc + [OperatorNode(op)], operand);
    SpellFactorsSnoc(acc, OperatorNode(op));
    assert Symbols(ts, p, p + 1) == [KindSymbol(OperatorToken(op))];
    SymbolsSplit(ts, p, p + 1, q);
    SymbolsSplit(ts, p + 1, m, q);
  }

  lemma {:induction false} ExponentSpelling(ts: seq<Token>, p: nat)
    requires At(ts, p)
    ensures ParseExponent(ts, p).Parsed? ==>
      SpellFactor(ParseExponent(ts, p).value) == Symbols(ts, p, ParseExponent(ts, p).next)
    decreases |ts| - p, 2
  {
    var r := ParseExponent(ts, p);
    var b := ParseFactor(ts, p);
    if r.Parsed? {
      FactorSpelling(ts, p);
      if ts[b.next].tokenType == Power {
        var e := ParseExponent(ts, b.next + 1);
        ExponentSpelling(ts, b.next + 1);
        assert r.value == ExponentNode(b.value, e.value) && r.next == e.next;
        PowerSpelling(ts, p, b.next, e.next, b.value, e.value);
      }
    }
  }

  /** A base's tokens, `^` and an exponent's tokens spell an `ExponentNode`. */
  lemma PowerSpelling(ts: seq<Token>, p: nat, m: nat, q: nat, base: Node, exponent: Node)
    requires p <= m < q <= |ts| && ts[m].tokenType == Power
    requires SpellFactor(base) == Symbols(ts, p, m) && SpellFactor(exponent) == Symbols(ts, m + 1, q)
    ensures SpellFactor(ExponentNode(base, exponent)) == Symbols(ts, p, q)
  {
    assert Symbols(ts, m, m + 1) == [KindSymbol(Power)];
    SymbolsSplit(ts, p, m, q);
    SymbolsSplit(ts, m, m + 1, q);
  }

  lemma {:induction false} FactorSpelling(ts: seq<Token>, p: nat)
    requires At(ts, p)
    ensures ParseFactor(ts, p).Parsed? ==>
      SpellFactor(ParseFactor(ts, p).value) == Symbols(ts, p, ParseFactor(ts, p).next)
    decreases |ts| - p, 1
  {
    var t := ts[p].tokenType;
    if t == Identifier {
      NamedSpelling(ts, p);
    } else if t == OpenParenthesis {
      GroupSpelling(ts, p);
    } else if t == TokenType.Plus || t == TokenType.Minus {
      SignedSpelling(ts, p);
    } else {
      var r := ParseNumber(ts, p);
      assert r.Parsed? ==> Symbols(ts, p, p + 1) == [SymbolOf(ts[p])];
    }
  }

  lemma {:induction false} GroupSpelling(ts: seq<Token>, p: nat)
    requires At(ts, p) && ts[p].tokenType == OpenParenthesis
    ensures ParseGroup(ts, p).Parsed? ==>
      SpellFactor(ParseGroup(ts, p).value) == Symbols(ts, p, ParseGroup(ts, p).next)
    decreases |ts| - p, 0
  {
    var r := ParseGroup(ts, p);
    if r.Parsed? {
      var inner := ParseExpression(ts, p + 1);
      ExpressionSpelling(ts, p + 1);
      assert r.value == inner.value && inner.value.ExpressionNode? && r.next == inner.next + 1;
      assert Symbols(ts, p, p + 1) == [KindSymbol(OpenParenthesis)];
      assert Symbols(ts, inner.next, r.next) == [KindSymbol(CloseParenthesis)];
      SymbolsSplit(ts, p, p + 1, r.next);
      SymbolsSplit(ts, p + 1, inner.next, r.next);
    }
  }

  lemma {:induction false} SignedSpelling(ts: seq<Token>, p: nat)
    requires At(ts, p) && ts[p].tokenType in {TokenType.Plus, TokenType.Minus}
    ensures ParseSigned(ts, p).Parsed? ==>
      SpellFactor(ParseSigned(ts, p).value) == Symbols(ts, p, ParseSigned(ts, p).next)
    decreases |ts| - p, 0
  {
    var r := ParseSigned(ts, p);
    if r.Parsed? {
      var t := ts[p].tokenType;
      var op := if t == TokenType.Plus then OperatorType.Plus else OperatorType.Minus;
      var operand := ParseFactor(ts, p + 1);
      FactorSpelling(ts, p + 1);
      assert r.value == UnaryNode(op, operand.value) && r.next == operand.next;
      assert Symbols(ts, p, p + 1) == [KindSymbol(t)];
      SymbolsSplit(ts, p, p + 1, operand.next);
    }
  }

  lemma {:induction false} NamedSpelling(ts: seq<Token>, p: nat)
    requires At(ts, p) && ts[p].tokenType == Identifier
    ensures ParseNamed(ts, p).Parsed? ==>
      Spell(ParseNamed(ts, p).value) == Symbols(ts, p, ParseNamed(ts, p).next)
    decreases |ts| - p, 0
  {
    var r := ParseNamed(ts, p);
    if r.Parsed? && ts[p + 1].tokenType == OpenParenthesis {
      var parameters := ParseParameters(ts, p + 2);
      ParametersSpelling(ts, p + 2);
      assert r.value == FunctionNode(ts[p].value.value, parameters.value) && r.next == parameters.next + 1;
      CallSpelling(ts, p, parameters.next, ts[p].value.value, parameters.value);
    } else if r.Parsed? {
      assert Symbols(ts, p, p + 1) == [SymbolOf(ts[p])];
    }
  }

  /** A name, `(`, the parameters' tokens and `)` spell a call. */
  lemma CallSpelling(ts: seq<Token>, p: nat, m: nat, name: string, ps: seq<Node>)
    requires p + 2 <= m < |ts|
    requires SymbolOf(ts[p]) == NameSymbol(name) && ts[p + 1].tokenType == OpenParenthesis
    requires ts[m].tokenType == CloseParenthesis
    requires SpellParameters(ps) == Symbols(ts, p + 2, m)
    ensures Spell(FunctionNode(name, ps)) == Symbols(ts, p, m + 1)
  {
    assert Symbols(ts, p, p + 2) == [NameSymbol(name), KindSymbol(OpenParenthesis)];
    assert Symbols(ts, m, m + 1) == [KindSymbol(CloseParenthesis)];
    SymbolsSplit(ts, p, p + 2, m + 1);
    SymbolsSplit(ts, p + 2, m, m + 1);
  }

  lemma {:induction false} ParametersSpelling(ts: seq<Token>, p: nat)
    requires At(ts, p)
    ensures ParseParameters(ts, p).Parsed? ==>
      SpellParameters(ParseParameters(ts, p).value) == Symbols(ts, p, ParseParameters(ts, p).next)
    decreases |ts| - p, 5
  {
    var r := ParseParameters(ts, p);
    if r.Parsed? && ts[p].tokenType != CloseParenthesis {
      var first := ParseExpression(ts, p);
      ExpressionSpelling(ts, p);
      assert r == ParametersRest(ts, first.next, [first.value]);
      ParametersRestSpelling(ts, first.next, [first.value]);
      assert SpellParameters([first.value]) == Spell(first.value);
      SymbolsSplit(ts, p, first.next, r.next);
    } else if r.Parsed? {
      assert r.value == [] && r.next == p;
      assert Symbols(ts, p, p) == [];
    }
  }

  lemma {:induction false} ParametersRestSpelling(ts: seq<Token>, p: nat, acc: seq<Node>)
    requires At(ts, p) && acc != []
    ensures ParametersRest(ts, p, acc).Parsed? ==>
      SpellParameters(ParametersRest(ts, p, acc).value) == SpellParameters(acc) + Symbols(ts, p, ParametersRest(ts, p, acc).next)
    decreases |ts| - p, 0
  {
    var r := ParametersRest(ts, p, acc);
    if r.Parsed? && ts[p].tokenType == Comma {
      var e := ParseExpression(ts, p + 1);
      ExpressionSpelling(ts, p + 1);
      assert r == ParametersRest(ts, e.next, acc + [e.value]);
      ParametersRestSpelling(ts, e.next, acc + [e.value]);
      ExtendParameters(ts, p, e.next, r.next, acc, e.value);
    } else if r.Parsed? {
      assert r.next == p;
      assert Symbols(ts, p, p) == [];
    }
  }

  /** One more `, parameter` spells a comma and the parameter's tokens. */
  lemma ExtendParameters(ts: seq<Token>, p: nat, m: nat, q: nat, acc: seq<Node>, parameter: Node)
    requires p + 1 <= m <= q <= |ts| && acc != []
    requires ts[p].tokenType == Comma
    requires Spell(parameter) == Symbols(ts, p + 1, m)
    ensures SpellParameters(acc + [parameter]) + Symbols(ts, m, q) == SpellParameters(acc) + Symbols(ts, p, q)
  {
    SpellParametersSnoc(acc, parameter);
    assert Symbols(ts, p, p + 1) == [KindSymbol(Comma)];
    SymbolsSplit(ts, p, p + 1, q);
    SymbolsSplit(ts, p + 1, m, q);
  }

  /** `Root`: a successful parse spells every token before `EndOfInput`, in order. */
  lemma ParseRootSpelling(ts: seq<Token>)
    requires Parsable(ts)
    ensures ParseRoot(ts).Success? ==> Spell(ParseRoot(ts).value) == Symbols(ts, 0, |ts| - 1)
  {
    ExpressionSpelling(ts, 0);
  }

  /** The same from the text: parsing, then spelling, gives back the input's tokens. */
  lemma ParseSpellsInput(input: string)
    requires Parse(input).Success?
    ensures Spell(Parse(input).value) + [KindSymbol(EndOfInput)] == Symbols(Tokenize(input), 0, |Tokenize(input)|)
  {
    var ts := Tokenize(input);
    TokenizeValid(input);
    ValidIsParsable(ts);
    ParseRootSpelling(ts);
    SymbolsSplit(ts, 0, |ts| - 1, |ts|);
  }
}
