/**
 * The pull lexer of ILMath/Lexer.cs.
 *
 * `Scan(input, i)` is what one call of `NextToken` returns, and the cursor it
 * leaves, when the cursor stands at `i`; the class `Lexer` is the source's
 * object with its `index` and `CurrentToken` fields, proved against `Scan`.
 * `Tokenize` lists every token the lexer hands out, up to and including the
 * first `EndOfInput`.
 */
module Lexing {
  import Wrappers
  import opened Chars
  import opened Tokens

  /** `IsIdentifierChar`: `_ @ $ #`, an ASCII letter, or a digit. */
  predicate IsIdentifierChar(c: char) {
    c == '_' || c == '@' || c == '$' || c == '#'
    || ('a' <= c <= 'z') || ('A' <= c <= 'Z') || IsDigit(c)
  }

  /** The `switch` of `NextToken`: the kind of a one-character symbol, or `None`. */
  function SymbolType(c: char): TokenType {
    match c
    case '+' => Plus
    case '-' => Minus
    case '*' => Multiplication
    case '/' => Division
    case '%' => Modulo
    case '^' => Power
    case '(' => OpenParenthesis
    case ')' => CloseParenthesis
    case ',' => Comma
    case _ => TokenType.None
  }

  predicate IsSymbolType(t: TokenType) {
    t in {Plus, Minus, Multiplication, Division, Modulo, Power, OpenParenthesis, CloseParenthesis, Comma}
  }

  /** The character a valueless symbol token stands for. */
  function SymbolChar(t: TokenType): char
    requires IsSymbolType(t)
  {
    match t
    case Plus => '+'
    case Minus => '-'
    case Multiplication => '*'
    case Division => '/'
    case Modulo => '%'
    case Power => '^'
    case OpenParenthesis => '('
    case CloseParenthesis => ')'
    case Comma => ','
  }

  /** The first index at or after `i` that is not white space. */
  function SkipWhitespace(input: string, i: nat): (j: nat)
    requires i <= |input|
    ensures i <= j <= |input|
    ensures forall k :: i <= k < j ==> IsWhiteSpace(input[k])
    ensures j < |input| ==> !IsWhiteSpace(input[j])
    decreases |input| - i
  {
    if i < |input| && IsWhiteSpace(input[i]) then SkipWhitespace(input, i + 1) else i
  }

  /** The end of the maximal run of identifier characters starting at `i`. */
  function IdentifierEnd(input: string, i: nat): (j: nat)
    requires i <= |input|
    ensures i <= j <= |input|
    ensures forall k :: i <= k < j ==> IsIdentifierChar(input[k])
    ensures j < |input| ==> !IsIdentifierChar(input[j])
    decreases |input| - i
  {
    if i < |input| && IsIdentifierChar(input[i]) then IdentifierEnd(input, i + 1) else i
  }

  /** The end of the maximal run of digits starting at `i`. */
  function DigitsEnd(input: string, i: nat): (j: nat)
    requires i <= |input|
    ensures i <= j <= |input|
    ensures forall k :: i <= k < j ==> IsDigit(input[k])
    ensures j < |input| ==> !IsDigit(input[j])
    decreases |input| - i
  {
    if i < |input| && IsDigit(input[i]) then DigitsEnd(input, i + 1) else i
  }

  /** The end of a number literal: a digit run, then optionally `.` and a second digit run. */
  function NumberEnd(input: string, i: nat): nat
    requires i <= |input|
  {
    var j := DigitsEnd(input, i);
    if j < |input| && input[j] == '.' then DigitsEnd(input, j + 1) else j
  }

  /** The text shape of a Number token: digits, optionally followed by `.` and digits. */
  predicate IsNumberText(s: string) {
    exists d :: 0 <= d <= |s| && AllDigits(s[..d]) &&
      (s[d..] == [] || (s[d] == '.' && AllDigits(s[d + 1..])))
  }

  predicate AllDigits(s: string) {
    forall k :: 0 <= k < |s| ==> IsDigit(s[k])
  }

  /** `NextNonSymbolToken` at `j`: a number, an identifier or a one-character `Unknown`. */
  function ScanNonSymbol(input: string, j: nat): (r: (Token, nat))
    requires j < |input|
    ensures j < r.1 <= |input|
  {
    var c := input[j];
    if IsDigit(c) then
      var k := NumberEnd(input, j);
      (WithValue(Number, input[j..k]), k)
    else if IsIdentifierChar(c) then
      var k := IdentifierEnd(input, j);
      (WithValue(Identifier, input[j..k]), k)
    else
      (WithValue(Unknown, [c]), j + 1)
  }

  /** `NextToken` with the cursor at `i`: the token and the new cursor. */
  function Scan(input: string, i: nat): (r: (Token, nat))
    requires i <= |input|
    ensures i <= r.1 <= |input|
    ensures r.0.tokenType == EndOfInput <==> SkipWhitespace(input, i) == |input|
    ensures r.0.tokenType == EndOfInput ==> r.1 == |input| && r.0.value.None?
    ensures r.0.tokenType != EndOfInput ==> i < r.1
    ensures r.0.tokenType != TokenType.None
  {
    var j := SkipWhitespace(input, i);
    if j >= |input| then (OfType(EndOfInput), j)
    else
      var t := SymbolType(input[j]);
      if t != TokenType.None then (OfType(t), j + 1)
      else ScanNonSymbol(input, j)
  }

  /** Every token the lexer produces from cursor `i` on, ending with the first `EndOfInput`. */
  function TokensFrom(input: string, i: nat): (ts: seq<Token>)
    requires i <= |input|
    ensures |ts| > 0 && ts[|ts| - 1].tokenType == EndOfInput
    decreases |input| - i
  {
    var (t, j) := Scan(input, i);
    if t.tokenType == EndOfInput then [t] else [t] + TokensFrom(input, j)
  }

  /** The token sequence a `Lexer` over `input` hands out, starting with its first `CurrentToken`. */
  function Tokenize(input: string): seq<Token> {
    TokensFrom(input, 0)
  }

  // ---------------------------------------------------------------------------
  // What the token stream looks like.

  /** Consuming `EndOfInput` yields `EndOfInput` again, at the same cursor, indefinitely. */
  lemma EndOfInputRepeats(input: string, i: nat)
    requires i <= |input|
    requires Scan(input, i).0.tokenType == EndOfInput
    ensures Scan(input, Scan(input, i).1) == Scan(input, i)
  {
  }

  /**
   * Each of `+ - * / % ^ ( ) ,` is its own valueless token; any other
   * character that starts neither a number nor an identifier is an `Unknown`
   * token carrying that character. Both advance exactly one character.
   */
  lemma SingleCharacterTokens(input: string, i: nat)
    requires i <= |input|
    requires SkipWhitespace(input, i) < |input|
    ensures var j := SkipWhitespace(input, i);
            var c := input[j];
            var (t, k) := Scan(input, i);
            (c in "+-*/%^()," ==> t == OfType(SymbolType(c)) && IsSymbolType(t.tokenType) && SymbolChar(t.tokenType) == c && k == j + 1) &&
            (c !in "+-*/%^()," && !IsIdentifierChar(c) ==> t == WithValue(Unknown, [c]) && k == j + 1)
  {
  }

  /** The spelling of a token: its character for a symbol, its text otherwise. */
  function Spelling(t: Token): string {
    if t.value.Some? then t.value.value
    else if IsSymbolType(t.tokenType) then [SymbolChar(t.tokenType)]
    else ""
  }

  function Spellings(ts: seq<Token>): string {
    if ts == [] then "" else Spelling(ts[0]) + Spellings(ts[1..])
  }

  /** The input with every white-space character removed. */
  function StripWhitespace(s: string): (r: string)
    ensures forall k :: 0 <= k < |r| ==> !IsWhiteSpace(r[k])
  {
    if s == [] then ""
    else if IsWhiteSpace(s[0]) then StripWhitespace(s[1..])
    else [s[0]] + StripWhitespace(s[1..])
  }

  lemma {:induction false} StripAppend(a: string, b: string)
    ensures StripWhitespace(a + b) == StripWhitespace(a) + StripWhitespace(b)
  {
    if a == [] {
      assert a + b == b;
    } else {
      assert (a + b)[0] == a[0];
      assert (a + b)[1..] == a[1..] + b;
      StripAppend(a[1..], b);
    }
  }

  lemma {:induction false} StripAllWhite(s: string)
    requires forall k :: 0 <= k < |s| ==> IsWhiteSpace(s[k])
    ensures StripWhitespace(s) == ""
  {
    if s != [] {
      StripAllWhite(s[1..]);
    }
  }

  lemma {:induction false} StripNoWhite(s: string)
    requires forall k :: 0 <= k < |s| ==> !IsWhiteSpace(s[k])
    ensures StripWhitespace(s) == s
  {
    if s != [] {
      StripNoWhite(s[1..]);
    }
  }

  /** The characters one `NextToken` call passes over are white space followed by the token's spelling. */
  lemma ScanSpelling(input: string, i: nat)
    requires i <= |input|
    ensures StripWhitespace(input[i..Scan(input, i).1]) == Spelling(Scan(input, i).0)
  {
    var j := SkipWhitespace(input, i);
    var (t, k) := Scan(input, i);
    assert input[i..k] == input[i..j] + input[j..k];
    StripAppend(input[i..j], input[j..k]);
    StripAllWhite(input[i..j]);
    if j < |input| {
      TokenSpelling(input, i);
      StripNoWhite(input[j..k]);
    }
  }

  /** After the white space, a token spans exactly its spelling, and none of it is white space. */
  lemma TokenSpelling(input: string, i: nat)
    requires i <= |input| && SkipWhitespace(input, i) < |input|
    ensures var j := SkipWhitespace(input, i);
      var (t, k) := Scan(input, i);
      && j <= k
      && input[j..k] == Spelling(t)
      && forall m :: j <= m < k ==> !IsWhiteSpace(input[m])
  {
    var j := SkipWhitespace(input, i);
    if SymbolType(input[j]) == TokenType.None {
      NonSymbolSpelling(input, j);
    }
  }

  /** A number, an identifier or an `Unknown` character is spelled by exactly the characters it spans, none of them white space. */
  lemma NonSymbolSpelling(input: string, j: nat)
    requires j < |input| && SymbolType(input[j]) == TokenType.None && !IsWhiteSpace(input[j])
    ensures var (t, k) := ScanNonSymbol(input, j);
      && input[j..k] == Spelling(t)
      && forall m :: j <= m < k ==> !IsWhiteSpace(input[m])
  {
    var k := ScanNonSymbol(input, j).1;
    if IsDigit(input[j]) {
      var d := DigitsEnd(input, j);
      assert forall m :: j <= m < k ==> IsDigit(input[m]) || input[m] == '.';
    }
  }

  /**
   * Concatenating the spellings of all tokens up to `EndOfInput` gives back
   * the input with its white space removed: no character is lost, none is
   * read twice.
   */
  lemma {:induction false} TokensSpellInput(input: string, i: nat)
    requires i <= |input|
    ensures Spellings(TokensFrom(input, i)) == StripWhitespace(input[i..])
    decreases |input| - i
  {
    var (t, j) := Scan(input, i);
    ScanSpelling(input, i);
    assert input[i..] == input[i..j] + input[j..];
    StripAppend(input[i..j], input[j..]);
    if t.tokenType == EndOfInput {
      assert input[j..] == [];
      assert Spellings([t]) == Spelling(t) + Spellings([]);
    } else {
      TokensSpellInput(input, j);
      var ts := TokensFrom(input, i);
      assert ts == [t] + TokensFrom(input, j);
      assert ts[1..] == TokensFrom(input, j);
    }
  }

  /** A Number token's text is a maximal digit run with an optional `.` and digit run after it. */
  lemma NumberTokenShape(input: string, i: nat)
    requires i <= |input|
    requires Scan(input, i).0.tokenType == Number
    ensures var (t, k) := Scan(input, i);
            var j := SkipWhitespace(input, i);
            var d := DigitsEnd(input, j);
            && t.value == Wrappers.Some(input[j..k])
            && IsDigit(input[j]) && IsNumberText(input[j..k])
            && (d < |input| && input[d] == '.' ==> k == DigitsEnd(input, d + 1))
            && (k < |input| ==> !IsDigit(input[k]))
  {
    var (t, k) := Scan(input, i);
    var j := SkipWhitespace(input, i);
    var d := DigitsEnd(input, j);
    var s := input[j..k];
    assert s[..d - j] == input[j..d];
    if d < |input| && input[d] == '.' {
      assert s[d - j + 1..] == input[d + 1..k];
      assert AllDigits(s[..d - j]) && s[d - j] == '.' && AllDigits(s[d - j + 1..]);
    } else {
      assert s[d - j..] == [];
      assert AllDigits(s[..d - j]) && s[d - j..] == [];
    }
  }

  /**
   * An Identifier token never starts with a digit: it starts with `_ @ $ #` or
   * an ASCII letter and runs on maximally over those characters and digits.
   */
  lemma IdentifierTokenShape(input: string, i: nat)
    requires i <= |input|
    requires Scan(input, i).0.tokenType == Identifier
    ensures var (t, k) := Scan(input, i);
            var j := SkipWhitespace(input, i);
            && t.value == Wrappers.Some(input[j..k]) && j < k
            && !IsDigit(input[j])
            && (input[j] in "_@$#" || 'a' <= input[j] <= 'z' || 'A' <= input[j] <= 'Z')
            && (forall m :: j <= m < k ==> IsIdentifierChar(input[m]))
            && (k < |input| ==> !IsIdentifierChar(input[k]))
  {
  }

  /** "5." is one Number token. */
  lemma TrailingDotBelongsToNumber()
    ensures Tokenize("5.") == [WithValue(Number, "5."), OfType(EndOfInput)]
  {
    assert SkipWhitespace("5.", 0) == 0;
    assert DigitsEnd("5.", 0) == 1;
    assert DigitsEnd("5.", 2) == 2;
    assert SymbolType('5') == TokenType.None;
    assert NumberEnd("5.", 0) == 2;
    assert "5."[0..2] == "5.";
    assert Scan("5.", 0) == (WithValue(Number, "5."), 2);
    assert Scan("5.", 2) == (OfType(EndOfInput), 2);
  }

  /** ".5" is an Unknown "." followed by the Number "5". */
  lemma LeadingDotIsUnknown()
    ensures Tokenize(".5") == [WithValue(Unknown, "."), WithValue(Number, "5"), OfType(EndOfInput)]
  {
    assert SkipWhitespace(".5", 0) == 0;
    assert Scan(".5", 0) == (WithValue(Unknown, "."), 1);
    assert SkipWhitespace(".5", 1) == 1;
    assert DigitsEnd(".5", 1) == 2;
    assert SymbolType('5') == TokenType.None;
    assert NumberEnd(".5", 1) == 2;
    assert ".5"[1..2] == "5";
    assert Scan(".5", 1) == (WithValue(Number, "5"), 2);
    assert Scan(".5", 2) == (OfType(EndOfInput), 2);
  }

  /**
   * The shape of a token stream a lexer hands out: it ends with the one and
   * only `EndOfInput`; Identifier and Number tokens carry non-blank text, a
   * Number's text has the literal shape, and no token has kind `None`.
   */
  ghost predicate ValidTokenStream(ts: seq<Token>) {
    && |ts| > 0
    && ts[|ts| - 1].tokenType == EndOfInput
    && (forall k :: 0 <= k < |ts| - 1 ==> ts[k].tokenType != EndOfInput)
    && (forall k :: 0 <= k < |ts| ==> ValidToken(ts[k]))
  }

  predicate ValidToken(t: Token) {
    && t.tokenType != TokenType.None
    && (t.tokenType in {Identifier, Number, Unknown} <==> t.value.Some?)
    && (t.value.Some? ==> |t.value.value| > 0 && !IsBlank(t.value.value))
    && (t.tokenType == Number ==> IsNumberText(t.value.value) && IsDigit(t.value.value[0]))
    && (t.tokenType == Identifier ==> IsIdentifierChar(t.value.value[0]) && !IsDigit(t.value.value[0]))
  }

  lemma ScanValid(input: string, i: nat)
    requires i <= |input|
    ensures ValidToken(Scan(input, i).0)
  {
    var j := SkipWhitespace(input, i);
    var (t, k) := Scan(input, i);
    if j < |input| && SymbolType(input[j]) == TokenType.None {
      assert (t, k) == ScanNonSymbol(input, j);
      assert t.value.Some? && t.value.value[0] == input[j];
      if IsDigit(input[j]) {
        NumberTokenShape(input, i);
      }
    }
  }

  lemma {:induction false} TokensFromValid(input: string, i: nat)
    requires i <= |input|
    ensures ValidTokenStream(TokensFrom(input, i))
    decreases |input| - i
  {
    var (t, j) := Scan(input, i);
    ScanValid(input, i);
    if t.tokenType != EndOfInput {
      TokensFromValid(input, j);
      var ts := TokensFrom(input, i);
      assert ts == [t] + TokensFrom(input, j);
      forall k | 0 <= k < |ts| - 1 ensures ts[k].tokenType != EndOfInput {
        if k > 0 { assert ts[k] == TokensFrom(input, j)[k - 1]; }
      }
      forall k | 0 <= k < |ts| ensures ValidToken(ts[k]) {
        if k > 0 { assert ts[k] == TokensFrom(input, j)[k - 1]; }
      }
    }
  }

  /** Every stream a lexer hands out is valid; in particular `ToString` shows exactly the tokens with a value. */
  lemma TokenizeValid(input: string)
    ensures ValidTokenStream(Tokenize(input))
    ensures forall t :: t in Tokenize(input) ==>
              (t.tokenType in {Identifier, Number, Unknown} <==> t.ToString() != "Token(" + TypeName(t.tokenType) + ")")
  {
    TokensFromValid(input, 0);
  }

  // ---------------------------------------------------------------------------
  // The lexer object.

  class Lexer {
    const input: string
    var index: nat
    var currentToken: Token

    ghost predicate Valid()
      reads this
    {
      index <= |input|
    }

    /** The constructor consumes the default `None` token, so the first real token is current. */
    constructor(input: string)
      ensures Valid() && this.input == input
      ensures (currentToken, index) == Scan(input, 0)
    {
      this.input := input;
      index := 0;
      currentToken := Default;
      new;
      var consumed := Consume(TokenType.None);
    }

    /** Advances past the current token if and only if it has kind `t`. */
    method Consume(t: TokenType) returns (consumed: bool)
      requires Valid()
      modifies this
      ensures Valid()
      ensures consumed <==> old(currentToken).tokenType == t
      ensures !consumed ==> currentToken == old(currentToken) && index == old(index)
      ensures consumed ==> (currentToken, index) == Scan(input, old(index))
    {
      if currentToken.tokenType != t {
        return false;
      }
      currentToken := NextToken();
      return true;
    }

    method NextToken() returns (token: Token)
      requires Valid()
      modifies this`index
      ensures Valid()
      ensures (token, index) == Scan(input, old(index))
    {
      while index < |input| && IsWhiteSpace(input[index])
        invariant old(index) <= index <= |input|
        invariant SkipWhitespace(input, old(index)) == SkipWhitespace(input, index)
        decreases |input| - index
      {
        index := index + 1;
      }
      if index >= |input| {
        return OfType(EndOfInput);
      }
      var currentChar := input[index];
      token := OfType(SymbolType(currentChar));
      if token.tokenType != TokenType.None {
        index := index + 1;
        return token;
      }
      token := NextNonSymbolToken();
    }

    method NextNonSymbolToken() returns (token: Token)
      requires Valid() && index < |input|
      modifies this`index
      ensures Valid()
      ensures (token, index) == ScanNonSymbol(input, old(index))
    {
      var currentChar := input[index];
      if IsDigit(currentChar) {
        token := NextNumber();
        return;
      }
      if IsIdentifierChar(currentChar) {
        token := NextIdentifier();
        return;
      }
      index := index + 1;
      token := WithValue(Unknown, [currentChar]);
    }

    method NextIdentifier() returns (token: Token)
      requires Valid()
      modifies this`index
      ensures Valid()
      ensures index == IdentifierEnd(input, old(index))
      ensures token == WithValue(Identifier, input[old(index)..index])
    {
      var builder: string := [];
      while index < |input| && IsIdentifierChar(input[index])
        invariant old(index) <= index <= |input|
        invariant builder == input[old(index)..index]
        invariant IdentifierEnd(input, old(index)) == IdentifierEnd(input, index)
        decreases |input| - index
      {
        builder := builder + [input[index]];
        index := index + 1;
      }
      token := WithValue(Identifier, builder);
    }

    method NextNumber() returns (token: Token)
      requires Valid()
      modifies this`index
      ensures Valid()
      ensures index == NumberEnd(input, old(index))
      ensures token == WithValue(Number, input[old(index)..index])
    {
      var builder: string := [];
      while index < |input| && IsDigit(input[index])
        invariant old(index) <= index <= |input|
        invariant builder == input[old(index)..index]
        invariant DigitsEnd(input, old(index)) == DigitsEnd(input, index)
        decreases |input| - index
      {
        builder := builder + [input[index]];
        index := index + 1;
      }
      if index < |input| && input[index] == '.' {
        builder := builder + [input[index]];
        index := index + 1;
        ghost var afterDot := index;
        while index < |input| && IsDigit(input[index])
          invariant afterDot <= index <= |input|
          invariant builder == input[old(index)..index]
          invariant DigitsEnd(input, afterDot) == DigitsEnd(input, index)
          decreases |input| - index
        {
          builder := builder + [input[index]];
          index := index + 1;
        }
      }
      token := WithValue(Number, builder);
    }
  }
}
