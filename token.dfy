/** Tokens: a kind plus an optional text (ILMath/Data/Token.cs, ILMath/Data/TokenType.cs). */
module Tokens {
  import Wrappers
  import Chars

  datatype TokenType =
    | None | Plus | Minus | Multiplication | Division | Modulo | Power
    | OpenParenthesis | CloseParenthesis | Comma
    | Identifier | Number | EndOfInput | Unknown

  /** The enum member's name, as `Enum.ToString` spells it. */
  function TypeName(t: TokenType): string {
    match t
    case None => "None"
    case Plus => "Plus"
    case Minus => "Minus"
    case Multiplication => "Multiplication"
    case Division => "Division"
    case Modulo => "Modulo"
    case Power => "Power"
    case OpenParenthesis => "OpenParenthesis"
    case CloseParenthesis => "CloseParenthesis"
    case Comma => "Comma"
    case Identifier => "Identifier"
    case Number => "Number"
    case EndOfInput => "EndOfInput"
    case Unknown => "Unknown"
  }

  /** A token; `value` is `None` where the source's `Value` is null. */
  datatype Token = Token(tokenType: TokenType, value: Wrappers.Option<string>) {

    /** `ToString`: the value is shown only when it is neither null nor blank. */
    function ToString(): (r: string)
      ensures (value.None? || Chars.IsBlank(value.value)) <==> r == "Token(" + TypeName(tokenType) + ")"
      ensures value.Some? && !Chars.IsBlank(value.value) ==>
                r == "Token(" + TypeName(tokenType) + ", " + value.value + ")"
    {
      if value.None? || Chars.IsBlank(value.value) then "Token(" + TypeName(tokenType) + ")"
      else
        var r := "Token(" + TypeName(tokenType) + ", " + value.value + ")";
        assert |r| > |"Token(" + TypeName(tokenType) + ")"|;
        r
    }
  }

  /** `default(Token)`: the property initialisers give kind None and a null value. */
  const Default: Token := Token(None, Wrappers.None)

  /** `new Token(type)`: the value stays null. */
  function OfType(t: TokenType): Token {
    Token(t, Wrappers.None)
  }

  /** `new Token(type, value)`: both are stored unchanged. */
  function WithValue(t: TokenType, v: string): Token {
    Token(t, Wrappers.Some(v))
  }

  /** `Enum.Parse`: the kind a member name spells. */
  function KindNamed(name: string): Wrappers.Option<TokenType> {
    if name == "None" then Wrappers.Some(None)
    else if name == "Plus" then Wrappers.Some(Plus)
    else if name == "Minus" then Wrappers.Some(Minus)
    else if name == "Multiplication" then Wrappers.Some(Multiplication)
    else if name == "Division" then Wrappers.Some(Division)
    else if name == "Modulo" then Wrappers.Some(Modulo)
    else if name == "Power" then Wrappers.Some(Power)
    else if name == "OpenParenthesis" then Wrappers.Some(OpenParenthesis)
    else if name == "CloseParenthesis" then Wrappers.Some(CloseParenthesis)
    else if name == "Comma" then Wrappers.Some(Comma)
    else if name == "Identifier" then Wrappers.Some(Identifier)
    else if name == "Number" then Wrappers.Some(Number)
    else if name == "EndOfInput" then Wrappers.Some(EndOfInput)
    else if name == "Unknown" then Wrappers.Some(Unknown)
    else Wrappers.None
  }

  /** Every kind's name spells that kind back. */
  lemma KindNameRoundTrip(t: TokenType)
    ensures KindNamed(TypeName(t)) == Wrappers.Some(t)
  {
  }

  /** The text between `Token(` and `)` is recoverable. */
  lemma WrappedTextDiffers(x: string, y: string)
    ensures "Token(" + x + ")" == "Token(" + y + ")" <==> x == y
  {
    var u, v := "Token(" + x + ")", "Token(" + y + ")";
    assert u[6..|u| - 1] == x;
    assert v[6..|v| - 1] == y;
  }

  /** Different kinds have different names, so a token without a value prints its kind unambiguously. */
  lemma KindIsRecoverable(a: TokenType, b: TokenType)
    ensures TypeName(a) == TypeName(b) <==> a == b
    ensures OfType(a).ToString() == OfType(b).ToString() <==> a == b
  {
    KindNameRoundTrip(a);
    KindNameRoundTrip(b);
    WrappedTextDiffers(TypeName(a), TypeName(b));
  }

  /** `default(Token)` is the token of kind None without a value, and a blank value prints like no value. */
  lemma DefaultAndBlankValues(t: TokenType, v: string)
    ensures Default == OfType(None) && Default.ToString() == "Token(None)"
    ensures Chars.IsBlank(v) ==> WithValue(t, v).ToString() == OfType(t).ToString()
    ensures !Chars.IsBlank(v) ==> WithValue(t, v).ToString() != OfType(t).ToString()
  {
  }
}
