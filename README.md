# ILMath in Dafny

ILMath turns arithmetic text such as `sin(pi / 2) + 2 ^ x` into an evaluator,
a function from an evaluation context (variables and functions by name) to a
`double`. It runs in three stages:

- a pull lexer (`Lexer`, `Token`);
- a recursive-descent parser (`Parser`) that builds a syntax tree of
  `INode`s;
- one of three back ends that compile a tree into an evaluator:
  - the IL back end (`Compiler`), which emits a dynamic method into an
    `ILGenerator`, with a `localloc` scratch block for function arguments
    sized by a static pre-pass;
  - the closure back end (`FunctionalCompiler`, and its older copy
    `FunctionCompiler`);
  - the expression-tree back end (`ExpressionTreeCompiler`).

The evaluators call back into an `EvaluationContext`, which holds two
dictionaries: variables and functions.

The model follows the source's own form:

- The lexer, the parser, the IL back end's compiler and generator, the old
  closure compiler and the evaluation context are classes with `modifies`
  clauses. Each method is proved against a function that says what it
  computes.
- The tokens, the nodes, the new closure back end and the expression-tree
  back end are datatypes and functions.
- The IL a tree compiles to is an `Instr` datatype. A small stack machine
  (`ILMachine`) gives it meaning: an evaluation stack, the one local that
  holds the block pointer, and the block as a sequence of 8-byte slots.
  `ILMachine.Execute` runs a method body on an `array` block.

Numbers are a free term algebra (`Numbers.Num`) with uninterpreted `+ - * / %`,
`Math.Pow`, negation and host calls. "The same value" therefore means "the
same IEEE computation", whatever the rounding.

The main theorems:

- `ILCorrectness.ProgramComputes` and `ILGeneration.Compiler.Compile`:
  - the IL method body returns `Semantics.Eval`'s value, or raises its
    exception, in every context;
  - no store or span ever leaves the block the pre-pass sized.
- `FunctionalCompilation.CompileAgrees`, `ExpressionTreeCompilation.CompileAgrees`
  and `FunctionCompilation.FunctionCompiler.Compile`: the same holds for the
  closures and the expression-tree lambda.
- `Agreement.BackEndsAgree`: all back ends agree on every tree they all
  accept.
- `Lexing.TokensSpellInput`: the tokens spell the input without its
  whitespace.
- `Parsing.ParseShape`: the shape of every tree the parser returns.
- `ParseSpelling.ParseSpellsInput`: every tree the parser returns spells back the tokens it was parsed from.
- `NodeEquality.EqualsImpliesSameHash`: equal nodes hash alike.

## A consistent reading of the sources

The files come from two revisions and do not compile together. The model
reads them as follows.

- **Parser output.**
  - The parser builds flat `ExpressionNode` and `TermNode` lists. Their
    children alternate operand and operator-only `OperatorNode` markers.
    `^` builds `ExponentNode(base, exponent)`.
  - The model keeps this exactly as written (`ILMath/Parser.cs:37-87`).
- **The back ends' node.**
  - All back ends read `OperatorNode.Left`, `.Right` and `.Operator`.
  - `SyntaxTree.Node` therefore has both `OperatorNode(op)`, the parser's
    marker, and `BinaryNode(op, left, right)`, the back ends' view.
  - The back-end theorems are stated over trees of numbers, variables,
    binary, unary and call nodes (`Semantics.Compilable`, `SyntaxTree.WellFormed`).
- **Children of a binary node.** `BinaryNode`'s children are
  `[left, right]`. This is an assumption: the shown `OperatorNode` yields no
  children, and the pre-pass reaches operands only through its children.
  `ExpressionNode` and `ExponentNode` do not declare `EnumerateChildren`;
  they are given their lists and `[base, exponent]`.
- **What the back ends do with a parsed tree.** The root the parser returns
  is always an `ExpressionNode`, so every back end rejects it as an unknown
  node type (`Agreement.ParsedTreesAreRejected`). That is how the shown
  revisions behave together.
- **The parser over tokens.** The lexer never rescans. The parser is
  therefore modelled over the lexer's token sequence with a position.
  `Parsing.Parser` follows the cursor through the lexer object, and
  `Parsing.CursorsChain` proves the two views the same. The lazy `yield`
  enumerators are consumed by `ToList` before the next token is read, so
  they are eager loops.
- **Number literals.** A `NumberNode` holds the exact decimal value of its
  literal text. `double.Parse` rounding is left out.
- **Debug assertions and runtime errors.**
  - `Debug.Assert(state.Parameters != null)` becomes an `AssertionFailure`
    exception.
  - An IL program that would fault becomes a trap (`InvalidProgram`,
    `AccessViolation`), and the correctness theorem shows none occurs.
- **Duplicate registration.** `RegisterVariable` and `RegisterFunction` use
  `Dictionary.Add`, so a duplicate name throws an `ArgumentException` and
  leaves the table unchanged.
- **Unused names.** The `name` argument of every `Compile` is unused beyond
  naming the dynamic method.

## Model

| member | source | states |
|---|---|---|
| Tokens.Token.ToString | ILMath/Data/Token.cs:29-32 | a token prints as `Token(T)` exactly when its value is null or blank, otherwise as `Token(T, V)` |
| Tokens.KindNameRoundTrip | ILMath/Data/TokenType.cs:3-19 | every kind's printed name spells that kind back |
| Tokens.WrappedTextDiffers | ILMath/Data/Token.cs:31 | two `Token(…)` texts without a value are equal exactly when their inner texts are |
| Tokens.KindIsRecoverable | ILMath/Data/Token.cs:24-32 | distinct kinds have distinct names, so a valueless token's text determines its kind |
| Tokens.DefaultAndBlankValues | ILMath/Data/Token.cs:11-32 | `default(Token)` is kind None with a null value; a blank value prints like no value, a non-blank one does not |
| Tokens.OfType | ILMath/Data/Token.cs:24-27 | `new Token(type)`: the kind as given, the value left null (its printing is stated by `Token.ToString` and `KindIsRecoverable`) |
| Tokens.WithValue | ILMath/Data/Token.cs:18-22 | `new Token(type, value)`: kind and value stored unchanged (its printing is stated by `Token.ToString`) |
| Lexing.SkipWhitespace | ILMath/Lexer.cs:40-42 | the cursor moves over exactly the maximal run of whitespace |
| Lexing.IdentifierEnd | ILMath/Lexer.cs:96-100 | an identifier runs over the maximal run of identifier characters |
| Lexing.DigitsEnd | ILMath/Lexer.cs:121-125 | a digit run is maximal |
| Lexing.ScanNonSymbol | ILMath/Lexer.cs:74-89 | a non-symbol token always advances the cursor and stays within the input |
| Lexing.Scan | ILMath/Lexer.cs:38-72 | the cursor never moves back or past the end; `EndOfInput` comes exactly when only whitespace is left; every other token advances it; no token has kind None |
| Lexing.TokensFrom | ILMath/Lexer.cs:29-72 | the token stream ends with `EndOfInput` |
| Lexing.Tokenize | ILMath/Lexer.cs:19-36 | the tokens a new lexer hands out through `CurrentToken` and `Consume`, from the first to `EndOfInput`; `TokenizeValid` and `TokensSpellInput` state what they are |
| Lexing.IsIdentifierChar | ILMath/Lexer.cs:105-114 | `_ @ $ #`, an ASCII letter or a digit; `IdentifierTokenShape` states the identifier runs it builds |
| Chars.IsWhiteSpace | ILMath/Lexer.cs:41 | `char.IsWhiteSpace`: the Unicode separators, U+0009..U+000D and U+0085; `SkipWhitespace` and `StripWhitespace` state what the lexer does with them |
| Lexing.EndOfInputRepeats | ILMath/Lexer.cs:44-46 | once the input is exhausted, reading again yields `EndOfInput` at the same position, forever |
| Lexing.SingleCharacterTokens | ILMath/Lexer.cs:49-88 | each of `+ - * / % ^ ( ) ,` is one valueless token; any other character that starts no number or identifier is `Unknown` with that character; both advance by one |
| Lexing.StripWhitespace | ILMath/Lexer.cs:40-42 | the input without its whitespace holds no whitespace |
| Lexing.ScanSpelling | ILMath/Lexer.cs:40-141 | the text one token consumes, without whitespace, is that token's spelling |
| Lexing.TokenSpelling | ILMath/Lexer.cs:48-141 | a token that starts at a non-blank character spells exactly the characters it consumes |
| Lexing.NonSymbolSpelling | ILMath/Lexer.cs:74-141 | a number, identifier or unknown token's value is the text it consumes |
| Lexing.TokensSpellInput | ILMath/Lexer.cs:38-141 | concatenating the spellings of all tokens reproduces the input with whitespace removed |
| Lexing.NumberTokenShape | ILMath/Lexer.cs:116-141 | a number token is the maximal digit run, then optionally `.` and a digit run; digits are tested first (lines 79-80) |
| Lexing.IdentifierTokenShape | ILMath/Lexer.cs:79-114 | an identifier never starts with a digit and runs maximally over letters, `_ @ $ #` and digits |
| Lexing.TrailingDotBelongsToNumber | ILMath/Lexer.cs:127-138 | `"5."` is the one number token `5.` |
| Lexing.LeadingDotIsUnknown | ILMath/Lexer.cs:79-88 | `".5"` is `Unknown(".")` then `Number("5")` |
| Lexing.ScanValid | ILMath/Lexer.cs:38-141 | every token carries a value exactly when it is a number, identifier or unknown, and that value is non-blank with the right shape |
| Lexing.TokensFromValid | ILMath/Lexer.cs:38-141 | the stream has exactly one `EndOfInput`, at its end, and only valid tokens |
| Lexing.TokenizeValid | ILMath/Lexer.cs:38-141 | every token stream is valid, and `ToString` shows a value exactly for the tokens that carry one |
| Lexing.Lexer.constructor | ILMath/Lexer.cs:19-23 | constructing the lexer consumes the default token, so the current token is the first real one |
| Lexing.Lexer.Consume | ILMath/Lexer.cs:29-36 | consuming the current kind advances to the next token; any other kind returns false and changes nothing |
| Lexing.Lexer.NextToken | ILMath/Lexer.cs:38-72 | reads exactly the token `Scan` describes |
| Lexing.Lexer.NextNonSymbolToken | ILMath/Lexer.cs:74-89 | reads exactly the token `ScanNonSymbol` describes |
| Lexing.Lexer.NextIdentifier | ILMath/Lexer.cs:91-103 | the identifier's value is the maximal run the loop consumes |
| Lexing.Lexer.NextNumber | ILMath/Lexer.cs:116-141 | the number's value is the maximal literal the loops consume |
| Parsing.Pow10 | ILMath/Parser.cs:125 | the scale of a decimal literal is positive |
| Parsing.PointIndex | ILMath/Parser.cs:125 | the decimal point of a literal lies within it |
| Parsing.LiteralValue | ILMath/Parser.cs:125 | the exact decimal value of a number literal, standing for `double.Parse`; `WholeLiteralValue` and `LiteralValueExamples` state its values |
| Parsing.WholeLiteralValue | ILMath/Parser.cs:125 | a literal without a decimal point is worth the number its digits spell |
| Parsing.WholePointIndex | ILMath/Parser.cs:125 | a literal without a decimal point has its point index at its end |
| Parsing.LiteralValueExamples | ILMath/Parser.cs:125 | `2.5`, `0.25`, `3.` and `42` are worth exactly 5/2, 1/4, 3 and 42 |
| Parsing.ValidIsParsable | ILMath/Parser.cs:16-35 | every stream the lexer hands out can be parsed from its first position |
| Parsing.ConsumeAt | ILMath/Parser.cs:142-146 | consuming succeeds exactly on the expected kind and otherwise raises an error naming the current token and the expected kind |
| Parsing.ParseExpression | ILMath/Parser.cs:37-52 | a parsed expression consumes at least one token and leaves the cursor inside the stream |
| Parsing.ExpressionRest | ILMath/Parser.cs:42-50 | the `+`/`-` loop never moves the cursor back |
| Parsing.ParseTerm | ILMath/Parser.cs:54-72 | a parsed term consumes at least one token |
| Parsing.TermRest | ILMath/Parser.cs:59-70 | the `*`/`/`/`%` loop never moves the cursor back |
| Parsing.ParseExponent | ILMath/Parser.cs:74-87 | a parsed exponent consumes at least one token |
| Parsing.ParseFactor | ILMath/Parser.cs:89-127 | a parsed factor consumes at least one token; any token other than an identifier, `(`, `+`, `-` or a number is rejected as an unexpected token where a Number was expected |
| Parsing.ParseNamed | ILMath/Parser.cs:91-104 | keeps the identifier's name; without a following `(` it is exactly a variable of that name, one token long; with one, a successful parse is a call whose last token is `)` |
| Parsing.ParseGroup | ILMath/Parser.cs:106-112 | a group consumes at least its parenthesis |
| Parsing.ParseSigned | ILMath/Parser.cs:114-119 | a signed factor consumes at least its sign |
| Parsing.ParseNumber | ILMath/Parser.cs:121-126 | a number literal consumes exactly one token |
| Parsing.ParseParameters | ILMath/Parser.cs:129-140 | the parameter list never moves the cursor back |
| Parsing.ParametersRest | ILMath/Parser.cs:133-139 | the comma loop never moves the cursor back |
| Parsing.AlternatesExtend | ILMath/Parser.cs:42-50 | appending a marker and an operand keeps the operand–operator alternation |
| Parsing.RootShape | ILMath/Parser.cs:30-35 | a parse succeeds exactly when the expression is followed by `EndOfInput`, and the result is an expression tree |
| Parsing.ParseRoot | ILMath/Parser.cs:25-35 | `Parse`: an expression, then `EndOfInput`, or the first error; `RootShape` and `ParseShape` state when it succeeds and what it returns |
| Parsing.ParseShape | ILMath/Parser.cs:25-35 | every tree the parser returns has the expression-tree shape |
| Parsing.ExpressionShape | ILMath/Parser.cs:37-52 | `Expression` always builds an `ExpressionNode` of odd length, alternating terms and Plus/Minus markers |
| Parsing.ExpressionRestShape | ILMath/Parser.cs:42-50 | the loop keeps that alternation |
| Parsing.TermShape | ILMath/Parser.cs:54-72 | `Term` always builds a `TermNode`, alternating exponents and Multiplication/Division/Modulo markers |
| Parsing.TermRestShape | ILMath/Parser.cs:59-70 | the loop keeps that alternation |
| Parsing.ExponentShape | ILMath/Parser.cs:74-87 | `Exponent` is the factor itself or `ExponentNode(factor, exponent)`, never a marker |
| Parsing.FactorShape | ILMath/Parser.cs:89-127 | a factor is a number, a variable, a call whose parameters are expressions, a group's expression, or a unary node |
| Parsing.ParametersShape | ILMath/Parser.cs:129-140 | every parameter is an expression tree |
| Parsing.ParametersRestShape | ILMath/Parser.cs:133-139 | the comma loop keeps every parameter an expression tree |
| ParseSpelling.Symbols | ILMath/Parser.cs:30-35 | the symbols of a stretch of tokens, one per token, in order |
| ParseSpelling.SymbolsSplit | ILMath/Parser.cs:37-52 | the symbols of two adjacent stretches join into the symbols of the whole |
| ParseSpelling.SpellAllSnoc | ILMath/Parser.cs:42-50 | one more child of an expression spells its tokens after the others |
| ParseSpelling.SpellFactorsSnoc | ILMath/Parser.cs:59-70 | one more child of a term spells its tokens, parenthesised when it is a group, after the others |
| ParseSpelling.SpellParametersSnoc | ILMath/Parser.cs:133-139 | one more parameter spells a comma and its tokens after the others |
| ParseSpelling.ExtendFactors | ILMath/Parser.cs:59-70 | a marker and an operand added to a term spell the operator token and the operand's tokens |
| ParseSpelling.ExtendTerms | ILMath/Parser.cs:42-50 | a marker and a term added to an expression spell the operator token and the term's tokens |
| ParseSpelling.PowerSpelling | ILMath/Parser.cs:74-87 | a base's tokens, `^` and an exponent's tokens spell the `ExponentNode` built from them |
| ParseSpelling.ExtendParameters | ILMath/Parser.cs:133-139 | a comma and another parameter spell a comma and that parameter's tokens |
| ParseSpelling.CallSpelling | ILMath/Parser.cs:91-104 | a name, `(`, the parameters' tokens and `)` spell the call node |
| ParseSpelling.ExpressionSpelling | ILMath/Parser.cs:37-52 | a parsed expression spells exactly the tokens it consumed, in order |
| ParseSpelling.ExpressionRestSpelling | ILMath/Parser.cs:42-50 | each `+`/`-` round adds its operator token and the term's tokens, and nothing else |
| ParseSpelling.TermSpelling | ILMath/Parser.cs:54-72 | a parsed term spells exactly the tokens it consumed |
| ParseSpelling.TermRestSpelling | ILMath/Parser.cs:59-70 | each `*`/`/`/`%` round adds its operator token and the operand's tokens |
| ParseSpelling.ExponentSpelling | ILMath/Parser.cs:74-87 | a parsed exponent spells its base, `^` and its exponent, exactly the tokens consumed |
| ParseSpelling.FactorSpelling | ILMath/Parser.cs:89-127 | a parsed factor spells exactly the tokens consumed: name and parameters, a group in its parentheses, the sign and its operand, or the number's value |
| ParseSpelling.GroupSpelling | ILMath/Parser.cs:106-112 | a group keeps its inner expression, and with its parentheses it spells the tokens consumed |
| ParseSpelling.SignedSpelling | ILMath/Parser.cs:114-119 | a signed factor spells its sign and then its operand's tokens |
| ParseSpelling.NamedSpelling | ILMath/Parser.cs:91-104 | a variable spells its name; a call spells its name, `(`, its parameters and `)` |
| ParseSpelling.ParametersSpelling | ILMath/Parser.cs:129-140 | the parameters spell the tokens consumed, commas between them, in order |
| ParseSpelling.ParametersRestSpelling | ILMath/Parser.cs:133-139 | each comma round adds a comma and the next parameter's tokens |
| ParseSpelling.ParseRootSpelling | ILMath/Parser.cs:30-35 | a successful parse spells every token before `EndOfInput`, in order: no token is dropped, added or reordered |
| ParseSpelling.ParseSpellsInput | ILMath/Parser.cs:25-35 | parsing a text and spelling the tree gives back the text's tokens up to and including `EndOfInput` |
| Parsing.TwoNumbersAreRejected | ILMath/Parser.cs:30-35 | `4 5` is rejected: the second number is where `EndOfInput` was expected |
| Parsing.TwoNumbersTextIsRejected | ILMath/Parser.cs:30-35 | the text `4 5` lexes to two number tokens and the end, and parsing it fails at the second number |
| Parsing.PowerIsRightAssociative | ILMath/Parser.cs:74-87 | `a^b^c` is `Exponent(a, Exponent(b, c))` |
| Parsing.EmptyArgumentList | ILMath/Parser.cs:129-132 | `f()` is a call with no parameters |
| Parsing.SignsNest | ILMath/Parser.cs:114-119 | `--5` is `Unary(Minus, Unary(Minus, 5))`, not simplified |
| Parsing.UnclosedCallIsRejected | ILMath/Parser.cs:96-101 | `sin(pi` is rejected for want of `)` |
| Parsing.GroupIsInnerExpression | ILMath/Parser.cs:106-112 | `(x)` is the inner expression node itself |
| Parsing.OperatorIsNotAFactor | ILMath/Parser.cs:121-126 | `*` where a factor is expected is rejected, naming the token and the expected Number through `Consume` (lines 142-146) |
| Parsing.ProductIsOneTerm | ILMath/Parser.cs:54-72 | `2 * 3` is one term |
| Parsing.PrecedenceOfTerms | ILMath/Parser.cs:37-72 | in `1 - 2 * 3` the product binds tighter than the difference |
| Parsing.ScanAtEnd | ILMath/Lexer.cs:44-46 | at the end of the input the lexer reads `EndOfInput` and stays put |
| Parsing.CursorsChain | ILMath/Lexer.cs:38-72 | the lexer's successive cursors read exactly the token sequence the parser is specified over |
| Parsing.Parser.constructor | ILMath/Parser.cs:16-19 | the parser starts at the lexer's first token |
| Parsing.Parser.Parse | ILMath/Parser.cs:25-28 | returns exactly the result `ParseRoot` specifies |
| Parsing.Parser.Root | ILMath/Parser.cs:30-35 | the expression and then `EndOfInput`, as specified |
| Parsing.Parser.Consume | ILMath/Parser.cs:142-146 | advances on the expected kind; otherwise raises the specified error |
| Parsing.Parser.Expression | ILMath/Parser.cs:37-52 | result and cursor agree with `ParseExpression` |
| Parsing.Parser.Term | ILMath/Parser.cs:54-72 | result and cursor agree with `ParseTerm` |
| Parsing.Parser.Exponent | ILMath/Parser.cs:74-87 | result and cursor agree with `ParseExponent` |
| Parsing.Parser.Factor | ILMath/Parser.cs:89-127 | result and cursor agree with `ParseFactor` |
| Parsing.Parser.Named | ILMath/Parser.cs:91-104 | result and cursor agree with `ParseNamed` |
| Parsing.Parser.Group | ILMath/Parser.cs:106-112 | result and cursor agree with `ParseGroup` |
| Parsing.Parser.Signed | ILMath/Parser.cs:114-119 | result and cursor agree with `ParseSigned` |
| Parsing.Parser.NumberLiteral | ILMath/Parser.cs:121-126 | result and cursor agree with `ParseNumber` |
| Parsing.Parser.Parameters | ILMath/Parser.cs:129-140 | result and cursor agree with `ParseParameters` |
| SyntaxTree.Children | ILMath/SyntaxTree/FunctionNode.cs:14-17 | children are proper parts of a node; a call's children are its parameters in order; numbers, variables and markers have none (also NumberNode.cs:14-17, VariableNode.cs:12-15, OperatorNode.cs:12-15, UnaryNode.cs:14-17, TermNode.cs:12-15) |
| SyntaxTree.OperatorName | ILMath/Compiler.cs:227 | `Enum.ToString`: a named operator prints as its capitalised name, an unnamed value as its number, so the two never look alike |
| SyntaxTree.NodeTypeName | ILMath/Compiler.cs:112 | `node.GetType()` in the "Unknown node type" messages: the node class's full name (also FunctionalCompiler.cs:38, ExpressionTreeCompiler.cs:40, FunctionCompiler.cs:45); `ParsedTreesAreRejected` uses it |
| SyntaxTree.Render | ILMath/SyntaxTree/FunctionNode.cs:19-22 | every node prints as its kind name followed by `(`, and ends with `)` (also VariableNode.cs:17-20, OperatorNode.cs:17-20, UnaryNode.cs:19-22, TermNode.cs:17-20, ExpressionNode.cs:12-15, ExponentNode.cs:14-17); the contents between are shown by RenderEmptyCall and RenderUnary |
| SyntaxTree.RenderEmptyCall | ILMath/SyntaxTree/FunctionNode.cs:19-22 | `f()` prints as `Function(f, )` |
| SyntaxTree.RenderUnary | ILMath/SyntaxTree/UnaryNode.cs:19-22 | `-x` prints as `Unary(Minus, Variable(x))` |
| NodeEquality.Equals | ILMath/SyntaxTree/FunctionNode.cs:33-45 | the `Equals` overrides: only nodes of the same class are equal, and an expression or exponent node (no override) is equal to no other tree (also NumberNode.cs:29-34, VariableNode.cs:27-32, OperatorNode.cs:27-32, UnaryNode.cs:32-37, TermNode.cs:30-40) |
| NodeEquality.HashCode | ILMath/SyntaxTree/FunctionNode.cs:24-31 | the `GetHashCode` overrides: a hash records the node's own identity exactly for expression and exponent nodes, which have no override (also NumberNode.cs:24-27, VariableNode.cs:22-25, OperatorNode.cs:22-25, UnaryNode.cs:24-30, TermNode.cs:22-28) |
| NodeEquality.HashCodes | ILMath/SyntaxTree/TermNode.cs:22-28 | the list of child hashes is positionwise the children's hashes, each child hashed at its own position |
| NodeEquality.ComputeEquals | ILMath/SyntaxTree/FunctionNode.cs:33-45 | the loops with `equals &=` compute `Equals` (also TermNode.cs:30-40, UnaryNode.cs:32-37) |
| NodeEquality.EqualsAll | ILMath/SyntaxTree/TermNode.cs:36-39 | the loop is true exactly when every position is equal |
| NodeEquality.ComputeHashCode | ILMath/SyntaxTree/FunctionNode.cs:24-31 | the loops that feed `HashCode.Add` compute `GetHashCode` (also TermNode.cs:22-28, UnaryNode.cs:24-30) |
| NodeEquality.HashCodesAppend | ILMath/SyntaxTree/TermNode.cs:25-26 | feeding one more child appends its hash |
| NodeEquality.EqualsImpliesSameHash | ILMath/SyntaxTree/NumberNode.cs:24-34 | equal nodes have equal hash codes, for every node kind and wherever the two nodes sit |
| NodeEquality.EqualsAllSameHashes | ILMath/SyntaxTree/TermNode.cs:22-40 | positionwise equal lists have equal hash lists |
| NodeEquality.EqualsSymmetric | ILMath/SyntaxTree/UnaryNode.cs:32-37 | `a.Equals(b)` exactly when `b.Equals(a)` |
| NodeEquality.EqualsIsEquality | ILMath/SyntaxTree/VariableNode.cs:27-32 | on trees without expression, exponent or binary nodes, `Equals` is structural equality, both ways |
| NodeEquality.ListEquality | ILMath/SyntaxTree/TermNode.cs:30-40 | positionwise `Equals` of such lists is list equality |
| NodeEquality.CountMismatch | ILMath/SyntaxTree/FunctionNode.cs:39-40 | calls with different parameter counts are never equal |
| NodeEquality.SeparateParsesHashApart | ILMath/SyntaxTree/ExpressionNode.cs:3-16 | the root of a parse hashes as its own object, so two parses, even of the same text, give different hash records (HashTest.cs:9-16 expects equal hashes) |
| NodeEquality.ParsesAreNeverEqual | ILMath/SyntaxTree/ExpressionNode.cs:3-16 | two parses, even of the same text, are never `Equals`: the root compares by reference |
| NodeEquality.StructuralEqualsIsReflexive | ILMath/SyntaxTree/ExpressionNode.cs:3-16 | with list equality like `TermNode`'s, every tree equals itself |
| NodeEquality.RepeatedParsesAreStructurallyEqual | ILMath.Test/EqualityTest.cs:9-18 | two parses of one text are equal under the corrected equality and unequal under the written one |
| NodeEquality.StructuralEqualsIsEquality | ILMath.Test/EqualityTest.cs:20-35 | on trees without binary nodes the corrected equality holds exactly when the trees are the same, both ways |
| NodeEquality.StructuralListEquality | ILMath/SyntaxTree/TermNode.cs:30-40 | positionwise corrected equality of such lists is list equality |
| NodeEquality.ParsesAreBinaryFree | ILMath/Parser.cs:30-126 | the parser never builds a binary node |
| NodeEquality.ExpressionTreeIsBinaryFree | ILMath/Parser.cs:37-51 | an expression-shaped tree holds no binary node |
| NodeEquality.TermTreeIsBinaryFree | ILMath/Parser.cs:53-72 | a term-shaped tree holds no binary node |
| NodeEquality.ExponentTreeIsBinaryFree | ILMath/Parser.cs:74-86 | an exponent-shaped tree holds no binary node |
| NodeEquality.FactorTreeIsBinaryFree | ILMath/Parser.cs:88-126 | a factor-shaped tree holds no binary node |
| NodeEquality.ParsesAreStructurallyEqualExactlyWhenSame | ILMath.Test/EqualityTest.cs:20-35 | under the corrected equality two parses are equal exactly when they are the same tree, so parses that differ in a number, name or operator are unequal |
| NodeEquality.StructuralHashCodes | ILMath/SyntaxTree/TermNode.cs:22-28 | the corrected hash of a list is positionwise its elements' hashes |
| NodeEquality.StructuralEqualsImpliesSameHash | ILMath/SyntaxTree/ExpressionNode.cs:3-16 | under the corrected equality, equal trees hash alike |
| Semantics.EvalAll | ILMath/Compiler/FunctionalCompiler.cs:91-92 | a successful evaluation of a parameter list has one value per parameter |
| Semantics.WellFormedIsCompilable | ILMath/Compiler.cs:92-136 | every tree the closure back ends accept, the IL back end accepts too |
| Semantics.EvalAllIsPointwise | ILMath/Compiler/FunctionalCompiler.cs:91-92 | parameters evaluate in order; the list succeeds exactly when each does, with their values; otherwise the first failing one decides |
| Evaluation.KeySetMembers | ILMath/EvaluationContext.cs:18-61 | the names a registration list uses are exactly its first components |
| Evaluation.DistinctKeysStep | ILMath/EvaluationContext.cs:18-61 | a list has distinct names exactly when its head is new and its tail distinct |
| Evaluation.AddThenLookup | ILMath/EvaluationContext.cs:68-71 | `Dictionary.Add` succeeds exactly for a new key, which then maps to the value; other keys are unchanged |
| Evaluation.AddAllSucceeds | ILMath/EvaluationContext.cs:18-61 | a run of `Add`s succeeds exactly when its names are distinct and new, and then holds every entry |
| Evaluation.DistinctKeysCount | ILMath/EvaluationContext.cs:18-61 | distinct names make as many keys as entries |
| Evaluation.BuiltInFunctionTable | ILMath/EvaluationContext.cs:30-60 | the function table registers the names of the arity table, in order |
| Evaluation.BuiltInVariableNamesAreDistinct | ILMath/EvaluationContext.cs:20-28 | the 8 built-in variable names are distinct |
| Evaluation.BuiltInArityNamesAreDistinct | ILMath/EvaluationContext.cs:30-60 | the 30 built-in function names are distinct |
| Evaluation.BuiltInFunctionNamesAreDistinct | ILMath/EvaluationContext.cs:30-60 | the registered function list has 30 distinct names |
| Evaluation.AddAllToEmpty | ILMath/EvaluationContext.cs:101-106 | registering distinct names into an empty table succeeds and yields exactly those entries |
| Evaluation.DefaultVariablesAreComplete | ILMath/EvaluationContext.cs:18-28 | the default context holds exactly the 8 variables |
| Evaluation.DefaultFunctionsAreComplete | ILMath/EvaluationContext.cs:30-61 | the default context holds exactly the 30 functions |
| Evaluation.RegisteredVariableResolves | ILMath/EvaluationContext.cs:83-88 | after registering, the name resolves to its value and other names are unchanged; before, it is "Unknown variable: id" |
| Evaluation.RegisteredFunctionIsCalled | ILMath/EvaluationContext.cs:90-95 | after registering, calling the name passes the parameters unchanged to the function; before, it is "Unknown function: id" |
| Evaluation.BuiltInArity | ILMath/EvaluationContext.cs:31-60 | a built-in throws exactly when given fewer parameters than it reads, and ignores extra ones |
| Evaluation.BuiltInFunction | ILMath/EvaluationContext.cs:31-60 | the built-in lambdas read `parameters[0..arity)`; `BuiltInArity` states when they throw and that extra parameters are ignored |
| Evaluation.Env.GetVariable | ILMath/EvaluationContext.cs:83-88 | succeeds exactly for a registered name, with its value; otherwise "Unknown variable: id" |
| Evaluation.Env.CallFunction | ILMath/EvaluationContext.cs:90-95 | a registered name calls its function on the parameters unchanged; otherwise "Unknown function: id" |
| Evaluation.EvaluationContext.constructor | ILMath/EvaluationContext.cs:12-13 | both tables start empty |
| Evaluation.EvaluationContext.RegisterVariable | ILMath/EvaluationContext.cs:68-71 | adds the variable or throws on a duplicate, leaving the table unchanged; the function table never changes |
| Evaluation.EvaluationContext.RegisterFunction | ILMath/EvaluationContext.cs:78-81 | the same for the function table; the variable table never changes |
| Evaluation.EvaluationContext.RegisterVariables | ILMath/EvaluationContext.cs:20-28 | the loop of `Add`s ends in the table `AddAll` describes |
| Evaluation.EvaluationContext.RegisterFunctions | ILMath/EvaluationContext.cs:30-60 | the loop of `Add`s ends in the table `AddAll` describes |
| Evaluation.EvaluationContext.RegisterBuiltIns | ILMath/EvaluationContext.cs:18-61 | the variables, then the functions, in the source's order |
| Evaluation.EvaluationContext.CreateDefault | ILMath/EvaluationContext.cs:101-106 | a fresh context holding exactly the built-ins; registration never hits a duplicate |
| FunctionalCompilation.CompileNode | ILMath/Compiler/FunctionalCompiler.cs:29-40 | compiles exactly the well-formed trees and otherwise raises a CompilerException before any evaluation |
| FunctionalCompilation.CompileAll | ILMath/Compiler/FunctionalCompiler.cs:87 | compiles a parameter list exactly when every parameter compiles, one closure each |
| FunctionalCompilation.CompileOperator | ILMath/Compiler/FunctionalCompiler.cs:49-58 | every named operator compiles; an unnamed one raises "Unknown operator" |
| FunctionalCompilation.EvaluateAll | ILMath/Compiler/FunctionalCompiler.cs:91-92 | a filled buffer has exactly one slot per parameter |
| FunctionalCompilation.InvokeCall | ILMath/Compiler/FunctionalCompiler.cs:88-94 | the loop that fills the `stackalloc` buffer and calls the context computes the call closure's result |
| FunctionalCompilation.PrependNothing | ILMath/Compiler/FunctionalCompiler.cs:91-92 | filling resumes with nothing done as if from the start |
| FunctionalCompilation.PrependTwice | ILMath/Compiler/FunctionalCompiler.cs:91-92 | two stretches of filled slots join into one |
| FunctionalCompilation.EvaluateAllStep | ILMath/Compiler/FunctionalCompiler.cs:91-92 | one turn of the fill loop |
| FunctionalCompilation.Compile | ILMath/Compiler/FunctionalCompiler.cs:18-27 | succeeds exactly on well-formed trees, whatever the name |
| FunctionalCompilation.CompileNodeAgrees | ILMath/Compiler/FunctionalCompiler.cs:29-95 | the closure for a well-formed tree returns `Eval`'s value or exception in every context |
| FunctionalCompilation.CompileAllAgrees | ILMath/Compiler/FunctionalCompiler.cs:84-95 | the parameter closures, run left to right, fill the buffer with `EvalAll`'s values |
| FunctionalCompilation.CompileAgrees | ILMath/Compiler/FunctionalCompiler.cs:18-27 | the evaluator agrees with `Eval` in every context |
| FunctionCompilation.FunctionCompiler.constructor | ILMath/FunctionCompiler.cs:15-18 | the root is fixed at construction |
| FunctionCompilation.FunctionCompiler.Compile | ILMath/FunctionCompiler.cs:25-28 | compiles the held root, ignoring the name: succeeds exactly on well-formed trees, agrees with `Eval` and with the newer closure back end |
| FunctionCompilation.FunctionCompiler.CompileSyntaxTree | ILMath/FunctionCompiler.cs:30-102 | the same for any root: a CompilerException exactly when the tree is not well formed, otherwise the same evaluator behaviour as `FunctionalCompiler` |
| ExpressionTreeCompilation.CompileNode | ILMath/Compiler/ExpressionTreeCompiler.cs:31-42 | builds an expression exactly for well-formed trees and otherwise raises a CompilerException |
| ExpressionTreeCompilation.CompileAll | ILMath/Compiler/ExpressionTreeCompiler.cs:90-94 | the `Select` over parameters yields one expression per parameter exactly when each compiles |
| ExpressionTreeCompilation.CompileOperator | ILMath/Compiler/ExpressionTreeCompiler.cs:44-61 | every named operator maps to a node; an unnamed one raises "Unknown operator" |
| ExpressionTreeCompilation.CallMethod | ILMath/Compiler/ExpressionTreeCompiler.cs:97-100 | forwards unchanged to the context's function, or "Unknown function: id" |
| ExpressionTreeCompilation.InterpretAll | ILMath/Compiler/ExpressionTreeCompiler.cs:94 | the array initialiser yields one value per element |
| ExpressionTreeCompilation.Compile | ILMath/Compiler/ExpressionTreeCompiler.cs:19-29 | a lambda exactly for well-formed trees, otherwise the tree's CompilerException, whatever the name |
| ExpressionTreeCompilation.UnaryPlusIsTheChild | ILMath/Compiler/ExpressionTreeCompiler.cs:73 | unary Plus is the child's expression itself |
| ExpressionTreeCompilation.UnaryMinusNegates | ILMath/Compiler/ExpressionTreeCompiler.cs:74 | unary Minus wraps the child in `Negate` |
| ExpressionTreeCompilation.OperatorsAreDistinguished | ILMath/Compiler/ExpressionTreeCompiler.cs:51-60 | the six operators map to six different expression nodes |
| ExpressionTreeCompilation.CompileNodeAgrees | ILMath/Compiler/ExpressionTreeCompiler.cs:31-100 | the expression for a well-formed tree evaluates to `Eval`'s value or exception in every context |
| ExpressionTreeCompilation.CompileAllAgrees | ILMath/Compiler/ExpressionTreeCompiler.cs:88-95 | the array of parameter expressions evaluates to `EvalAll`'s values |
| ExpressionTreeCompilation.CompileAgrees | ILMath/Compiler/ExpressionTreeCompiler.cs:19-29 | the compiled lambda agrees with `Eval` in every context |
| ILMachine.Execute | ILMath/Compiler.cs:86-89 | running a method body on an `array` block computes exactly the specified run |
| ILMachine.Perform | ILMath/Compiler.cs:71-75 | one instruction on the `array` block does exactly what `Step` specifies, reallocating the block only for `localloc` |
| ILCompilation.StackSize | ILMath/Compiler.cs:33-48 | the pre-pass's maximum is never negative |
| ILCompilation.StackSizeOf | ILMath/Compiler.cs:36-43 | the maximum after the first children is never negative |
| ILCompilation.CalculateMaximumParameterStackSize | ILMath/Compiler.cs:33-48 | the `ref` accumulator ends as the larger of its old value and the tree's maximum |
| ILCompilation.StackSizeMonotone | ILMath/Compiler.cs:33-48 | a deeper starting location never gives a smaller maximum |
| ILCompilation.StackSizeOfMonotone | ILMath/Compiler.cs:36-43 | the same, after the first children |
| ILCompilation.StackSizeOfGrows | ILMath/Compiler.cs:36-43 | visiting more children never lowers the maximum |
| ILCompilation.ChildStackSize | ILMath/Compiler.cs:38-46 | parameter i of a call sits at location +i+1 and its own maximum, like every child's, is within its parent's |
| ILCompilation.StackSizePositive | ILMath/Compiler.cs:28-48 | the pre-pass yields a positive size exactly when some call has a parameter |
| ILCompilation.StackSizeOfPositive | ILMath/Compiler.cs:36-46 | the same, after the first children |
| ILCompilation.EveryCallFits | ILMath/Compiler.cs:42 | every call in the tree has no more parameters than the block has slots |
| ILCompilation.OperatorInstruction | ILMath/Compiler.cs:217-234 | every named operator has its instruction; an unnamed one raises "Unknown operator" |
| ILCompilation.Emit | ILMath/Compiler.cs:92-215 | code is emitted exactly for compilable trees whose parameterised calls have the block; an unknown node or operator is a CompilerException; a call without the block trips the debug assertion |
| ILCompilation.Program | ILMath/Compiler.cs:60-90 | `CompileSyntaxTree`'s code: the `localloc` prologue exactly when the pre-pass found a call with parameters, the root's code, `ret`; `ProgramComputes` and `ProgramRejects` state what it does |
| ILCompilation.EmitArguments | ILMath/Compiler.cs:165-185 | the first j arguments compile exactly when each does; any argument implies a parameterised call |
| ILCorrectness.SlotAddressRuns | ILMath/Compiler.cs:168-178 | the address code pushes a pointer to slot `offset` |
| ILCorrectness.OperatorRuns | ILMath/Compiler.cs:217-234 | each operator instruction combines the two topmost values as `Apply` does |
| ILCorrectness.EvalAllAppend | ILMath/Compiler.cs:165-185 | evaluating one more argument extends the evaluated prefix |
| ILCorrectness.EvalAllSnoc | ILMath/Compiler.cs:165-185 | the same for a list ending in one argument |
| ILCorrectness.EmitComputes | ILMath/Compiler.cs:92-114 | a node's code pushes `Eval`'s value, or throws its exception, touching only the block's slots at or above its location |
| ILCorrectness.VariableComputes | ILMath/Compiler.cs:138-148 | a variable's code pushes `GetVariable`'s result |
| ILCorrectness.BinaryComputes | ILMath/Compiler.cs:116-124 | left, right, operator pushes the combined value; an exception in either operand ends the run |
| ILCorrectness.UnaryComputes | ILMath/Compiler.cs:131-136 | a unary node's code pushes the value, negated only for Minus |
| ILCorrectness.FunctionComputes | ILMath/Compiler.cs:150-215 | a call's code pushes `CallFunction`'s result on the evaluated parameters |
| ILCorrectness.CallComputes | ILMath/Compiler.cs:187-214 | with the arguments stored, the span over slots [location, location + count) passes exactly them |
| ILCorrectness.CallTailRuns | ILMath/Compiler.cs:200-214 | the span and the call after the stored arguments |
| ILCorrectness.EvalPrefix | ILMath/Compiler.cs:165-185 | the values of the first arguments |
| ILCorrectness.EvalPrefixIsEvalAll | ILMath/Compiler.cs:165-185 | the prefix of all arguments is `EvalAll` |
| ILCorrectness.EmitArgumentsComputes | ILMath/Compiler.cs:165-185 | the argument loop's code stores each argument in its slot, in order, or throws the first exception |
| ILCorrectness.ArgumentsExtend | ILMath/Compiler.cs:170-184 | one more turn of the loop extends the stored prefix |
| ILCorrectness.ArgumentsUnfold | ILMath/Compiler.cs:170-184 | the loop's code is the previous turns' code plus one store |
| ILCorrectness.ArgumentAfter | ILMath/Compiler.cs:170-184 | code for argument i leaves the slots of arguments 0..i-1 intact |
| ILCorrectness.ArgumentComputes | ILMath/Compiler.cs:170-184 | argument i's code stores its value at slot location + i |
| ILCorrectness.StoreComputes | ILMath/Compiler.cs:168-184 | the address, the argument, `stind.r8` writes the value to the slot |
| ILCorrectness.ProgramComputes | ILMath/Compiler.cs:60-215 | the whole method body of a compilable tree returns `Eval`'s value or raises its exception, never faulting |
| ILCorrectness.ProgramRejects | ILMath/Compiler.cs:111-112 | a tree that is not compilable is rejected with a CompilerException, for an unknown node here or an unknown operator at line 227 |
| ILPieces.Extend | ILMath/Compiler.cs:165-185 | the argument values filled in so far grow by one value, and the first exception raised wins |
| ILPieces.ExecOne | ILMath/Compiler.cs:92-215 | running one instruction |
| ILPieces.ExecTwo | ILMath/Compiler.cs:92-215 | running two instructions |
| ILPieces.ContextAndName | ILMath/Compiler.cs:143-145 | `ldarg.0; ldstr id` pushes the context and the name, for variables and for calls (lines 155-156) |
| ILPieces.CallRuns | ILMath/Compiler.cs:200-214 | `callvirt CallFunction` pops the context, the name and the span and pushes the result |
| ILPieces.CallOnSpan | ILMath/Compiler.cs:200-214 | the span constructed over the slots passes their values |
| ILPieces.EmptySpanCallRuns | ILMath/Compiler.cs:206-211 | a call with `Span.Empty` passes no parameters and never reads the block |
| ILPieces.EmptyCallRuns | ILMath/Compiler.cs:206-214 | a call without parameters pushes `CallFunction(id, [])` |
| ILPieces.ArgumentsStep | ILMath/Compiler.cs:170-184 | one turn of the argument loop, run |
| ILPieces.StoreRuns | ILMath/Compiler.cs:184 | `stind.r8` writes the slot its pointer names |
| ILPieces.StoreExtends | ILMath/Compiler.cs:184 | the stored slot extends the block's contents |
| ILPieces.FirstRetAfter | ILMath/Compiler.cs:86 | the first `ret` of the body is the one at its end |
| ILPieces.PrologueRuns | ILMath/Compiler.cs:68-80 | the prologue allocates a zeroed block of the pre-pass's size and stores its pointer |
| ILPieces.AllocateRuns | ILMath/Compiler.cs:71-75 | `ldc.i4; conv.u; localloc` allocates the block |
| ILPieces.RunsToRet | ILMath/Compiler.cs:83-86 | after the root's code, `ret` returns the value on the stack |
| ILGeneration.ILGenerator.constructor | ILMath/Compiler.cs:64 | a new generator holds no code |
| ILGeneration.ILGenerator.Emit | ILMath/Compiler.cs:71 | `Emit` appends one instruction |
| ILGeneration.AppendAssociates | ILMath/Compiler.cs:92-215 | appending code is associative |
| ILGeneration.EmitArgumentsStopsAt | ILMath/Compiler.cs:165-185 | an argument that fails to compile fails the whole call with its exception |
| ILGeneration.EmitArgumentsFailsAt | ILMath/Compiler.cs:165-185 | the first failing argument decides the exception |
| ILGeneration.EmitArgumentsKeepsFailing | ILMath/Compiler.cs:165-185 | a failure stops the loop |
| ILGeneration.EmitArgumentsNext | ILMath/Compiler.cs:165-185 | a compiled argument adds its store |
| ILGeneration.EmitCallUnavailable | ILMath/Compiler.cs:162 | a call with parameters and no block trips the debug assertion |
| ILGeneration.EmitCallFails | ILMath/Compiler.cs:165-185 | a call whose arguments fail raises their exception |
| ILGeneration.EmitCallShape | ILMath/Compiler.cs:150-215 | a call's code: context, name, stored arguments, span, call |
| ILGeneration.Compiler.constructor | ILMath/Compiler.cs:23-31 | the pre-pass from location -1 sizes the block for the root |
| ILGeneration.Compiler.Compile | ILMath/Compiler.cs:55-58 | compiles exactly the compilable trees, otherwise a CompilerException; the body returns `Eval`'s value or raises its exception in every context |
| ILGeneration.Compiler.CompileSyntaxTree | ILMath/Compiler.cs:60-90 | the prologue when a block is needed, the root's code, `ret` |
| ILGeneration.Compiler.CompileNode | ILMath/Compiler.cs:92-114 | appends exactly the specified code, or raises the specified exception |
| ILGeneration.Compiler.CompileOperatorNode | ILMath/Compiler.cs:116-124 | left, right, then the operator's instruction |
| ILGeneration.Compiler.CompileNumberNode | ILMath/Compiler.cs:126-129 | `ldc.r8 value` |
| ILGeneration.Compiler.CompileUnaryNode | ILMath/Compiler.cs:131-136 | the operand, then `neg` only for Minus |
| ILGeneration.Compiler.CompileVariableNode | ILMath/Compiler.cs:138-148 | context, name, `callvirt GetVariable` |
| ILGeneration.Compiler.CompileFunctionNode | ILMath/Compiler.cs:150-215 | appends exactly the specified call code, or raises the debug assertion's or an argument's exception |
| ILGeneration.Compiler.CompileArguments | ILMath/Compiler.cs:165-185 | the for-loop stores each argument in its slot, in order, or stops at the first failure |
| ILGeneration.Compiler.CompileArgument | ILMath/Compiler.cs:168-184 | the slot's address, the argument compiled at that slot's location, `stind.r8` |
| ILGeneration.Compiler.EmitSlotAddress | ILMath/Compiler.cs:168-178 | `ldloc`, plus the byte offset when the slot is not the first |
| ILGeneration.Compiler.GenerateOperatorInstruction | ILMath/Compiler.cs:217-234 | the operator's instruction, or a CompilerException with nothing emitted |
| Agreement.BackEndsAgree | ILMath.Test/EvaluationTest.cs:54-61 | on every tree all back ends accept, the IL method, the closure and the lambda all return `Eval`'s value or exception in every context |
| Agreement.UnaryTimesDiverges | ILMath/Compiler.cs:131-136 | a unary `*1` compiles to its operand in IL, while both other back ends raise "Unknown unary operator: Multiplication" (ILMath/Compiler/FunctionalCompiler.cs:67-76, ILMath/Compiler/ExpressionTreeCompiler.cs:68-77) |
| Agreement.ParsedTreesAreRejected | ILMath/Compiler.cs:111-112 | every back end rejects every tree the parser returns with a CompilerException, as its root is an `ExpressionNode` (ILMath/Parser.cs:51) |

## Left out

- Floating point: the arithmetic is an uninterpreted term algebra, so IEEE rounding, `NaN` and `-0.0` equality quirks are not modelled.
- The bodies of the 30 built-in functions and the values of the 8 built-in variables: each is a named host value or call. A built-in reads exactly its first `arity` parameters.
- `double.Parse` with its culture handling and rounding: a number literal's value is its exact decimal value.
- `NumberNode.ToString`'s number formatting: `SyntaxTree.Render` takes the formatter as a parameter.
- `char.IsDigit` accepts every Unicode decimal digit; the model accepts the ASCII digits only.
- Lexing.Scan, Lexing.ScanNonSymbol and Lexing.Lexer.NextNonSymbolToken: the input is a sequence of Unicode scalar values, while a C# string is a sequence of UTF-16 code units; a character outside the Basic Multilingual Plane is one `Unknown` token here and two `Unknown` tokens, one per surrogate, in C#, and a string holding a lone surrogate cannot be written in the model.
- Reflection.Emit and System.Linq.Expressions: `DynamicMethod`, `CreateDelegate` and `Expression.Lambda(...).Compile()` are replaced by the `ILMachine` interpreter and the `ExpressionTreeCompilation.Interpret` function over the emitted instructions and expression nodes.
- NodeEquality.HashCode: hash values are symbolic records of what is fed to `System.HashCode`, which is seeded randomly per process; an object's own hash is recorded as its identity (the number of the tree it was built in and its path there). The model proves "equal implies same hash" and "different objects give different records" for these records, not for concrete integers, which may collide.
- `ILMath/MathEvaluation.cs` is not part of this model: its calls do not match the shown `Compiler` constructor and `Compile` signatures.
- The delegates, the interfaces `INode`, `ICompiler` and `IEvaluationContext`, the `CompilationMethod` enum and the exception classes are types here, with no behaviour to model.
- Thread safety of evaluators and contexts: the source has no locking.
- The benchmarks and the test console are harness code.
- ILMachine.Execute: the block is an `array<Num>` of slots rather than raw memory, so byte offsets that are not multiples of 8 are a fault rather than a misaligned access.
- The stack depth of the IL evaluation stack and `maxstack` are not checked.

## Findings

| source | as written | input that shows it | evidently intended | confidence | as-written member | corrected member |
|---|---|---|---|---|---|---|
| ILMath/SyntaxTree/ExpressionNode.cs:3-16 | `ExpressionNode` overrides neither `Equals` nor `GetHashCode`, and the parser's root is always an `ExpressionNode`, so two parses of the same text are never equal (the equality tests in ILMath.Test/EqualityTest.cs:9-18 expect them equal) | `"2 + 1 * 5"` parsed twice | positionwise equality of the children, as `TermNode` does | not executed | NodeEquality.ParsesAreNeverEqual | NodeEquality.StructuralEqualsIsReflexive |
| ILMath/SyntaxTree/ExpressionNode.cs:3-16 | `ExpressionNode` does not override `GetHashCode`, so a parse's hash is its root object's own hash, and two parses of the same text hash differently unless the object hashes collide (ILMath.Test/HashTest.cs:9-16 expects equal hashes) | `"sin(pi)"` parsed and hashed twice | the hash of the children, positionwise, as `TermNode` does, so structurally equal trees hash alike | not executed | NodeEquality.SeparateParsesHashApart | NodeEquality.StructuralEqualsImpliesSameHash |
