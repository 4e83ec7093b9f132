/** Token kinds and tokens (tokens.rs). The parser's `TokenType::Rational`
    is the `Decimal` kind here. */
module Tokens {
  import opened Errors

  datatype TokenType =
    | AmbiguousOperator
    | BinaryFunctionIdentifier
    | BinaryOperator
    | Bitseq
    | Expression
    | Integer
    | Decimal
    | UnaryFunctionIdentifier
    | UnaryOperator
    | VariableIdentifier

  predicate IsNumeral(t: TokenType) { t == Bitseq || t == Integer || t == Decimal }

  predicate IsOperator(t: TokenType) { t == AmbiguousOperator || t == BinaryOperator || t == UnaryOperator }

  predicate IsResolvedOperator(t: TokenType) { t == BinaryOperator || t == UnaryOperator }

  predicate IsUnary(t: TokenType) { t == UnaryFunctionIdentifier || t == UnaryOperator }

  predicate IsBinary(t: TokenType) { t == BinaryFunctionIdentifier || t == BinaryOperator }

  predicate IsIdentifier(t: TokenType)
  {
    t == BinaryFunctionIdentifier || t == UnaryFunctionIdentifier || t == VariableIdentifier
  }

  predicate IsFunctionIdentifier(t: TokenType)
  {
    t == BinaryFunctionIdentifier || t == UnaryFunctionIdentifier
  }

  predicate IsVariableIdentifier(t: TokenType) { t == VariableIdentifier }

  predicate IsTerminal(t: TokenType)
  {
    t == Bitseq || t == Integer || t == Decimal || t == VariableIdentifier
  }

  /** A terminal is exactly a numeral or a variable. */
  lemma TerminalIsNumeralOrVariable(t: TokenType)
    ensures IsTerminal(t) <==> IsNumeral(t) || IsVariableIdentifier(t)
    ensures IsTerminal(t) <==> t in {Bitseq, Integer, Decimal, VariableIdentifier}
  {
  }

  /** Unary and binary kinds are disjoint, and the ambiguous operator and a
      parenthesised expression are neither. */
  lemma UnaryBinaryDisjoint(t: TokenType)
    ensures !(IsUnary(t) && IsBinary(t))
    ensures !IsUnary(AmbiguousOperator) && !IsBinary(AmbiguousOperator)
    ensures !IsUnary(Expression) && !IsBinary(Expression)
  {
  }

  /** A resolved operator is an operator; the ambiguous operator is an
      operator that is not resolved. */
  lemma ResolvedOperators(t: TokenType)
    ensures IsResolvedOperator(t) ==> IsOperator(t)
    ensures IsOperator(t) && !IsResolvedOperator(t) <==> t == AmbiguousOperator
  {
  }

  /** A function identifier is an identifier that is not a variable. */
  lemma FunctionIdentifiers(t: TokenType)
    ensures IsFunctionIdentifier(t) <==> IsIdentifier(t) && !IsVariableIdentifier(t)
  {
  }

  /** A parenthesised expression is neither terminal, nor operator, nor identifier. */
  lemma ExpressionIsNoneOfThem()
    ensures !IsTerminal(Expression) && !IsOperator(Expression) && !IsIdentifier(Expression)
    ensures !IsNumeral(Expression) && !IsFunctionIdentifier(Expression)
  {
  }

  /** A token: its kind, the characters it was read from, where it was read,
      and whether the parser synthesised it. */
  datatype Token = Token(type_: TokenType, content: string, position: InputPosition, implicit: bool)

  /** Token::new */
  function NewToken(type_: TokenType, content: string, position: InputPosition): (t: Token)
    ensures t.type_ == type_ && t.content == content && t.position == position
    ensures !t.implicit
  {
    Token(type_, content, position, false)
  }

  /** Token::new_implicit */
  function NewImplicit(type_: TokenType, content: string, position: InputPosition): (t: Token)
    ensures t.type_ == type_ && t.content == content && t.position == position
    ensures t.implicit
  {
    Token(type_, content, position, true)
  }

  /** The two constructors differ only in the implicit flag. */
  lemma NewAndImplicitDifferOnlyInFlag(type_: TokenType, content: string, position: InputPosition)
    ensures NewImplicit(type_, content, position) == NewToken(type_, content, position).(implicit := true)
    ensures NewToken(type_, content, position) != NewImplicit(type_, content, position)
  {
  }
}
