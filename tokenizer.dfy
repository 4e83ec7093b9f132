/** The character tokenizer of the parser (parser.rs, `tokenize` and its two
    copy helpers). The input is read left to right: whitespace is skipped, a
    `(` takes the depth-balanced span up to its matching `)` as one
    Expression token, and a numeral, identifier or operator character starts
    a greedy run over the characters that may continue it. Every token read
    is pushed onto the tree as a childless node. */
module Tokenizer {
  import opened Outcomes
  import opened Errors
  import opened Tokens
  import opened Patterns
  import opened Asts

  // ---------------------------------------------------------------------
  // Greedy runs

  /** The length of the longest run of characters of `charset` starting at `start`. */
  function Run(input: string, charset: string, start: nat): (n: nat)
    requires start <= |input|
    ensures start + n <= |input|
    ensures forall k :: start <= k < start + n ==> input[k] in charset
    ensures start + n < |input| ==> input[start + n] !in charset
    decreases |input| - start
  {
    if start == |input| || input[start] !in charset then 0 else 1 + Run(input, charset, start + 1)
  }

  /** Parser::_copy_while: appends to `buf` the characters from `start` on for
      as long as they belong to `charset`. */
  method CopyWhile(input: string, charset: string, start: nat, buf: string) returns (r: string)
    requires start <= |input|
    ensures r == buf + input[start..start + Run(input, charset, start)]
  {
    r := buf;
    var j := start;
    while j < |input|
      invariant start <= j <= |input|
      invariant r == buf + input[start..j]
      invariant Run(input, charset, start) == (j - start) + Run(input, charset, j)
      decreases |input| - j
    {
      if input[j] in charset {
        assert input[start..j + 1] == input[start..j] + [input[j]];
        r := r + [input[j]];
      } else {
        break;
      }
      j := j + 1;
    }
  }

  /** The run that starts with the character at `i` and continues over `charset`. */
  function Word(input: string, charset: string, i: nat): (w: string)
    requires i < |input|
    ensures 1 <= |w| && i + |w| <= |input|
    ensures w == input[i..i + |w|] && w[0] == input[i]
    ensures forall k :: 1 <= k < |w| ==> w[k] in charset
    ensures i + |w| < |input| ==> input[i + |w|] !in charset
  {
    input[i..i + 1 + Run(input, charset, i + 1)]
  }

  // ---------------------------------------------------------------------
  // Matched spans

  /** How a character changes the nesting depth; the opening character is
      tested first. */
  function Step(c: char, open: char, close: char): int
  {
    if c == open then 1 else if c == close then -1 else 0
  }

  /** The nesting depth at the end of `s`: openings minus closings. */
  function Depth(s: string, open: char, close: char): int
  {
    if s == [] then 0 else Step(s[0], open, close) + Depth(s[1..], open, close)
  }

  /** Closes at zero and never dips below zero on the way. */
  predicate Balanced(s: string, open: char, close: char)
  {
    Depth(s, open, close) == 0 && forall j :: 0 <= j <= |s| ==> Depth(s[..j], open, close) >= 0
  }

  /** The index, from `k` on, of the closing character that brings the depth
      `depth` down to zero, if there is one. */
  function CloseIndex(input: string, open: char, close: char, k: nat, depth: nat): (r: Option<nat>)
    requires k <= |input| && depth >= 1
    ensures r.Some? ==> k <= r.value < |input| && input[r.value] == close
    decreases |input| - k
  {
    if k == |input| then None
    else if input[k] == open then CloseIndex(input, open, close, k + 1, depth + 1)
    else if input[k] == close then
      if depth == 1 then Some(k) else CloseIndex(input, open, close, k + 1, depth - 1)
    else CloseIndex(input, open, close, k + 1, depth)
  }

  const UnmatchedMsg: string := "Could not match open parenthesis with closing parenthesis"

  /** Parser::_copy_matchedspan: appends to `buf` the characters from `start`
      up to, and not including, the closing character that matches an
      opening one just before `start`; an error when there is none. */
  method CopyMatchedSpan(input: string, open: char, close: char, start: nat, buf: string)
    returns (res: Result<string, Error>)
    requires start <= |input|
    ensures res.Ok? <==> CloseIndex(input, open, close, start, 1).Some?
    ensures res.Ok? ==> res.value == buf + input[start..CloseIndex(input, open, close, start, 1).value]
    ensures res.Err? ==> res.error == NewP(SyntaxError, UnmatchedMsg, At(0, start))
  {
    var parens: nat := 1;
    var r := buf;
    var j := start;
    while j < |input|
      invariant start <= j <= |input|
      invariant parens >= 1
      invariant r == buf + input[start..j]
      invariant CloseIndex(input, open, close, start, 1) == CloseIndex(input, open, close, j, parens)
      decreases |input| - j
    {
      var c := input[j];
      if c == open {
        parens := parens + 1;
      } else if c == close {
        parens := parens - 1;
      }
      if parens < 1 {
        break;
      }
      assert input[start..j + 1] == input[start..j] + [c];
      r := r + [c];
      j := j + 1;
    }
    if parens > 0 {
      return Err(NewP(SyntaxError, UnmatchedMsg, At(0, start)));
    }
    return Ok(r);
  }

  /** Depth of a slice, one character at a time from its front. */
  lemma DepthCons(s: string, k: nat, j: nat, open: char, close: char)
    requires k < j <= |s|
    ensures Depth(s[k..j], open, close) == Step(s[k], open, close) + Depth(s[k + 1..j], open, close)
  {
    assert s[k..j][1..] == s[k + 1..j];
  }

  /** CloseIndex finds the first place where the depth, starting at `d`,
      reaches zero: up to it the depth stays positive, and when there is no
      such place it stays positive to the end of the input. */
  lemma CloseIndexIsFirstZero(input: string, open: char, close: char, k: nat, d: nat)
    requires k <= |input| && d >= 1
    ensures var r := CloseIndex(input, open, close, k, d);
      var last := if r.Some? then r.value else |input|;
      forall j :: k <= j <= last ==> d + Depth(input[k..j], open, close) >= 1
    ensures CloseIndex(input, open, close, k, d).Some? ==>
      var e := CloseIndex(input, open, close, k, d).value;
      d + Depth(input[k..e], open, close) == 1 && d + Depth(input[k..e + 1], open, close) == 0
  {
    CloseIndexStaysOpen(input, open, close, k, d);
    if CloseIndex(input, open, close, k, d).Some? {
      CloseIndexCloses(input, open, close, k, d);
    }
  }

  /** Up to the matching place, or to the end when there is none, the depth stays positive. */
  lemma {:induction false} CloseIndexStaysOpen(input: string, open: char, close: char, k: nat, d: nat)
    requires k <= |input| && d >= 1
    ensures var r := CloseIndex(input, open, close, k, d);
      var last := if r.Some? then r.value else |input|;
      forall j :: k <= j <= last ==> d + Depth(input[k..j], open, close) >= 1
    decreases |input| - k
  {
    if k == |input| {
      return;
    }
    var c := input[k];
    if c == close && c != open && d == 1 {
      return;
    }
    var d' := d + Step(c, open, close);
    assert d' >= 1;
    assert CloseIndex(input, open, close, k, d) == CloseIndex(input, open, close, k + 1, d');
    CloseIndexStaysOpen(input, open, close, k + 1, d');
    forall j | k < j <= |input|
      ensures Depth(input[k..j], open, close) == Step(c, open, close) + Depth(input[k + 1..j], open, close)
    {
      DepthCons(input, k, j, open, close);
    }
  }

  /** At the matching place the depth is 1 and its character brings it to 0. */
  lemma {:induction false} CloseIndexCloses(input: string, open: char, close: char, k: nat, d: nat)
    requires k <= |input| && d >= 1
    requires CloseIndex(input, open, close, k, d).Some?
    ensures var e := CloseIndex(input, open, close, k, d).value;
      d + Depth(input[k..e], open, close) == 1 && d + Depth(input[k..e + 1], open, close) == 0
    decreases |input| - k
  {
    var c := input[k];
    if c == close && c != open && d == 1 {
      assert CloseIndex(input, open, close, k, d) == Some(k);
      assert input[k..k + 1] == [c];
      assert Depth([c], open, close) == Step(c, open, close) + Depth([], open, close);
      return;
    }
    var d' := d + Step(c, open, close);
    assert d' >= 1;
    assert CloseIndex(input, open, close, k, d) == CloseIndex(input, open, close, k + 1, d');
    CloseIndexCloses(input, open, close, k + 1, d');
    var e := CloseIndex(input, open, close, k, d).value;
    assert k + 1 <= e;
    DepthCons(input, k, e, open, close);
    DepthCons(input, k, e + 1, open, close);
  }

  /** Depth of a prefix of a slice is the depth of a shorter slice. */
  lemma SlicePrefix(input: string, s: nat, j: nat, e: nat)
    requires s <= j <= e <= |input|
    ensures input[s..e][..j - s] == input[s..j]
  {
  }

  /** The span that `(` opens is balanced, and the `)` after it is the first
      place where the depth drops below zero; when the span is never closed,
      the depth stays at zero or above through the whole rest of the input. */
  lemma SpanIsBalanced(input: string, open: char, close: char, start: nat)
    requires start <= |input|
    ensures CloseIndex(input, open, close, start, 1).Some? ==>
      var e := CloseIndex(input, open, close, start, 1).value;
      Balanced(input[start..e], open, close) && input[e] == close &&
      Depth(input[start..e + 1], open, close) == -1
    ensures CloseIndex(input, open, close, start, 1).None? ==>
      forall j :: start <= j <= |input| ==> Depth(input[start..j], open, close) >= 0
  {
    CloseIndexIsFirstZero(input, open, close, start, 1);
    var r := CloseIndex(input, open, close, start, 1);
    if r.Some? {
      var e := r.value;
      var s := input[start..e];
      forall j | 0 <= j <= |s|
        ensures Depth(s[..j], open, close) >= 0
      {
        SlicePrefix(input, start, start + j, e);
      }
    }
  }

  // ---------------------------------------------------------------------
  // Classification

  /** A numeral is Decimal when it has a `.` or `,`, else Bitseq when it
      starts with `0b`, else Integer. */
  function NumeralType(w: string): (t: TokenType)
    ensures IsNumeral(t)
  {
    if Fractional(w) then Decimal
    else if BinaryPrefixed(w) then Bitseq
    else Integer
  }

  /** The run holds a fractional separator. */
  predicate Fractional(w: string)
  {
    '.' in w || ',' in w
  }

  /** The run starts with the binary prefix `0b`. */
  predicate BinaryPrefixed(w: string)
  {
    |w| >= 2 && w[0] == '0' && w[1] == 'b'
  }

  /** An identifier is a builtin unary function, else a builtin binary
      function, else a variable. */
  function IdentifierType(w: string): (t: TokenType)
    ensures IsIdentifier(t)
  {
    if w in BuiltinUnaryFunctions then UnaryFunctionIdentifier
    else if w in BuiltinBinaryFunctions then BinaryFunctionIdentifier
    else VariableIdentifier
  }

  /** An operator is ambiguous, else unary, else binary, else unknown. */
  function OperatorType(w: string): (t: Option<TokenType>)
    ensures t.Some? ==> IsOperator(t.value)
  {
    if w in AmbiguousOperators then Some(AmbiguousOperator)
    else if w in UnaryOperators then Some(UnaryOperator)
    else if w in BinaryOperators then Some(BinaryOperator)
    else None
  }

  const UnexpectedCloseMsg: string := "Unexpected closing parenthesis"

  function UnknownOperatorMsg(w: string): string { "Unknown operator '" + w + "'" }

  function UnknownCharacterMsg(c: char): string { "Unknown character '" + [c] + "'" }

  // ---------------------------------------------------------------------
  // The token sequence

  /** The token in front of a token sequence, unless reading the rest failed. */
  function Cons(t: Token, rest: Result<seq<Token>, Error>): Result<seq<Token>, Error>
  {
    if rest.Err? then rest else Ok([t] + rest.value)
  }

  /** The tokens already read in front of what reading the rest gives. */
  function Then(read: seq<Token>, rest: Result<seq<Token>, Error>): Result<seq<Token>, Error>
  {
    if rest.Err? then rest else Ok(read + rest.value)
  }

  lemma ThenCons(read: seq<Token>, t: Token, rest: Result<seq<Token>, Error>)
    ensures Then(read, Cons(t, rest)) == Then(read + [t], rest)
  {
    if rest.Ok? {
      assert read + ([t] + rest.value) == (read + [t]) + rest.value;
    }
  }

  /** What `tokenize` does at index `i`: skip a whitespace character, read
      a token and go on at `next`, or fail. */
  datatype Scan = Skip | Read(token: Token, next: nat) | Fail(error: Error)

  /** One step of `tokenize` at index `i` of an input that starts at column
      `chr` of line `line`. `idChars` is the identifier table, both the
      characters that start an identifier and those that continue it (the
      source's two tables are one constant); the parser passes the table as
      written, IdentifierInitialChars. */
  function ScanAt(input: string, line: nat, chr: nat, i: nat, idChars: string): (s: Scan)
    requires i < |input|
    ensures s.Read? ==> i < s.next <= |input|
  {
    var c := input[i];
    var at := At(line, chr + i);
    if c in IgnorableWhitespaceChars then Skip
    else if c == '(' then
      match CloseIndex(input, '(', ')', i + 1, 1)
      case None => Fail(NewP(SyntaxError, UnmatchedMsg, at))
      case Some(e) => Read(NewToken(Expression, input[i + 1..e], at), e + 1)
    else if c in NumeralInitialChars then
      var w := Word(input, NumeralInternalChars, i);
      Read(NewToken(NumeralType(w), w, at), i + |w|)
    else if c in idChars then
      var w := Word(input, idChars, i);
      Read(NewToken(IdentifierType(w), w, at), i + |w|)
    else if c in OperatorInitialChars then
      var w := Word(input, OperatorInternalChars, i);
      match OperatorType(w)
      case None => Fail(NewP(SyntaxError, UnknownOperatorMsg(w), at))
      case Some(ty) => Read(NewToken(ty, w, at), i + |w|)
    else if c == ')' then Fail(NewP(SyntaxError, UnexpectedCloseMsg, at))
    else Fail(NewP(SyntaxError, UnknownCharacterMsg(c), at))
  }

  /** The tokens that `tokenize` reads from index `i` on, or the first error it meets. */
  function Lex(input: string, line: nat, chr: nat, i: nat, idChars: string): Result<seq<Token>, Error>
    requires i <= |input|
    decreases |input| - i
  {
    if i == |input| then Ok([])
    else
      match ScanAt(input, line, chr, i, idChars)
      case Skip => Lex(input, line, chr, i + 1, idChars)
      case Read(t, next) => Cons(t, Lex(input, line, chr, next, idChars))
      case Fail(e) => Err(e)
  }

  /** The childless nodes for a token sequence. */
  function Leaves(ts: seq<Token>): (ns: seq<AstNode>)
    ensures |ns| == |ts|
    ensures forall k :: 0 <= k < |ts| ==> ns[k] == NewFromToken(ts[k])
  {
    if ts == [] then [] else [NewFromToken(ts[0])] + Leaves(ts[1..])
  }

  /** One pass of the loop body of Parser::tokenize at index `i`: the
      character there decides what is read. */
  method ScanOne(input: string, line: nat, chr: nat, i: nat, idChars: string) returns (s: Scan)
    requires i < |input|
    ensures s == ScanAt(input, line, chr, i, idChars)
  {
    var c := input[i];
    var at := At(line, chr + i);
    if c in IgnorableWhitespaceChars {
      s := Skip;
    } else if c == '(' {
      var span := CopyMatchedSpan(input, '(', ')', i + 1, []);
      if span.Err? {
        s := Fail(NewP(SyntaxError, span.error.msg, at));
      } else {
        s := Read(NewToken(Expression, span.value, at), i + |span.value| + 2);
      }
    } else if c in NumeralInitialChars {
      s := ReadNumeral(input, line, chr, i);
    } else if c in idChars {
      s := ReadIdentifier(input, line, chr, i, idChars);
    } else if c in OperatorInitialChars {
      s := ReadOperator(input, line, chr, i);
    } else if c == ')' {
      s := Fail(NewP(SyntaxError, UnexpectedCloseMsg, at));
    } else {
      s := Fail(NewP(SyntaxError, UnknownCharacterMsg(c), at));
    }
  }

  /** The first character followed by the run copied after it is the word at `i`. */
  lemma CopiedWord(input: string, charset: string, i: nat, buf: string)
    requires i < |input| && buf == [input[i]] + input[i + 1..i + 1 + Run(input, charset, i + 1)]
    ensures buf == Word(input, charset, i)
  {
    assert [input[i]] + input[i + 1..i + 1 + Run(input, charset, i + 1)] == input[i..i + 1 + Run(input, charset, i + 1)];
  }

  /** The character at `i` followed by the `_copy_while` run after it over `charset`. */
  method CopyWord(input: string, charset: string, i: nat) returns (w: string)
    requires i < |input|
    ensures w == Word(input, charset, i)
  {
    w := CopyWhile(input, charset, i + 1, [input[i]]);
    CopiedWord(input, charset, i, w);
  }

  /** The numeral branch of Parser::tokenize: the run that starts at `i` and
      goes on over the numeral characters, classified by its separators and
      its prefix. */
  method ReadNumeral(input: string, line: nat, chr: nat, i: nat) returns (s: Scan)
    requires i < |input|
    ensures var w := Word(input, NumeralInternalChars, i);
      s == Read(NewToken(NumeralType(w), w, At(line, chr + i)), i + |w|)
  {
    var buf := CopyWord(input, NumeralInternalChars, i);
    var type_: TokenType;
    if Fractional(buf) {
      type_ := Decimal;
    } else if BinaryPrefixed(buf) {
      type_ := Bitseq;
    } else {
      type_ := Integer;
    }
    assert NumeralType(buf) == type_;
    s := Read(NewToken(type_, buf, At(line, chr + i)), i + |buf|);
  }

  /** The identifier branch of Parser::tokenize: the run over the identifier
      characters, classified by the builtin function names. */
  method ReadIdentifier(input: string, line: nat, chr: nat, i: nat, idChars: string) returns (s: Scan)
    requires i < |input|
    ensures var w := Word(input, idChars, i);
      s == Read(NewToken(IdentifierType(w), w, At(line, chr + i)), i + |w|)
  {
    var buf := CopyWord(input, idChars, i);
    var type_: TokenType;
    if buf in BuiltinUnaryFunctions {
      type_ := UnaryFunctionIdentifier;
    } else if buf in BuiltinBinaryFunctions {
      type_ := BinaryFunctionIdentifier;
    } else {
      type_ := VariableIdentifier;
    }
    assert IdentifierType(buf) == type_;
    s := Read(NewToken(type_, buf, At(line, chr + i)), i + |buf|);
  }

  /** The operator branch of Parser::tokenize: the run over the operator
      characters, which must spell a known operator. */
  method ReadOperator(input: string, line: nat, chr: nat, i: nat) returns (s: Scan)
    requires i < |input|
    ensures var w := Word(input, OperatorInternalChars, i);
      s == match OperatorType(w)
        case None => Fail(NewP(SyntaxError, UnknownOperatorMsg(w), At(line, chr + i)))
        case Some(ty) => Read(NewToken(ty, w, At(line, chr + i)), i + |w|)
  {
    var buf := CopyWord(input, OperatorInternalChars, i);
    var type_: TokenType;
    if buf in AmbiguousOperators {
      type_ := AmbiguousOperator;
    } else if buf in UnaryOperators {
      type_ := UnaryOperator;
    } else if buf in BinaryOperators {
      type_ := BinaryOperator;
    } else {
      assert OperatorType(buf) == None;
      return Fail(NewP(SyntaxError, UnknownOperatorMsg(buf), At(line, chr + i)));
    }
    assert OperatorType(buf) == Some(type_);
    s := Read(NewToken(type_, buf, At(line, chr + i)), i + |buf|);
  }

  /** Parser::tokenize: reads the tokens of `input` and pushes a childless node
      for each onto `tree`; the first error ends it. */
  method Tokenize(input: string, line: nat, chr: nat, tree: Ast, idChars: string) returns (res: Result<(), Error>, r: Ast)
    ensures Lex(input, line, chr, 0, idChars).Ok? ==>
      res == Ok(()) && r == tree.(nodes := tree.nodes + Leaves(Lex(input, line, chr, 0, idChars).value))
    ensures Lex(input, line, chr, 0, idChars).Err? ==> res == Err(Lex(input, line, chr, 0, idChars).error)
  {
    var i: nat := 0;
    ghost var read: seq<Token> := [];
    r := tree;
    ghost var all := Lex(input, line, chr, 0, idChars);
    if all.Ok? {
      assert [] + all.value == all.value;
    }
    while i < |input|
      invariant i <= |input|
      invariant r == tree.(nodes := tree.nodes + Leaves(read))
      invariant all == Then(read, Lex(input, line, chr, i, idChars))
      decreases |input| - i
    {
      var step := ScanOne(input, line, chr, i, idChars);
      LexStep(input, line, chr, i, step, idChars);
      match step
      case Skip =>
        i := i + 1;
      case Read(token, next) =>
        r := PushToken(r, token);
        ThenCons(read, token, Lex(input, line, chr, next, idChars));
        LeavesAppend(read, token);
        read := read + [token];
        i := next;
      case Fail(e) =>
        res := Err(e);
        return;
    }
    res := Ok(());
  }

  /** One step of Lex, given the step that ScanAt takes. */
  lemma LexStep(input: string, line: nat, chr: nat, i: nat, s: Scan, idChars: string)
    requires i < |input| && s == ScanAt(input, line, chr, i, idChars)
    ensures s.Skip? ==> Lex(input, line, chr, i, idChars) == Lex(input, line, chr, i + 1, idChars)
    ensures s.Read? ==> Lex(input, line, chr, i, idChars) == Cons(s.token, Lex(input, line, chr, s.next, idChars))
    ensures s.Fail? ==> Lex(input, line, chr, i, idChars) == Err(s.error)
  {
  }

  lemma LeavesAppend(ts: seq<Token>, t: Token)
    ensures Leaves(ts + [t]) == Leaves(ts) + [NewFromToken(t)]
  {
  }

  // ---------------------------------------------------------------------
  // What the token sequence says about the input

  /** The text a token was read from: an Expression with its parentheses. */
  function Spelling(t: Token): string
  {
    if t.type_ == Expression then "(" + t.content + ")" else t.content
  }

  /** The characters that may continue a run of a token kind. */
  function InternalChars(ty: TokenType, idChars: string): string
  {
    if IsNumeral(ty) then NumeralInternalChars
    else if IsIdentifier(ty) then idChars
    else OperatorInternalChars
  }

  /** How a run is classified: by its first character the kind of run it
      is, then numerals by their separators and prefix, identifiers by the
      builtin function names, and operators by the three spelling lists, the
      ambiguous one first. */
  predicate KindRule(ty: TokenType, w: string, idChars: string)
    requires |w| >= 1
  {
    if IsNumeral(ty) then NumeralRule(ty, w)
    else if IsIdentifier(ty) then IdentifierRule(ty, w, idChars)
    else IsOperator(ty) && OperatorRule(ty, w, idChars)
  }

  predicate NumeralRule(ty: TokenType, w: string)
    requires |w| >= 1
  {
    w[0] in NumeralInitialChars &&
    (ty == Decimal <==> '.' in w || ',' in w) &&
    (ty == Bitseq <==> !('.' in w || ',' in w) && |w| >= 2 && w[..2] == "0b")
  }

  predicate IdentifierRule(ty: TokenType, w: string, idChars: string)
    requires |w| >= 1
  {
    w[0] !in NumeralInitialChars && w[0] in idChars &&
    (ty == UnaryFunctionIdentifier <==> w in BuiltinUnaryFunctions) &&
    (ty == BinaryFunctionIdentifier <==> w !in BuiltinUnaryFunctions && w in BuiltinBinaryFunctions)
  }

  predicate OperatorRule(ty: TokenType, w: string, idChars: string)
    requires |w| >= 1
  {
    w[0] !in NumeralInitialChars && w[0] !in idChars && w[0] in OperatorInitialChars &&
    (ty == AmbiguousOperator <==> w in AmbiguousOperators) &&
    (ty == UnaryOperator <==> w !in AmbiguousOperators && w in UnaryOperators) &&
    (ty == BinaryOperator <==> w !in AmbiguousOperators && w !in UnaryOperators && w in BinaryOperators)
  }

  /** A token read from `input`: not implicit, on line `line`, spelt out at
      its column (counted from `chr`), an Expression holding a balanced
      span, and any other token the maximal run (Word) of the characters
      that continue its kind, classified by KindRule. */
  predicate Lexeme(input: string, line: nat, chr: nat, t: Token, idChars: string)
  {
    !t.implicit && t.position == At(line, t.position.chr) && t.position.chr >= chr &&
    var p := t.position.chr - chr;
    var w := Spelling(t);
    p + |w| <= |input| && input[p..p + |w|] == w &&
    (t.type_ == Expression ==> Balanced(t.content, '(', ')')) &&
    (t.type_ != Expression ==>
      p < |input| && w == Word(input, InternalChars(t.type_, idChars), p) && KindRule(t.type_, w, idChars))
  }

  /** A lexeme other than an Expression follows its kind's rule. */
  lemma LexemeKindRule(input: string, line: nat, chr: nat, t: Token, idChars: string)
    requires Lexeme(input, line, chr, t, idChars) && t.type_ != Expression
    ensures |t.content| >= 1 && KindRule(t.type_, t.content, idChars)
  {
  }

  /** What a step that reads a token promises: the token is a lexeme exactly
      at index `i`, and the step goes on right after its spelling. */
  predicate ReadsLexeme(input: string, line: nat, chr: nat, i: nat, idChars: string)
    requires i < |input|
  {
    var s := ScanAt(input, line, chr, i, idChars);
    s.Read? ==> Lexeme(input, line, chr, s.token, idChars) && s.token.position.chr == chr + i && s.next == i + |Spelling(s.token)|
  }

  /** A token that one step of the tokenizer reads is a lexeme exactly at
      index `i`, and the step goes on right after its spelling. */
  lemma ScanReadsLexeme(input: string, line: nat, chr: nat, i: nat, idChars: string)
    requires i < |input|
    ensures ScanAt(input, line, chr, i, idChars).Skip? ==> input[i] in IgnorableWhitespaceChars
    ensures ReadsLexeme(input, line, chr, i, idChars)
  {
    var c := input[i];
    if c in IgnorableWhitespaceChars {
    } else if c == '(' {
      ExpressionReadsLexeme(input, line, chr, i, idChars);
    } else if c in NumeralInitialChars {
      NumeralReadsLexeme(input, line, chr, i, idChars);
    } else if c in idChars {
      IdentifierReadsLexeme(input, line, chr, i, idChars);
    } else if c in OperatorInitialChars {
      OperatorReadsLexeme(input, line, chr, i, idChars);
    }
  }

  lemma ExpressionReadsLexeme(input: string, line: nat, chr: nat, i: nat, idChars: string)
    requires i < |input| && input[i] !in IgnorableWhitespaceChars && input[i] == '('
    ensures ReadsLexeme(input, line, chr, i, idChars)
  {
    if CloseIndex(input, '(', ')', i + 1, 1).Some? {
      ExpressionLexeme(input, line, chr, i, idChars);
    }
  }

  lemma NumeralReadsLexeme(input: string, line: nat, chr: nat, i: nat, idChars: string)
    requires i < |input| && input[i] !in IgnorableWhitespaceChars && input[i] != '('
    requires input[i] in NumeralInitialChars
    ensures ReadsLexeme(input, line, chr, i, idChars)
  {
    NumeralLexeme(input, line, chr, i, idChars);
  }

  lemma IdentifierReadsLexeme(input: string, line: nat, chr: nat, i: nat, idChars: string)
    requires i < |input| && input[i] !in IgnorableWhitespaceChars && input[i] != '('
    requires input[i] !in NumeralInitialChars && input[i] in idChars
    ensures ReadsLexeme(input, line, chr, i, idChars)
  {
    RunLexeme(input, line, chr, i, IdentifierType(Word(input, idChars, i)), idChars, idChars);
  }

  lemma OperatorReadsLexeme(input: string, line: nat, chr: nat, i: nat, idChars: string)
    requires i < |input| && input[i] !in IgnorableWhitespaceChars && input[i] != '('
    requires input[i] !in NumeralInitialChars && input[i] !in idChars && input[i] in OperatorInitialChars
    ensures ReadsLexeme(input, line, chr, i, idChars)
  {
    var w := Word(input, OperatorInternalChars, i);
    ScanAtOperator(input, line, chr, i, idChars);
    if OperatorType(w).Some? {
      OperatorRuleHolds(w, idChars);
      RunLexeme(input, line, chr, i, OperatorType(w).value, OperatorInternalChars, idChars);
    }
  }

  /** OperatorType follows the operator rule. */
  lemma OperatorRuleHolds(w: string, idChars: string)
    requires |w| >= 1 && w[0] !in NumeralInitialChars && w[0] !in idChars && w[0] in OperatorInitialChars
    requires OperatorType(w).Some?
    ensures KindRule(OperatorType(w).value, w, idChars)
  {
  }

  /** At an operator character, one step reads the greedy operator run. */
  lemma ScanAtOperator(input: string, line: nat, chr: nat, i: nat, idChars: string)
    requires i < |input| && input[i] !in IgnorableWhitespaceChars && input[i] != '('
    requires input[i] !in NumeralInitialChars && input[i] !in idChars && input[i] in OperatorInitialChars
    ensures var w := Word(input, OperatorInternalChars, i);
      OperatorType(w).Some? ==>
        ScanAt(input, line, chr, i, idChars) == Read(NewToken(OperatorType(w).value, w, At(line, chr + i)), i + |w|)
  {
  }

  lemma ExpressionLexeme(input: string, line: nat, chr: nat, i: nat, idChars: string)
    requires i < |input| && input[i] == '('
    requires CloseIndex(input, '(', ')', i + 1, 1).Some?
    ensures var e := CloseIndex(input, '(', ')', i + 1, 1).value;
      var t := NewToken(Expression, input[i + 1..e], At(line, chr + i));
      Lexeme(input, line, chr, t, idChars) && e + 1 == i + |Spelling(t)|
  {
    var e := CloseIndex(input, '(', ')', i + 1, 1).value;
    SpanIsBalanced(input, '(', ')', i + 1);
    Parenthesised(input, i, e);
  }

  lemma Parenthesised(input: string, i: nat, e: nat)
    requires i < e < |input| && input[i] == '(' && input[e] == ')'
    ensures input[i..e + 1] == "(" + input[i + 1..e] + ")"
  {
  }

  lemma NumeralLexeme(input: string, line: nat, chr: nat, i: nat, idChars: string)
    requires i < |input| && input[i] in NumeralInitialChars
    ensures var w := Word(input, NumeralInternalChars, i);
      Lexeme(input, line, chr, NewToken(NumeralType(w), w, At(line, chr + i)), idChars)
  {
    var w := Word(input, NumeralInternalChars, i);
    NumeralRuleHolds(w);
    RunLexeme(input, line, chr, i, NumeralType(w), NumeralInternalChars, idChars);
  }

  /** NumeralType follows the numeral rule. */
  lemma NumeralRuleHolds(w: string)
    requires |w| >= 1 && w[0] in NumeralInitialChars
    ensures NumeralRule(NumeralType(w), w)
  {
    if |w| >= 2 {
      assert w[..2] == "0b" <==> w[0] == '0' && w[1] == 'b';
    }
  }

  /** A classified run is a lexeme once its kind rule holds. */
  lemma RunLexeme(input: string, line: nat, chr: nat, i: nat, ty: TokenType, charset: string, idChars: string)
    requires i < |input| && ty != Expression && charset == InternalChars(ty, idChars)
    requires KindRule(ty, Word(input, charset, i), idChars)
    ensures Lexeme(input, line, chr, NewToken(ty, Word(input, charset, i), At(line, chr + i)), idChars)
  {
  }

  /** Every token is a lexeme of the input at or after column `from`, and
      each ends before the next begins. */
  predicate LexemesInOrder(input: string, line: nat, chr: nat, ts: seq<Token>, from: nat, idChars: string)
  {
    (forall k :: 0 <= k < |ts| ==> Lexeme(input, line, chr, ts[k], idChars) && ts[k].position.chr >= from) &&
    (forall k :: 0 <= k < |ts| - 1 ==> ts[k].position.chr + |Spelling(ts[k])| <= ts[k + 1].position.chr)
  }

  lemma LexemesInOrderCons(input: string, line: nat, chr: nat, t: Token, ts: seq<Token>, from: nat, next: nat, idChars: string)
    requires Lexeme(input, line, chr, t, idChars) && t.position.chr == from
    requires from + |Spelling(t)| <= next
    requires LexemesInOrder(input, line, chr, ts, next, idChars)
    ensures LexemesInOrder(input, line, chr, [t] + ts, from, idChars)
  {
    var us := [t] + ts;
    forall k | 0 <= k < |us| - 1
      ensures us[k].position.chr + |Spelling(us[k])| <= us[k + 1].position.chr
    {
      if k > 0 {
        assert us[k] == ts[k - 1] && us[k + 1] == ts[k];
      }
    }
    forall k | 0 <= k < |us|
      ensures Lexeme(input, line, chr, us[k], idChars) && us[k].position.chr >= from
    {
      if k > 0 {
        assert us[k] == ts[k - 1];
      }
    }
  }

  lemma LexemesInOrderFrom(input: string, line: nat, chr: nat, ts: seq<Token>, from: nat, from': nat, idChars: string)
    requires from' <= from
    requires LexemesInOrder(input, line, chr, ts, from, idChars)
    ensures LexemesInOrder(input, line, chr, ts, from', idChars)
  {
  }

  /** Every token `tokenize` reads is a lexeme of the input, at or after the
      index reading started from, and the tokens come in the order of the
      input without overlapping. */
  lemma {:induction false} LexReadsLexemes(input: string, line: nat, chr: nat, i: nat, idChars: string)
    requires i <= |input|
    ensures Lex(input, line, chr, i, idChars).Ok? ==>
      LexemesInOrder(input, line, chr, Lex(input, line, chr, i, idChars).value, chr + i, idChars)
    decreases |input| - i
  {
    if i < |input| {
      ScanReadsLexeme(input, line, chr, i, idChars);
      match ScanAt(input, line, chr, i, idChars)
      case Skip =>
        LexReadsLexemes(input, line, chr, i + 1, idChars);
        if Lex(input, line, chr, i, idChars).Ok? {
          LexemesInOrderFrom(input, line, chr, Lex(input, line, chr, i, idChars).value, chr + i + 1, chr + i, idChars);
        }
      case Read(t, next) =>
        LexReadsLexemes(input, line, chr, next, idChars);
        if Lex(input, line, chr, next, idChars).Ok? {
          LexemesInOrderCons(input, line, chr, t, Lex(input, line, chr, next, idChars).value, chr + i, chr + next, idChars);
        }
      case Fail(_) =>
    }
  }

  /** The input without its spaces and tabs. */
  function Unspaced(s: string): (u: string)
    ensures |u| <= |s|
  {
    if s == [] then [] else (if s[0] in IgnorableWhitespaceChars then [] else [s[0]]) + Unspaced(s[1..])
  }

  lemma {:induction false} UnspacedAppend(a: string, b: string)
    ensures Unspaced(a + b) == Unspaced(a) + Unspaced(b)
  {
    if a == [] {
      assert a + b == b;
    } else {
      assert (a + b)[0] == a[0];
      assert (a + b)[1..] == a[1..] + b;
      UnspacedAppend(a[1..], b);
    }
  }

  /** The spellings of a token sequence, one after the other. */
  function Spellings(ts: seq<Token>): string
  {
    if ts == [] then [] else Spelling(ts[0]) + Spellings(ts[1..])
  }

  /** Nothing is lost and nothing is added: the tokens spell out the input,
      up to spaces and tabs between them. */
  lemma {:induction false} LexCoversInput(input: string, line: nat, chr: nat, i: nat, idChars: string)
    requires i <= |input|
    ensures Lex(input, line, chr, i, idChars).Ok? ==>
      Unspaced(Spellings(Lex(input, line, chr, i, idChars).value)) == Unspaced(input[i..])
    decreases |input| - i
  {
    if i < |input| && Lex(input, line, chr, i, idChars).Ok? {
      match ScanAt(input, line, chr, i, idChars)
      case Skip =>
        ScanSkipsWhitespace(input, line, chr, i, idChars);
        LexCoversInput(input, line, chr, i + 1, idChars);
        SkipCovers(input, i);
      case Read(t, next) =>
        ScanSpells(input, line, chr, i, idChars);
        LexCoversInput(input, line, chr, next, idChars);
        ReadCovers(input, i, next, t, Lex(input, line, chr, next, idChars).value);
      case Fail(_) =>
    }
  }

  /** A step that skips does so at a space or tab. */
  lemma ScanSkipsWhitespace(input: string, line: nat, chr: nat, i: nat, idChars: string)
    requires i < |input| && ScanAt(input, line, chr, i, idChars).Skip?
    ensures input[i] in IgnorableWhitespaceChars
  {
    ScanReadsLexeme(input, line, chr, i, idChars);
  }

  /** A step that reads a token reads its spelling. */
  lemma ScanSpells(input: string, line: nat, chr: nat, i: nat, idChars: string)
    requires i < |input| && ScanAt(input, line, chr, i, idChars).Read?
    ensures var s := ScanAt(input, line, chr, i, idChars); input[i..s.next] == Spelling(s.token)
  {
    var c := input[i];
    if c in IgnorableWhitespaceChars {
    } else if c == '(' {
      ExpressionSpelt(input, line, chr, i, idChars);
    } else if c in NumeralInitialChars {
      RunSpelt(input, line, chr, i, NumeralInternalChars, idChars);
    } else if c in idChars {
      RunSpelt(input, line, chr, i, idChars, idChars);
    } else if c in OperatorInitialChars {
      RunSpelt(input, line, chr, i, OperatorInternalChars, idChars);
    }
  }

  lemma ExpressionSpelt(input: string, line: nat, chr: nat, i: nat, idChars: string)
    requires i < |input| && input[i] !in IgnorableWhitespaceChars && input[i] == '('
    requires ScanAt(input, line, chr, i, idChars).Read?
    ensures var s := ScanAt(input, line, chr, i, idChars); input[i..s.next] == Spelling(s.token)
  {
    var e := CloseIndex(input, '(', ')', i + 1, 1).value;
    SpanIsBalanced(input, '(', ')', i + 1);
    Parenthesised(input, i, e);
  }

  /** A step that reads a run reads the word it spells, whatever its kind. */
  lemma RunSpelt(input: string, line: nat, chr: nat, i: nat, charset: string, idChars: string)
    requires i < |input| && ScanAt(input, line, chr, i, idChars).Read?
    requires var s := ScanAt(input, line, chr, i, idChars);
      s.token.type_ != Expression && s.token.content == Word(input, charset, i) && s.next == i + |s.token.content|
    ensures var s := ScanAt(input, line, chr, i, idChars); input[i..s.next] == Spelling(s.token)
  {
  }

  lemma SkipCovers(input: string, i: nat)
    requires i < |input| && input[i] in IgnorableWhitespaceChars
    ensures Unspaced(input[i..]) == Unspaced(input[i + 1..])
  {
    assert input[i..] == [input[i]] + input[i + 1..];
    UnspacedAppend([input[i]], input[i + 1..]);
  }

  lemma ReadCovers(input: string, i: nat, next: nat, t: Token, rest: seq<Token>)
    requires i <= next <= |input| && input[i..next] == Spelling(t)
    requires Unspaced(Spellings(rest)) == Unspaced(input[next..])
    ensures Unspaced(Spellings([t] + rest)) == Unspaced(input[i..])
  {
    assert ([t] + rest)[1..] == rest;
    assert input[i..] == input[i..next] + input[next..];
    UnspacedAppend(input[i..next], input[next..]);
    UnspacedAppend(Spelling(t), Spellings(rest));
  }

  /** Every tokenizer error is a syntax error on the line being read, with
      one of its four messages. */
  lemma {:induction false} LexErrors(input: string, line: nat, chr: nat, i: nat, idChars: string)
    requires i <= |input|
    ensures Lex(input, line, chr, i, idChars).Err? ==>
      var e := Lex(input, line, chr, i, idChars).error;
      e.kind == SyntaxError && e.position.line == line && e.position.chr >= chr + i &&
      (e.msg == UnmatchedMsg || e.msg == UnexpectedCloseMsg ||
       (exists w :: e.msg == UnknownOperatorMsg(w)) || (exists c :: e.msg == UnknownCharacterMsg(c)))
    decreases |input| - i
  {
    if i < |input| {
      match ScanAt(input, line, chr, i, idChars)
      case Skip =>
        LexErrors(input, line, chr, i + 1, idChars);
      case Read(t, next) =>
        LexErrors(input, line, chr, next, idChars);
      case Fail(_) =>
    }
  }

  // ---------------------------------------------------------------------
  // The identifier table

  /** Every character of an identifier token that `tokenize` reads belongs to
      the identifier table it runs over. */
  lemma IdentifierTokensFromTable(input: string, line: nat, chr: nat, idChars: string)
    requires Lex(input, line, chr, 0, idChars).Ok?
    ensures var ts := Lex(input, line, chr, 0, idChars).value;
      forall k, j :: 0 <= k < |ts| && IsIdentifier(ts[k].type_) && 0 <= j < |ts[k].content| ==>
        ts[k].content[j] in idChars
  {
    var ts := Lex(input, line, chr, 0, idChars).value;
    LexReadsLexemes(input, line, chr, 0, idChars);
    forall k | 0 <= k < |ts| && IsIdentifier(ts[k].type_)
      ensures forall j :: 0 <= j < |ts[k].content| ==> ts[k].content[j] in idChars
    {
      IdentifierLexemeFromTable(input, line, chr, ts[k], idChars);
    }
  }

  lemma IdentifierLexemeFromTable(input: string, line: nat, chr: nat, t: Token, idChars: string)
    requires Lexeme(input, line, chr, t, idChars) && IsIdentifier(t.type_)
    ensures forall j :: 0 <= j < |t.content| ==> t.content[j] in idChars
  {
    LexemeKindRule(input, line, chr, t, idChars);
    assert InternalChars(t.type_, idChars) == idChars;
  }

  /** Over the table as written no identifier token holds an `i` or an `I`,
      so `sin`, `pi` and the other builtin names with an `i` are never read
      as identifiers. */
  lemma AsWrittenIdentifiersLackI(input: string, line: nat, chr: nat)
    requires Lex(input, line, chr, 0, IdentifierInitialChars).Ok?
    ensures var ts := Lex(input, line, chr, 0, IdentifierInitialChars).value;
      forall k :: 0 <= k < |ts| && IsIdentifier(ts[k].type_) ==>
        'i' !in ts[k].content && 'I' !in ts[k].content
  {
    IdentifierTokensFromTable(input, line, chr, IdentifierInitialChars);
    IdentifierCharacters('i');
  }

  /** At an identifier character, one step reads the greedy identifier run. */
  lemma ScanAtIdentifier(input: string, line: nat, chr: nat, i: nat, idChars: string)
    requires i < |input| && input[i] !in IgnorableWhitespaceChars && input[i] != '('
    requires input[i] !in NumeralInitialChars && input[i] in idChars
    ensures var w := Word(input, idChars, i);
      ScanAt(input, line, chr, i, idChars) == Read(NewToken(IdentifierType(w), w, At(line, chr + i)), i + |w|)
  {
  }

  /** A character that starts no token and is no parenthesis is reported as unknown. */
  lemma ScanAtUnknown(input: string, line: nat, chr: nat, i: nat, idChars: string)
    requires i < |input| && input[i] !in IgnorableWhitespaceChars && input[i] != '(' && input[i] != ')'
    requires input[i] !in NumeralInitialChars && input[i] !in idChars && input[i] !in OperatorInitialChars
    ensures ScanAt(input, line, chr, i, idChars) == Fail(NewP(SyntaxError, UnknownCharacterMsg(input[i]), At(line, chr + i)))
  {
  }

  /** As written, `pi` ends at `p`: the tokenizer reads the variable `p`, then
      meets `i`, which no branch accepts. */
  lemma LexPiAsWritten(line: nat, chr: nat)
    ensures Lex("pi", line, chr, 0, IdentifierInitialChars) ==
      Err(NewP(SyntaxError, UnknownCharacterMsg('i'), At(line, chr + 1)))
  {
    var input := "pi";
    PiWordAsWritten();
    PiLettersAsWritten();
    ScanAtIdentifier(input, line, chr, 0, IdentifierInitialChars);
    var first := NewToken(VariableIdentifier, "p", At(line, chr));
    assert ScanAt(input, line, chr, 0, IdentifierInitialChars) == Read(first, 1);
    LexStep(input, line, chr, 0, Read(first, 1), IdentifierInitialChars);
    ScanAtUnknown(input, line, chr, 1, IdentifierInitialChars);
    LexStep(input, line, chr, 1, ScanAt(input, line, chr, 1, IdentifierInitialChars), IdentifierInitialChars);
  }

  lemma PiWordAsWritten()
    ensures "pi"[0] !in IgnorableWhitespaceChars && "pi"[0] != '(' && "pi"[0] !in NumeralInitialChars
    ensures "pi"[0] in IdentifierInitialChars && "pi"[1] !in IdentifierInitialChars
    ensures Word("pi", IdentifierInitialChars, 0) == "p"
  {
    LowerStartsNoOtherToken('p');
    IdentifierCharacters('i');
    assert IdentifierInitialChars[15] == 'p';
    assert Run("pi", IdentifierInitialChars, 1) == 0;
  }

  /** `p` is no builtin function name, and `i` starts no token. */
  lemma PiLettersAsWritten()
    ensures IdentifierType("p") == VariableIdentifier
    ensures 'i' !in IgnorableWhitespaceChars && 'i' !in NumeralInitialChars && 'i' !in OperatorInitialChars
  {
    LowerStartsNoOtherToken('i');
  }

  /** A run over a character set that holds the rest of the input reaches the end. */
  lemma {:induction false} RunToEnd(input: string, charset: string, start: nat)
    requires start <= |input|
    requires forall k :: start <= k < |input| ==> input[k] in charset
    ensures Run(input, charset, start) == |input| - start
    decreases |input| - start
  {
    if start < |input| {
      RunToEnd(input, charset, start + 1);
    }
  }

  /** A builtin name starts with a character of the identifier branch. */
  lemma BuiltinNameStart(name: string)
    requires name in BuiltinUnaryFunctions || name in BuiltinBinaryFunctions ||
             name in BuiltinVariableIdentifiers
    ensures |name| >= 1 && name[0] !in IgnorableWhitespaceChars && name[0] != '('
    ensures name[0] !in NumeralInitialChars
  {
    if name in BuiltinUnaryFunctions {
      UnaryNameStart(name);
    } else if name in BuiltinBinaryFunctions {
      BinaryNameStart(name);
    } else {
      VariableNameStart(name);
    }
    LowerStartsNoOtherToken(name[0]);
  }

  lemma UnaryNameStart(name: string)
    requires name in BuiltinUnaryFunctions
    ensures |name| >= 1 && 'a' <= name[0] <= 'z'
  {
  }

  lemma BinaryNameStart(name: string)
    requires name in BuiltinBinaryFunctions
    ensures |name| >= 1 && 'a' <= name[0] <= 'z'
  {
  }

  lemma VariableNameStart(name: string)
    requires name in BuiltinVariableIdentifiers
    ensures |name| >= 1 && ('a' <= name[0] <= 'z' || name[0] == '\\')
  {
  }

  /** A lower-case letter or backslash is neither whitespace, a parenthesis
      nor the start of a numeral. */
  lemma LowerStartsNoOtherToken(c: char)
    requires 'a' <= c <= 'z' || c == '\\'
    ensures c !in IgnorableWhitespaceChars && c != '(' && c !in NumeralInitialChars
  {
  }

  /** Over the intended table each builtin name on its own is read whole, as
      one identifier token classified by the builtin lists: `pi` is a
      variable and `sin` a unary function. */
  lemma LexBuiltinIntended(name: string, line: nat, chr: nat)
    requires name in BuiltinUnaryFunctions || name in BuiltinBinaryFunctions ||
             name in BuiltinVariableIdentifiers
    ensures Lex(name, line, chr, 0, IdentifierChars) ==
      Ok([NewToken(IdentifierType(name), name, At(line, chr))])
  {
    forall k | 0 <= k < |name|
      ensures name[k] in IdentifierChars
    {
      BuiltinNamesAreIdentifierChars(name, k);
    }
    BuiltinNameStart(name);
    RunToEnd(name, IdentifierChars, 1);
    assert Word(name, IdentifierChars, 0) == name;
    ScanAtIdentifier(name, line, chr, 0, IdentifierChars);
    var t := NewToken(IdentifierType(name), name, At(line, chr));
    LexStep(name, line, chr, 0, Read(t, |name|), IdentifierChars);
    assert Lex(name, line, chr, |name|, IdentifierChars) == Ok([]);
    var none: seq<Token> := [];
    assert [t] + none == [t];
  }
}
