/** The parser proper (parser.rs, Parser::parse and _parse_recursively): a
    line is tokenized onto the tree, every parenthesised span is parsed on
    its own into the subtree of its Expression node, one level down, and
    then the passes run in their fixed order: disambiguation of `+` and
    `-`, implicit `*`, the implicit `mem 0` call, and the folding of
    operands into operators. */
module Parser {
  import opened Outcomes
  import opened Errors
  import opened Tokens
  import opened Patterns
  import opened Asts
  import opened Tokenizer
  import opened Passes
  import opened Folding

  function Max(a: nat, b: nat): (m: nat)
    ensures a <= m && b <= m && (m == a || m == b)
  {
    if a < b then b else a
  }

  /** One more than the longest token content among the nodes. */
  function ContentBound(ns: seq<AstNode>): (b: nat)
    ensures forall k :: 0 <= k < |ns| ==> |ns[k].token.content| < b
  {
    if ns == [] then 0
    else
      var rest := ContentBound(ns[1..]);
      assert forall k :: 1 <= k < |ns| ==> ns[k] == ns[1..][k - 1];
      Max(|ns[0].token.content| + 1, rest)
  }

  /** Every Expression node holds a span shorter than `bound`. */
  predicate SpansBelow(ns: seq<AstNode>, bound: nat)
  {
    forall k :: 0 <= k < |ns| && ns[k].token.type_ == Expression ==> |ns[k].token.content| < bound
  }

  /** A span the tokenizer reads is shorter than the input: its parentheses
      are not part of it. */
  lemma LexedSpansShorter(input: string, line: nat, chr: nat, idChars: string)
    requires Lex(input, line, chr, 0, idChars).Ok?
    ensures SpansBelow(Leaves(Lex(input, line, chr, 0, idChars).value), |input|)
  {
    var ts := Lex(input, line, chr, 0, idChars).value;
    LexReadsLexemes(input, line, chr, 0, idChars);
    forall k | 0 <= k < |ts| && ts[k].type_ == Expression
      ensures |ts[k].content| < |input|
    {
      assert Lexeme(input, line, chr, ts[k], idChars);
    }
  }

  /** The tree with the tokens of `input` pushed onto it holds only spans
      shorter than the recursion bound. */
  lemma LinedSpansBelow(input: string, line: nat, chr: nat, tree: Ast, idChars: string)
    requires Lex(input, line, chr, 0, idChars).Ok?
    ensures SpansBelow(tree.nodes + Leaves(Lex(input, line, chr, 0, idChars).value), Max(|input|, ContentBound(tree.nodes)))
  {
    var ts := Lex(input, line, chr, 0, idChars).value;
    var ns := tree.nodes + Leaves(ts);
    LexedSpansShorter(input, line, chr, idChars);
    forall k | 0 <= k < |ns| && ns[k].token.type_ == Expression
      ensures |ns[k].token.content| < Max(|input|, ContentBound(tree.nodes))
    {
      if k >= |tree.nodes| {
        assert ns[k] == Leaves(ts)[k - |tree.nodes|];
      }
    }
  }

  /** The passes _parse_recursively runs once the subtrees are in place. */
  function Restructure(t: Ast): Result<Ast, Error>
  {
    match Disambiguation(t.nodes, t.level, 0)
    case Err(e) => Err(e)
    case Ok(d) =>
      var m := t.(nodes := ImplicitMuls(d));
      var z := if NeedsMem0(m) then m.(nodes := [Mem0Call(m.nodes[0].token.position)] + m.nodes) else m;
      match Incorporation(z.nodes, z.level)
      case Err(e) => Err(e)
      case Ok(out) => Ok(z.(nodes := out))
  }

  /** What _parse_recursively leaves in `tree` for `input`, read at column
      `chr` of line `line`, or its first error. */
  function ParseInto(input: string, line: nat, chr: nat, tree: Ast, idChars: string): Result<Ast, Error>
    decreases Max(|input|, ContentBound(tree.nodes)), 1, 0
  {
    match Lex(input, line, chr, 0, idChars)
    case Err(e) => Err(e)
    case Ok(ts) =>
      var bound := Max(|input|, ContentBound(tree.nodes));
      var t := tree.(nodes := tree.nodes + Leaves(ts));
      LinedSpansBelow(input, line, chr, tree, idChars);
      match Subtrees(t.nodes, 0, line, t.level, bound, idChars)
      case Err(e) => Err(e)
      case Ok(ns) => Restructure(t.(nodes := ns))
  }

  /** The loop of _parse_recursively from index `i` on: each Expression
      node gets the parse of its span, at the column after its opening
      parenthesis, as its subtree one level down. */
  function Subtrees(ns: seq<AstNode>, i: nat, line: nat, level: nat, bound: nat, idChars: string): Result<seq<AstNode>, Error>
    requires i <= |ns| && SpansBelow(ns, bound)
    decreases bound, 0, |ns| - i
  {
    if i == |ns| then Ok(ns)
    else if ns[i].token.type_ != Expression then Subtrees(ns, i + 1, line, level, bound, idChars)
    else
      match ParseInto(ns[i].token.content, line, ns[i].token.position.chr + 1, Ast([], level + 1), idChars)
      case Err(e) => Err(e)
      case Ok(sub) => Subtrees(ns[i := ns[i].(subtree := sub)], i + 1, line, level, bound, idChars)
  }

  /** ParseInto once the tokens are read. */
  lemma ParseIntoLexed(input: string, line: nat, chr: nat, tree: Ast, idChars: string)
    requires Lex(input, line, chr, 0, idChars).Ok?
    ensures var t := tree.(nodes := tree.nodes + Leaves(Lex(input, line, chr, 0, idChars).value));
      var bound := Max(|input|, ContentBound(tree.nodes));
      SpansBelow(t.nodes, bound) &&
      ParseInto(input, line, chr, tree, idChars) ==
        match Subtrees(t.nodes, 0, line, t.level, bound, idChars)
        case Err(e) => Err(e)
        case Ok(ns) => Restructure(t.(nodes := ns))
  {
    LinedSpansBelow(input, line, chr, tree, idChars);
  }

  /** One step of the loop of _parse_recursively at a node that is not an
      Expression. */
  lemma SubtreesSkip(ns: seq<AstNode>, i: nat, line: nat, level: nat, bound: nat, idChars: string)
    requires i < |ns| && SpansBelow(ns, bound) && ns[i].token.type_ != Expression
    ensures Subtrees(ns, i, line, level, bound, idChars) == Subtrees(ns, i + 1, line, level, bound, idChars)
  {
  }

  /** Setting the subtree of a node keeps every span below the bound. */
  lemma SpansBelowSet(ns: seq<AstNode>, i: nat, bound: nat, sub: Ast)
    requires i < |ns| && SpansBelow(ns, bound)
    ensures SpansBelow(ns[i := ns[i].(subtree := sub)], bound)
  {
    var ns' := ns[i := ns[i].(subtree := sub)];
    forall k | 0 <= k < |ns'| && ns'[k].token.type_ == Expression
      ensures |ns'[k].token.content| < bound
    {
      assert ns'[k].token == ns[k].token;
    }
  }

  /** The loop of _parse_recursively stops at an Expression whose span
      fails to parse, with that error. */
  lemma SubtreesAtErr(ns: seq<AstNode>, i: nat, line: nat, level: nat, bound: nat, idChars: string)
    requires i < |ns| && SpansBelow(ns, bound) && ns[i].token.type_ == Expression
    requires ParseInto(ns[i].token.content, line, ns[i].token.position.chr + 1, Ast([], level + 1), idChars).Err?
    ensures Subtrees(ns, i, line, level, bound, idChars) == Err(ParseInto(ns[i].token.content, line, ns[i].token.position.chr + 1, Ast([], level + 1), idChars).error)
  {
  }

  /** The loop of _parse_recursively goes on past an Expression whose span
      parses, with the parse as its subtree. */
  lemma SubtreesAtOk(ns: seq<AstNode>, i: nat, line: nat, level: nat, bound: nat, sub: Ast, idChars: string)
    requires i < |ns| && SpansBelow(ns, bound) && ns[i].token.type_ == Expression
    requires ParseInto(ns[i].token.content, line, ns[i].token.position.chr + 1, Ast([], level + 1), idChars) == Ok(sub)
    requires SpansBelow(ns[i := ns[i].(subtree := sub)], bound)
    ensures Subtrees(ns, i, line, level, bound, idChars) == Subtrees(ns[i := ns[i].(subtree := sub)], i + 1, line, level, bound, idChars)
  {
  }

  /** Parser::_parse_recursively. */
  method ParseRecursively(input: string, line: nat, chr: nat, tree: Ast, idChars: string) returns (res: Result<(), Error>, r: Ast)
    ensures ParseInto(input, line, chr, tree, idChars).Ok? ==> res == Ok(()) && r == ParseInto(input, line, chr, tree, idChars).value
    ensures ParseInto(input, line, chr, tree, idChars).Err? ==> res == Err(ParseInto(input, line, chr, tree, idChars).error)
    decreases Max(|input|, ContentBound(tree.nodes)), 2
  {
    res, r := Tokenize(input, line, chr, tree, idChars);
    if res.Err? {
      return;
    }
    ParseIntoLexed(input, line, chr, tree, idChars);
    var nodes;
    res, nodes := ParseSubtrees(r, line, Max(|input|, ContentBound(tree.nodes)), idChars);
    if res.Err? {
      return;
    }
    res, r := RunPasses(r.(nodes := nodes));
  }

  /** The loop of _parse_recursively over the nodes of `t`. */
  method ParseSubtrees(t: Ast, line: nat, ghost bound: nat, idChars: string) returns (res: Result<(), Error>, nodes: seq<AstNode>)
    requires SpansBelow(t.nodes, bound)
    ensures Subtrees(t.nodes, 0, line, t.level, bound, idChars).Ok? ==>
      res == Ok(()) && nodes == Subtrees(t.nodes, 0, line, t.level, bound, idChars).value
    ensures Subtrees(t.nodes, 0, line, t.level, bound, idChars).Err? ==>
      res == Err(Subtrees(t.nodes, 0, line, t.level, bound, idChars).error)
    decreases bound, 1
  {
    nodes := t.nodes;
    var i := 0;
    while i < |nodes|
      invariant i <= |nodes|
      invariant SpansBelow(nodes, bound)
      invariant Subtrees(nodes, i, line, t.level, bound, idChars) == Subtrees(t.nodes, 0, line, t.level, bound, idChars)
      decreases |nodes| - i
    {
      if nodes[i].token.type_ == Expression {
        var sres;
        sres, nodes := ParseSubtreeAt(nodes, i, line, t.level, bound, idChars);
        if sres.Err? {
          return sres, nodes;
        }
      } else {
        SubtreesSkip(nodes, i, line, t.level, bound, idChars);
      }
      i := i + 1;
    }
    res := Ok(());
  }

  /** The body of that loop for an Expression node: its span is parsed into
      a new tree one level down, which becomes its subtree. */
  method ParseSubtreeAt(nodes: seq<AstNode>, i: nat, line: nat, level: nat, ghost bound: nat, idChars: string)
    returns (res: Result<(), Error>, updated: seq<AstNode>)
    requires i < |nodes| && nodes[i].token.type_ == Expression && SpansBelow(nodes, bound)
    ensures var sub := ParseInto(nodes[i].token.content, line, nodes[i].token.position.chr + 1, Ast([], level + 1), idChars);
      (sub.Ok? ==> res == Ok(()) && updated == nodes[i := nodes[i].(subtree := sub.value)]) &&
      (sub.Err? ==> res == Err(sub.error))
    ensures res.Ok? ==>
      SpansBelow(updated, bound) && Subtrees(updated, i + 1, line, level, bound, idChars) == Subtrees(nodes, i, line, level, bound, idChars)
    ensures res.Err? ==> Subtrees(nodes, i, line, level, bound, idChars) == Err(res.error)
    decreases bound, 0
  {
    var subtree := RelevelFrom(Empty, level + 1);
    assert subtree == Ast([], level + 1);
    var sub;
    res, sub := ParseRecursively(nodes[i].token.content, line, nodes[i].token.position.chr + 1, subtree, idChars);
    updated := nodes;
    if res.Ok? {
      SpansBelowSet(nodes, i, bound, sub);
      SubtreesAtOk(nodes, i, line, level, bound, sub, idChars);
      var _, node := SetSubtree(nodes[i], sub);
      assert node == nodes[i].(subtree := sub);
      updated := nodes[i := node];
    } else {
      SubtreesAtErr(nodes, i, line, level, bound, idChars);
    }
  }

  /** The passes at the end of _parse_recursively, in their order. */
  method RunPasses(t: Ast) returns (res: Result<(), Error>, r: Ast)
    ensures Restructure(t).Ok? ==> res == Ok(()) && r == Restructure(t).value
    ensures Restructure(t).Err? ==> res == Err(Restructure(t).error)
  {
    res, r := DisambiguateOperators(t);
    if res.Err? {
      return;
    }
    res, r := ExposeImplicitMultiplications(r);
    res, r := ExposeImplicitMem0Call(r);
    res, r := IncorporateOperands(r);
  }

  // ---------------------------------------------------------------------
  // Every error is a syntax error

  lemma RestructureErrors(t: Ast)
    ensures Restructure(t).Err? ==> Restructure(t).error.kind == SyntaxError
  {
    DisambiguationErrors(t.nodes, t.level, 0);
    var d := Disambiguation(t.nodes, t.level, 0);
    if d.Ok? {
      var m := t.(nodes := ImplicitMuls(d.value));
      var z := if NeedsMem0(m) then m.(nodes := [Mem0Call(m.nodes[0].token.position)] + m.nodes) else m;
      IncorporationErrors(z.nodes, z.level);
    }
  }

  /** Whatever goes wrong in parsing a line, at whatever depth, is reported
      as a syntax error. */
  lemma {:induction false} ParseErrors(input: string, line: nat, chr: nat, tree: Ast, idChars: string)
    ensures ParseInto(input, line, chr, tree, idChars).Err? ==> ParseInto(input, line, chr, tree, idChars).error.kind == SyntaxError
    decreases Max(|input|, ContentBound(tree.nodes)), 1, 0
  {
    LexErrors(input, line, chr, 0, idChars);
    if Lex(input, line, chr, 0, idChars).Ok? {
      ParseIntoLexed(input, line, chr, tree, idChars);
      var t := tree.(nodes := tree.nodes + Leaves(Lex(input, line, chr, 0, idChars).value));
      var bound := Max(|input|, ContentBound(tree.nodes));
      SubtreesErrors(t.nodes, 0, line, t.level, bound, idChars);
      var s := Subtrees(t.nodes, 0, line, t.level, bound, idChars);
      if s.Ok? {
        RestructureErrors(t.(nodes := s.value));
      }
    }
  }

  lemma {:induction false} SubtreesErrors(ns: seq<AstNode>, i: nat, line: nat, level: nat, bound: nat, idChars: string)
    requires i <= |ns| && SpansBelow(ns, bound)
    ensures Subtrees(ns, i, line, level, bound, idChars).Err? ==> Subtrees(ns, i, line, level, bound, idChars).error.kind == SyntaxError
    decreases bound, 0, |ns| - i, 1
  {
    if i < |ns| {
      if ns[i].token.type_ != Expression {
        SubtreesSkip(ns, i, line, level, bound, idChars);
        SubtreesErrors(ns, i + 1, line, level, bound, idChars);
      } else {
        SubtreesErrorsAt(ns, i, line, level, bound, idChars);
      }
    }
  }

  lemma {:induction false} SubtreesErrorsAt(ns: seq<AstNode>, i: nat, line: nat, level: nat, bound: nat, idChars: string)
    requires i < |ns| && SpansBelow(ns, bound) && ns[i].token.type_ == Expression
    ensures Subtrees(ns, i, line, level, bound, idChars).Err? ==> Subtrees(ns, i, line, level, bound, idChars).error.kind == SyntaxError
    decreases bound, 0, |ns| - i, 0
  {
    var sub := ParseInto(ns[i].token.content, line, ns[i].token.position.chr + 1, Ast([], level + 1), idChars);
    if sub.Err? {
      ParseErrors(ns[i].token.content, line, ns[i].token.position.chr + 1, Ast([], level + 1), idChars);
      SubtreesAtErr(ns, i, line, level, bound, idChars);
    } else {
      SpansBelowSet(ns, i, bound, sub.value);
      SubtreesAtOk(ns, i, line, level, bound, sub.value, idChars);
      SubtreesErrors(ns[i := ns[i].(subtree := sub.value)], i + 1, line, level, bound, idChars);
    }
  }

  // ---------------------------------------------------------------------
  // Every subtree sits one level below its parent

  lemma RestructureLevels(t: Ast)
    requires WellLeveled(t)
    ensures Restructure(t).Ok? ==> Restructure(t).value.level == t.level && WellLeveled(Restructure(t).value)
  {
    var d := Disambiguation(t.nodes, t.level, 0);
    if d.Ok? {
      DisambiguationKeepsLevels(t);
      ImplicitMulsKeepsLevels(d.value, t.level);
      var m := t.(nodes := ImplicitMuls(d.value));
      if NeedsMem0(m) {
        Mem0KeepsLevels(m);
      }
      var z := if NeedsMem0(m) then m.(nodes := [Mem0Call(m.nodes[0].token.position)] + m.nodes) else m;
      IncorporationLevels(z.nodes, z.level);
    }
  }

  /** The nodes before `i`, and every node that is not an Expression, keep
      the nesting invariant at `level`. */
  predicate LevelledBefore(ns: seq<AstNode>, i: nat, level: nat)
  {
    forall k :: 0 <= k < |ns| && (k < i || ns[k].token.type_ != Expression) ==> NodeWellLeveled(ns[k], level)
  }

  /** Parsing keeps the level of the tree it parses into and, from a
      well-levelled tree, builds one in which every subtree, at every depth,
      sits exactly one level below the node that holds it. */
  lemma {:induction false} ParseLevels(input: string, line: nat, chr: nat, tree: Ast, idChars: string)
    requires WellLeveled(tree)
    ensures ParseInto(input, line, chr, tree, idChars).Ok? ==>
      ParseInto(input, line, chr, tree, idChars).value.level == tree.level && WellLeveled(ParseInto(input, line, chr, tree, idChars).value)
    decreases Max(|input|, ContentBound(tree.nodes)), 1, 0
  {
    if Lex(input, line, chr, 0, idChars).Ok? {
      ParseIntoLexed(input, line, chr, tree, idChars);
      var leaves := Leaves(Lex(input, line, chr, 0, idChars).value);
      var t := tree.(nodes := tree.nodes + leaves);
      var bound := Max(|input|, ContentBound(tree.nodes));
      assert LevelledBefore(t.nodes, 0, t.level) by {
        forall k | 0 <= k < |t.nodes|
          ensures NodeWellLeveled(t.nodes[k], t.level)
        {
          if k >= |tree.nodes| {
            assert t.nodes[k] == leaves[k - |tree.nodes|];
          } else {
            assert t.nodes[k] == tree.nodes[k];
          }
        }
      }
      SubtreesLevels(t.nodes, 0, line, t.level, bound, idChars);
      var s := Subtrees(t.nodes, 0, line, t.level, bound, idChars);
      if s.Ok? {
        RestructureLevels(t.(nodes := s.value));
      }
    }
  }

  lemma {:induction false} SubtreesLevels(ns: seq<AstNode>, i: nat, line: nat, level: nat, bound: nat, idChars: string)
    requires i <= |ns| && SpansBelow(ns, bound) && LevelledBefore(ns, i, level)
    ensures Subtrees(ns, i, line, level, bound, idChars).Ok? ==> WellLeveled(Ast(Subtrees(ns, i, line, level, bound, idChars).value, level))
    decreases bound, 0, |ns| - i, 1
  {
    if i == |ns| {
      assert WellLeveled(Ast(ns, level)) by {
        forall k | 0 <= k < |ns|
          ensures NodeWellLeveled(ns[k], level)
        {
        }
      }
    } else if ns[i].token.type_ != Expression {
      SubtreesSkip(ns, i, line, level, bound, idChars);
      SubtreesLevels(ns, i + 1, line, level, bound, idChars);
    } else {
      SubtreesLevelsAt(ns, i, line, level, bound, idChars);
    }
  }

  lemma {:induction false} SubtreesLevelsAt(ns: seq<AstNode>, i: nat, line: nat, level: nat, bound: nat, idChars: string)
    requires i < |ns| && SpansBelow(ns, bound) && LevelledBefore(ns, i, level) && ns[i].token.type_ == Expression
    ensures Subtrees(ns, i, line, level, bound, idChars).Ok? ==> WellLeveled(Ast(Subtrees(ns, i, line, level, bound, idChars).value, level))
    decreases bound, 0, |ns| - i, 0
  {
    var sub := ParseInto(ns[i].token.content, line, ns[i].token.position.chr + 1, Ast([], level + 1), idChars);
    if sub.Err? {
      SubtreesAtErr(ns, i, line, level, bound, idChars);
    } else {
      ParseLevels(ns[i].token.content, line, ns[i].token.position.chr + 1, Ast([], level + 1), idChars);
      SpansBelowSet(ns, i, bound, sub.value);
      LevelledSet(ns, i, level, sub.value);
      SubtreesAtOk(ns, i, line, level, bound, sub.value, idChars);
      SubtreesLevels(ns[i := ns[i].(subtree := sub.value)], i + 1, line, level, bound, idChars);
    }
  }

  /** A subtree one level down, itself well levelled, extends the levelled
      prefix by one node. */
  lemma LevelledSet(ns: seq<AstNode>, i: nat, level: nat, sub: Ast)
    requires i < |ns| && LevelledBefore(ns, i, level)
    requires sub.level == level + 1 && WellLeveled(sub)
    ensures LevelledBefore(ns[i := ns[i].(subtree := sub)], i + 1, level)
  {
    var ns' := ns[i := ns[i].(subtree := sub)];
    assert NodeWellLeveled(ns'[i], level);
  }

  // ---------------------------------------------------------------------
  // What a parsed line reads back and what shape it has

  /** The tokens of the nodes, in order. */
  function TokensOf(ns: seq<AstNode>): (ts: seq<Token>)
    ensures |ts| == |ns| && forall k :: 0 <= k < |ns| ==> ts[k] == ns[k].token
  {
    seq(|ns|, k requires 0 <= k < |ns| => ns[k].token)
  }

  /** The tokens that are written in the input, leaving out the inserted ones. */
  function Written(ts: seq<Token>): (r: seq<Token>)
    ensures |r| <= |ts|
  {
    if ts == [] then [] else (if ts[0].implicit then [] else [ts[0]]) + Written(ts[1..])
  }

  /** What a token says besides its kind: its spelling and where it was read. */
  function Marks(ts: seq<Token>): (ms: seq<(string, InputPosition)>)
    ensures |ms| == |ts| && forall k :: 0 <= k < |ts| ==> ms[k] == (ts[k].content, ts[k].position)
  {
    seq(|ts|, k requires 0 <= k < |ts| => (ts[k].content, ts[k].position))
  }

  /** Only Expression nodes have children. */
  predicate OnlySpansNest(ns: seq<AstNode>)
  {
    forall k :: 0 <= k < |ns| && HasChildren(ns[k]) ==> ns[k].token.type_ == Expression
  }

  /** The only ambiguous operators are `+` and `-`. */
  predicate Signs(ns: seq<AstNode>)
  {
    forall k :: 0 <= k < |ns| && ns[k].token.type_ == AmbiguousOperator ==>
      ns[k].token.content == "+" || ns[k].token.content == "-"
  }

  /** No node is an unresolved `+` or `-` and every binary operator is in
      one of the precedence tiers. */
  predicate Resolved(ns: seq<AstNode>)
  {
    forall k :: 0 <= k < |ns| ==>
      ns[k].token.type_ != AmbiguousOperator &&
      (ns[k].token.type_ == BinaryOperator ==> TierIndex(ns[k].token.content) >= 0)
  }

  /** An operator with all its operands: `!` and the prefix operators and
      functions with one, the binary operators with two; and no `+` or `-`
      left unresolved. */
  predicate Applied(n: AstNode)
  {
    n.token.type_ != AmbiguousOperator &&
    (IsBang(n) || IsPrefixOp(n) ==> |n.subtree.nodes| == 1) &&
    (n.token.type_ == BinaryOperator ==> |n.subtree.nodes| == 2)
  }

  /** A lexeme is written, its only ambiguous spellings are `+` and `-`,
      and a binary operator has a tier. */
  lemma LexemeFacts(input: string, line: nat, chr: nat, t: Token, idChars: string)
    requires Lexeme(input, line, chr, t, idChars)
    ensures !t.implicit
    ensures t.type_ == AmbiguousOperator ==> t.content == "+" || t.content == "-"
    ensures t.type_ == BinaryOperator ==> TierIndex(t.content) >= 0
  {
    if t.type_ == AmbiguousOperator || t.type_ == BinaryOperator {
      LexemeKindRule(input, line, chr, t, idChars);
      OperatorKinds(t.type_, t.content, idChars);
    }
  }

  /** What the operator rule says of an ambiguous and of a binary operator. */
  lemma OperatorKinds(ty: TokenType, w: string, idChars: string)
    requires |w| >= 1 && KindRule(ty, w, idChars)
    requires ty == AmbiguousOperator || ty == BinaryOperator
    ensures ty == AmbiguousOperator ==> w == "+" || w == "-"
    ensures ty == BinaryOperator ==> TierIndex(w) >= 0
  {
    if ty == BinaryOperator {
      BinaryOperatorTier(w);
    }
  }

  /** Every binary operator spelling has a tier. */
  lemma BinaryOperatorTier(w: string)
    requires w in BinaryOperators
    ensures TierIndex(w) >= 0
  {
    TiersCoverBinaryOperators(w);
    var j :| 0 <= j < |BinaryOperatorPrecedence| && w in BinaryOperatorPrecedence[j];
    TierIndexOfListed(j, w);
  }

  /** What the tokenizer pushes: written, childless nodes whose `+` and `-`
      are the only ambiguous ones and whose binary operators all have a
      tier. */
  lemma LexedLeaves(input: string, line: nat, chr: nat, idChars: string)
    requires Lex(input, line, chr, 0, idChars).Ok?
    ensures var ns := Leaves(Lex(input, line, chr, 0, idChars).value);
      NoImplicit(ns) && Signs(ns) && OnlySpansNest(ns) &&
      forall k :: 0 <= k < |ns| && ns[k].token.type_ == BinaryOperator ==> TierIndex(ns[k].token.content) >= 0
  {
    var ts := Lex(input, line, chr, 0, idChars).value;
    LexReadsLexemes(input, line, chr, 0, idChars);
    forall k | 0 <= k < |ts|
      ensures !ts[k].implicit
      ensures ts[k].type_ == AmbiguousOperator ==> ts[k].content == "+" || ts[k].content == "-"
      ensures ts[k].type_ == BinaryOperator ==> TierIndex(ts[k].content) >= 0
    {
      LexemeFacts(input, line, chr, ts[k], idChars);
    }
  }

  /** `out` has the tokens of `ns`, and its nodes that are not Expressions
      are those of `ns`. */
  predicate SameTokens(out: seq<AstNode>, ns: seq<AstNode>)
  {
    |out| == |ns| &&
    forall k :: 0 <= k < |ns| ==> out[k].token == ns[k].token && (ns[k].token.type_ != Expression ==> out[k] == ns[k])
  }

  lemma SameTokensTrans(a: seq<AstNode>, b: seq<AstNode>, c: seq<AstNode>)
    requires SameTokens(a, b) && SameTokens(b, c)
    ensures SameTokens(a, c)
  {
  }

  lemma SameTokensSet(ns: seq<AstNode>, i: nat, sub: Ast)
    requires i < |ns| && ns[i].token.type_ == Expression
    ensures SameTokens(ns[i := ns[i].(subtree := sub)], ns)
  {
  }

  /** The subtree loop keeps every token and every node that is not an
      Expression. */
  lemma {:induction false} SubtreesKeepTokens(ns: seq<AstNode>, i: nat, line: nat, level: nat, bound: nat, idChars: string)
    requires i <= |ns| && SpansBelow(ns, bound)
    ensures Subtrees(ns, i, line, level, bound, idChars).Ok? ==> SameTokens(Subtrees(ns, i, line, level, bound, idChars).value, ns)
    decreases |ns| - i, 1
  {
    if i < |ns| {
      if ns[i].token.type_ != Expression {
        SubtreesSkip(ns, i, line, level, bound, idChars);
        SubtreesKeepTokens(ns, i + 1, line, level, bound, idChars);
      } else {
        SubtreesKeepTokensAt(ns, i, line, level, bound, idChars);
      }
    }
  }

  lemma {:induction false} SubtreesKeepTokensAt(ns: seq<AstNode>, i: nat, line: nat, level: nat, bound: nat, idChars: string)
    requires i < |ns| && SpansBelow(ns, bound) && ns[i].token.type_ == Expression
    ensures Subtrees(ns, i, line, level, bound, idChars).Ok? ==> SameTokens(Subtrees(ns, i, line, level, bound, idChars).value, ns)
    decreases |ns| - i, 0
  {
    var sub := ParseInto(ns[i].token.content, line, ns[i].token.position.chr + 1, Ast([], level + 1), idChars);
    if sub.Err? {
      SubtreesAtErr(ns, i, line, level, bound, idChars);
    } else {
      var ns' := ns[i := ns[i].(subtree := sub.value)];
      SpansBelowSet(ns, i, bound, sub.value);
      SubtreesAtOk(ns, i, line, level, bound, sub.value, idChars);
      SubtreesKeepTokens(ns', i + 1, line, level, bound, idChars);
      SameTokensSet(ns, i, sub.value);
      if Subtrees(ns', i + 1, line, level, bound, idChars).Ok? {
        SameTokensTrans(Subtrees(ns', i + 1, line, level, bound, idChars).value, ns', ns);
      }
    }
  }

  /** The nodes of a fresh line once its subtrees are in place: written,
      with `+` and `-` the only ambiguous operators, a tier for every binary
      operator, children only under Expression nodes, and the spellings and
      positions of the tokens read. */
  lemma FreshLine(input: string, line: nat, chr: nat, level: nat, idChars: string)
    requires Lex(input, line, chr, 0, idChars).Ok?
    ensures var ts := Lex(input, line, chr, 0, idChars).value;
      SpansBelow(Leaves(ts), |input|) &&
      (Subtrees(Leaves(ts), 0, line, level, |input|, idChars).Ok? ==>
        var built := Subtrees(Leaves(ts), 0, line, level, |input|, idChars).value;
        NoImplicit(built) && Signs(built) && OnlySpansNest(built) && Marks(TokensOf(built)) == Marks(ts) &&
        forall k :: 0 <= k < |built| && built[k].token.type_ == BinaryOperator ==> TierIndex(built[k].token.content) >= 0)
  {
    var ts := Lex(input, line, chr, 0, idChars).value;
    LexedLeaves(input, line, chr, idChars);
    LexedSpansShorter(input, line, chr, idChars);
    SubtreesKeepTokens(Leaves(ts), 0, line, level, |input|, idChars);
  }

  /** Disambiguation, the implicit `*` and the implicit `mem 0` call on
      nodes of one line. */
  function Prepared(t: Ast, d: seq<AstNode>): Ast
  {
    var m := t.(nodes := ImplicitMuls(d));
    if NeedsMem0(m) then m.(nodes := [Mem0Call(m.nodes[0].token.position)] + m.nodes) else m
  }

  /** Disambiguation keeps spellings, positions and what nests; it leaves
      no ambiguous operator and gives each a tier. */
  lemma DisambiguatedLine(t: Ast)
    requires Signs(t.nodes) && NoImplicit(t.nodes) && OnlySpansNest(t.nodes)
    requires forall k :: 0 <= k < |t.nodes| && t.nodes[k].token.type_ == BinaryOperator ==> TierIndex(t.nodes[k].token.content) >= 0
    requires Disambiguation(t.nodes, t.level, 0).Ok?
    ensures var d := Disambiguation(t.nodes, t.level, 0).value;
      NoImplicit(d) && OnlySpansNest(d) && Resolved(d) && Marks(TokensOf(d)) == Marks(TokensOf(t.nodes))
  {
    assert SignsOnly(t.nodes);
    DisambiguationMeaning(t.nodes, t.level);
    DisambiguationRetypesOnly(t.nodes, t.level, 0);
    var d := Disambiguation(t.nodes, t.level, 0).value;
    forall k | 0 <= k < |d|
      ensures d[k].token.type_ != AmbiguousOperator
      ensures d[k].token.type_ == BinaryOperator ==> TierIndex(d[k].token.content) >= 0
      ensures HasChildren(d[k]) ==> d[k].token.type_ == Expression
    {
      assert d[k] == Expected(t.nodes, t.level, k);
    }
  }
  /** The implicit `*` keeps a resolved line resolved and nests nothing;
      erasing the stars gives back the line. */
  lemma StarredLine(d: seq<AstNode>)
    requires NoImplicit(d) && OnlySpansNest(d) && Resolved(d)
    ensures var m := ImplicitMuls(d);
      OnlySpansNest(m) && Resolved(m) && Explicit(m) == d
  {
    var m := ImplicitMuls(d);
    ImplicitMulsAddsStars(d);
    ImplicitMulsErase(d);
    assert TierIndex("*") == 1;
    forall k | 0 <= k < |m|
      ensures (HasChildren(m[k]) ==> m[k].token.type_ == Expression) &&
        m[k].token.type_ != AmbiguousOperator &&
        (m[k].token.type_ == BinaryOperator ==> TierIndex(m[k].token.content) >= 0)
    {
      if m[k] in d {
        var j :| 0 <= j < |d| && d[j] == m[k];
      }
    }
  }

  /** The implicit `mem 0` call is an implicit Expression: the line stays
      resolved, nests only Expressions, and erasing it gives the line back. */
  lemma CalledLine(p: InputPosition, m: seq<AstNode>)
    requires OnlySpansNest(m) && Resolved(m)
    ensures var z := [Mem0Call(p)] + m;
      OnlySpansNest(z) && Resolved(z) && Explicit(z) == Explicit(m)
  {
    var z := [Mem0Call(p)] + m;
    assert z[1..] == m;
    forall k | 0 < k < |z|
      ensures z[k] == m[k - 1]
    {
    }
  }

  /** The implicit `*` and `mem 0` keep a resolved line resolved, nest
      nothing but Expressions, and erasing the inserted nodes gives back the
      disambiguated line. */
  lemma PreparedLine(t: Ast, d: seq<AstNode>)
    requires NoImplicit(d) && OnlySpansNest(d) && Resolved(d)
    ensures var z := Prepared(t, d);
      z.level == t.level && OnlySpansNest(z.nodes) && Resolved(z.nodes) && Explicit(z.nodes) == d
  {
    var m := t.(nodes := ImplicitMuls(d));
    StarredLine(d);
    if NeedsMem0(m) {
      CalledLine(m.nodes[0].token.position, m.nodes);
    }
  }

  /** A line that nests only Expressions reads as its own tokens. */
  lemma {:induction false} SpansReading(ns: seq<AstNode>)
    requires OnlySpansNest(ns)
    ensures Reading(ns) == TokensOf(ns)
  {
    if ns != [] {
      if !HasChildren(ns[0]) {
        ChildlessReading(ns[0]);
      }
      assert OnlySpansNest(ns[1..]) by {
        forall k | 0 <= k < |ns[1..]| && HasChildren(ns[1..][k])
          ensures ns[1..][k].token.type_ == Expression
        {
          assert ns[1..][k] == ns[k + 1];
        }
      }
      SpansReading(ns[1..]);
      assert TokensOf(ns) == [ns[0].token] + TokensOf(ns[1..]);
    }
  }

  lemma TokensOfAppend(a: seq<AstNode>, b: seq<AstNode>)
    ensures TokensOf(a + b) == TokensOf(a) + TokensOf(b)
  {
  }

  /** The written tokens of a line are the tokens of its written nodes. */
  lemma {:induction false} WrittenTokens(ns: seq<AstNode>)
    ensures Written(TokensOf(ns)) == TokensOf(Explicit(ns))
  {
    if ns != [] {
      WrittenTokens(ns[1..]);
      var head := if ns[0].token.implicit then [] else [ns[0]];
      assert TokensOf(ns)[1..] == TokensOf(ns[1..]);
      TokensOfAppend(head, Explicit(ns[1..]));
    }
  }

  /** Every node's token is part of the reading. */
  lemma {:induction false} TokenInReading(ns: seq<AstNode>, k: nat)
    requires k < |ns|
    ensures ns[k].token in Reading(ns)
  {
    if k == 0 {
      var n := ns[0];
      var cs := n.subtree.nodes;
      if n.token.type_ == BinaryOperator && |cs| == 2 && !IsBang(n) {
        assert NodeReading(n) == NodeReading(cs[0]) + [n.token] + NodeReading(cs[1]);
        assert NodeReading(n)[|NodeReading(cs[0])|] == n.token;
      } else if IsBang(n) {
        assert NodeReading(n)[|Reading(cs)|] == n.token;
      } else {
        assert NodeReading(n)[0] == n.token;
      }
      assert Reading(ns) == NodeReading(n) + Reading(ns[1..]);
    } else {
      TokenInReading(ns[1..], k - 1);
      assert Reading(ns) == NodeReading(ns[0]) + Reading(ns[1..]);
    }
  }

  /** Completed nodes whose tokens all come from a resolved line have all
      their operands. */
  lemma AppliedTop(z: seq<AstNode>, out: seq<AstNode>)
    requires Resolved(z) && Reading(out) == TokensOf(z)
    requires forall k :: 0 <= k < |out| ==> Complete(out[k])
    ensures forall k :: 0 <= k < |out| ==> Applied(out[k])
  {
    forall k | 0 <= k < |out|
      ensures Applied(out[k])
    {
      TokenInReading(out, k);
      var j :| 0 <= j < |z| && TokensOf(z)[j] == out[k].token;
      assert Complete(out[k]);
    }
  }

  /** The line the passes fold: disambiguated, with the implicit `*` and
      `mem 0` in place. */
  lemma PreparedFromLine(u: Ast)
    requires NoImplicit(u.nodes) && Signs(u.nodes) && OnlySpansNest(u.nodes)
    requires forall k :: 0 <= k < |u.nodes| && u.nodes[k].token.type_ == BinaryOperator ==> TierIndex(u.nodes[k].token.content) >= 0
    requires Disambiguation(u.nodes, u.level, 0).Ok?
    ensures var z := Prepared(u, Disambiguation(u.nodes, u.level, 0).value);
      z.level == u.level && OnlySpansNest(z.nodes) && Resolved(z.nodes) &&
      Marks(TokensOf(Explicit(z.nodes))) == Marks(TokensOf(u.nodes)) &&
      Restructure(u) == match Incorporation(z.nodes, z.level)
        case Err(e) => Err(e)
        case Ok(out) => Ok(z.(nodes := out))
  {
    var d := Disambiguation(u.nodes, u.level, 0).value;
    DisambiguatedLine(u);
    PreparedLine(u, d);
  }

  /** Only Expressions nest, so no operator has children yet. */
  lemma SpansOnlyChildless(z: seq<AstNode>)
    requires OnlySpansNest(z)
    ensures OperatorsChildless(z)
  {
  }

  /** Folded nodes that read as a line that nests only Expressions read,
      without the inserted nodes, as the written tokens of that line. */
  lemma FoldedReading(z: seq<AstNode>, out: seq<AstNode>)
    requires OnlySpansNest(z) && Reading(out) == Reading(z)
    ensures Written(Reading(out)) == TokensOf(Explicit(z))
  {
    SpansReading(z);
    WrittenTokens(z);
  }

  /** The passes on a freshly read line lose no written token and add
      none. */
  lemma RestructureReading(u: Ast)
    requires NoImplicit(u.nodes) && Signs(u.nodes) && OnlySpansNest(u.nodes)
    requires forall k :: 0 <= k < |u.nodes| && u.nodes[k].token.type_ == BinaryOperator ==> TierIndex(u.nodes[k].token.content) >= 0
    ensures Restructure(u).Ok? ==> Marks(Written(Reading(Restructure(u).value.nodes))) == Marks(TokensOf(u.nodes))
  {
    if Disambiguation(u.nodes, u.level, 0).Ok? {
      PreparedFromLine(u);
      var z := Prepared(u, Disambiguation(u.nodes, u.level, 0).value);
      if Incorporation(z.nodes, z.level).Ok? {
        SpansOnlyChildless(z.nodes);
        IncorporationReading(z.nodes, z.level);
        FoldedReading(z.nodes, Incorporation(z.nodes, z.level).value);
      }
    }
  }

  /** The passes on a freshly read line leave only operators with all
      their operands at the top level. */
  lemma RestructureApplied(u: Ast)
    requires NoImplicit(u.nodes) && Signs(u.nodes) && OnlySpansNest(u.nodes)
    requires forall k :: 0 <= k < |u.nodes| && u.nodes[k].token.type_ == BinaryOperator ==> TierIndex(u.nodes[k].token.content) >= 0
    ensures Restructure(u).Ok? ==> forall k :: 0 <= k < |Restructure(u).value.nodes| ==> Applied(Restructure(u).value.nodes[k])
  {
    if Disambiguation(u.nodes, u.level, 0).Ok? {
      PreparedFromLine(u);
      var z := Prepared(u, Disambiguation(u.nodes, u.level, 0).value);
      if Incorporation(z.nodes, z.level).Ok? {
        SpansOnlyChildless(z.nodes);
        IncorporationReading(z.nodes, z.level);
        IncorporationShape(z.nodes, z.level);
        SpansReading(z.nodes);
        AppliedTop(z.nodes, Incorporation(z.nodes, z.level).value);
      }
    }
  }

  /** Parsing a line into an empty tree loses no token and adds none that
      was not inserted: the top level of the result, read in order without
      the implicit `*` and `mem 0` nodes, has the spellings and positions of
      the tokens of the line. */
  lemma ParseReadsBack(input: string, line: nat, chr: nat, tree: Ast, idChars: string)
    requires tree.nodes == []
    ensures ParseInto(input, line, chr, tree, idChars).Ok? ==>
      Lex(input, line, chr, 0, idChars).Ok? &&
      Marks(Written(Reading(ParseInto(input, line, chr, tree, idChars).value.nodes))) == Marks(Lex(input, line, chr, 0, idChars).value)
  {
    FreshParse(input, line, chr, tree, idChars);
  }

  /** Parsing a line into an empty tree resolves every `+` and `-` and
      leaves only operators with all their operands at the top level. */
  lemma ParseShape(input: string, line: nat, chr: nat, tree: Ast, idChars: string)
    requires tree.nodes == []
    ensures ParseInto(input, line, chr, tree, idChars).Ok? ==>
      forall k :: 0 <= k < |ParseInto(input, line, chr, tree, idChars).value.nodes| ==>
        Applied(ParseInto(input, line, chr, tree, idChars).value.nodes[k])
  {
    FreshParse(input, line, chr, tree, idChars);
  }

  lemma FreshParse(input: string, line: nat, chr: nat, tree: Ast, idChars: string)
    requires tree.nodes == []
    ensures ParseInto(input, line, chr, tree, idChars).Ok? ==>
      var out := ParseInto(input, line, chr, tree, idChars).value.nodes;
      Lex(input, line, chr, 0, idChars).Ok? &&
      Marks(Written(Reading(out))) == Marks(Lex(input, line, chr, 0, idChars).value) &&
      forall k :: 0 <= k < |out| ==> Applied(out[k])
  {
    if Lex(input, line, chr, 0, idChars).Ok? {
      var ts := Lex(input, line, chr, 0, idChars).value;
      ParseIntoLexed(input, line, chr, tree, idChars);
      assert tree.nodes + Leaves(ts) == Leaves(ts);
      assert Max(|input|, ContentBound(tree.nodes)) == |input|;
      FreshLine(input, line, chr, tree.level, idChars);
      var s := Subtrees(Leaves(ts), 0, line, tree.level, |input|, idChars);
      if s.Ok? {
        RestructureReading(tree.(nodes := s.value));
        RestructureApplied(tree.(nodes := s.value));
      }
    }
  }

  /** Parser: the tree being built. */
  class Parser {
    var ast: Ast

    /** Parser::new */
    constructor()
      ensures ast == Empty
    {
      ast := Empty;
    }

    /** Parser::reset */
    method Reset()
      modifies this
      ensures ast == Empty
    {
      ast := Empty;
    }

    /** Parser::take_ast: hands over the tree and leaves an empty one. */
    method TakeAst() returns (t: Ast)
      modifies this
      ensures t == old(ast) && ast == Empty
    {
      t := ast;
      ast := Empty;
    }

    /** Parser::parse: parses `input` into the tree and hands it over. On an
        error the partly built tree stays behind. Identifiers are read over
        the identifier table as written. */
    method Parse(input: string, line: nat, chr: nat) returns (res: Result<Ast, Error>)
      modifies this
      ensures ParseInto(input, line, chr, old(ast), IdentifierInitialChars).Ok? ==>
        res == Ok(ParseInto(input, line, chr, old(ast), IdentifierInitialChars).value) && ast == Empty
      ensures ParseInto(input, line, chr, old(ast), IdentifierInitialChars).Err? ==> res == Err(ParseInto(input, line, chr, old(ast), IdentifierInitialChars).error)
    {
      var status, tree := ParseRecursively(input, line, chr, ast, IdentifierInitialChars);
      ast := tree;
      if status.Err? {
        return Err(status.error);
      }
      var taken := TakeAst();
      res := Ok(taken);
    }
  }
}

