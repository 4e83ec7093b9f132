/** Folding operands into operators (parser.rs, incorporate_operands): the
    `!` operators take the node before them, left to right; the prefix unary
    operators and unary functions take the node after them, right to left;
    then each precedence tier of binary operators, from the tightest, takes
    the nodes on both sides, right to left. A folded operator keeps its
    token and gets its operands as a subtree one level below. */
module Folding {
  import opened Outcomes
  import opened Errors
  import opened Tokens
  import opened Patterns
  import opened Asts
  import opened Passes

  /** The subtree that holds the operands of an operator at `level`. */
  function FoldSubtree(operands: seq<AstNode>, level: nat): (t: Ast)
    ensures t.level == level + 1 && t.nodes == RelevelNodes(operands, level + 2)
  {
    Relevel(Ast(operands, 0), level + 1)
  }

  /** The operator node with its operands folded into it. */
  function Fold(op: AstNode, operands: seq<AstNode>, level: nat): (r: AstNode)
    ensures r.token == op.token && r.value == op.value
    ensures |r.subtree.nodes| == |operands|
  {
    op.(subtree := FoldSubtree(operands, level))
  }

  /** A folded operator respects the nesting invariant at its level, whatever
      the levels of its operands were. */
  lemma FoldLevel(op: AstNode, operands: seq<AstNode>, level: nat)
    ensures NodeWellLeveled(Fold(op, operands, level), level)
  {
    RelevelIsWellLeveled(Ast(operands, 0), level + 1);
  }

  /** Relevelling a node twice is relevelling it once, to the second level. */
  lemma RelevelNodeTwice(n: AstNode, a: nat, b: nat)
    ensures RelevelNode(RelevelNode(n, a), b) == RelevelNode(n, b)
  {
    RelevelNodeKeeps(n, a);
    if HasChildren(n) {
      RelevelTwice(n.subtree, a, b);
    }
  }

  /** Collecting operands into a new tree and relevelling that below
      `level` gives the fold's subtree. */
  lemma CollectedSubtree(operands: seq<AstNode>, level: nat)
    ensures Relevel(Ast(RelevelNodes(operands, 0), 0), level + 1) == FoldSubtree(operands, level)
  {
    var once := RelevelNodes(operands, 0);
    var twice := RelevelNodes(once, level + 2);
    var direct := RelevelNodes(operands, level + 2);
    forall k | 0 <= k < |operands|
      ensures twice[k] == direct[k]
    {
      RelevelNodesAt(operands, 0, k);
      RelevelNodesAt(once, level + 2, k);
      RelevelNodesAt(operands, level + 2, k);
      RelevelNodeTwice(operands[k], 0, level + 2);
    }
  }

  /** Relevelling a one-node tree works on its node. */
  lemma RelevelSingle(n: AstNode, level: nat)
    ensures RelevelNodes([n], level) == [RelevelNode(n, level)]
  {
    assert [n][1..] == [];
  }

  /** The subtree of one operand, built by pushing it onto an empty tree
      (or Ast::from) and relevelling below `level`. */
  method OperandSubtree(operand: AstNode, level: nat) returns (t: Ast)
    ensures t == FoldSubtree([operand], level)
  {
    var collected := Push(Empty, operand);
    RelevelSingle(operand, 0);
    CollectedSubtree([operand], level);
    t := RelevelFrom(collected, level + 1);
  }

  /** The subtree of two operands, built with Ast::from and relevelled
      below `level`. */
  method OperandsSubtree(left: AstNode, right: AstNode, level: nat) returns (t: Ast)
    ensures t == FoldSubtree([left, right], level)
  {
    var collected := FromVec([left, right]);
    CollectedSubtree([left, right], level);
    t := RelevelFrom(collected, level + 1);
  }

  /** Tree::remove of the operand at `i - 1` and set_subtree of the `!` that
      then sits at `i - 1`. */
  method FoldBangAt(nodes: seq<AstNode>, i: nat, level: nat) returns (r: seq<AstNode>)
    requires 1 <= i < |nodes|
    ensures r == nodes[..i - 1] + [Fold(nodes[i], [nodes[i - 1]], level)] + nodes[i + 1..]
  {
    var operand := nodes[i - 1];
    r := nodes[..i - 1] + nodes[i..];
    var subtree := OperandSubtree(operand, level);
    var _, folded := SetSubtree(r[i - 1], subtree);
    r := r[i - 1 := folded];
  }

  /** Tree::remove of the operand at `i + 1` and set_subtree of the prefix
      operator at `i`. */
  method FoldPrefixAt(nodes: seq<AstNode>, i: nat, level: nat) returns (r: seq<AstNode>)
    requires i + 1 < |nodes|
    ensures r == nodes[..i] + [Fold(nodes[i], [nodes[i + 1]], level)] + nodes[i + 2..]
  {
    var operand := nodes[i + 1];
    r := nodes[..i + 1] + nodes[i + 2..];
    var subtree := OperandSubtree(operand, level);
    var _, folded := SetSubtree(r[i], subtree);
    r := r[i := folded];
  }

  /** Tree::remove of the operands at `i + 1` and `i - 1`, in that order, and
      set_subtree of the operator that then sits at `i - 1`. */
  method FoldBinaryAt(nodes: seq<AstNode>, i: nat, level: nat) returns (r: seq<AstNode>)
    requires 1 <= i && i + 1 < |nodes|
    ensures r == nodes[..i - 1] + [Fold(nodes[i], [nodes[i - 1], nodes[i + 1]], level)] + nodes[i + 2..]
  {
    var right := nodes[i + 1];
    r := nodes[..i + 1] + nodes[i + 2..];
    var left := r[i - 1];
    r := r[..i - 1] + r[i..];
    var subtree := OperandsSubtree(left, right, level);
    var _, folded := SetSubtree(r[i - 1], subtree);
    r := r[i - 1 := folded];
  }

  // ---------------------------------------------------------------------
  // Factorials

  const BangMissingLeftMsg: string := "Unary operator '!' is missing a left-hand operand"

  /** The `!` pass, left to right: `done` holds the nodes already passed,
      each `!` is folded around the last of them. */
  function Factorials(done: seq<AstNode>, rest: seq<AstNode>, level: nat): Result<seq<AstNode>, Error>
    decreases |rest|
  {
    if rest == [] then Ok(done)
    else if !IsBang(rest[0]) then Factorials(done + [rest[0]], rest[1..], level)
    else if done == [] then Err(NewP(SyntaxError, BangMissingLeftMsg, rest[0].token.position))
    else Factorials(done[..|done| - 1] + [Fold(rest[0], [done[|done| - 1]], level)], rest[1..], level)
  }

  /** The slices around a `!` at `i` before and after it takes the node at
      `i - 1`. */
  lemma BangFoldSlices(before: seq<AstNode>, after: seq<AstNode>, i: nat, f: AstNode)
    requires 1 <= i < |before| && after == before[..i - 1] + [f] + before[i + 1..]
    ensures after[..i] == before[..i][..i - 1] + [f] && after[i..] == before[i..][1..]
    ensures before[..i][i - 1] == before[i - 1] && before[i..][0] == before[i]
  {
  }

  /** Parser::_incorporate_factorials: left to right, each `!` takes the
      node before it out of the tree into its own subtree. */
  method IncorporateFactorials(t: Ast) returns (res: Result<(), Error>, r: Ast)
    ensures Factorials([], t.nodes, t.level).Ok? ==>
      res == Ok(()) && r == t.(nodes := Factorials([], t.nodes, t.level).value)
    ensures Factorials([], t.nodes, t.level).Err? ==> res == Err(Factorials([], t.nodes, t.level).error)
  {
    var nodes := t.nodes;
    var i := 0;
    assert nodes[..0] == [] && nodes[0..] == nodes;
    while i < |nodes|
      invariant i <= |nodes|
      invariant Factorials([], t.nodes, t.level) == Factorials(nodes[..i], nodes[i..], t.level)
      decreases |nodes| - i
    {
      if nodes[i].token.type_ == UnaryOperator && nodes[i].token.content == "!" {
        if i < 1 {
          res, r := Err(NewP(SyntaxError, BangMissingLeftMsg, nodes[i].token.position)), t.(nodes := nodes);
          return;
        }
        ghost var before := nodes;
        nodes := FoldBangAt(nodes, i, t.level);
        BangFoldSlices(before, nodes, i, Fold(before[i], [before[i - 1]], t.level));
        i := i - 1;
      } else {
        assert nodes[..i + 1] == nodes[..i] + [nodes[i]];
        assert nodes[i..][1..] == nodes[i + 1..];
      }
      i := i + 1;
    }
    assert nodes[..i] == nodes;
    res, r := Ok(()), t.(nodes := nodes);
  }

  // ---------------------------------------------------------------------
  // Prefix unary operators and unary functions

  /** A prefix operator: a unary operator other than `!`, or a unary function. */
  predicate IsPrefixOp(n: AstNode)
  {
    (n.token.type_ == UnaryOperator && n.token.content != "!") || n.token.type_ == UnaryFunctionIdentifier
  }

  function UnaryMissingRightMsg(op: string): string
  {
    "Unary operator '" + op + "' is missing a right-hand operand"
  }

  /** The prefix pass, right to left: `suf` holds the nodes already passed,
      each prefix operator is folded around the first of them. */
  function Unaries(pre: seq<AstNode>, suf: seq<AstNode>, level: nat): Result<seq<AstNode>, Error>
    decreases |pre|
  {
    if pre == [] then Ok(suf)
    else
      var n := pre[|pre| - 1];
      if !IsPrefixOp(n) then Unaries(pre[..|pre| - 1], [n] + suf, level)
      else if suf == [] then Err(NewP(SyntaxError, UnaryMissingRightMsg(n.token.content), n.token.position))
      else Unaries(pre[..|pre| - 1], [Fold(n, [suf[0]], level)] + suf[1..], level)
  }

  /** The slices around a prefix operator at `i` before and after it takes
      the node at `i + 1`. */
  lemma PrefixFoldSlices(before: seq<AstNode>, after: seq<AstNode>, i: nat, f: AstNode)
    requires i + 1 < |before| && after == before[..i] + [f] + before[i + 2..]
    ensures after[..i] == before[..i + 1][..i] && after[i..] == [f] + before[i + 1..][1..]
    ensures before[..i + 1][i] == before[i] && before[i + 1..][0] == before[i + 1]
  {
  }

  /** Parser::_incorporate_unary_ops_and_funcs: right to left, each prefix
      operator takes the node after it out of the tree into its own subtree. */
  method IncorporateUnaryOpsAndFuncs(t: Ast) returns (res: Result<(), Error>, r: Ast)
    ensures Unaries(t.nodes, [], t.level).Ok? ==>
      res == Ok(()) && r == t.(nodes := Unaries(t.nodes, [], t.level).value)
    ensures Unaries(t.nodes, [], t.level).Err? ==> res == Err(Unaries(t.nodes, [], t.level).error)
  {
    var nodes := t.nodes;
    var i := |nodes|;
    if i < 1 {
      return Ok(()), t;
    }
    assert nodes[..i] == nodes && nodes[i..] == [];
    while true
      invariant 0 < i <= |nodes|
      invariant Unaries(t.nodes, [], t.level) == Unaries(nodes[..i], nodes[i..], t.level)
      decreases i
    {
      i := i - 1;
      if (nodes[i].token.type_ == UnaryOperator && nodes[i].token.content != "!")
        || nodes[i].token.type_ == UnaryFunctionIdentifier
      {
        if i + 1 >= |nodes| {
          assert nodes[i + 1..] == [];
          res, r := Err(NewP(SyntaxError, UnaryMissingRightMsg(nodes[i].token.content), nodes[i].token.position)),
            t.(nodes := nodes);
          return;
        }
        ghost var before := nodes;
        nodes := FoldPrefixAt(nodes, i, t.level);
        PrefixFoldSlices(before, nodes, i, Fold(before[i], [before[i + 1]], t.level));
      } else {
        assert nodes[..i + 1][..i] == nodes[..i] && nodes[..i + 1][i] == nodes[i];
        assert [nodes[i]] + nodes[i + 1..] == nodes[i..];
      }
      if i == 0 {
        break;
      }
    }
    assert nodes[..0] == [] && nodes[0..] == nodes;
    res, r := Ok(()), t.(nodes := nodes);
  }

  // ---------------------------------------------------------------------
  // Binary operators

  /** A binary operator of the tier `binops`. */
  predicate InSet(n: AstNode, binops: seq<string>)
  {
    n.token.type_ == BinaryOperator && n.token.content in binops
  }

  function BinaryMissingLeftMsg(op: string): string
  {
    "Binary operator '" + op + "' is missing a left-hand operand"
  }

  function BinaryMissingRightMsg(op: string): string
  {
    "Binary operator '" + op + "' is missing a right-hand operand"
  }

  /** One tier's pass, right to left: `suf` holds the nodes already passed;
      each operator of the tier is folded around the last node of `pre`
      before it and the first of `suf`. */
  function BinarySet(pre: seq<AstNode>, suf: seq<AstNode>, binops: seq<string>, level: nat): Result<seq<AstNode>, Error>
    decreases |pre|
  {
    if pre == [] then Ok(suf)
    else
      var n := pre[|pre| - 1];
      var front := pre[..|pre| - 1];
      if !InSet(n, binops) then BinarySet(front, [n] + suf, binops, level)
      else if front == [] then Err(NewP(SyntaxError, BinaryMissingLeftMsg(n.token.content), n.token.position))
      else if suf == [] then Err(NewP(SyntaxError, BinaryMissingRightMsg(n.token.content), n.token.position))
      else BinarySet(front[..|front| - 1], [Fold(n, [front[|front| - 1], suf[0]], level)] + suf[1..], binops, level)
  }

  /** The slices around an operator at `i` before and after it takes the
      nodes at `i - 1` and `i + 1`. */
  lemma BinaryFoldSlices(before: seq<AstNode>, after: seq<AstNode>, i: nat, f: AstNode)
    requires 1 <= i && i + 1 < |before| && after == before[..i - 1] + [f] + before[i + 2..]
    ensures after[..i - 1] == before[..i + 1][..i][..i - 1] && after[i - 1..] == [f] + before[i + 1..][1..]
    ensures before[..i + 1][i] == before[i] && before[..i + 1][..i] == before[..i]
    ensures before[..i][i - 1] == before[i - 1] && before[i + 1..][0] == before[i + 1]
  {
  }

  /** The loop's view of one step past a node outside the tier. */
  lemma BinarySetPast(nodes: seq<AstNode>, i: nat, binops: seq<string>, level: nat)
    requires i < |nodes| && !InSet(nodes[i], binops)
    ensures BinarySet(nodes[..i + 1], nodes[i + 1..], binops, level) == BinarySet(nodes[..i], nodes[i..], binops, level)
  {
    assert nodes[..i + 1][..i] == nodes[..i] && nodes[..i + 1][i] == nodes[i];
    assert [nodes[i]] + nodes[i + 1..] == nodes[i..];
  }

  /** The loop's view of one step at an operator of the tier. */
  lemma BinarySetAtOperator(nodes: seq<AstNode>, i: nat, binops: seq<string>, level: nat)
    requires i < |nodes| && InSet(nodes[i], binops)
    ensures var op := nodes[i].token; var r := BinarySet(nodes[..i + 1], nodes[i + 1..], binops, level);
      if i == 0 then r == Err(NewP(SyntaxError, BinaryMissingLeftMsg(op.content), op.position))
      else if i + 1 == |nodes| then r == Err(NewP(SyntaxError, BinaryMissingRightMsg(op.content), op.position))
      else
        var after := nodes[..i - 1] + [Fold(nodes[i], [nodes[i - 1], nodes[i + 1]], level)] + nodes[i + 2..];
        r == BinarySet(after[..i - 1], after[i - 1..], binops, level)
  {
    if i + 1 == |nodes| {
      assert nodes[i + 1..] == [];
    }
    if 0 < i && i + 1 < |nodes| {
      var after := nodes[..i - 1] + [Fold(nodes[i], [nodes[i - 1], nodes[i + 1]], level)] + nodes[i + 2..];
      BinaryFoldSlices(nodes, after, i, Fold(nodes[i], [nodes[i - 1], nodes[i + 1]], level));
    }
  }

  /** Parser::_incorporate_binary_op_set: right to left, each operator of
      the tier takes its two neighbours out of the tree into its subtree. */
  method IncorporateBinaryOpSet(t: Ast, binops: seq<string>) returns (res: Result<(), Error>, r: Ast)
    ensures BinarySet(t.nodes, [], binops, t.level).Ok? ==>
      res == Ok(()) && r == t.(nodes := BinarySet(t.nodes, [], binops, t.level).value)
    ensures BinarySet(t.nodes, [], binops, t.level).Err? ==> res == Err(BinarySet(t.nodes, [], binops, t.level).error)
  {
    var nodes := t.nodes;
    var i := |nodes|;
    if i < 1 {
      return Ok(()), t;
    }
    assert nodes[..i] == nodes && nodes[i..] == [];
    while true
      invariant 0 < i <= |nodes|
      invariant BinarySet(t.nodes, [], binops, t.level) == BinarySet(nodes[..i], nodes[i..], binops, t.level)
      decreases i
    {
      i := i - 1;
      if nodes[i].token.type_ == BinaryOperator && nodes[i].token.content in binops {
        BinarySetAtOperator(nodes, i, binops, t.level);
        if i == 0 {
          res, r := Err(NewP(SyntaxError, BinaryMissingLeftMsg(nodes[i].token.content), nodes[i].token.position)),
            t.(nodes := nodes);
          return;
        }
        if i + 1 >= |nodes| {
          res, r := Err(NewP(SyntaxError, BinaryMissingRightMsg(nodes[i].token.content), nodes[i].token.position)),
            t.(nodes := nodes);
          return;
        }
        nodes := FoldBinaryAt(nodes, i, t.level);
        i := i - 1;
      } else {
        BinarySetPast(nodes, i, binops, t.level);
      }
      if i == 0 {
        break;
      }
    }
    assert nodes[..0] == [] && nodes[0..] == nodes;
    res, r := Ok(()), t.(nodes := nodes);
  }

  /** The tiers from the tightest: each tier's pass on the result of the
      previous one, stopping at the first error. */
  function BinaryOps(ns: seq<AstNode>, tiers: seq<seq<string>>, level: nat): Result<seq<AstNode>, Error>
    decreases |tiers|
  {
    if tiers == [] then Ok(ns)
    else
      match BinarySet(ns, [], tiers[0], level)
      case Err(e) => Err(e)
      case Ok(out) => BinaryOps(out, tiers[1..], level)
  }

  /** Parser::_incorporate_binary_ops: the tiers in precedence order. */
  method IncorporateBinaryOps(t: Ast) returns (res: Result<(), Error>, r: Ast)
    ensures BinaryOps(t.nodes, BinaryOperatorPrecedence, t.level).Ok? ==>
      res == Ok(()) && r == t.(nodes := BinaryOps(t.nodes, BinaryOperatorPrecedence, t.level).value)
    ensures BinaryOps(t.nodes, BinaryOperatorPrecedence, t.level).Err? ==>
      res == Err(BinaryOps(t.nodes, BinaryOperatorPrecedence, t.level).error)
  {
    var tiers := BinaryOperatorPrecedence;
    r := t;
    for j := 0 to |tiers|
      invariant r.level == t.level
      invariant BinaryOps(t.nodes, tiers, t.level) == BinaryOps(r.nodes, tiers[j..], t.level)
    {
      assert tiers[j..][1..] == tiers[j + 1..];
      res, r := IncorporateBinaryOpSet(r, tiers[j]);
      if res.Err? {
        return;
      }
    }
    res := Ok(());
  }

  /** All three passes in order, stopping at the first error. */
  function Incorporation(ns: seq<AstNode>, level: nat): Result<seq<AstNode>, Error>
  {
    match Factorials([], ns, level)
    case Err(e) => Err(e)
    case Ok(a) =>
      match Unaries(a, [], level)
      case Err(e) => Err(e)
      case Ok(b) => BinaryOps(b, BinaryOperatorPrecedence, level)
  }

  /** Parser::incorporate_operands: factorials, then prefix operators, then
      binary operators. */
  method IncorporateOperands(t: Ast) returns (res: Result<(), Error>, r: Ast)
    ensures Incorporation(t.nodes, t.level).Ok? ==>
      res == Ok(()) && r == t.(nodes := Incorporation(t.nodes, t.level).value)
    ensures Incorporation(t.nodes, t.level).Err? ==> res == Err(Incorporation(t.nodes, t.level).error)
  {
    res, r := IncorporateFactorials(t);
    if res.Err? {
      return;
    }
    res, r := IncorporateUnaryOpsAndFuncs(r);
    if res.Err? {
      return;
    }
    res, r := IncorporateBinaryOps(r);
  }

  // ---------------------------------------------------------------------
  // The tokens of a folded line, in reading order

  /** The tokens of a node in the order they were read: a `!` after its
      operand, a binary operator with two operands between them, any other
      operator before its operands; any other node is read as its own token
      (an Expression's subtree is its own line). */
  function NodeReading(n: AstNode): seq<Token>
    decreases n
  {
    var cs := n.subtree.nodes;
    if IsBang(n) then Reading(cs) + [n.token]
    else if n.token.type_ == BinaryOperator && |cs| == 2 then NodeReading(cs[0]) + [n.token] + NodeReading(cs[1])
    else if IsPrefixOp(n) || n.token.type_ == BinaryOperator then [n.token] + Reading(cs)
    else [n.token]
  }

  /** The tokens of a sequence of nodes, in reading order. */
  function Reading(ns: seq<AstNode>): seq<Token>
    decreases ns
  {
    if ns == [] then [] else NodeReading(ns[0]) + Reading(ns[1..])
  }

  lemma {:induction false} ReadingAppend(a: seq<AstNode>, b: seq<AstNode>)
    ensures Reading(a + b) == Reading(a) + Reading(b)
    decreases |a|
  {
    if a == [] {
      assert a + b == b;
    } else {
      assert (a + b)[1..] == a[1..] + b;
      ReadingAppend(a[1..], b);
    }
  }

  lemma ReadingSingle(n: AstNode)
    ensures Reading([n]) == NodeReading(n)
  {
    assert [n][1..] == [];
  }

  /** Relevelling changes no token. */
  lemma {:induction false} NodeReadingRelevel(n: AstNode, level: nat)
    ensures NodeReading(RelevelNode(n, level)) == NodeReading(n)
    decreases n, 1
  {
    if HasChildren(n) {
      var cs := n.subtree.nodes;
      var rs := RelevelNode(n, level).subtree.nodes;
      assert RelevelNode(n, level) == n.(subtree := Relevel(n.subtree, level));
      assert rs == RelevelNodes(cs, level + 1);
      ReadingRelevel(cs, level + 1);
      if |cs| == 2 {
        RelevelNodesAt(cs, level + 1, 0);
        RelevelNodesAt(cs, level + 1, 1);
        NodeReadingRelevel(cs[0], level + 1);
        NodeReadingRelevel(cs[1], level + 1);
      }
    }
  }

  lemma {:induction false} ReadingRelevel(ns: seq<AstNode>, level: nat)
    ensures Reading(RelevelNodes(ns, level)) == Reading(ns)
    decreases ns, 0
  {
    if ns != [] {
      NodeReadingRelevel(ns[0], level);
      ReadingRelevel(ns[1..], level);
    }
  }

  /** An operator without operands is read as its token alone. */
  lemma ChildlessReading(n: AstNode)
    requires !HasChildren(n)
    ensures NodeReading(n) == [n.token]
  {
  }

  /** A `!` folded around `x` is read after it. */
  lemma BangFoldReading(b: AstNode, x: AstNode, level: nat)
    requires IsBang(b)
    ensures NodeReading(Fold(b, [x], level)) == NodeReading(x) + [b.token]
  {
    RelevelSingle(x, level + 2);
    ReadingSingle(RelevelNode(x, level + 2));
    NodeReadingRelevel(x, level + 2);
  }

  /** A prefix operator folded around `x` is read before it. */
  lemma PrefixFoldReading(u: AstNode, x: AstNode, level: nat)
    requires IsPrefixOp(u)
    ensures NodeReading(Fold(u, [x], level)) == [u.token] + NodeReading(x)
  {
    RelevelSingle(x, level + 2);
    ReadingSingle(RelevelNode(x, level + 2));
    NodeReadingRelevel(x, level + 2);
  }

  /** A binary operator folded around `l` and `r` is read between them. */
  lemma BinaryFoldReading(op: AstNode, l: AstNode, r: AstNode, level: nat)
    requires op.token.type_ == BinaryOperator
    ensures NodeReading(Fold(op, [l, r], level)) == NodeReading(l) + [op.token] + NodeReading(r)
  {
    RelevelNodesAt([l, r], level + 2, 0);
    RelevelNodesAt([l, r], level + 2, 1);
    NodeReadingRelevel(l, level + 2);
    NodeReadingRelevel(r, level + 2);
  }

  /** Every node of `ns` is a node of `input`. */
  predicate From(ns: seq<AstNode>, input: seq<AstNode>)
  {
    forall k :: 0 <= k < |ns| ==> ns[k] in input
  }

  /** The nodes of a tree level, levelled as the level demands. */
  predicate LevelNodes(ns: seq<AstNode>, level: nat)
  {
    WellLeveled(Ast(ns, level))
  }

  lemma LevelNodesAppend(a: seq<AstNode>, b: seq<AstNode>, level: nat)
    ensures LevelNodes(a + b, level) <==> LevelNodes(a, level) && LevelNodes(b, level)
  {
    if LevelNodes(a, level) && LevelNodes(b, level) {
      forall k | 0 <= k < |a + b|
        ensures NodeWellLeveled((a + b)[k], level)
      {
        if k < |a| {
          assert NodeWellLeveled(a[k], level);
        } else {
          assert NodeWellLeveled(b[k - |a|], level);
        }
      }
    }
    if LevelNodes(a + b, level) {
      forall k | 0 <= k < |a|
        ensures NodeWellLeveled(a[k], level)
      {
        assert NodeWellLeveled((a + b)[k], level);
      }
      forall k | 0 <= k < |b|
        ensures NodeWellLeveled(b[k], level)
      {
        assert NodeWellLeveled((a + b)[k + |a|], level);
      }
    }
  }

  // ---------------------------------------------------------------------
  // What the `!` pass does

  /** The number of `!` nodes. */
  function Bangs(ns: seq<AstNode>): nat
    decreases ns
  {
    if ns == [] then 0 else (if IsBang(ns[0]) then 1 else 0) + Bangs(ns[1..])
  }

  /** Every `!` has one operand and every other node comes from `input`. */
  predicate BangsFolded(ns: seq<AstNode>, input: seq<AstNode>)
  {
    forall k :: 0 <= k < |ns| ==> if IsBang(ns[k]) then |ns[k].subtree.nodes| == 1 else ns[k] in input
  }

  /** No `!` has children yet. */
  predicate BangsChildless(ns: seq<AstNode>)
  {
    forall k :: 0 <= k < |ns| ==> IsBang(ns[k]) ==> !HasChildren(ns[k])
  }

  lemma FromTail(rest: seq<AstNode>, input: seq<AstNode>)
    requires rest != [] && From(rest, input)
    ensures rest[0] in input && From(rest[1..], input)
  {
    forall k | 0 <= k < |rest[1..]|
      ensures rest[1..][k] in input
    {
      assert rest[1..][k] == rest[k + 1];
    }
  }

  lemma BangsChildlessTail(rest: seq<AstNode>)
    requires rest != [] && BangsChildless(rest)
    ensures (IsBang(rest[0]) ==> !HasChildren(rest[0])) && BangsChildless(rest[1..])
  {
    forall k | 0 <= k < |rest[1..]| && IsBang(rest[1..][k])
      ensures !HasChildren(rest[1..][k])
    {
      assert rest[1..][k] == rest[k + 1];
    }
  }

  /** The reading and the levels of a sequence split after its first node. */
  lemma SplitFirst(rest: seq<AstNode>, level: nat)
    requires rest != []
    ensures Reading(rest) == NodeReading(rest[0]) + Reading(rest[1..])
    ensures LevelNodes(rest, level) ==> NodeWellLeveled(rest[0], level) && LevelNodes(rest[1..], level)
  {
    assert rest == [rest[0]] + rest[1..];
    LevelNodesAppend([rest[0]], rest[1..], level);
  }

  /** The reading and the levels of a sequence split before its last node. */
  lemma SplitLast(ns: seq<AstNode>, level: nat)
    requires ns != []
    ensures Reading(ns) == Reading(ns[..|ns| - 1]) + NodeReading(ns[|ns| - 1])
    ensures LevelNodes(ns, level) <==> LevelNodes(ns[..|ns| - 1], level) && NodeWellLeveled(ns[|ns| - 1], level)
  {
    var m := |ns| - 1;
    assert ns == ns[..m] + [ns[m]];
    ReadingAppend(ns[..m], [ns[m]]);
    ReadingSingle(ns[m]);
    LevelNodesAppend(ns[..m], [ns[m]], level);
  }

  /** Adding one node at the end. */
  lemma Snoc(ns: seq<AstNode>, n: AstNode, level: nat)
    ensures Reading(ns + [n]) == Reading(ns) + NodeReading(n)
    ensures LevelNodes(ns + [n], level) <==> LevelNodes(ns, level) && NodeWellLeveled(n, level)
  {
    ReadingAppend(ns, [n]);
    ReadingSingle(n);
    LevelNodesAppend(ns, [n], level);
  }

  /** Once a node has been passed, the `!` pass cannot fail. */
  lemma {:induction false} FactorialsStarted(done: seq<AstNode>, rest: seq<AstNode>, level: nat)
    ensures done != [] ==> Factorials(done, rest, level).Ok?
    decreases |rest|
  {
    if rest != [] {
      if !IsBang(rest[0]) {
        FactorialsStarted(done + [rest[0]], rest[1..], level);
      } else if done != [] {
        FactorialsStarted(done[..|done| - 1] + [Fold(rest[0], [done[|done| - 1]], level)], rest[1..], level);
      }
    }
  }

  /** The pass removes one node per `!`. */
  lemma {:induction false} FactorialsCount(done: seq<AstNode>, rest: seq<AstNode>, level: nat)
    ensures Factorials(done, rest, level).Ok? ==> |Factorials(done, rest, level).value| + Bangs(rest) == |done| + |rest|
    decreases |rest|
  {
    if rest != [] {
      if !IsBang(rest[0]) {
        FactorialsCount(done + [rest[0]], rest[1..], level);
      } else if done != [] {
        FactorialsCount(done[..|done| - 1] + [Fold(rest[0], [done[|done| - 1]], level)], rest[1..], level);
      }
    }
  }

  /** Every `!` of the result has one operand; every other node is an input node. */
  lemma {:induction false} FactorialsShape(done: seq<AstNode>, rest: seq<AstNode>, level: nat, input: seq<AstNode>)
    requires BangsFolded(done, input) && From(rest, input)
    ensures Factorials(done, rest, level).Ok? ==> BangsFolded(Factorials(done, rest, level).value, input)
    decreases |rest|
  {
    if rest != [] {
      var n := rest[0];
      FromTail(rest, input);
      if !IsBang(n) {
        var d := done + [n];
        assert BangsFolded(d, input) by {
          forall k | 0 <= k < |d|
            ensures if IsBang(d[k]) then |d[k].subtree.nodes| == 1 else d[k] in input
          {
            if k < |done| {
              assert d[k] == done[k];
            }
          }
        }
        FactorialsShape(d, rest[1..], level, input);
      } else if done != [] {
        var m := |done| - 1;
        var d := done[..m] + [Fold(n, [done[m]], level)];
        assert BangsFolded(d, input) by {
          forall k | 0 <= k < |d|
            ensures if IsBang(d[k]) then |d[k].subtree.nodes| == 1 else d[k] in input
          {
            if k < m {
              assert d[k] == done[k];
            }
          }
        }
        FactorialsShape(d, rest[1..], level, input);
      }
    }
  }

  /** With childless `!` nodes to start with, the pass keeps the reading order. */
  lemma {:induction false} FactorialsReading(done: seq<AstNode>, rest: seq<AstNode>, level: nat)
    requires BangsChildless(rest)
    ensures Factorials(done, rest, level).Ok? ==> Reading(Factorials(done, rest, level).value) == Reading(done) + Reading(rest)
    decreases |rest|
  {
    if rest != [] {
      var n := rest[0];
      BangsChildlessTail(rest);
      if !IsBang(n) {
        FactorialsReading(done + [n], rest[1..], level);
        MoveFirstReading(done, rest);
      } else if done != [] {
        var m := |done| - 1;
        var f := Fold(n, [done[m]], level);
        FactorialsReading(done[..m] + [f], rest[1..], level);
        BangFoldReading(n, done[m], level);
        ChildlessReading(n);
        BangStepReading(done, rest, f);
      }
    } else {
      assert done + rest == done;
    }
  }

  /** Folding a childless `!` around the last node passed keeps the reading. */
  lemma {:induction false} BangStepReading(done: seq<AstNode>, rest: seq<AstNode>, f: AstNode)
    requires done != [] && rest != [] && NodeReading(rest[0]) == [rest[0].token]
    requires NodeReading(f) == NodeReading(done[|done| - 1]) + [rest[0].token]
    ensures Reading(done[..|done| - 1] + [f]) + Reading(rest[1..]) == Reading(done) + Reading(rest)
  {
    Snoc(done[..|done| - 1], f, 0);
    SplitLast(done, 0);
    SplitFirst(rest, 0);
  }

  /** Moving the first node of `rest` to the end of `done` keeps the reading. */
  lemma {:induction false} MoveFirstReading(done: seq<AstNode>, rest: seq<AstNode>)
    requires rest != []
    ensures Reading(done + [rest[0]]) + Reading(rest[1..]) == Reading(done) + Reading(rest)
  {
    Snoc(done, rest[0], 0);
    SplitFirst(rest, 0);
  }

  /** The pass keeps the levels right. */
  lemma {:induction false} FactorialsLevels(done: seq<AstNode>, rest: seq<AstNode>, level: nat)
    requires LevelNodes(done, level) && LevelNodes(rest, level)
    ensures Factorials(done, rest, level).Ok? ==> LevelNodes(Factorials(done, rest, level).value, level)
    decreases |rest|
  {
    if rest != [] {
      var n := rest[0];
      SplitFirst(rest, level);
      if !IsBang(n) {
        Snoc(done, n, level);
        FactorialsLevels(done + [n], rest[1..], level);
      } else if done != [] {
        var m := |done| - 1;
        var f := Fold(n, [done[m]], level);
        FoldLevel(n, [done[m]], level);
        SplitLast(done, level);
        Snoc(done[..m], f, level);
        FactorialsLevels(done[..m] + [f], rest[1..], level);
      }
    }
  }

  /** What the `!` pass does to a line: it fails exactly when the line
      starts with `!`, with the missing-operand error at that `!`; otherwise
      it removes one node per `!`, leaves every `!` with one operand and
      every other node an input node, keeps the levels right and, when no
      `!` had children, the reading order. */
  lemma FactorialsMeaning(ns: seq<AstNode>, level: nat)
    ensures Factorials([], ns, level).Err? <==> |ns| > 0 && IsBang(ns[0])
    ensures Factorials([], ns, level).Err? ==>
      Factorials([], ns, level).error == NewP(SyntaxError, BangMissingLeftMsg, ns[0].token.position)
    ensures Factorials([], ns, level).Ok? ==>
      var out := Factorials([], ns, level).value;
      |out| == |ns| - Bangs(ns) && BangsFolded(out, ns) &&
      (BangsChildless(ns) ==> Reading(out) == Reading(ns)) &&
      (LevelNodes(ns, level) ==> LevelNodes(out, level))
  {
    if |ns| > 0 && !IsBang(ns[0]) {
      assert [] + [ns[0]] == [ns[0]];
      FactorialsStarted([ns[0]], ns[1..], level);
    }
    FactorialsCount([], ns, level);
    assert From(ns, ns);
    FactorialsShape([], ns, level, ns);
    if BangsChildless(ns) {
      FactorialsReading([], ns, level);
      assert [] + ns == ns;
    }
    if LevelNodes(ns, level) {
      FactorialsLevels([], ns, level);
    }
  }

  /** `x!!` reads as `(x!)!`. */
  lemma DoubleFactorial(x: AstNode, b1: AstNode, b2: AstNode, level: nat)
    requires !IsBang(x) && IsBang(b1) && IsBang(b2)
    ensures Factorials([], [x, b1, b2], level) == Ok([Fold(b2, [Fold(b1, [x], level)], level)])
  {
    var f := Fold(b1, [x], level);
    assert [x, b1, b2][1..] == [b1, b2] && [] + [x] == [x];
    assert [b1, b2][1..] == [b2] && [x][..0] + [f] == [f];
    assert [f][..0] + [Fold(b2, [f], level)] == [Fold(b2, [f], level)];
    assert Factorials([], [x, b1, b2], level) == Factorials([x], [b1, b2], level);
    assert Factorials([x], [b1, b2], level) == Factorials([f], [b2], level);
    assert [b2][1..] == [];
    assert Factorials([f], [b2], level) == Factorials([Fold(b2, [f], level)], [], level);
  }

  // ---------------------------------------------------------------------
  // What the prefix pass does

  /** The number of prefix operators, counted from the right. */
  function PrefixOps(ns: seq<AstNode>): nat
    decreases |ns|
  {
    if ns == [] then 0 else PrefixOps(ns[..|ns| - 1]) + (if IsPrefixOp(ns[|ns| - 1]) then 1 else 0)
  }

  /** Every prefix operator has one operand and every other node comes from `input`. */
  predicate PrefixFolded(ns: seq<AstNode>, input: seq<AstNode>)
  {
    forall k :: 0 <= k < |ns| ==> if IsPrefixOp(ns[k]) then |ns[k].subtree.nodes| == 1 else ns[k] in input
  }

  /** No prefix operator has children yet. */
  predicate PrefixChildless(ns: seq<AstNode>)
  {
    forall k :: 0 <= k < |ns| ==> IsPrefixOp(ns[k]) ==> !HasChildren(ns[k])
  }

  lemma FromFront(pre: seq<AstNode>, input: seq<AstNode>)
    requires pre != [] && From(pre, input)
    ensures pre[|pre| - 1] in input && From(pre[..|pre| - 1], input)
  {
    var front := pre[..|pre| - 1];
    forall k | 0 <= k < |front|
      ensures front[k] in input
    {
      assert front[k] == pre[k];
    }
  }

  lemma PrefixChildlessFront(pre: seq<AstNode>)
    requires pre != [] && PrefixChildless(pre)
    ensures (IsPrefixOp(pre[|pre| - 1]) ==> !HasChildren(pre[|pre| - 1])) && PrefixChildless(pre[..|pre| - 1])
  {
    var front := pre[..|pre| - 1];
    forall k | 0 <= k < |front| && IsPrefixOp(front[k])
      ensures !HasChildren(front[k])
    {
      assert front[k] == pre[k];
    }
  }

  /** Adding one node at the front. */
  lemma Cons(n: AstNode, ns: seq<AstNode>, level: nat)
    ensures Reading([n] + ns) == NodeReading(n) + Reading(ns)
    ensures LevelNodes([n] + ns, level) <==> NodeWellLeveled(n, level) && LevelNodes(ns, level)
  {
    ReadingAppend([n], ns);
    ReadingSingle(n);
    LevelNodesAppend([n], ns, level);
  }

  /** Once a node has been passed, the prefix pass cannot fail. */
  lemma {:induction false} UnariesStarted(pre: seq<AstNode>, suf: seq<AstNode>, level: nat)
    ensures suf != [] ==> Unaries(pre, suf, level).Ok?
    decreases |pre|
  {
    if pre != [] {
      var n := pre[|pre| - 1];
      if !IsPrefixOp(n) {
        UnariesStarted(pre[..|pre| - 1], [n] + suf, level);
      } else if suf != [] {
        UnariesStarted(pre[..|pre| - 1], [Fold(n, [suf[0]], level)] + suf[1..], level);
      }
    }
  }

  /** The pass removes one node per prefix operator. */
  lemma {:induction false} UnariesCount(pre: seq<AstNode>, suf: seq<AstNode>, level: nat)
    ensures Unaries(pre, suf, level).Ok? ==> |Unaries(pre, suf, level).value| + PrefixOps(pre) == |pre| + |suf|
    decreases |pre|
  {
    if pre != [] {
      var n := pre[|pre| - 1];
      if !IsPrefixOp(n) {
        UnariesCount(pre[..|pre| - 1], [n] + suf, level);
      } else if suf != [] {
        UnariesCount(pre[..|pre| - 1], [Fold(n, [suf[0]], level)] + suf[1..], level);
      }
    }
  }

  /** Every prefix operator of the result has one operand; every other node
      is an input node. */
  lemma {:induction false} UnariesShape(pre: seq<AstNode>, suf: seq<AstNode>, level: nat, input: seq<AstNode>)
    requires From(pre, input) && PrefixFolded(suf, input)
    ensures Unaries(pre, suf, level).Ok? ==> PrefixFolded(Unaries(pre, suf, level).value, input)
    decreases |pre|
  {
    if pre != [] {
      var n := pre[|pre| - 1];
      FromFront(pre, input);
      if !IsPrefixOp(n) {
        var s := [n] + suf;
        assert PrefixFolded(s, input) by {
          forall k | 0 <= k < |s|
            ensures if IsPrefixOp(s[k]) then |s[k].subtree.nodes| == 1 else s[k] in input
          {
            if k > 0 {
              assert s[k] == suf[k - 1];
            }
          }
        }
        UnariesShape(pre[..|pre| - 1], s, level, input);
      } else if suf != [] {
        var s := [Fold(n, [suf[0]], level)] + suf[1..];
        assert PrefixFolded(s, input) by {
          forall k | 0 <= k < |s|
            ensures if IsPrefixOp(s[k]) then |s[k].subtree.nodes| == 1 else s[k] in input
          {
            if k > 0 {
              assert s[k] == suf[k];
            }
          }
        }
        UnariesShape(pre[..|pre| - 1], s, level, input);
      }
    }
  }

  /** Folding a childless prefix operator around the first node passed keeps
      the reading. */
  lemma {:induction false} PrefixStepReading(pre: seq<AstNode>, f: AstNode, suf: seq<AstNode>)
    requires pre != [] && suf != []
    requires NodeReading(pre[|pre| - 1]) == [pre[|pre| - 1].token]
    requires NodeReading(f) == [pre[|pre| - 1].token] + NodeReading(suf[0])
    ensures Reading(pre[..|pre| - 1]) + Reading([f] + suf[1..]) == Reading(pre) + Reading(suf)
  {
    Cons(f, suf[1..], 0);
    SplitFirst(suf, 0);
    SplitLast(pre, 0);
  }

  /** Moving the last node of `pre` to the front of `suf` keeps the reading. */
  lemma {:induction false} MoveLastReading(pre: seq<AstNode>, suf: seq<AstNode>)
    requires pre != []
    ensures Reading(pre[..|pre| - 1]) + Reading([pre[|pre| - 1]] + suf) == Reading(pre) + Reading(suf)
  {
    Cons(pre[|pre| - 1], suf, 0);
    SplitLast(pre, 0);
  }

  /** With childless prefix operators to start with, the pass keeps the
      reading order. */
  lemma {:induction false} UnariesReading(pre: seq<AstNode>, suf: seq<AstNode>, level: nat)
    requires PrefixChildless(pre)
    ensures Unaries(pre, suf, level).Ok? ==> Reading(Unaries(pre, suf, level).value) == Reading(pre) + Reading(suf)
    decreases |pre|
  {
    if pre != [] {
      var n := pre[|pre| - 1];
      PrefixChildlessFront(pre);
      if !IsPrefixOp(n) {
        UnariesReading(pre[..|pre| - 1], [n] + suf, level);
        MoveLastReading(pre, suf);
      } else if suf != [] {
        var f := Fold(n, [suf[0]], level);
        UnariesReading(pre[..|pre| - 1], [f] + suf[1..], level);
        PrefixFoldReading(n, suf[0], level);
        ChildlessReading(n);
        PrefixStepReading(pre, f, suf);
      }
    } else {
      assert pre + suf == suf;
    }
  }

  /** The pass keeps the levels right. */
  lemma {:induction false} UnariesLevels(pre: seq<AstNode>, suf: seq<AstNode>, level: nat)
    requires LevelNodes(pre, level) && LevelNodes(suf, level)
    ensures Unaries(pre, suf, level).Ok? ==> LevelNodes(Unaries(pre, suf, level).value, level)
    decreases |pre|
  {
    if pre != [] {
      var n := pre[|pre| - 1];
      SplitLast(pre, level);
      if !IsPrefixOp(n) {
        Cons(n, suf, level);
        UnariesLevels(pre[..|pre| - 1], [n] + suf, level);
      } else if suf != [] {
        SplitFirst(suf, level);
        FoldLevel(n, [suf[0]], level);
        Cons(Fold(n, [suf[0]], level), suf[1..], level);
        UnariesLevels(pre[..|pre| - 1], [Fold(n, [suf[0]], level)] + suf[1..], level);
      }
    }
  }

  /** What the prefix pass does to a line: it fails exactly when the line
      ends with a prefix operator, with the missing-operand error at it;
      otherwise it removes one node per prefix operator, leaves every prefix
      operator with one operand and every other node an input node, keeps
      the levels right and, when no prefix operator had children, the
      reading order. */
  lemma UnariesMeaning(ns: seq<AstNode>, level: nat)
    ensures Unaries(ns, [], level).Err? <==> |ns| > 0 && IsPrefixOp(ns[|ns| - 1])
    ensures Unaries(ns, [], level).Err? ==>
      var n := ns[|ns| - 1];
      Unaries(ns, [], level).error == NewP(SyntaxError, UnaryMissingRightMsg(n.token.content), n.token.position)
    ensures Unaries(ns, [], level).Ok? ==>
      var out := Unaries(ns, [], level).value;
      |out| == |ns| - PrefixOps(ns) && PrefixFolded(out, ns) &&
      (PrefixChildless(ns) ==> Reading(out) == Reading(ns)) &&
      (LevelNodes(ns, level) ==> LevelNodes(out, level))
  {
    if |ns| > 0 && !IsPrefixOp(ns[|ns| - 1]) {
      assert [ns[|ns| - 1]] + [] == [ns[|ns| - 1]];
      UnariesStarted(ns[..|ns| - 1], [ns[|ns| - 1]], level);
    }
    UnariesCount(ns, [], level);
    assert From(ns, ns);
    UnariesShape(ns, [], level, ns);
    if PrefixChildless(ns) {
      UnariesReading(ns, [], level);
      assert ns + [] == ns;
    }
    if LevelNodes(ns, level) {
      UnariesLevels(ns, [], level);
    }
  }

  /** `- + x` reads as `-(+(x))`. */
  lemma NestedPrefixes(u1: AstNode, u2: AstNode, x: AstNode, level: nat)
    requires IsPrefixOp(u1) && IsPrefixOp(u2) && !IsPrefixOp(x)
    ensures Unaries([u1, u2, x], [], level) == Ok([Fold(u1, [Fold(u2, [x], level)], level)])
  {
    var f := Fold(u2, [x], level);
    assert [u1, u2, x][..2] == [u1, u2] && [x] + [] == [x];
    assert [u1, u2][..1] == [u1] && [x][1..] == [];
    assert [u1][..0] == [] && [f] + [] == [f] && [f][1..] == [];
    assert Unaries([u1, u2, x], [], level) == Unaries([u1, u2], [x], level);
    assert Unaries([u1, u2], [x], level) == Unaries([u1], [f], level);
    assert [Fold(u1, [f], level)] + [] == [Fold(u1, [f], level)];
    assert Unaries([u1], [f], level) == Unaries([], [Fold(u1, [f], level)], level);
  }

  // ---------------------------------------------------------------------
  // What one tier's pass does

  /** Every operator of the tier has two operands and every other node comes
      from `input`. */
  predicate InSetFolded(ns: seq<AstNode>, binops: seq<string>, input: seq<AstNode>)
  {
    forall k :: 0 <= k < |ns| ==> if InSet(ns[k], binops) then |ns[k].subtree.nodes| == 2 else ns[k] in input
  }

  /** No operator of the tier has children yet. */
  predicate InSetChildless(ns: seq<AstNode>, binops: seq<string>)
  {
    forall k :: 0 <= k < |ns| ==> InSet(ns[k], binops) ==> !HasChildren(ns[k])
  }

  /** No node is an operator of the tier. */
  predicate NoneInSet(ns: seq<AstNode>, binops: seq<string>)
  {
    forall k :: 0 <= k < |ns| ==> !InSet(ns[k], binops)
  }

  /** The error a tier's pass reports for one of the input's operators. */
  predicate MissingOperandError(e: Error, binops: seq<string>, input: seq<AstNode>)
  {
    exists n :: n in input && InSet(n, binops) &&
      (e == NewP(SyntaxError, BinaryMissingLeftMsg(n.token.content), n.token.position) ||
       e == NewP(SyntaxError, BinaryMissingRightMsg(n.token.content), n.token.position))
  }

  lemma InSetChildlessFront(pre: seq<AstNode>, binops: seq<string>)
    requires pre != [] && InSetChildless(pre, binops)
    ensures (InSet(pre[|pre| - 1], binops) ==> !HasChildren(pre[|pre| - 1])) && InSetChildless(pre[..|pre| - 1], binops)
  {
    var front := pre[..|pre| - 1];
    forall k | 0 <= k < |front| && InSet(front[k], binops)
      ensures !HasChildren(front[k])
    {
      assert front[k] == pre[k];
    }
  }

  lemma NoneInSetFront(pre: seq<AstNode>, binops: seq<string>)
    requires pre != [] && NoneInSet(pre, binops)
    ensures !InSet(pre[|pre| - 1], binops) && NoneInSet(pre[..|pre| - 1], binops)
  {
    var front := pre[..|pre| - 1];
    forall k | 0 <= k < |front|
      ensures !InSet(front[k], binops)
    {
      assert front[k] == pre[k];
    }
  }

  /** A line without operators of the tier passes unchanged. */
  lemma {:induction false} BinarySetNoOperator(pre: seq<AstNode>, suf: seq<AstNode>, binops: seq<string>, level: nat)
    requires NoneInSet(pre, binops)
    ensures BinarySet(pre, suf, binops, level) == Ok(pre + suf)
    decreases |pre|
  {
    if pre == [] {
      assert pre + suf == suf;
    } else {
      var m := |pre| - 1;
      NoneInSetFront(pre, binops);
      BinarySetNoOperator(pre[..m], [pre[m]] + suf, binops, level);
      assert pre[..m] + ([pre[m]] + suf) == pre + suf;
    }
  }

  /** Every error is a missing operand of an operator of the tier. */
  lemma {:induction false} BinarySetErrors(pre: seq<AstNode>, suf: seq<AstNode>, binops: seq<string>, level: nat, input: seq<AstNode>)
    requires From(pre, input)
    ensures BinarySet(pre, suf, binops, level).Err? ==> MissingOperandError(BinarySet(pre, suf, binops, level).error, binops, input)
    decreases |pre|
  {
    if pre != [] {
      var n := pre[|pre| - 1];
      var front := pre[..|pre| - 1];
      FromFront(pre, input);
      if !InSet(n, binops) {
        BinarySetErrors(front, [n] + suf, binops, level, input);
      } else if front != [] && suf != [] {
        FromFront(front, input);
        BinarySetErrors(front[..|front| - 1], [Fold(n, [front[|front| - 1], suf[0]], level)] + suf[1..], binops, level, input);
      }
    }
  }

  /** Every operator of the tier in the result has two operands; every
      other node is an input node. */
  lemma {:induction false} BinarySetShape(pre: seq<AstNode>, suf: seq<AstNode>, binops: seq<string>, level: nat, input: seq<AstNode>)
    requires From(pre, input) && InSetFolded(suf, binops, input)
    ensures BinarySet(pre, suf, binops, level).Ok? ==> InSetFolded(BinarySet(pre, suf, binops, level).value, binops, input)
    decreases |pre|
  {
    if pre != [] {
      var n := pre[|pre| - 1];
      var front := pre[..|pre| - 1];
      FromFront(pre, input);
      if !InSet(n, binops) {
        var s := [n] + suf;
        assert InSetFolded(s, binops, input) by {
          forall k | 0 <= k < |s|
            ensures if InSet(s[k], binops) then |s[k].subtree.nodes| == 2 else s[k] in input
          {
            if k > 0 {
              assert s[k] == suf[k - 1];
            }
          }
        }
        BinarySetShape(front, s, binops, level, input);
      } else if front != [] && suf != [] {
        FromFront(front, input);
        var s := [Fold(n, [front[|front| - 1], suf[0]], level)] + suf[1..];
        assert InSetFolded(s, binops, input) by {
          forall k | 0 <= k < |s|
            ensures if InSet(s[k], binops) then |s[k].subtree.nodes| == 2 else s[k] in input
          {
            if k > 0 {
              assert s[k] == suf[k];
            }
          }
        }
        BinarySetShape(front[..|front| - 1], s, binops, level, input);
      }
    }
  }

  /** Folding a childless operator around its two neighbours keeps the reading. */
  lemma {:induction false} BinaryStepReading(pre: seq<AstNode>, f: AstNode, suf: seq<AstNode>)
    requires |pre| >= 2 && suf != []
    requires NodeReading(pre[|pre| - 1]) == [pre[|pre| - 1].token]
    requires NodeReading(f) == NodeReading(pre[|pre| - 2]) + [pre[|pre| - 1].token] + NodeReading(suf[0])
    ensures Reading(pre[..|pre| - 2]) + Reading([f] + suf[1..]) == Reading(pre) + Reading(suf)
  {
    var front := pre[..|pre| - 1];
    assert front[..|front| - 1] == pre[..|pre| - 2] && front[|front| - 1] == pre[|pre| - 2];
    var a := Reading(pre[..|pre| - 2]);
    var l := NodeReading(pre[|pre| - 2]);
    var t := [pre[|pre| - 1].token];
    var x := NodeReading(suf[0]);
    var rest := Reading(suf[1..]);
    assert Reading(pre) == (a + l) + t by {
      SplitLast(pre, 0);
      SplitLast(front, 0);
    }
    assert Reading(suf) == x + rest by {
      SplitFirst(suf, 0);
    }
    assert Reading([f] + suf[1..]) == ((l + t) + x) + rest by {
      Cons(f, suf[1..], 0);
    }
    Regroup(a, l, t, x, rest);
  }

  lemma Regroup<T>(a: seq<T>, l: seq<T>, t: seq<T>, x: seq<T>, rest: seq<T>)
    ensures a + (((l + t) + x) + rest) == ((a + l) + t) + (x + rest)
  {
  }

  /** With childless operators of the tier to start with, the pass keeps
      the reading order. */
  lemma {:induction false} BinarySetReading(pre: seq<AstNode>, suf: seq<AstNode>, binops: seq<string>, level: nat)
    requires InSetChildless(pre, binops)
    ensures BinarySet(pre, suf, binops, level).Ok? ==>
      Reading(BinarySet(pre, suf, binops, level).value) == Reading(pre) + Reading(suf)
    decreases |pre|
  {
    if pre != [] {
      var n := pre[|pre| - 1];
      var front := pre[..|pre| - 1];
      InSetChildlessFront(pre, binops);
      if !InSet(n, binops) {
        BinarySetReading(front, [n] + suf, binops, level);
        MoveLastReading(pre, suf);
      } else if front != [] && suf != [] {
        InSetChildlessFront(front, binops);
        var l := front[|front| - 1];
        var f := Fold(n, [l, suf[0]], level);
        assert front[..|front| - 1] == pre[..|pre| - 2];
        BinarySetReading(front[..|front| - 1], [f] + suf[1..], binops, level);
        BinaryFoldReading(n, l, suf[0], level);
        ChildlessReading(n);
        BinaryStepReading(pre, f, suf);
      }
    } else {
      assert pre + suf == suf;
    }
  }

  /** The pass keeps the levels right. */
  lemma {:induction false} BinarySetLevels(pre: seq<AstNode>, suf: seq<AstNode>, binops: seq<string>, level: nat)
    requires LevelNodes(pre, level) && LevelNodes(suf, level)
    ensures BinarySet(pre, suf, binops, level).Ok? ==> LevelNodes(BinarySet(pre, suf, binops, level).value, level)
    decreases |pre|
  {
    if pre != [] {
      var n := pre[|pre| - 1];
      var front := pre[..|pre| - 1];
      SplitLast(pre, level);
      if !InSet(n, binops) {
        Cons(n, suf, level);
        BinarySetLevels(front, [n] + suf, binops, level);
      } else if front != [] && suf != [] {
        SplitLast(front, level);
        SplitFirst(suf, level);
        var f := Fold(n, [front[|front| - 1], suf[0]], level);
        FoldLevel(n, [front[|front| - 1], suf[0]], level);
        Cons(f, suf[1..], level);
        BinarySetLevels(front[..|front| - 1], [f] + suf[1..], binops, level);
      }
    }
  }

  /** What one tier's pass does to a line: a line without operators of the
      tier is left as it is; a line ending in one fails; every error is a
      missing operand of one of them; otherwise each of them in the result
      has two operands, every other node is an input node, the levels stay
      right and, when none had children, the reading order too. */
  lemma BinarySetMeaning(ns: seq<AstNode>, binops: seq<string>, level: nat)
    ensures NoneInSet(ns, binops) ==> BinarySet(ns, [], binops, level) == Ok(ns)
    ensures |ns| > 0 && InSet(ns[|ns| - 1], binops) ==>
      var n := ns[|ns| - 1];
      BinarySet(ns, [], binops, level) ==
        Err(NewP(SyntaxError, if |ns| == 1 then BinaryMissingLeftMsg(n.token.content) else BinaryMissingRightMsg(n.token.content), n.token.position))
    ensures BinarySet(ns, [], binops, level).Err? ==> MissingOperandError(BinarySet(ns, [], binops, level).error, binops, ns)
    ensures BinarySet(ns, [], binops, level).Ok? ==>
      var out := BinarySet(ns, [], binops, level).value;
      InSetFolded(out, binops, ns) &&
      (InSetChildless(ns, binops) ==> Reading(out) == Reading(ns)) &&
      (LevelNodes(ns, level) ==> LevelNodes(out, level))
  {
    if NoneInSet(ns, binops) {
      BinarySetNoOperator(ns, [], binops, level);
      assert ns + [] == ns;
    }
    assert From(ns, ns);
    BinarySetErrors(ns, [], binops, level, ns);
    BinarySetShape(ns, [], binops, level, ns);
    if InSetChildless(ns, binops) {
      BinarySetReading(ns, [], binops, level);
      assert ns + [] == ns;
    }
    if LevelNodes(ns, level) {
      BinarySetLevels(ns, [], binops, level);
    }
  }

  /** Within a tier the grouping is from the right: `a * b / c` reads as
      `a * (b / c)`. */
  lemma RightGrouping(a: AstNode, op1: AstNode, b: AstNode, op2: AstNode, c: AstNode, binops: seq<string>, level: nat)
    requires InSet(op1, binops) && InSet(op2, binops)
    requires !InSet(a, binops) && !InSet(b, binops) && !InSet(c, binops)
    ensures BinarySet([a, op1, b, op2, c], [], binops, level) == Ok([Fold(op1, [a, Fold(op2, [b, c], level)], level)])
  {
    var inner := Fold(op2, [b, c], level);
    var ns := [a, op1, b, op2, c];
    assert ns[..4] == [a, op1, b, op2] && [c] + [] == [c];
    assert BinarySet(ns, [], binops, level) == BinarySet([a, op1, b, op2], [c], binops, level);
    assert [a, op1, b, op2][..3] == [a, op1, b] && [a, op1, b][..2] == [a, op1] && [c][1..] == [];
    assert [inner] + [] == [inner];
    assert BinarySet([a, op1, b, op2], [c], binops, level) == BinarySet([a, op1], [inner], binops, level);
    assert [a, op1][..1] == [a] && [a][..0] == [] && [inner][1..] == [];
    assert [Fold(op1, [a, inner], level)] + [] == [Fold(op1, [a, inner], level)];
    assert BinarySet([a, op1], [inner], binops, level) == BinarySet([], [Fold(op1, [a, inner], level)], binops, level);
  }

  // ---------------------------------------------------------------------
  // What the binary pass does over all tiers

  /** A binary operator of one of the first `j` tiers. */
  predicate TierBelow(n: AstNode, j: int)
  {
    n.token.type_ == BinaryOperator && 0 <= TierIndex(n.token.content) < j
  }

  /** Every operator of the first `j` tiers has two operands and every other
      node comes from `input`. */
  predicate TiersFolded(ns: seq<AstNode>, j: int, input: seq<AstNode>)
  {
    forall k :: 0 <= k < |ns| ==> if TierBelow(ns[k], j) then |ns[k].subtree.nodes| == 2 else ns[k] in input
  }

  /** No binary operator of tier `j` or later has children yet. */
  predicate TiersChildless(ns: seq<AstNode>, j: int)
  {
    forall k :: 0 <= k < |ns| ==> ns[k].token.type_ == BinaryOperator && j <= TierIndex(ns[k].token.content) ==>
      !HasChildren(ns[k])
  }

  /** The error of some tier's pass. */
  predicate TierError(e: Error, input: seq<AstNode>)
  {
    exists i :: 0 <= i < |BinaryOperatorPrecedence| && MissingOperandError(e, BinaryOperatorPrecedence[i], input)
  }

  /** An operator is in tier `j` exactly when its tier index is `j`. */
  lemma InTier(n: AstNode, j: nat)
    requires j < |BinaryOperatorPrecedence|
    ensures InSet(n, BinaryOperatorPrecedence[j]) <==> n.token.type_ == BinaryOperator && TierIndex(n.token.content) == j
  {
    if InSet(n, BinaryOperatorPrecedence[j]) {
      TierIndexOfListed(j, n.token.content);
    }
    if n.token.type_ == BinaryOperator && TierIndex(n.token.content) == j {
      ListedOfTierIndex(n.token.content);
    }
  }

  lemma TiersTail(j: nat)
    requires j < |BinaryOperatorPrecedence|
    ensures BinaryOperatorPrecedence[j..][0] == BinaryOperatorPrecedence[j]
    ensures BinaryOperatorPrecedence[j..][1..] == BinaryOperatorPrecedence[j + 1..]
  {
  }

  /** The pass over the tiers from `j` on is tier `j`'s pass, then the rest. */
  lemma BinaryOpsUnfold(ns: seq<AstNode>, j: nat, level: nat)
    requires j < |BinaryOperatorPrecedence|
    ensures var r := BinarySet(ns, [], BinaryOperatorPrecedence[j], level);
      BinaryOps(ns, BinaryOperatorPrecedence[j..], level) ==
        if r.Err? then Err(r.error) else BinaryOps(r.value, BinaryOperatorPrecedence[j + 1..], level)
  {
    TiersTail(j);
  }

  /** One tier's pass takes the fold of the earlier tiers one tier further. */
  lemma TierShapeStep(ns: seq<AstNode>, j: nat, level: nat, input: seq<AstNode>)
    requires j < |BinaryOperatorPrecedence| && TiersFolded(ns, j, input)
    ensures var r := BinarySet(ns, [], BinaryOperatorPrecedence[j], level);
      (r.Ok? ==> TiersFolded(r.value, j + 1, input)) &&
      (r.Err? ==> MissingOperandError(r.error, BinaryOperatorPrecedence[j], input))
  {
    var tier := BinaryOperatorPrecedence[j];
    var r := BinarySet(ns, [], tier, level);
    BinarySetMeaning(ns, tier, level);
    if r.Ok? {
      var out := r.value;
      forall k | 0 <= k < |out|
        ensures if TierBelow(out[k], j + 1) then |out[k].subtree.nodes| == 2 else out[k] in input
      {
        InTier(out[k], j);
        if !InSet(out[k], tier) {
          var m :| 0 <= m < |ns| && ns[m] == out[k];
        }
      }
    } else {
      var n :| n in ns && InSet(n, tier) &&
        (r.error == NewP(SyntaxError, BinaryMissingLeftMsg(n.token.content), n.token.position) ||
         r.error == NewP(SyntaxError, BinaryMissingRightMsg(n.token.content), n.token.position));
      var m :| 0 <= m < |ns| && ns[m] == n;
      InTier(n, j);
      assert n in input;
    }
  }

  /** The tiers from `j` on: every error is a missing operand of an input
      operator; otherwise every operator of any tier has two operands and
      every other node is an input node. */
  lemma {:induction false} BinaryOpsShape(ns: seq<AstNode>, j: nat, level: nat, input: seq<AstNode>)
    requires j <= |BinaryOperatorPrecedence| && TiersFolded(ns, j, input)
    ensures var r := BinaryOps(ns, BinaryOperatorPrecedence[j..], level);
      (r.Ok? ==> TiersFolded(r.value, |BinaryOperatorPrecedence|, input)) &&
      (r.Err? ==> TierError(r.error, input))
    decreases |BinaryOperatorPrecedence| - j
  {
    if j < |BinaryOperatorPrecedence| {
      BinaryOpsUnfold(ns, j, level);
      TierShapeStep(ns, j, level, input);
      var r := BinarySet(ns, [], BinaryOperatorPrecedence[j], level);
      if r.Ok? {
        BinaryOpsShape(r.value, j + 1, level, input);
      }
    } else {
      assert BinaryOperatorPrecedence[j..] == [];
    }
  }

  /** One tier's pass keeps later tiers childless and the reading order. */
  lemma TierReadingStep(ns: seq<AstNode>, j: nat, level: nat)
    requires j < |BinaryOperatorPrecedence| && TiersChildless(ns, j)
    ensures var r := BinarySet(ns, [], BinaryOperatorPrecedence[j], level);
      r.Ok? ==> TiersChildless(r.value, j + 1) && Reading(r.value) == Reading(ns)
  {
    var tier := BinaryOperatorPrecedence[j];
    assert InSetChildless(ns, tier) by {
      forall k | 0 <= k < |ns| && InSet(ns[k], tier)
        ensures !HasChildren(ns[k])
      {
        InTier(ns[k], j);
      }
    }
    BinarySetMeaning(ns, tier, level);
    var r := BinarySet(ns, [], tier, level);
    if r.Ok? {
      var out := r.value;
      forall k | 0 <= k < |out| && out[k].token.type_ == BinaryOperator && j + 1 <= TierIndex(out[k].token.content)
        ensures !HasChildren(out[k])
      {
        InTier(out[k], j);
        var m :| 0 <= m < |ns| && ns[m] == out[k];
      }
    }
  }

  /** With the operators of the tiers from `j` on childless, the pass keeps
      the reading order. */
  lemma {:induction false} BinaryOpsReading(ns: seq<AstNode>, j: nat, level: nat)
    requires j <= |BinaryOperatorPrecedence| && TiersChildless(ns, j)
    ensures var r := BinaryOps(ns, BinaryOperatorPrecedence[j..], level);
      r.Ok? ==> Reading(r.value) == Reading(ns)
    decreases |BinaryOperatorPrecedence| - j
  {
    if j < |BinaryOperatorPrecedence| {
      BinaryOpsUnfold(ns, j, level);
      TierReadingStep(ns, j, level);
      var r := BinarySet(ns, [], BinaryOperatorPrecedence[j], level);
      if r.Ok? {
        BinaryOpsReading(r.value, j + 1, level);
      }
    } else {
      assert BinaryOperatorPrecedence[j..] == [];
    }
  }

  /** The pass over the tiers keeps the levels right. */
  lemma {:induction false} BinaryOpsLevels(ns: seq<AstNode>, tiers: seq<seq<string>>, level: nat)
    requires LevelNodes(ns, level)
    ensures BinaryOps(ns, tiers, level).Ok? ==> LevelNodes(BinaryOps(ns, tiers, level).value, level)
    decreases |tiers|
  {
    if tiers != [] {
      BinarySetMeaning(ns, tiers[0], level);
      var r := BinarySet(ns, [], tiers[0], level);
      if r.Ok? {
        BinaryOpsLevels(r.value, tiers[1..], level);
      }
    }
  }

  // ---------------------------------------------------------------------
  // What incorporate_operands does

  /** An operator node that folding has completed: `!` and the prefix
      operators with one operand, the binary operators with two. */
  predicate Complete(n: AstNode)
  {
    (IsBang(n) || IsPrefixOp(n) ==> |n.subtree.nodes| == 1) &&
    (n.token.type_ == BinaryOperator && TierIndex(n.token.content) >= 0 ==> |n.subtree.nodes| == 2)
  }

  /** No operator node has children yet: what the tokenizer leaves. */
  predicate OperatorsChildless(ns: seq<AstNode>)
  {
    forall k :: 0 <= k < |ns| ==>
      (IsBang(ns[k]) || IsPrefixOp(ns[k]) || ns[k].token.type_ == BinaryOperator) ==> !HasChildren(ns[k])
  }

  /** The nodes that are not operators come from `input`. */
  predicate OperandsFrom(ns: seq<AstNode>, input: seq<AstNode>)
  {
    forall k :: 0 <= k < |ns| ==>
      !IsBang(ns[k]) && !IsPrefixOp(ns[k]) && ns[k].token.type_ != BinaryOperator ==> ns[k] in input
  }

  /** The nodes after the `!` and prefix passes, traced back to the input. */
  lemma EarlyPassesTrace(ns: seq<AstNode>, a: seq<AstNode>, b: seq<AstNode>, level: nat)
    requires Factorials([], ns, level) == Ok(a) && Unaries(a, [], level) == Ok(b)
    ensures forall k :: 0 <= k < |b| ==>
      (IsBang(b[k]) || IsPrefixOp(b[k]) ==> |b[k].subtree.nodes| == 1) &&
      (!IsBang(b[k]) && !IsPrefixOp(b[k]) ==> b[k] in ns)
    ensures OperatorsChildless(ns) ==> TiersChildless(b, 0) && Reading(b) == Reading(ns)
  {
    FactorialsMeaning(ns, level);
    UnariesMeaning(a, level);
    forall k | 0 <= k < |b|
      ensures (IsBang(b[k]) || IsPrefixOp(b[k]) ==> |b[k].subtree.nodes| == 1) &&
        (!IsBang(b[k]) && !IsPrefixOp(b[k]) ==> b[k] in ns)
    {
      if !IsPrefixOp(b[k]) {
        var m :| 0 <= m < |a| && a[m] == b[k];
      }
    }
    if OperatorsChildless(ns) {
      assert BangsChildless(ns);
      assert PrefixChildless(a) by {
        forall k | 0 <= k < |a| && IsPrefixOp(a[k])
          ensures !HasChildren(a[k])
        {
          var m :| 0 <= m < |ns| && ns[m] == a[k];
        }
      }
      forall k | 0 <= k < |b| && b[k].token.type_ == BinaryOperator && 0 <= TierIndex(b[k].token.content)
        ensures !HasChildren(b[k])
      {
        var m :| 0 <= m < |ns| && ns[m] == b[k];
      }
    }
  }

  /** Every error of incorporate_operands is a syntax error. */
  lemma IncorporationErrors(ns: seq<AstNode>, level: nat)
    ensures Incorporation(ns, level).Err? ==> Incorporation(ns, level).error.kind == SyntaxError
  {
    FactorialsMeaning(ns, level);
    var fa := Factorials([], ns, level);
    if fa.Ok? {
      UnariesMeaning(fa.value, level);
      var un := Unaries(fa.value, [], level);
      if un.Ok? {
        var b := un.value;
        assert BinaryOperatorPrecedence[0..] == BinaryOperatorPrecedence;
        assert TiersFolded(b, 0, b);
        BinaryOpsShape(b, 0, level, b);
        var r := BinaryOps(b, BinaryOperatorPrecedence, level);
        if r.Err? {
          var i :| 0 <= i < |BinaryOperatorPrecedence| && MissingOperandError(r.error, BinaryOperatorPrecedence[i], b);
        }
      }
    }
  }

  /** The nodes the last pass leaves are complete, and the ones that are not
      operators come from before the first pass. */
  lemma CompleteAfterTiers(out: seq<AstNode>, b: seq<AstNode>, ns: seq<AstNode>)
    requires TiersFolded(out, |BinaryOperatorPrecedence|, b)
    requires forall k :: 0 <= k < |b| ==>
      (IsBang(b[k]) || IsPrefixOp(b[k]) ==> |b[k].subtree.nodes| == 1) &&
      (!IsBang(b[k]) && !IsPrefixOp(b[k]) ==> b[k] in ns)
    ensures forall k :: 0 <= k < |out| ==> Complete(out[k])
    ensures OperandsFrom(out, ns)
  {
    forall k | 0 <= k < |out|
      ensures Complete(out[k]) && (!IsBang(out[k]) && !IsPrefixOp(out[k]) && out[k].token.type_ != BinaryOperator ==> out[k] in ns)
    {
      if !TierBelow(out[k], |BinaryOperatorPrecedence|) {
        var m :| 0 <= m < |b| && b[m] == out[k];
        if out[k].token.type_ == BinaryOperator && TierIndex(out[k].token.content) >= 0 {
          ListedOfTierIndex(out[k].token.content);
        }
      }
    }
  }

  /** On success every operator left at the top of incorporate_operands'
      result has all its operands and every other node is an input node. */
  lemma IncorporationShape(ns: seq<AstNode>, level: nat)
    ensures Incorporation(ns, level).Ok? ==>
      var out := Incorporation(ns, level).value;
      (forall k :: 0 <= k < |out| ==> Complete(out[k])) && OperandsFrom(out, ns)
  {
    var fa := Factorials([], ns, level);
    if fa.Ok? {
      var un := Unaries(fa.value, [], level);
      if un.Ok? {
        var b := un.value;
        EarlyPassesTrace(ns, fa.value, b, level);
        assert BinaryOperatorPrecedence[0..] == BinaryOperatorPrecedence;
        assert TiersFolded(b, 0, b);
        BinaryOpsShape(b, 0, level, b);
        var r := BinaryOps(b, BinaryOperatorPrecedence, level);
        if r.Ok? {
          CompleteAfterTiers(r.value, b, ns);
        }
      }
    }
  }

  /** When no operator had children, incorporate_operands keeps the order
      in which the tokens read. */
  lemma IncorporationReading(ns: seq<AstNode>, level: nat)
    requires OperatorsChildless(ns)
    ensures Incorporation(ns, level).Ok? ==> Reading(Incorporation(ns, level).value) == Reading(ns)
  {
    var fa := Factorials([], ns, level);
    if fa.Ok? {
      var un := Unaries(fa.value, [], level);
      if un.Ok? {
        EarlyPassesTrace(ns, fa.value, un.value, level);
        assert BinaryOperatorPrecedence[0..] == BinaryOperatorPrecedence;
        BinaryOpsReading(un.value, 0, level);
      }
    }
  }

  /** incorporate_operands keeps the levels right. */
  lemma IncorporationLevels(ns: seq<AstNode>, level: nat)
    requires LevelNodes(ns, level)
    ensures Incorporation(ns, level).Ok? ==> LevelNodes(Incorporation(ns, level).value, level)
  {
    FactorialsMeaning(ns, level);
    var fa := Factorials([], ns, level);
    if fa.Ok? {
      UnariesMeaning(fa.value, level);
      var un := Unaries(fa.value, [], level);
      if un.Ok? {
        BinaryOpsLevels(un.value, BinaryOperatorPrecedence, level);
      }
    }
  }
}
