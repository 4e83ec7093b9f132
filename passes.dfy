/** The passes of the parser that adjust a token sequence before operands
    are folded in (parser.rs): resolving `+`/`-` to binary or unary,
    inserting the implicit `*` between juxtaposed values, and prepending the
    implicit `mem 0` call to a top-level line that starts with a binary
    operator or function. Each works on the nodes of one tree level. */
module Passes {
  import opened Outcomes
  import opened Errors
  import opened Tokens
  import opened Asts

  /** A `!` operator node. */
  predicate IsBang(n: AstNode)
  {
    n.token.type_ == UnaryOperator && n.token.content == "!"
  }

  /** A node that ends a value, so that what follows it has a left operand:
      `is_value` and `has_left_value`. */
  predicate EndsValue(n: AstNode)
  {
    match n.token.type_
    case UnaryOperator => n.token.content == "!"
    case Bitseq => true
    case Expression => true
    case Integer => true
    case Decimal => true
    case VariableIdentifier => true
    case _ => false
  }

  /** A node that starts a value, so that what precedes it has a right
      operand: `next_is_value`. */
  predicate StartsValue(n: AstNode)
  {
    match n.token.type_
    case UnaryOperator => n.token.content != "!"
    case Bitseq => true
    case Expression => true
    case Integer => true
    case Decimal => true
    case UnaryFunctionIdentifier => true
    case VariableIdentifier => true
    case _ => false
  }

  /** `has_right_value` of disambiguation: a value starts, or another
      ambiguous operator, which will resolve to a unary one. */
  predicate StartsOperand(n: AstNode)
  {
    n.token.type_ == AmbiguousOperator || StartsValue(n)
  }

  /** The node with its token retyped. */
  function Retyped(n: AstNode, ty: TokenType): (r: AstNode)
    ensures r.token.type_ == ty && r.token.content == n.token.content
    ensures r.token.position == n.token.position && r.subtree == n.subtree && r.value == n.value
  {
    n.(token := n.token.(type_ := ty))
  }

  // ---------------------------------------------------------------------
  // Disambiguation of `+` and `-`

  function BangAfterAmbiguousMsg(op: string): string
  {
    "Ambiguous operator '" + op + "' cannot precede unary operator '!'"
  }

  function UndisambiguableMsg(op: string): string
  {
    "Could not disambiguate ambiguous operator '" + op + "', consider using parentheses"
  }

  /** What the ambiguous operator at `i` becomes, reading its neighbours in
      `ns` as the loop of disambiguate_operators sees them. The first node of
      a top-level line counts as having a left value. */
  function ResolveAt(ns: seq<AstNode>, level: nat, i: nat): Result<TokenType, Error>
    requires i < |ns|
  {
    var op := ns[i].token;
    var hasLeft := if i < 1 then level == 0 else EndsValue(ns[i - 1]);
    if i + 1 < |ns| && IsBang(ns[i + 1]) then
      Err(NewP(SyntaxError, BangAfterAmbiguousMsg(op.content), op.position))
    else
      var hasRight := i + 1 < |ns| && StartsOperand(ns[i + 1]);
      if hasLeft && hasRight then Ok(BinaryOperator)
      else if !hasLeft && hasRight then Ok(UnaryOperator)
      else Err(NewP(SyntaxError, UndisambiguableMsg(op.content), op.position))
  }

  /** The nodes after disambiguation of those from `i` on, or its first error. */
  function Disambiguation(ns: seq<AstNode>, level: nat, i: nat): Result<seq<AstNode>, Error>
    requires i <= |ns|
    decreases |ns| - i
  {
    if i == |ns| then Ok(ns)
    else if ns[i].token.type_ != AmbiguousOperator then Disambiguation(ns, level, i + 1)
    else
      match ResolveAt(ns, level, i)
      case Err(e) => Err(e)
      case Ok(ty) => Disambiguation(ns[i := Retyped(ns[i], ty)], level, i + 1)
  }

  /** Parser::disambiguate_operators: retypes each ambiguous operator in
      place, left to right. */
  method DisambiguateOperators(t: Ast) returns (res: Result<(), Error>, r: Ast)
    ensures Disambiguation(t.nodes, t.level, 0).Ok? ==>
      res == Ok(()) && r == t.(nodes := Disambiguation(t.nodes, t.level, 0).value)
    ensures Disambiguation(t.nodes, t.level, 0).Err? ==>
      res == Err(Disambiguation(t.nodes, t.level, 0).error)
  {
    var nodes := t.nodes;
    var i := 0;
    while i < |nodes|
      invariant 0 <= i <= |nodes| == |t.nodes|
      invariant Disambiguation(t.nodes, t.level, 0) == Disambiguation(nodes, t.level, i)
      decreases |nodes| - i
    {
      if nodes[i].token.type_ == AmbiguousOperator {
        var op := nodes[i].token;
        var hasLeftValue: bool;
        if i < 1 {
          hasLeftValue := t.level == 0;
        } else {
          hasLeftValue := EndsValue(nodes[i - 1]);
        }
        var hasRightValue: bool;
        if i + 1 >= |nodes| {
          hasRightValue := false;
        } else {
          if IsBang(nodes[i + 1]) {
            res, r := Err(NewP(SyntaxError, BangAfterAmbiguousMsg(op.content), op.position)), t.(nodes := nodes);
            return;
          }
          hasRightValue := StartsOperand(nodes[i + 1]);
        }
        if hasLeftValue && hasRightValue {
          nodes := nodes[i := Retyped(nodes[i], BinaryOperator)];
        } else if !hasLeftValue && hasRightValue {
          nodes := nodes[i := Retyped(nodes[i], UnaryOperator)];
        } else {
          res, r := Err(NewP(SyntaxError, UndisambiguableMsg(op.content), op.position)), t.(nodes := nodes);
          return;
        }
      }
      i := i + 1;
    }
    res := Ok(());
    r := t.(nodes := nodes);
  }

  /** Ambiguous operator tokens are spelt `+` or `-`, never `!`; the
      tokenizer guarantees it. */
  predicate SignsOnly(ns: seq<AstNode>)
  {
    forall k :: 0 <= k < |ns| && ns[k].token.type_ == AmbiguousOperator ==> ns[k].token.content != "!"
  }

  /** The ambiguous operator at `k` cannot be resolved: nothing follows it
      that could start its right operand. */
  predicate Fails(ns: seq<AstNode>, k: nat)
  {
    k < |ns| && ns[k].token.type_ == AmbiguousOperator &&
    (k + 1 == |ns| || !StartsOperand(ns[k + 1]))
  }

  /** The error for an unresolvable operator: the `!` message when a `!`
      follows it, the general one otherwise, at the operator. */
  function FailureError(ns: seq<AstNode>, k: nat): Error
    requires k < |ns|
  {
    var op := ns[k].token;
    NewP(SyntaxError,
      if k + 1 < |ns| && IsBang(ns[k + 1]) then BangAfterAmbiguousMsg(op.content)
      else UndisambiguableMsg(op.content),
      op.position)
  }

  /** Whether the operator at `k` has a left value: a top-level first node,
      or a value ending just before it. */
  predicate HasLeftValue(ns: seq<AstNode>, level: nat, k: nat)
    requires k < |ns|
  {
    if k == 0 then level == 0 else EndsValue(ns[k - 1])
  }

  /** What disambiguation makes of the node at `k`. */
  function Expected(ns: seq<AstNode>, level: nat, k: nat): AstNode
    requires k < |ns|
  {
    if ns[k].token.type_ != AmbiguousOperator then ns[k]
    else Retyped(ns[k], if HasLeftValue(ns, level, k) then BinaryOperator else UnaryOperator)
  }

  /** A resolved sign ends a value exactly when the original node does (not at all). */
  lemma ExpectedEndsValue(ns: seq<AstNode>, level: nat, k: nat)
    requires k < |ns| && SignsOnly(ns)
    ensures EndsValue(Expected(ns, level, k)) == EndsValue(ns[k])
  {
  }

  /** The loop of disambiguation, from `i` on, when the nodes before `i`
      are already resolved. */
  lemma DisambiguationFrom(ns: seq<AstNode>, cur: seq<AstNode>, level: nat, i: nat)
    requires SignsOnly(ns) && i <= |ns| == |cur|
    requires forall j :: i <= j < |ns| ==> cur[j] == ns[j]
    requires forall j :: 0 <= j < i ==> cur[j] == Expected(ns, level, j) && !Fails(ns, j)
    ensures Disambiguation(cur, level, i).Ok? <==> forall k :: i <= k < |ns| ==> !Fails(ns, k)
    ensures Disambiguation(cur, level, i).Ok? ==>
      var out := Disambiguation(cur, level, i).value;
      |out| == |ns| && forall k :: 0 <= k < |ns| ==> out[k] == Expected(ns, level, k)
    ensures Disambiguation(cur, level, i).Err? ==>
      exists k :: i <= k < |ns| && Fails(ns, k) && (forall j :: i <= j < k ==> !Fails(ns, j)) &&
        Disambiguation(cur, level, i).error == FailureError(ns, k)
  {
    DisambiguationOkFrom(ns, cur, level, i);
    DisambiguationErrFrom(ns, cur, level, i);
  }

  /** The successful half: it succeeds exactly when no operator from `i` on
      fails, and then every node is the expected one. */
  lemma {:induction false} DisambiguationOkFrom(ns: seq<AstNode>, cur: seq<AstNode>, level: nat, i: nat)
    requires SignsOnly(ns) && i <= |ns| == |cur|
    requires forall j :: i <= j < |ns| ==> cur[j] == ns[j]
    requires forall j :: 0 <= j < i ==> cur[j] == Expected(ns, level, j) && !Fails(ns, j)
    ensures Disambiguation(cur, level, i).Ok? <==> forall k :: i <= k < |ns| ==> !Fails(ns, k)
    ensures Disambiguation(cur, level, i).Ok? ==>
      var out := Disambiguation(cur, level, i).value;
      |out| == |ns| && forall k :: 0 <= k < |ns| ==> out[k] == Expected(ns, level, k)
    decreases |ns| - i
  {
    if i == |ns| {
      return;
    }
    if i > 0 {
      ExpectedEndsValue(ns, level, i - 1);
    }
    if ns[i].token.type_ != AmbiguousOperator {
      DisambiguationOkFrom(ns, cur, level, i + 1);
    } else {
      var r := ResolveAt(cur, level, i);
      if r.Err? {
        assert Fails(ns, i);
      } else {
        assert !Fails(ns, i);
        var cur' := cur[i := Retyped(cur[i], r.value)];
        assert cur'[i] == Expected(ns, level, i);
        DisambiguationOkFrom(ns, cur', level, i + 1);
      }
    }
  }

  /** The failing half: the error is that of the first operator that fails. */
  lemma {:induction false} DisambiguationErrFrom(ns: seq<AstNode>, cur: seq<AstNode>, level: nat, i: nat)
    requires SignsOnly(ns) && i <= |ns| == |cur|
    requires forall j :: i <= j < |ns| ==> cur[j] == ns[j]
    requires forall j :: 0 <= j < i ==> cur[j] == Expected(ns, level, j) && !Fails(ns, j)
    ensures Disambiguation(cur, level, i).Err? ==>
      exists k :: i <= k < |ns| && Fails(ns, k) && (forall j :: i <= j < k ==> !Fails(ns, j)) &&
        Disambiguation(cur, level, i).error == FailureError(ns, k)
    decreases |ns| - i
  {
    if i == |ns| {
      return;
    }
    if i > 0 {
      ExpectedEndsValue(ns, level, i - 1);
    }
    if ns[i].token.type_ != AmbiguousOperator {
      DisambiguationErrFrom(ns, cur, level, i + 1);
    } else {
      var r := ResolveAt(cur, level, i);
      if r.Err? {
        assert Fails(ns, i);
        assert r.error == FailureError(ns, i);
      } else {
        assert !Fails(ns, i);
        var cur' := cur[i := Retyped(cur[i], r.value)];
        assert cur'[i] == Expected(ns, level, i);
        DisambiguationErrFrom(ns, cur', level, i + 1);
      }
    }
  }

  /** Disambiguation succeeds exactly when every ambiguous operator is
      followed by something that starts an operand. Each then becomes binary
      when it has a left value and unary when it has not, and every other
      node is kept; otherwise the error names the first operator that
      fails. */
  lemma DisambiguationMeaning(ns: seq<AstNode>, level: nat)
    requires SignsOnly(ns)
    ensures Disambiguation(ns, level, 0).Ok? <==> forall k :: 0 <= k < |ns| ==> !Fails(ns, k)
    ensures Disambiguation(ns, level, 0).Ok? ==>
      var out := Disambiguation(ns, level, 0).value;
      |out| == |ns| && forall k :: 0 <= k < |ns| ==> out[k] == Expected(ns, level, k)
    ensures Disambiguation(ns, level, 0).Err? ==>
      exists k :: 0 <= k < |ns| && Fails(ns, k) && (forall j :: 0 <= j < k ==> !Fails(ns, j)) &&
        Disambiguation(ns, level, 0).error == FailureError(ns, k)
  {
    DisambiguationFrom(ns, ns, level, 0);
  }

  /** After disambiguation no ambiguous operator is left. */
  lemma NoAmbiguousLeft(ns: seq<AstNode>, level: nat)
    requires SignsOnly(ns)
    requires Disambiguation(ns, level, 0).Ok?
    ensures forall k :: 0 <= k < |Disambiguation(ns, level, 0).value| ==>
      Disambiguation(ns, level, 0).value[k].token.type_ != AmbiguousOperator
  {
    DisambiguationMeaning(ns, level);
  }

  /** Disambiguation only retypes tokens: the nodes keep their spelling,
      position, subtree and value. */
  lemma {:induction false} DisambiguationRetypesOnly(ns: seq<AstNode>, level: nat, i: nat)
    requires i <= |ns|
    ensures Disambiguation(ns, level, i).Ok? ==>
      var out := Disambiguation(ns, level, i).value;
      |out| == |ns| && forall k :: 0 <= k < |ns| ==>
        out[k].token.content == ns[k].token.content && out[k].token.position == ns[k].token.position &&
        out[k].token.implicit == ns[k].token.implicit &&
        out[k].subtree == ns[k].subtree && out[k].value == ns[k].value
    decreases |ns| - i
  {
    if i < |ns| {
      if ns[i].token.type_ != AmbiguousOperator {
        DisambiguationRetypesOnly(ns, level, i + 1);
      } else if ResolveAt(ns, level, i).Ok? {
        DisambiguationRetypesOnly(ns[i := Retyped(ns[i], ResolveAt(ns, level, i).value)], level, i + 1);
      }
    }
  }

  /** Every disambiguation error is a syntax error. */
  lemma {:induction false} DisambiguationErrors(ns: seq<AstNode>, level: nat, i: nat)
    requires i <= |ns|
    ensures Disambiguation(ns, level, i).Err? ==> Disambiguation(ns, level, i).error.kind == SyntaxError
    decreases |ns| - i
  {
    if i < |ns| {
      if ns[i].token.type_ != AmbiguousOperator {
        DisambiguationErrors(ns, level, i + 1);
      } else if ResolveAt(ns, level, i).Ok? {
        DisambiguationErrors(ns[i := Retyped(ns[i], ResolveAt(ns, level, i).value)], level, i + 1);
      }
    }
  }

  /** Disambiguation keeps a well-levelled tree well levelled. */
  lemma DisambiguationKeepsLevels(t: Ast)
    requires WellLeveled(t) && Disambiguation(t.nodes, t.level, 0).Ok?
    ensures WellLeveled(t.(nodes := Disambiguation(t.nodes, t.level, 0).value))
  {
    DisambiguationRetypesOnly(t.nodes, t.level, 0);
    var r := t.(nodes := Disambiguation(t.nodes, t.level, 0).value);
    forall k | 0 <= k < |r.nodes|
      ensures NodeWellLeveled(r.nodes[k], r.level)
    {
      assert NodeWellLeveled(t.nodes[k], t.level);
    }
  }

  // ---------------------------------------------------------------------
  // Implicit multiplication

  /** A value ends right before another starts: `2x`, `3(4)`, `x sin y`. */
  predicate Juxtaposed(a: AstNode, b: AstNode)
  {
    EndsValue(a) && StartsValue(b)
  }

  /** The implicit `*` inserted before `n`: a binary operator at `n`'s position. */
  function ImplicitStar(n: AstNode): (s: AstNode)
    ensures s.token.type_ == BinaryOperator && s.token.implicit && !HasChildren(s)
  {
    NewFromToken(NewImplicit(BinaryOperator, "*", n.token.position))
  }

  /** The nodes with an implicit `*` between each juxtaposed pair. */
  function ImplicitMuls(ns: seq<AstNode>): (r: seq<AstNode>)
    ensures |r| >= |ns| && (|ns| > 0 ==> r[0] == ns[0])
    decreases |ns|
  {
    if |ns| < 2 then ns
    else if Juxtaposed(ns[0], ns[1]) then [ns[0], ImplicitStar(ns[1])] + ImplicitMuls(ns[1..])
    else [ns[0]] + ImplicitMuls(ns[1..])
  }

  /** The loop of expose_implicit_multiplications at a juxtaposed pair. */
  lemma ImplicitMulInserted(ns: seq<AstNode>, i: nat)
    requires i + 1 < |ns| && Juxtaposed(ns[i], ns[i + 1])
    ensures var ms := ns[..i + 1] + [ImplicitStar(ns[i + 1])] + ns[i + 1..];
      ns[..i] + ImplicitMuls(ns[i..]) == ms[..i + 2] + ImplicitMuls(ms[i + 2..])
  {
    var ms := ns[..i + 1] + [ImplicitStar(ns[i + 1])] + ns[i + 1..];
    assert ns[i..][1..] == ns[i + 1..];
    assert ms[..i + 2] == ns[..i] + [ns[i], ImplicitStar(ns[i + 1])];
    assert ms[i + 2..] == ns[i + 1..];
  }

  /** The loop of expose_implicit_multiplications past a pair that is not juxtaposed. */
  lemma ImplicitMulSkipped(ns: seq<AstNode>, i: nat)
    requires i + 1 < |ns| && !Juxtaposed(ns[i], ns[i + 1])
    ensures ns[..i] + ImplicitMuls(ns[i..]) == ns[..i + 1] + ImplicitMuls(ns[i + 1..])
  {
    assert ns[i..][1..] == ns[i + 1..];
    assert ns[..i + 1] == ns[..i] + [ns[i]];
  }

  /** Parser::expose_implicit_multiplications: inserts the implicit `*`
      nodes in place, left to right, stepping over each one inserted. It
      never fails. */
  method ExposeImplicitMultiplications(t: Ast) returns (res: Result<(), Error>, r: Ast)
    ensures res == Ok(()) && r == t.(nodes := ImplicitMuls(t.nodes))
  {
    var nodes := t.nodes;
    var i := 0;
    while i + 1 < |nodes|
      invariant i <= |nodes|
      invariant nodes[..i] + ImplicitMuls(nodes[i..]) == ImplicitMuls(t.nodes)
      decreases |nodes| - i
    {
      var isValue := EndsValue(nodes[i]);
      var nextIsValue := StartsValue(nodes[i + 1]);
      if isValue && nextIsValue {
        var token := NewImplicit(BinaryOperator, "*", nodes[i + 1].token.position);
        ImplicitMulInserted(nodes, i);
        nodes := nodes[..i + 1] + [NewFromToken(token)] + nodes[i + 1..];
        i := i + 1;
      } else {
        ImplicitMulSkipped(nodes, i);
      }
      i := i + 1;
    }
    assert nodes[..i] + nodes[i..] == nodes;
    res := Ok(());
    r := t.(nodes := nodes);
  }

  /** No node is implicit. */
  predicate NoImplicit(ns: seq<AstNode>)
  {
    forall k :: 0 <= k < |ns| ==> !ns[k].token.implicit
  }

  /** The nodes that are not implicit, in order. */
  function Explicit(ns: seq<AstNode>): (r: seq<AstNode>)
    ensures |r| <= |ns|
  {
    if ns == [] then []
    else (if ns[0].token.implicit then [] else [ns[0]]) + Explicit(ns[1..])
  }

  /** The insertion adds nothing but implicit `*` nodes and keeps every
      other node in its order: erasing the implicit nodes gives back the
      input. */
  lemma {:induction false} ImplicitMulsErase(ns: seq<AstNode>)
    requires NoImplicit(ns)
    ensures Explicit(ImplicitMuls(ns)) == ns
    decreases |ns|
  {
    if |ns| >= 2 {
      var rest := ImplicitMuls(ns[1..]);
      ImplicitMulsErase(ns[1..]);
      if Juxtaposed(ns[0], ns[1]) {
        var out := [ns[0], ImplicitStar(ns[1])] + rest;
        assert out[1..] == [ImplicitStar(ns[1])] + rest;
        assert out[1..][1..] == rest;
      } else {
        assert ([ns[0]] + rest)[1..] == rest;
      }
    } else if |ns| == 1 {
      assert ns[1..] == [];
    }
  }

  /** Every node of the result is a node of the input or an implicit,
      childless binary `*`. */
  lemma {:induction false} ImplicitMulsAddsStars(ns: seq<AstNode>)
    ensures forall k :: 0 <= k < |ImplicitMuls(ns)| ==>
      ImplicitMuls(ns)[k] in ns ||
      (ImplicitMuls(ns)[k].token.type_ == BinaryOperator && ImplicitMuls(ns)[k].token.content == "*" &&
       ImplicitMuls(ns)[k].token.implicit && !HasChildren(ImplicitMuls(ns)[k]))
    decreases |ns|
  {
    if |ns| >= 2 {
      ImplicitMulsAddsStars(ns[1..]);
      var rest := ImplicitMuls(ns[1..]);
      var out := ImplicitMuls(ns);
      forall k | 0 <= k < |out|
        ensures out[k] in ns ||
          (out[k].token.type_ == BinaryOperator && out[k].token.content == "*" && out[k].token.implicit && !HasChildren(out[k]))
      {
        if Juxtaposed(ns[0], ns[1]) {
          if k >= 2 {
            assert out[k] == rest[k - 2];
          }
        } else if k >= 1 {
          assert out[k] == rest[k - 1];
        }
      }
    }
  }

  /** No two neighbours are juxtaposed. */
  predicate NoJuxtaposed(ns: seq<AstNode>)
  {
    forall k :: 0 <= k < |ns| - 1 ==> !Juxtaposed(ns[k], ns[k + 1])
  }

  /** Each implicit node is the `*` for the node after it and sits between
      two juxtaposed ones. */
  predicate StarsPlaced(ns: seq<AstNode>)
  {
    forall k :: 0 <= k < |ns| && ns[k].token.implicit ==>
      0 < k < |ns| - 1 && ns[k] == ImplicitStar(ns[k + 1]) && Juxtaposed(ns[k - 1], ns[k + 1])
  }

  /** Between every two neighbours of the result at least one is not a value
      boundary: no juxtaposed pair is left. */
  lemma {:induction false} NoJuxtaposedLeft(ns: seq<AstNode>)
    ensures NoJuxtaposed(ImplicitMuls(ns))
    decreases |ns|
  {
    if |ns| >= 2 {
      NoJuxtaposedLeft(ns[1..]);
      var rest := ImplicitMuls(ns[1..]);
      assert NoJuxtaposed(rest);
      var out := ImplicitMuls(ns);
      assert rest[0] == ns[1..][0] == ns[1];
      forall k | 0 <= k < |out| - 1
        ensures !Juxtaposed(out[k], out[k + 1])
      {
        if Juxtaposed(ns[0], ns[1]) {
          assert out == [ns[0], ImplicitStar(ns[1])] + rest;
          if k >= 2 {
            assert out[k] == rest[k - 2] && out[k + 1] == rest[k - 1];
            assert !Juxtaposed(rest[k - 2], rest[k - 1]);
          } else if k == 1 {
            assert out[1].token.type_ == BinaryOperator;
            assert !EndsValue(out[1]);
          } else {
            assert out[1].token.type_ == BinaryOperator;
            assert !StartsValue(out[1]);
          }
        } else {
          assert out == [ns[0]] + rest;
          if k >= 1 {
            assert out[k] == rest[k - 1] && out[k + 1] == rest[k];
            assert !Juxtaposed(rest[k - 1], rest[k]);
          } else {
            assert out[1] == ns[1];
          }
        }
      }
    }
  }

  /** Each implicit node of the result is the `*` for the node after it and
      sits between two juxtaposed ones. */
  lemma {:induction false} StarsBetweenJuxtaposed(ns: seq<AstNode>)
    requires NoImplicit(ns)
    ensures StarsPlaced(ImplicitMuls(ns))
    decreases |ns|
  {
    if |ns| >= 2 {
      assert NoImplicit(ns[1..]) by {
        forall k | 0 <= k < |ns[1..]|
          ensures !ns[1..][k].token.implicit
        {
          assert ns[1..][k] == ns[k + 1];
        }
      }
      StarsBetweenJuxtaposed(ns[1..]);
      var rest := ImplicitMuls(ns[1..]);
      assert StarsPlaced(rest);
      var out := ImplicitMuls(ns);
      assert rest[0] == ns[1..][0] == ns[1];
      forall k | 0 <= k < |out| && out[k].token.implicit
        ensures 0 < k < |out| - 1 && out[k] == ImplicitStar(out[k + 1]) && Juxtaposed(out[k - 1], out[k + 1])
      {
        if Juxtaposed(ns[0], ns[1]) {
          assert out == [ns[0], ImplicitStar(ns[1])] + rest;
          if k >= 2 {
            assert out[k] == rest[k - 2];
            assert k >= 3 && out[k + 1] == rest[k - 1] && out[k - 1] == rest[k - 3];
          }
        } else {
          assert out == [ns[0]] + rest;
          assert k >= 1;
          assert out[k] == rest[k - 1];
          assert k >= 2 && out[k - 1] == rest[k - 2];
        }
      }
    }
  }

  /** The number of juxtaposed neighbouring pairs. */
  function JuxtaposedPairs(ns: seq<AstNode>): nat
    decreases |ns|
  {
    if |ns| < 2 then 0 else (if Juxtaposed(ns[0], ns[1]) then 1 else 0) + JuxtaposedPairs(ns[1..])
  }

  /** One `*` is inserted per juxtaposed pair. */
  lemma {:induction false} ImplicitMulsLength(ns: seq<AstNode>)
    ensures |ImplicitMuls(ns)| == |ns| + JuxtaposedPairs(ns)
    decreases |ns|
  {
    if |ns| >= 2 {
      ImplicitMulsLength(ns[1..]);
    }
  }

  /** Inserting childless nodes keeps a well-levelled tree well levelled. */
  lemma {:induction false} ImplicitMulsKeepsLevels(ns: seq<AstNode>, level: nat)
    requires WellLeveled(Ast(ns, level))
    ensures WellLeveled(Ast(ImplicitMuls(ns), level))
    decreases |ns|
  {
    if |ns| >= 2 {
      assert WellLeveled(Ast(ns[1..], level)) by {
        forall k | 0 <= k < |ns[1..]|
          ensures NodeWellLeveled(ns[1..][k], level)
        {
          assert ns[1..][k] == ns[k + 1];
          assert NodeWellLeveled(ns[k + 1], level);
        }
      }
      ImplicitMulsKeepsLevels(ns[1..], level);
      var rest := ImplicitMuls(ns[1..]);
      var out := ImplicitMuls(ns);
      forall k | 0 <= k < |out|
        ensures NodeWellLeveled(out[k], level)
      {
        assert NodeWellLeveled(ns[0], level);
        if Juxtaposed(ns[0], ns[1]) {
          assert out == [ns[0], ImplicitStar(ns[1])] + rest;
          if k >= 2 {
            assert out[k] == rest[k - 2];
          }
        } else if k >= 1 {
          assert out[k] == rest[k - 1];
        }
      }
    }
  }

  // ---------------------------------------------------------------------
  // The implicit `mem 0` call

  /** The node of the generated `mem 0` call, its expression subtree at level
      `a` and the argument subtree of `mem` at level `b`. */
  function Mem0CallAt(p: InputPosition, a: nat, b: nat): AstNode
  {
    NewWithSubtree(NewImplicit(Expression, "(mem 0)", p),
      Ast([NewWithSubtree(NewImplicit(UnaryFunctionIdentifier, "mem", p),
                          Ast([NewFromToken(NewImplicit(Integer, "0", p))], b))], a))
  }

  /** The prepended node: an implicit Expression `(mem 0)` whose one child is
      the function `mem` applied to the Integer `0`, levelled for the top of
      a tree. */
  function Mem0Call(p: InputPosition): AstNode
  {
    Mem0CallAt(p, 1, 2)
  }

  /** Parser::_generate_mem0_call: builds the node from the inside out. */
  method GenerateMem0Call(p: InputPosition) returns (n: AstNode)
    ensures n == Mem0CallAt(p, 0, 0)
  {
    var zero := NewFromToken(NewImplicit(Integer, "0", p));
    var argument := FromNode(zero);
    var mem := NewWithSubtree(NewImplicit(UnaryFunctionIdentifier, "mem", p), argument);
    var call := FromNode(mem);
    assert RelevelNodes([zero], 1) == [zero];
    n := NewWithSubtree(NewImplicit(Expression, "(mem 0)", p), call);
  }

  /** The line gets the call when it is at the top level and starts with a
      binary operator or a binary function. */
  predicate NeedsMem0(t: Ast)
  {
    t.level == 0 && |t.nodes| >= 1 && IsBinary(t.nodes[0].token.type_)
  }

  /** Parser::expose_implicit_mem0_call: prepends the `mem 0` call, relevelled
      below the tree, when the line needs it, and otherwise changes nothing.
      It never fails. */
  method ExposeImplicitMem0Call(t: Ast) returns (res: Result<(), Error>, r: Ast)
    ensures res == Ok(())
    ensures r == if NeedsMem0(t) then t.(nodes := [Mem0Call(t.nodes[0].token.position)] + t.nodes) else t
  {
    res := Ok(());
    if t.level > 0 || |t.nodes| < 1 {
      return res, t;
    }
    r := t;
    if t.nodes[0].token.type_ == BinaryFunctionIdentifier || t.nodes[0].token.type_ == BinaryOperator {
      var position := t.nodes[0].token.position;
      var call := GenerateMem0Call(position);
      var nodes := [call] + t.nodes;
      if HasChildren(nodes[0]) {
        var sub := RelevelFrom(nodes[0].subtree, t.level + 1);
        Mem0CallRelevelled(position);
        nodes := nodes[0 := nodes[0].(subtree := sub)];
      }
      r := t.(nodes := nodes);
    }
  }

  /** Relevelling the built call's expression subtree below the top level
      gives the prepended node. */
  lemma Mem0CallRelevelled(p: InputPosition)
    ensures Mem0CallAt(p, 0, 0).(subtree := Relevel(Mem0CallAt(p, 0, 0).subtree, 1)) == Mem0Call(p)
  {
    var zero := NewFromToken(NewImplicit(Integer, "0", p));
    var mem := NewWithSubtree(NewImplicit(UnaryFunctionIdentifier, "mem", p), Ast([zero], 0));
    assert RelevelNodes([zero], 3) == [zero];
    assert RelevelNode(mem, 2) == mem.(subtree := Ast([zero], 2));
    assert RelevelNodes([mem], 2) == [RelevelNode(mem, 2)];
  }

  /** The generated call respects the nesting invariant at the top level. */
  lemma Mem0CallIsWellLeveled(p: InputPosition)
    ensures NodeWellLeveled(Mem0Call(p), 0)
  {
    var mem := Mem0Call(p).subtree.nodes[0];
    assert NodeWellLeveled(mem.subtree.nodes[0], 2);
    assert NodeWellLeveled(mem, 1);
  }

  /** Prepending the call keeps a well-levelled tree well levelled. */
  lemma Mem0KeepsLevels(t: Ast)
    requires WellLeveled(t) && NeedsMem0(t)
    ensures WellLeveled(t.(nodes := [Mem0Call(t.nodes[0].token.position)] + t.nodes))
  {
    var r := t.(nodes := [Mem0Call(t.nodes[0].token.position)] + t.nodes);
    Mem0CallIsWellLeveled(t.nodes[0].token.position);
    forall k | 0 <= k < |r.nodes|
      ensures NodeWellLeveled(r.nodes[k], r.level)
    {
      if k > 0 {
        assert r.nodes[k] == t.nodes[k - 1];
      }
    }
  }
}
