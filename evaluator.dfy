/** The evaluator (evaluator.rs): a post-order walk over a parsed tree that
    attaches a value to every node it evaluates. A node that already has a
    value is left alone; a numeral is read with Value::from_str, a variable
    is looked up in the store; an operator or function node has its
    children evaluated first, left to right, and then its arity checked and
    its value computed. The trees are values here: a walk returns the tree
    it leaves behind together with how it ended. */
module Evaluator {
  import opened Outcomes
  import opened Errors
  import opened Tokens
  import opened Asts
  import Patterns
  import Values

  /** The functions the evaluator calls that are not part of this model:
      the reading of a decimal numeral as an `f64` (used by
      Value::from_str), and the unary functions `abs` and `sin`, which
      values.rs does not define. `sin` answers None where the Rust code's
      `unwrap` would panic. */
  datatype Builtins = Builtins(
    decimalOf: (string, nat) -> Option<real>,
    abs: Values.Value -> Values.Value,
    sin: Values.Value -> Option<Values.Value>)

  /** How a walk ended, and the tree (or the nodes) it leaves behind. */
  datatype Evaluated<T> = Evaluated(status: Outcome<(), Error>, out: T)

  const Success: Outcome<(), Error> := Returned(Ok(()))

  function UndefinedVariableMsg(id: string): string { "The variable \"" + id + "\" is undefined" }

  function UndefinedOperatorMsg(op: string): string { "The operator \"" + op + "\" is undefined" }

  function UndefinedFunctionMsg(f: string): string { "The function \"" + f + "\" is undefined" }

  const ChildlessPanic: string := "Attempting to evaluate child-less non-terminal AstNode"
  const UnwrapNonePanic: string := "called `Option::unwrap()` on a `None` value"
  const UnwrapErrPanic: string := "called `Result::unwrap()` on an `Err` value"
  const TodoPanic: string := "not yet implemented"

  /** The decimal spelling of a count, as `{}` formats it. */
  function DecimalCount(k: nat): (s: string)
    ensures |s| >= 1
    decreases k
  {
    var digit := "0123456789"[k % 10];
    if k < 10 then [digit] else DecimalCount(k / 10) + [digit]
  }

  function UnaryArityPanic(k: nat): string
  {
    "Attempting to evaluate unary operation that has " + DecimalCount(k) + " children (expected 1)"
  }

  function BinaryArityPanic(k: nat): string
  {
    "Attempting to evaluate binary operation that has " + DecimalCount(k) + " children (expected 2)"
  }

  // ---------------------------------------------------------------------
  // The leaves

  /** Evaluator::_evaluate_numeral: the node's spelling read by
      Value::from_str; a failure is a syntax error at the node. */
  function NumeralValue(n: AstNode, b: Builtins): (r: Result<Values.Value, Error>)
    ensures r.Ok? <==> Values.FromStr(n.token.content, DefaultPosition, b.decimalOf).Ok?
    ensures r.Ok? ==> r.value == Values.FromStr(n.token.content, DefaultPosition, b.decimalOf).value
    ensures r.Err? ==> r.error.kind == SyntaxError && r.error.position == n.token.position
  {
    match Values.FromStr(n.token.content, DefaultPosition, b.decimalOf)
    case Ok(v) => Ok(v)
    case Err(e) => Err(WithPosition(e, n.token.position))
  }

  /** Evaluator::_evaluate_variable: the store's value under the node's
      spelling, or a syntax error naming it, at the node. */
  function VariableValue(n: AstNode, vars: map<string, Values.Value>): (r: Result<Values.Value, Error>)
    ensures r.Ok? <==> n.token.content in vars
    ensures r.Ok? ==> r.value == vars[n.token.content]
    ensures r.Err? ==> r.error == NewP(SyntaxError, UndefinedVariableMsg(n.token.content), n.token.position)
  {
    if n.token.content in vars then Ok(vars[n.token.content])
    else Err(NewP(SyntaxError, UndefinedVariableMsg(n.token.content), n.token.position))
  }

  // ---------------------------------------------------------------------
  // The operators and functions

  /** Evaluator::_evaluate_unary_operator once the operand is known: the
      five unary spellings go to unary_pos, unary_neg, factorial,
      logical_neg and bitwise_neg; any other spelling is undefined. */
  function UnaryOperatorValue(op: string, v: Values.Value, position: InputPosition): (r: Outcome<Values.Value, Error>)
    ensures op == "+" ==> r == Returned(Ok(v))
    ensures op == "-" ==> r == Values.UnaryNeg(v)
    ensures op == "!" ==> r == Values.FactorialAsWritten(v)
    ensures op == "\U{AC}" ==>
      r.IsOk() && r.result.value.type_ == Values.Integer && (r.result.value.integer == 1 <==> Values.IsZero(v))
    ensures op == "\U{AC}" ==> r == Returned(Ok(Values.LogicalNeg(v)))
    ensures op == "~" ==> r == Returned(Values.BitwiseNeg(v))
    ensures op !in Patterns.UnaryOperators ==> r == Returned(Err(NewP(SyntaxError, UndefinedOperatorMsg(op), position)))
  {
    if op == "+" then Returned(Ok(Values.UnaryPos(v)))
    else if op == "-" then Values.UnaryNeg(v)
    else if op == "!" then Values.FactorialAsWritten(v)
    else if op == "\U{AC}" then Returned(Ok(Values.LogicalNeg(v)))
    else if op == "~" then Returned(Values.BitwiseNeg(v))
    else Returned(Err(NewP(SyntaxError, UndefinedOperatorMsg(op), position)))
  }

  /** The `!` operator follows the factorial as written: `0!` is Integer 0,
      and away from zero it agrees with the corrected factorial. */
  lemma BangOperator(v: Values.Value, position: InputPosition)
    ensures UnaryOperatorValue("!", Values.FromInteger(0), position) == Returned(Ok(Values.FromInteger(0)))
    ensures !Values.IsZero(v) ==> UnaryOperatorValue("!", v, position) == Values.Factorial(v)
  {
    Values.FactorialAsWrittenOfZero();
    if !Values.IsZero(v) {
      Values.FactorialAgreesAwayFromZero(v);
    }
  }

  /** Evaluator::_evaluate_unary_function_call once the operand is known:
      `abs`, `not` (logical negation) and `sin`, whose `unwrap` panics on
      an error; any other name is undefined. */
  function UnaryFunctionValue(f: string, v: Values.Value, b: Builtins): (r: Outcome<Values.Value, Error>)
    ensures f == "abs" ==> r == Returned(Ok(b.abs(v)))
    ensures f == "not" ==> r == Returned(Ok(Values.LogicalNeg(v)))
    ensures f == "sin" ==> (r.Panicked? <==> b.sin(v).None?)
    ensures f != "abs" && f != "not" && f != "sin" ==> r == Returned(Err(New(SyntaxError, UndefinedFunctionMsg(f))))
  {
    if f == "abs" then Returned(Ok(b.abs(v)))
    else if f == "not" then Returned(Ok(Values.LogicalNeg(v)))
    else if f == "sin" then
      match b.sin(v)
      case None => Panicked(UnwrapErrPanic)
      case Some(s) => Returned(Ok(s))
    else Returned(Err(New(SyntaxError, UndefinedFunctionMsg(f))))
  }

  /** The arity checks and the dispatch of evaluate_node for a non-terminal
      whose children have been evaluated: a childless one panics; a unary
      one needs exactly one child, whose value it unwraps; everything else,
      Expression nodes included, is taken as binary, needs exactly two
      children, and reaches `todo!()`. */
  function Dispatch(n: AstNode, b: Builtins): (r: Outcome<Values.Value, Error>)
    ensures !HasChildren(n) ==> r == Panicked(ChildlessPanic)
    ensures !IsUnary(n.token.type_) ==> r.Panicked?
    ensures IsUnary(n.token.type_) && |n.subtree.nodes| != 1 ==> r.Panicked?
    ensures r.Returned? ==> IsUnary(n.token.type_) && |n.subtree.nodes| == 1 && n.subtree.nodes[0].value.Some?
  {
    var cs := n.subtree.nodes;
    if !HasChildren(n) then Panicked(ChildlessPanic)
    else if IsUnary(n.token.type_) then
      if |cs| != 1 then Panicked(UnaryArityPanic(|cs|))
      else
        match cs[0].value
        case None => Panicked(UnwrapNonePanic)
        case Some(v) =>
          if IsOperator(n.token.type_) then UnaryOperatorValue(n.token.content, v, n.token.position)
          else UnaryFunctionValue(n.token.content, v, b)
    else if |cs| != 2 then Panicked(BinaryArityPanic(|cs|))
    else Panicked(TodoPanic)
  }

  /** `unwrap_or_propagate!` with the node's position: a value is attached
      to the node, an error is moved to the node's position, a panic stays
      a panic. */
  function Settle(n: AstNode, r: Outcome<Values.Value, Error>): (e: Evaluated<AstNode>)
    ensures e.status == Success <==> r.IsOk()
    ensures r.IsOk() ==> e.out == n.(value := Some(r.result.value))
    ensures r.IsErr() ==> e.status == Returned(Err(WithPosition(r.result.error, n.token.position))) && e.out == n
    ensures r.Panicked? ==> e == Evaluated(Panicked(r.reason), n)
  {
    match r
    case Panicked(reason) => Evaluated(Panicked(reason), n)
    case Returned(Err(err)) => Evaluated(Returned(Err(WithPosition(err, n.token.position))), n)
    case Returned(Ok(v)) => Evaluated(Success, n.(value := Some(v)))
  }

  // ---------------------------------------------------------------------
  // The walk

  /** Evaluator::evaluate_node on `n`, with the store's entries `vars`. */
  function EvalNode(n: AstNode, vars: map<string, Values.Value>, b: Builtins): Evaluated<AstNode>
    decreases NodeSize(n), 0
  {
    if n.value.Some? then Evaluated(Success, n)
    else if IsTerminal(n.token.type_) then
      if IsNumeral(n.token.type_) then Settle(n, Returned(NumeralValue(n, b)))
      else Settle(n, Returned(VariableValue(n, vars)))
    else
      NodeSizeIsOneMore(n);
      var c := EvalFrom([], n.subtree.nodes, vars, b);
      var m := n.(subtree := n.subtree.(nodes := c.out));
      if c.status != Success then Evaluated(c.status, m)
      else Settle(m, Dispatch(m, b))
  }

  /** The loop over `rest` after the nodes `done`: each node is evaluated
      in turn, and the first one that does not succeed ends the loop, the
      nodes after it untouched. */
  function EvalFrom(done: seq<AstNode>, rest: seq<AstNode>, vars: map<string, Values.Value>, b: Builtins): Evaluated<seq<AstNode>>
    decreases NodesSize(rest), 1
  {
    if rest == [] then Evaluated(Success, done)
    else
      var r := EvalNode(rest[0], vars, b);
      if r.status == Success then EvalFrom(done + [r.out], rest[1..], vars, b)
      else Evaluated(r.status, done + [r.out] + rest[1..])
  }

  /** The loop at a node that succeeds. */
  lemma EvalFromOk(done: seq<AstNode>, rest: seq<AstNode>, vars: map<string, Values.Value>, b: Builtins)
    requires rest != [] && EvalNode(rest[0], vars, b).status == Success
    ensures EvalFrom(done, rest, vars, b) == EvalFrom(done + [EvalNode(rest[0], vars, b).out], rest[1..], vars, b)
  {
  }

  /** One turn of a loop over `ns` that has reached `i`, at a node that
      succeeds. */
  lemma EvalFromStepOk(ns: seq<AstNode>, i: nat, child: AstNode, vars: map<string, Values.Value>, b: Builtins)
    requires i < |ns| && EvalNode(ns[i], vars, b) == Evaluated(Success, child)
    ensures EvalFrom(ns[..i], ns[i..], vars, b) == EvalFrom(ns[i := child][..i + 1], ns[i := child][i + 1..], vars, b)
  {
    assert ns[i..][0] == ns[i];
    EvalFromOk(ns[..i], ns[i..], vars, b);
    assert ns[i..][1..] == ns[i := child][i + 1..];
    assert ns[..i] + [child] == ns[i := child][..i + 1];
  }

  /** One turn of a loop over `ns` that has reached `i`, at a node that
      fails or panics. */
  lemma EvalFromStepStops(ns: seq<AstNode>, i: nat, s: Outcome<(), Error>, child: AstNode, vars: map<string, Values.Value>, b: Builtins)
    requires i < |ns| && EvalNode(ns[i], vars, b) == Evaluated(s, child) && s != Success
    ensures EvalFrom(ns[..i], ns[i..], vars, b) == Evaluated(s, ns[i := child])
  {
    assert ns[i..][0] == ns[i];
    EvalFromStops(ns[..i], ns[i..], vars, b);
    assert ns[..i] + [child] + ns[i..][1..] == ns[i := child];
  }

  /** The loop at a node that fails or panics. */
  lemma EvalFromStops(done: seq<AstNode>, rest: seq<AstNode>, vars: map<string, Values.Value>, b: Builtins)
    requires rest != [] && EvalNode(rest[0], vars, b).status != Success
    ensures EvalFrom(done, rest, vars, b) ==
      Evaluated(EvalNode(rest[0], vars, b).status, done + [EvalNode(rest[0], vars, b).out] + rest[1..])
  {
  }

  // ---------------------------------------------------------------------
  // What the walk does

  /** The guard of evaluate_node: a node that already has a value is left
      exactly as it is. */
  lemma ValuedNodeIsLeftAlone(n: AstNode, vars: map<string, Values.Value>, b: Builtins)
    requires n.value.Some?
    ensures EvalNode(n, vars, b) == Evaluated(Success, n)
  {
  }

  /** A numeral gets the value Value::from_str reads from its spelling, or
      fails with a syntax error at its position. */
  lemma NumeralMeaning(n: AstNode, vars: map<string, Values.Value>, b: Builtins)
    requires n.value.None? && IsNumeral(n.token.type_)
    ensures var r := EvalNode(n, vars, b);
      var v := Values.FromStr(n.token.content, DefaultPosition, b.decimalOf);
      (r.status == Success <==> v.Ok?) &&
      (v.Ok? ==> r.out == n.(value := Some(v.value))) &&
      (v.Err? ==>
        r.out == n && r.status.Returned? && r.status.result.Err? &&
        r.status.result.error.kind == SyntaxError && r.status.result.error.position == n.token.position)
  {
  }

  /** A variable gets the store's value, or fails with a syntax error that
      names it, at its position. */
  lemma VariableMeaning(n: AstNode, vars: map<string, Values.Value>, b: Builtins)
    requires n.value.None? && n.token.type_ == VariableIdentifier
    ensures var r := EvalNode(n, vars, b);
      (r.status == Success <==> n.token.content in vars) &&
      (n.token.content in vars ==> r.out == n.(value := Some(vars[n.token.content]))) &&
      (n.token.content !in vars ==>
        r == Evaluated(Returned(Err(NewP(SyntaxError, UndefinedVariableMsg(n.token.content), n.token.position))), n))
  {
    assert IsTerminal(n.token.type_) && !IsNumeral(n.token.type_);
  }

  /** The children of an operator or function node come first: when one of
      them does not succeed, that is the node's outcome too, and the node
      itself gets no value. */
  lemma ChildFailureAborts(n: AstNode, vars: map<string, Values.Value>, b: Builtins)
    requires n.value.None? && !IsTerminal(n.token.type_)
    requires EvalFrom([], n.subtree.nodes, vars, b).status != Success
    ensures EvalNode(n, vars, b).status == EvalFrom([], n.subtree.nodes, vars, b).status
    ensures EvalNode(n, vars, b).out.value.None?
    ensures EvalNode(n, vars, b).out.subtree.nodes == EvalFrom([], n.subtree.nodes, vars, b).out
  {
  }

  /** Arity mismatches are panics, not errors: a childless non-terminal, a
      unary node without exactly one child, and every node taken as
      binary (whose evaluation is not written yet) panic once their children
      have been evaluated. */
  lemma ArityPanics(n: AstNode, vars: map<string, Values.Value>, b: Builtins)
    requires n.value.None? && !IsTerminal(n.token.type_)
    requires EvalFrom([], n.subtree.nodes, vars, b).status == Success
    ensures !HasChildren(n) ==> EvalNode(n, vars, b).status == Panicked(ChildlessPanic)
    ensures IsUnary(n.token.type_) && |n.subtree.nodes| != 1 ==> EvalNode(n, vars, b).status.Panicked?
    ensures !IsUnary(n.token.type_) ==> EvalNode(n, vars, b).status.Panicked?
  {
    var c := EvalFrom([], n.subtree.nodes, vars, b);
    EvalFromLength([], n.subtree.nodes, vars, b);
    var m := n.(subtree := n.subtree.(nodes := c.out));
    assert HasChildren(m) == HasChildren(n);
  }

  /** A unary operator whose one child has the value `v` gets the value of
      the matching Value operation, with any error moved to its position. */
  lemma UnaryOperatorMeaning(n: AstNode, vars: map<string, Values.Value>, b: Builtins, v: Values.Value)
    requires n.value.None? && n.token.type_ == UnaryOperator && |n.subtree.nodes| == 1
    requires EvalFrom([], n.subtree.nodes, vars, b) == Evaluated(Success, [n.subtree.nodes[0].(value := Some(v))])
    ensures var m := n.(subtree := n.subtree.(nodes := [n.subtree.nodes[0].(value := Some(v))]));
      EvalNode(n, vars, b) == Settle(m, UnaryOperatorValue(n.token.content, v, n.token.position))
  {
    EvalFromLength([], n.subtree.nodes, vars, b);
  }

  /** A unary function whose one child has the value `v` gets the value of
      the matching function, with any error moved to its position. */
  lemma UnaryFunctionMeaning(n: AstNode, vars: map<string, Values.Value>, b: Builtins, v: Values.Value)
    requires n.value.None? && n.token.type_ == UnaryFunctionIdentifier && |n.subtree.nodes| == 1
    requires EvalFrom([], n.subtree.nodes, vars, b) == Evaluated(Success, [n.subtree.nodes[0].(value := Some(v))])
    ensures var m := n.(subtree := n.subtree.(nodes := [n.subtree.nodes[0].(value := Some(v))]));
      EvalNode(n, vars, b) == Settle(m, UnaryFunctionValue(n.token.content, v, b))
  {
    EvalFromLength([], n.subtree.nodes, vars, b);
  }

  /** The loop keeps the nodes already done and leaves as many nodes as it
      was given. */
  lemma {:induction false} EvalFromLength(done: seq<AstNode>, rest: seq<AstNode>, vars: map<string, Values.Value>, b: Builtins)
    ensures |EvalFrom(done, rest, vars, b).out| == |done| + |rest|
    ensures EvalFrom(done, rest, vars, b).out[..|done|] == done
    decreases rest
  {
    if rest != [] {
      var r := EvalNode(rest[0], vars, b);
      if r.status == Success {
        EvalFromLength(done + [r.out], rest[1..], vars, b);
        var out := EvalFrom(done + [r.out], rest[1..], vars, b).out;
        assert out[..|done|] == out[..|done| + 1][..|done|];
      }
    }
  }

  // ---------------------------------------------------------------------
  // Only values are written

  /** `m` is `n` with values attached: the same tokens, levels and shape
      all the way down, and every value `n` has kept. */
  predicate Extends(m: AstNode, n: AstNode)
    decreases n
  {
    m.token == n.token && m.subtree.level == n.subtree.level &&
    (n.value.Some? ==> m.value == n.value) &&
    |m.subtree.nodes| == |n.subtree.nodes| &&
    forall k :: 0 <= k < |n.subtree.nodes| ==> Extends(m.subtree.nodes[k], n.subtree.nodes[k])
  }

  /** Each of `ms` extends the node of `ns` at its place. */
  predicate AllExtend(ms: seq<AstNode>, ns: seq<AstNode>)
  {
    |ms| == |ns| && forall k :: 0 <= k < |ns| ==> Extends(ms[k], ns[k])
  }

  lemma {:induction false} ExtendsItself(n: AstNode)
    ensures Extends(n, n)
    decreases n
  {
    forall k | 0 <= k < |n.subtree.nodes|
      ensures Extends(n.subtree.nodes[k], n.subtree.nodes[k])
    {
      ExtendsItself(n.subtree.nodes[k]);
    }
  }

  lemma AllExtendThemselves(ns: seq<AstNode>)
    ensures AllExtend(ns, ns)
  {
    forall k | 0 <= k < |ns|
      ensures Extends(ns[k], ns[k])
    {
      ExtendsItself(ns[k]);
    }
  }

  /** An unvalued node with its children extended, and possibly a value,
      extends the node. */
  lemma ExtendsWithChildren(n: AstNode, cs: seq<AstNode>, value: Option<Values.Value>)
    requires n.value.None? && AllExtend(cs, n.subtree.nodes)
    ensures Extends(n.(subtree := n.subtree.(nodes := cs), value := value), n)
  {
  }

  /** evaluate_node writes nothing but values, and never one over another:
      what it leaves behind, even when it fails, extends the node it was
      given. */
  lemma {:induction false} EvalNodeExtends(n: AstNode, vars: map<string, Values.Value>, b: Builtins)
    ensures Extends(EvalNode(n, vars, b).out, n)
    decreases NodeSize(n), 0
  {
    if n.value.Some? {
      ExtendsItself(n);
    } else if IsTerminal(n.token.type_) {
      AllExtendThemselves(n.subtree.nodes);
      ExtendsWithChildren(n, n.subtree.nodes, EvalNode(n, vars, b).out.value);
    } else {
      NodeSizeIsOneMore(n);
      var c := EvalFrom([], n.subtree.nodes, vars, b);
      EvalFromExtends([], n.subtree.nodes, vars, b);
      ExtendsWithChildren(n, c.out, EvalNode(n, vars, b).out.value);
    }
  }

  /** From `start` on, `out` holds extensions of `rest`, place by place. */
  predicate ExtendFrom(out: seq<AstNode>, start: nat, rest: seq<AstNode>)
  {
    |out| == start + |rest| && forall k :: 0 <= k < |rest| ==> Extends(out[start + k], rest[k])
  }

  /** Extending the first of `rest` at `start`, and the others after it. */
  lemma ExtendFromCons(out: seq<AstNode>, start: nat, x: AstNode, rest: seq<AstNode>)
    requires rest != [] && start < |out| && out[start] == x && Extends(x, rest[0])
    requires ExtendFrom(out, start + 1, rest[1..])
    ensures ExtendFrom(out, start, rest)
  {
    forall k | 0 < k < |rest|
      ensures Extends(out[start + k], rest[k])
    {
      assert out[start + k] == out[start + 1 + (k - 1)];
      assert rest[k] == rest[1..][k - 1];
    }
  }

  /** Extending the first of `rest`, and keeping the others. */
  lemma ExtendFromStop(done: seq<AstNode>, x: AstNode, rest: seq<AstNode>)
    requires rest != [] && Extends(x, rest[0])
    ensures ExtendFrom(done + [x] + rest[1..], |done|, rest)
  {
    AllExtendThemselves(rest[1..]);
    var out := done + [x] + rest[1..];
    forall k | 0 < k < |rest|
      ensures Extends(out[|done| + k], rest[k])
    {
      assert out[|done| + k] == rest[1..][k - 1];
    }
  }

  /** The loop writes nothing but values: after the nodes done it leaves
      extensions of the rest. */
  lemma {:induction false} EvalFromExtends(done: seq<AstNode>, rest: seq<AstNode>, vars: map<string, Values.Value>, b: Builtins)
    ensures ExtendFrom(EvalFrom(done, rest, vars, b).out, |done|, rest)
    decreases NodesSize(rest), 1
  {
    if rest != [] {
      var r := EvalNode(rest[0], vars, b);
      EvalNodeExtends(rest[0], vars, b);
      if r.status == Success {
        EvalFromOk(done, rest, vars, b);
        EvalFromExtends(done + [r.out], rest[1..], vars, b);
        EvalFromLength(done + [r.out], rest[1..], vars, b);
        var out := EvalFrom(done + [r.out], rest[1..], vars, b).out;
        assert out[|done|] == out[..|done| + 1][|done|];
        ExtendFromCons(out, |done|, r.out, rest);
      } else {
        EvalFromStops(done, rest, vars, b);
        ExtendFromStop(done, r.out, rest);
      }
    }
  }

  // ---------------------------------------------------------------------
  // Every evaluated node ends with a value; evaluating again changes nothing

  /** A node whose evaluation succeeds has a value afterwards. */
  lemma EvalNodeValues(n: AstNode, vars: map<string, Values.Value>, b: Builtins)
    ensures EvalNode(n, vars, b).status == Success ==> EvalNode(n, vars, b).out.value.Some?
  {
  }

  /** When the loop succeeds every node it was given has a value. */
  lemma {:induction false} EvalFromValues(done: seq<AstNode>, rest: seq<AstNode>, vars: map<string, Values.Value>, b: Builtins)
    ensures var e := EvalFrom(done, rest, vars, b);
      e.status == Success ==>
        |e.out| == |done| + |rest| && e.out[..|done|] == done &&
        forall k :: |done| <= k < |e.out| ==> e.out[k].value.Some?
    decreases rest
  {
    EvalFromLength(done, rest, vars, b);
    if rest != [] {
      var r := EvalNode(rest[0], vars, b);
      if r.status == Success {
        EvalNodeValues(rest[0], vars, b);
        EvalFromValues(done + [r.out], rest[1..], vars, b);
        EvalFromLength(done + [r.out], rest[1..], vars, b);
        var out := EvalFrom(done + [r.out], rest[1..], vars, b).out;
        assert out[|done|] == out[..|done| + 1][|done|];
      }
    }
  }

  /** The loop over nodes that all have values changes nothing. */
  lemma {:induction false} EvalFromValued(done: seq<AstNode>, rest: seq<AstNode>, vars: map<string, Values.Value>, b: Builtins)
    requires forall k :: 0 <= k < |rest| ==> rest[k].value.Some?
    ensures EvalFrom(done, rest, vars, b) == Evaluated(Success, done + rest)
    decreases rest
  {
    if rest == [] {
      assert done + rest == done;
    } else {
      ValuedNodeIsLeftAlone(rest[0], vars, b);
      EvalFromOk(done, rest, vars, b);
      EvalFromValued(done + [rest[0]], rest[1..], vars, b);
      assert done + [rest[0]] + rest[1..] == done + rest;
    }
  }

  /** Evaluator::evaluate */
  function EvaluateTree(ast: Ast, vars: map<string, Values.Value>, b: Builtins): (e: Evaluated<Ast>)
    ensures e.out.level == ast.level
  {
    var r := EvalFrom([], ast.nodes, vars, b);
    Evaluated(r.status, ast.(nodes := r.out))
  }

  /** Evaluation is idempotent: a tree that evaluated successfully has a
      value on every top-level node, and evaluating it again succeeds and
      changes nothing. */
  lemma EvaluateIsIdempotent(ast: Ast, vars: map<string, Values.Value>, b: Builtins)
    ensures var e := EvaluateTree(ast, vars, b);
      e.status == Success ==>
        (forall k :: 0 <= k < |e.out.nodes| ==> e.out.nodes[k].value.Some?) &&
        EvaluateTree(e.out, vars, b) == Evaluated(Success, e.out)
  {
    var e := EvaluateTree(ast, vars, b);
    EvalFromValues([], ast.nodes, vars, b);
    if e.status == Success {
      EvalFromValued([], e.out.nodes, vars, b);
      assert [] + e.out.nodes == e.out.nodes;
    }
  }

  /** Evaluation writes nothing but values into the tree, whatever the
      outcome. */
  lemma EvaluateExtends(ast: Ast, vars: map<string, Values.Value>, b: Builtins)
    ensures AllExtend(EvaluateTree(ast, vars, b).out.nodes, ast.nodes)
  {
    EvalFromExtends([], ast.nodes, vars, b);
  }

  /** `-x!` with `x` undefined: the undefined variable is reported at the
      position of `x`, and neither `!` nor `-` is applied. */
  lemma UndefinedOperandReported(minus: Token, bang: Token, x: Token, level: nat, vars: map<string, Values.Value>, b: Builtins)
    requires minus.type_ == UnaryOperator && minus.content == "-"
    requires bang.type_ == UnaryOperator && bang.content == "!"
    requires x.type_ == VariableIdentifier && x.content !in vars
    ensures var xn := AstNode(x, Ast([], level + 2), None);
      var bn := AstNode(bang, Ast([xn], level + 1), None);
      var mn := AstNode(minus, Ast([bn], level), None);
      EvalNode(mn, vars, b).status == Returned(Err(NewP(SyntaxError, UndefinedVariableMsg(x.content), x.position)))
  {
    var xn := AstNode(x, Ast([], level + 2), None);
    var bn := AstNode(bang, Ast([xn], level + 1), None);
    var mn := AstNode(minus, Ast([bn], level), None);
    var err := Returned(Err(NewP(SyntaxError, UndefinedVariableMsg(x.content), x.position)));
    VariableMeaning(xn, vars, b);
    EvalFromStops([], [xn], vars, b);
    ChildFailureAborts(bn, vars, b);
    assert EvalNode(bn, vars, b).status == err;
    EvalFromStops([], [bn], vars, b);
    ChildFailureAborts(mn, vars, b);
  }

  // ---------------------------------------------------------------------
  // The evaluator

  /** Evaluator: the store it reads variables from, and the functions it
      calls that are not part of this model. */
  class Evaluator {
    var variables: Values.ValueStore
    const builtins: Builtins

    constructor (variables: Values.ValueStore, builtins: Builtins)
      ensures this.variables == variables && this.builtins == builtins
    {
      this.variables := variables;
      this.builtins := builtins;
    }

    /** Evaluator::evaluate_node: returns how the evaluation ended and the
        node as it leaves it. */
    method EvaluateNode(n: AstNode) returns (status: Outcome<(), Error>, out: AstNode)
      ensures Evaluated(status, out) == EvalNode(n, variables.entries, builtins)
      decreases NodeSize(n)
    {
      var vars := variables.entries;
      if n.value.Some? {
        return Success, n;
      }
      if IsTerminal(n.token.type_) {
        var r := if IsNumeral(n.token.type_) then NumeralValue(n, builtins) else VariableValue(n, vars);
        var e := Settle(n, Returned(r));
        return e.status, e.out;
      }
      var children := n.subtree.nodes;
      var i := 0;
      while i < |children|
        invariant i <= |children| == |n.subtree.nodes|
        invariant children[i..] == n.subtree.nodes[i..]
        invariant EvalFrom(children[..i], children[i..], vars, builtins) == EvalFrom([], n.subtree.nodes, vars, builtins)
        decreases |children| - i
      {
        ChildIsSmaller(n, i);
        assert children[i] == n.subtree.nodes[i];
        var s, child := EvaluateNode(children[i]);
        if s != Success {
          EvalFromStepStops(children, i, s, child, vars, builtins);
          return s, n.(subtree := n.subtree.(nodes := children[i := child]));
        }
        EvalFromStepOk(children, i, child, vars, builtins);
        children := children[i := child];
        i := i + 1;
      }
      assert children[..i] == children;
      var m := n.(subtree := n.subtree.(nodes := children));
      var e := Settle(m, Dispatch(m, builtins));
      status, out := e.status, e.out;
    }

    /** Evaluator::evaluate: the top-level nodes left to right, stopping at
        the first that does not succeed. */
    method Evaluate(ast: Ast) returns (status: Outcome<(), Error>, out: Ast)
      ensures Evaluated(status, out) == EvaluateTree(ast, variables.entries, builtins)
    {
      var vars := variables.entries;
      var nodes := ast.nodes;
      var i := 0;
      while i < |nodes|
        invariant i <= |nodes| == |ast.nodes|
        invariant nodes[i..] == ast.nodes[i..]
        invariant EvalFrom(nodes[..i], nodes[i..], vars, builtins) == EvalFrom([], ast.nodes, vars, builtins)
        decreases |nodes| - i
      {
        var s, node := EvaluateNode(nodes[i]);
        if s != Success {
          EvalFromStepStops(nodes, i, s, node, vars, builtins);
          return s, ast.(nodes := nodes[i := node]);
        }
        EvalFromStepOk(nodes, i, node, vars, builtins);
        nodes := nodes[i := node];
        i := i + 1;
      }
      assert nodes[..i] == nodes;
      status, out := Success, ast.(nodes := nodes);
    }
  }

  lemma NodeSizeIsOneMore(n: AstNode)
    ensures NodeSize(n) == 1 + NodesSize(n.subtree.nodes)
  {
  }

  /** A child is smaller than its parent. */
  lemma ChildIsSmaller(n: AstNode, i: nat)
    requires i < |n.subtree.nodes|
    ensures NodeSize(n.subtree.nodes[i]) < NodeSize(n)
  {
    ElementSize(n.subtree.nodes, i);
  }

  lemma {:induction false} ElementSize(ns: seq<AstNode>, i: nat)
    requires i < |ns|
    ensures NodeSize(ns[i]) <= NodesSize(ns)
    decreases i
  {
    if i > 0 {
      ElementSize(ns[1..], i - 1);
      assert ns[1..][i - 1] == ns[i];
    }
  }
}
