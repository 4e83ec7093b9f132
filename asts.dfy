/** The levelled syntax tree (ast.rs): a tree is a sequence of nodes and the
    depth it sits at; a node holds a token, the tree of its children and the
    value the evaluator gives it. The nesting invariant is that the subtree
    of a node with children sits one level below the node's own tree.

    The source updates trees in place through exclusive (`&mut`) borrows,
    which rule out aliasing; here a tree is a value, and each operation that
    changes one returns the changed tree. */
module Asts {
  import opened Outcomes
  import opened Tokens
  import Values

  datatype Ast = Ast(nodes: seq<AstNode>, level: nat)

  datatype AstNode = AstNode(token: Token, subtree: Ast, value: Option<Values.Value>)

  /** Ast::default / Ast::new */
  const Empty: Ast := Ast([], 0)

  /** AstNode::new_from_token */
  function NewFromToken(token: Token): (n: AstNode)
    ensures n.token == token && n.subtree == Empty && n.value == None
  {
    AstNode(token, Empty, None)
  }

  /** AstNode::new_with_subtree */
  function NewWithSubtree(token: Token, subtree: Ast): (n: AstNode)
    ensures n.token == token && n.subtree == subtree && n.value == None
  {
    AstNode(token, subtree, None)
  }

  /** AstNode::has_children */
  predicate HasChildren(n: AstNode)
  {
    |n.subtree.nodes| > 0
  }

  /** AstNode::has_unvalued_children: some child has no value yet. */
  predicate HasUnvaluedChildren(n: AstNode)
  {
    exists k :: 0 <= k < |n.subtree.nodes| && n.subtree.nodes[k].value.None?
  }

  /** A node with unvalued children has children. */
  lemma UnvaluedChildrenAreChildren(n: AstNode)
    ensures HasUnvaluedChildren(n) ==> HasChildren(n)
    ensures !HasChildren(n) ==> !HasUnvaluedChildren(n)
  {
  }

  // ---------------------------------------------------------------------
  // Levels

  /** The nesting invariant, all the way down: every node with children has
      its subtree one level below, and that subtree is well levelled too. */
  predicate WellLeveled(t: Ast)
    decreases t
  {
    forall k :: 0 <= k < |t.nodes| ==> NodeWellLeveled(t.nodes[k], t.level)
  }

  /** A node of a tree at `level` respects the nesting invariant. */
  predicate NodeWellLeveled(n: AstNode, level: nat)
    decreases n
  {
    HasChildren(n) ==> n.subtree.level == level + 1 && WellLeveled(n.subtree)
  }

  /** The tree that relevel_from(base) leaves: level `base`, every node with
      children relevelled to `base + 1`. */
  function Relevel(t: Ast, base: nat): Ast
    decreases t
  {
    Ast(RelevelNodes(t.nodes, base + 1), base)
  }

  /** The nodes of a tree, those with children relevelled to `level`. */
  function RelevelNodes(ns: seq<AstNode>, level: nat): (r: seq<AstNode>)
    ensures |r| == |ns|
    decreases ns
  {
    if ns == [] then [] else [RelevelNode(ns[0], level)] + RelevelNodes(ns[1..], level)
  }

  /** One node of a tree whose children go to `level`. */
  function RelevelNode(n: AstNode, level: nat): AstNode
    decreases n
  {
    if HasChildren(n) then n.(subtree := Relevel(n.subtree, level)) else n
  }

  /** RelevelNodes works node by node. */
  lemma {:induction false} RelevelNodesAt(ns: seq<AstNode>, level: nat, k: nat)
    requires k < |ns|
    ensures RelevelNodes(ns, level)[k] == RelevelNode(ns[k], level)
    decreases k
  {
    if k > 0 {
      RelevelNodesAt(ns[1..], level, k - 1);
    }
  }

  /** Relevelling keeps every token and value and the number of children;
      only levels change. */
  lemma RelevelNodeKeeps(n: AstNode, level: nat)
    ensures var r := RelevelNode(n, level);
      r.token == n.token && r.value == n.value && |r.subtree.nodes| == |n.subtree.nodes|
    ensures !HasChildren(n) ==> RelevelNode(n, level) == n
  {
  }

  /** After relevel_from(base) the tree is at `base` and well levelled. */
  lemma {:induction false} RelevelIsWellLeveled(t: Ast, base: nat)
    ensures Relevel(t, base).level == base
    ensures WellLeveled(Relevel(t, base))
    decreases t
  {
    var r := Relevel(t, base);
    forall k | 0 <= k < |r.nodes|
      ensures NodeWellLeveled(r.nodes[k], base)
    {
      RelevelNodesAt(t.nodes, base + 1, k);
      var n := t.nodes[k];
      if HasChildren(n) {
        RelevelIsWellLeveled(n.subtree, base + 1);
      }
    }
  }

  /** A well-levelled tree is left as it is by relevelling to its own level. */
  lemma {:induction false} RelevelOfWellLeveled(t: Ast)
    requires WellLeveled(t)
    ensures Relevel(t, t.level) == t
    decreases t
  {
    var r := Relevel(t, t.level);
    forall k | 0 <= k < |t.nodes|
      ensures r.nodes[k] == t.nodes[k]
    {
      RelevelNodesAt(t.nodes, t.level + 1, k);
      var n := t.nodes[k];
      assert NodeWellLeveled(n, t.level);
      if HasChildren(n) {
        RelevelOfWellLeveled(n.subtree);
      }
    }
  }

  /** Relevelling twice is relevelling once to the later level. */
  lemma {:induction false} RelevelTwice(t: Ast, a: nat, b: nat)
    ensures Relevel(Relevel(t, a), b) == Relevel(t, b)
    decreases t
  {
    var once := Relevel(t, a);
    var twice := Relevel(once, b);
    var direct := Relevel(t, b);
    forall k | 0 <= k < |t.nodes|
      ensures twice.nodes[k] == direct.nodes[k]
    {
      RelevelNodesAt(t.nodes, a + 1, k);
      RelevelNodesAt(once.nodes, b + 1, k);
      RelevelNodesAt(t.nodes, b + 1, k);
      var n := t.nodes[k];
      if HasChildren(n) {
        RelevelTwice(n.subtree, a + 1, b + 1);
      }
    }
  }

  /** Ast::relevel_from: sets the level, then walks the nodes and relevels
      the subtree of each node with children one level below. */
  method RelevelFrom(t: Ast, base: nat) returns (r: Ast)
    ensures r == Relevel(t, base)
    decreases t
  {
    var nodes := t.nodes;
    var i := 0;
    while i < |nodes|
      invariant 0 <= i <= |nodes| == |t.nodes|
      invariant forall k :: 0 <= k < i ==> nodes[k] == RelevelNode(t.nodes[k], base + 1)
      invariant forall k :: i <= k < |nodes| ==> nodes[k] == t.nodes[k]
    {
      var node := nodes[i];
      if HasChildren(node) {
        var sub := RelevelFrom(node.subtree, base + 1);
        node := node.(subtree := sub);
      }
      nodes := nodes[i := node];
      i := i + 1;
    }
    r := Ast(nodes, base);
    forall k | 0 <= k < |nodes|
      ensures nodes[k] == RelevelNodes(t.nodes, base + 1)[k]
    {
      RelevelNodesAt(t.nodes, base + 1, k);
    }
  }

  // ---------------------------------------------------------------------
  // Building trees

  /** Ast::push: appends the node, first relevelling the subtree of a node
      with children to the tree's own level (not one below it). */
  method Push(t: Ast, item: AstNode) returns (r: Ast)
    ensures r.level == t.level
    ensures r.nodes == t.nodes + [RelevelNode(item, t.level)]
  {
    var node := item;
    if HasChildren(node) {
      var sub := RelevelFrom(node.subtree, t.level);
      node := node.(subtree := sub);
    }
    r := t.(nodes := t.nodes + [node]);
  }

  /** What Push appends: the node's token and value unchanged, and, when it
      has children, a subtree at the tree's own level, so that the result
      breaks the nesting invariant. */
  lemma PushedNode(t: Ast, item: AstNode)
    requires HasChildren(item)
    ensures var n := RelevelNode(item, t.level);
      n.token == item.token && n.value == item.value &&
      n.subtree.level == t.level && !NodeWellLeveled(n, t.level)
  {
  }

  /** Ast::push_token: appends a childless node for the token. */
  method PushToken(t: Ast, token: Token) returns (r: Ast)
    ensures r.level == t.level
    ensures r.nodes == t.nodes + [NewFromToken(token)]
  {
    r := t.(nodes := t.nodes + [NewFromToken(token)]);
  }

  /** push_token keeps a well-levelled tree well levelled. */
  lemma PushTokenKeepsLevels(t: Ast, token: Token)
    requires WellLeveled(t)
    ensures WellLeveled(t.(nodes := t.nodes + [NewFromToken(token)]))
  {
    var r := t.(nodes := t.nodes + [NewFromToken(token)]);
    forall k | 0 <= k < |r.nodes|
      ensures NodeWellLeveled(r.nodes[k], r.level)
    {
      if k < |t.nodes| {
        assert r.nodes[k] == t.nodes[k];
      }
    }
  }

  /** Ast::push_subtree: appends a node for the token whose subtree is
      relevelled one level below the tree. */
  method PushSubtree(t: Ast, token: Token, subtree: Ast) returns (r: Ast)
    ensures r.level == t.level
    ensures r.nodes == t.nodes + [NewWithSubtree(token, Relevel(subtree, t.level + 1))]
  {
    var sub := RelevelFrom(subtree, t.level + 1);
    r := t.(nodes := t.nodes + [NewWithSubtree(token, sub)]);
  }

  /** push_subtree keeps a well-levelled tree well levelled. */
  lemma PushSubtreeKeepsLevels(t: Ast, token: Token, subtree: Ast)
    requires WellLeveled(t)
    ensures WellLeveled(t.(nodes := t.nodes + [NewWithSubtree(token, Relevel(subtree, t.level + 1))]))
  {
    var n := NewWithSubtree(token, Relevel(subtree, t.level + 1));
    var r := t.(nodes := t.nodes + [n]);
    RelevelIsWellLeveled(subtree, t.level + 1);
    forall k | 0 <= k < |r.nodes|
      ensures NodeWellLeveled(r.nodes[k], r.level)
    {
      if k < |t.nodes| {
        assert r.nodes[k] == t.nodes[k];
      }
    }
  }

  /** `From<Vec<AstNode>> for Ast`: a level-0 tree to which the nodes are
      pushed one by one. */
  method FromVec(ns: seq<AstNode>) returns (r: Ast)
    ensures r == Ast(RelevelNodes(ns, 0), 0)
  {
    r := Empty;
    var i := 0;
    while i < |ns|
      invariant 0 <= i <= |ns|
      invariant r.level == 0 && |r.nodes| == i
      invariant forall k :: 0 <= k < i ==> r.nodes[k] == RelevelNode(ns[k], 0)
    {
      r := Push(r, ns[i]);
      i := i + 1;
    }
    forall k | 0 <= k < |ns|
      ensures r.nodes[k] == RelevelNodes(ns, 0)[k]
    {
      RelevelNodesAt(ns, 0, k);
    }
  }

  /** The tree built from a vector holds the same nodes, with the same tokens
      and values, in the same order. */
  lemma FromVecKeepsNodes(ns: seq<AstNode>, k: nat)
    requires k < |ns|
    ensures |RelevelNodes(ns, 0)| == |ns|
    ensures RelevelNodes(ns, 0)[k].token == ns[k].token
    ensures RelevelNodes(ns, 0)[k].value == ns[k].value
  {
    RelevelNodesAt(ns, 0, k);
  }

  /** `From<AstNode> for Ast`: a level-0 tree of the one node. */
  method FromNode(n: AstNode) returns (r: Ast)
    ensures r == Ast([RelevelNode(n, 0)], 0)
  {
    r := Push(Empty, n);
  }

  /** AstNode::set_subtree: the node with the new subtree, and the subtree it
      had before. */
  method SetSubtree(n: AstNode, subtree: Ast) returns (previous: Ast, updated: AstNode)
    ensures previous == n.subtree
    ensures updated.token == n.token && updated.value == n.value && updated.subtree == subtree
  {
    previous := n.subtree;
    updated := n.(subtree := subtree);
  }

  // ---------------------------------------------------------------------
  // Sizes, for termination of the passes over trees

  /** The number of nodes of a tree, counted all the way down. */
  function Size(t: Ast): (s: nat)
    decreases t
  {
    NodesSize(t.nodes)
  }

  function NodesSize(ns: seq<AstNode>): (s: nat)
    ensures s >= |ns|
    decreases ns
  {
    if ns == [] then 0 else NodeSize(ns[0]) + NodesSize(ns[1..])
  }

  function NodeSize(n: AstNode): (s: nat)
    ensures s >= 1
    decreases n
  {
    1 + Size(n.subtree)
  }
}
