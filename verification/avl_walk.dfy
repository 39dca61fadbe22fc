/** Walking the threaded tree: traversal, counting, self-check and teardown (src/avl_generic.c). */
module AvlWalk {
  import opened Common
  import opened AvlShape
  import opened AvlOrder
  import opened AvlRemove
  import opened AvlTree

  /** The place of the i-th node of a tree. */
  lemma {:induction false} Locate(c0: Ctx, t0: Tree, i: nat) returns (c: Ctx, t: Tree)
    requires |Before(c0)| <= i < |Before(c0)| + |InOrder(t0)|
    ensures Plug(c, t) == Plug(c0, t0) && t.Fork? && |Before(c)| + |InOrder(t.left)| == i
    decreases t0
  {
    var k := |Before(c0)| + |InOrder(t0.left)|;
    if i < k {
      c, t := Locate(InLeft(c0, t0.n, t0.right), t0.left, i);
    } else if i > k {
      c, t := Locate(InRight(c0, t0.left, t0.n), t0.right, i);
    } else {
      c, t := c0, t0;
    }
  }

  lemma {:induction false} HiIsHead(c: Ctx)
    ensures Hi(c) == if After(c) == [] then null else After(c)[0]
  {
    match c
    case Top =>
    case InLeft(up, n, r) =>
    case InRight(up, l, n) => HiIsHead(up);
  }

  lemma {:induction false} LoIsLast(c: Ctx)
    ensures Lo(c) == if Before(c) == [] then null else Before(c)[|Before(c)| - 1]
  {
    match c
    case Top =>
    case InLeft(up, n, r) => LoIsLast(up);
    case InRight(up, l, n) =>
  }

  /** The s-th entry, or null past the end. */
  ghost function At(s: seq<Node>, i: nat): Node? {
    if i < |s| then s[i] else null
  }

  /** A node, the target of node_next and the target of node_prev are neighbours in order. */
  lemma NeighboursInOrder(c: Ctx, t: Tree)
    requires t.Fork?
    ensures var s, i := InOrder(Plug(c, t)), |Before(c)| + |InOrder(t.left)|;
            && i < |s| && s[i] == t.n
            && At(s, i + 1) == (if t.right.Fork? then First(t.right) else Hi(c))
            && (if i == 0 then null else s[i - 1]) == (if t.left.Fork? then Last(t.left) else Lo(c))
  {
    hide InOrder, Plug, Before, After, Hi, Lo;
    PlugInOrder(c, t);
    AroundFork(c, t);
    HiIsHead(c);
    LoIsLast(c);
    EmptyEnds(t);
    if t.right.Fork? { FirstIsHead(t.right); }
    if t.left.Fork? { LastIsTail(t.left); }
  }

  lemma EmptyEnds(t: Tree)
    requires t.Fork?
    ensures t.left.Leaf? ==> InOrder(t.left) == []
    ensures t.right.Leaf? ==> InOrder(t.right) == []
  {
  }

  /** The callback says when to stop. */
  ghost predicate AllOk(func: Node -> Ret, s: seq<Node>) {
    forall i :: 0 <= i < |s| ==> func(s[i]) == RetOk
  }

  /** node_next applied to the i-th node of a tree yields the next one, or null after the last. */
  method Successor(avl: Avl, node: Node, ghost i: nat) returns (next: Node?)
    requires avl.Valid() && i < |avl.Nodes()| && avl.Nodes()[i] == node
    ensures next == At(avl.Nodes(), i + 1)
  {
    hide InOrder, Fits, Balanced, Sorted, Before, After;
    ghost var m, t := Snap(avl.Repr()), avl.shape;
    BeforeTop();
    ghost var c, u := Locate(Top, t, i);
    PlugFits(m, c, u);
    NeighboursInOrder(c, u);
    next := Avl.NodeNext(node, m, c, u);
  }

  lemma BeforeTop()
    ensures Before(Top) == [] && forall t :: Plug(Top, t) == t
  {
  }

  /** http2d_avl_generic_while: first/next visit every node once, in key order, until func objects. */
  method While(avl: Avl, func: Node -> Ret) returns (ret: Ret, visited: seq<Node>)
    requires avl.Valid()
    ensures ret == RetOk ==> visited == avl.Nodes() && AllOk(func, visited)
    ensures ret != RetOk ==>
              && visited != [] && visited <= avl.Nodes() && ret == func(visited[|visited| - 1])
              && AllOk(func, visited[..|visited| - 1])
  {
    hide InOrder, Fits, Balanced, Sorted;
    visited := [];
    if avl.root == null {
      LeafNodes();
      return RetOk, visited;
    }
    ghost var s := avl.Nodes();
    FirstIsHead(avl.shape);
    var node: Node? := Avl.Leftmost(avl.root, Snap(avl.Repr()), avl.shape, null, null);
    while node != null
      invariant visited <= s && AllOk(func, visited) && node == At(s, |visited|)
      decreases |s| - |visited|
    {
      var here: Node := node;
      visited := visited + [here];
      ret := func(here);
      if ret != RetOk {
        return ret, visited;
      }
      node := Successor(avl, here, |visited| - 1);
    }
    return RetOk, visited;
  }

  /** http2d_avl_len: the number of bindings. */
  method Len(avl: Avl) returns (ret: Ret, len: nat)
    requires avl.Valid()
    ensures ret == RetOk && len == |avl.Contents()|
  {
    var visited;
    ret, visited := While(avl, (n: Node) => RetOk);
    BindingsSpec(ByRank(avl.ignoreCase), avl.Nodes());
    len := |visited|;
  }

  /** node_height. */
  method NodeHeight(node: Node, ghost m: Mem, ghost t: Tree, ghost lo: Node?, ghost hi: Node?) returns (h: nat)
    requires t.Fork? && t.n == node && Fits(m, t, lo, hi) && m == Snap(m.Keys)
    ensures h == Height(t)
    decreases t
  {
    FitsFork(m, t, lo, hi);
    var leftHeight, rightHeight := 0, 0;
    if node.leftChild {
      leftHeight := NodeHeight(node.left, m, t.left, lo, node);
    }
    if node.rightChild {
      rightHeight := NodeHeight(node.right, m, t.right, node, hi);
    }
    h := Max(leftHeight, rightHeight) + 1;
  }

  lemma {:induction false} EndThreads(m: Mem, t: Tree, lo: Node?, hi: Node?)
    requires t.Fork? && Fits(m, t, lo, hi)
    ensures First(t) in m && m[First(t)].left == lo
    ensures Last(t) in m && m[Last(t)].right == hi
    decreases t
  {
    if t.left.Fork? { EndThreads(m, t.left, lo, t.n); }
    if t.right.Fork? { EndThreads(m, t.right, t.n, hi); }
  }

  /** First half of node_check: both neighbours of a node point back at it. */
  method CheckThreads(node: Node, ghost m: Mem, ghost c: Ctx, ghost t: Tree) returns (ret: Ret)
    requires t.Fork? && node == t.n && Fits(m, t, Lo(c), Hi(c)) && m == Snap(m.Keys)
    ensures ret == RetOk
  {
    hide Fits, InOrder, First, Last, Height;
    FitsFork(m, t, Lo(c), Hi(c));
    if node.leftChild {
      EndThreads(m, t.left, Lo(c), node);
      var tmp := Avl.NodePrev(node, m, c, t);
      if tmp.right != node {
        return RetError;
      }
    }
    if node.rightChild {
      EndThreads(m, t.right, node, Hi(c));
      var tmp := Avl.NodeNext(node, m, c, t);
      if tmp.left != node {
        return RetError;
      }
    }
    return RetOk;
  }

  /** node_check: accepts every well-formed tree. The results of the recursive calls are dropped, as in
      the source. */
  method NodeCheck(node: Node?, ghost m: Mem, ghost c: Ctx, ghost t: Tree) returns (ret: Ret)
    requires node == t.Root() && Fits(m, t, Lo(c), Hi(c)) && m == Snap(m.Keys)
    ensures ret == RetOk
    decreases t
  {
    if node == null {
      return RetOk;
    }
    ret := CheckThreads(node, m, c, t);
    if ret != RetOk {
      return ret;
    }
    FitsFork(m, t, Lo(c), Hi(c));
    var leftHeight: int, rightHeight: int := 0, 0;
    if node.leftChild {
      leftHeight := NodeHeight(node.left, m, t.left, Lo(c), node);
    }
    if node.rightChild {
      rightHeight := NodeHeight(node.right, m, t.right, node, Hi(c));
    }
    if rightHeight - leftHeight != node.balance {
      return RetError;
    }
    if node.leftChild {
      var _ := NodeCheck(node.left, m, InLeft(c, t.n, t.right), t.left);
    }
    if node.rightChild {
      var _ := NodeCheck(node.right, m, InRight(c, t.left, t.n), t.right);
    }
    return RetOk;
  }

  /** http2d_avl_check. */
  method Check(avl: Avl) returns (ret: Ret)
    requires avl.Valid()
    ensures ret == RetOk
  {
    ret := NodeCheck(avl.root, Snap(avl.Repr()), Top, avl.shape);
  }

  // ---------------------------------------------------------------- teardown

  /** A field access that is only allowed before the node is released. */
  function Access(n: Node, ghost freed: seq<Node>): (r: (Node?, bool, Node?, bool))
    requires n !in freed
    reads n
    ensures r == (n.left, n.leftChild, n.right, n.rightChild)
  {
    (n.left, n.leftChild, n.right, n.rightChild)
  }

  /** node_next, while the nodes in freed are already gone. */
  method NextUnfreed(node: Node, ghost m: Mem, ghost c: Ctx, ghost t: Tree, ghost freed: seq<Node>) returns (tmp: Node?)
    requires t.Fork? && t.n == node && Fits(m, t, Lo(c), Hi(c)) && m == Snap(m.Keys)
    requires node !in freed && forall n :: n in InOrder(t.right) ==> n !in freed
    ensures tmp == if t.right.Fork? then First(t.right) else Hi(c)
  {
    FitsFork(m, t, Lo(c), Hi(c));
    tmp := Access(node, freed).2;
    if Access(node, freed).3 {
      ghost var u, h := t.right, Hi(c);
      while Access(tmp, freed).1
        invariant u.Fork? && tmp == u.n && Fits(m, u, node, h) && First(u) == First(t.right)
        invariant tmp.Fields() == Expected(u.left, u.right, node, h)
        invariant forall n :: n in InOrder(u) ==> n !in freed
        invariant tmp in InOrder(u)
        decreases u
      {
        tmp := Access(tmp, freed).0;
        u, h := u.left, u.n;
      }
    }
  }

  /** http2d_avl_mrproper: releases every node exactly once, in key order, after reading its successor,
      and never looks at a released node. */
  method MrProper(avl: Avl) returns (freed: seq<Node>)
    requires avl.Valid()
    ensures freed == avl.Nodes() && Distinct(freed)
  {
    hide InOrder, Fits, Balanced, Sorted, Before, After, Distinct;
    freed := [];
    ghost var s, m, t := avl.Nodes(), Snap(avl.Repr()), avl.shape;
    SortedDistinct(ByRank(avl.ignoreCase), s);
    BeforeTop();
    if avl.root == null {
      LeafNodes();
      return;
    }
    FirstIsHead(t);
    var node: Node? := Avl.Leftmost(avl.root, m, t, null, null);
    while node != null
      invariant freed <= s && node == At(s, |freed|)
      decreases |s| - |freed|
    {
      var here: Node := node;
      ghost var c, u := Locate(Top, t, |freed|);
      PlugFits(m, c, u);
      NeighboursInOrder(c, u);
      RestUnfreed(c, u, freed);
      var next := NextUnfreed(here, m, c, u, freed);
      freed := freed + [here];
      node := next;
    }
  }

  lemma RestUnfreed(c: Ctx, t: Tree, freed: seq<Node>)
    requires t.Fork? && Distinct(InOrder(Plug(c, t))) && freed <= InOrder(Plug(c, t))
    requires |freed| == |Before(c)| + |InOrder(t.left)|
    ensures t.n !in freed && forall n :: n in InOrder(t.right) ==> n !in freed
  {
    hide InOrder, Plug, Before, After, Distinct;
    PlugInOrder(c, t);
    AroundFork(c, t);
    var s, a, b := InOrder(Plug(c, t)), Before(c) + InOrder(t.left), [t.n] + (InOrder(t.right) + After(c));
    assert s == a + b;
    assert freed == s[..|freed|] == a;
    DistinctParts(a, b);
    assert t.n in b;
  }
}
