/** The threaded AVL tree of src/avl_generic.c, keyed as in src/avl.c. */
module AvlTree {
  import opened Common
  import opened AvlKeys
  import opened AvlShape
  import opened AvlRotate
  import opened AvlContext
  import opened AvlOrder
  import opened AvlRemove

  datatype Ret = RetOk | RetError | RetNotFound

  class Avl {
    var root: Node?
    const ignoreCase: bool
    ghost var shape: Tree

    constructor (ignoreCase: bool)
      ensures Valid() && this.ignoreCase == ignoreCase && root == null && shape == Leaf && Contents() == map[]
    {
      root, shape := null, Leaf;
      this.ignoreCase := ignoreCase;
    }

    /** The nodes of the tree in key order. */
    ghost function Nodes(): seq<Node>
      reads this
    {
      InOrder(shape)
    }

    ghost function Repr(): set<Node>
      reads this
    {
      NodeSet(Nodes())
    }

    /** Child links, both kinds of thread, exact balance fields, AVL balance and search order. */
    ghost predicate Valid()
      reads this, Repr()
    {
      && root == shape.Root()
      && Fits(Snap(Repr()), shape, null, null)
      && Balanced(shape)
      && Sorted(ByRank(ignoreCase), Nodes())
    }

    /** The finite map from key ranks to values. */
    ghost function Contents(): map<int, Value>
      reads this
    {
      Bindings(ByRank(ignoreCase), Nodes())
    }

    ghost predicate ComparableWithAll(key: Key)
      reads this
    {
      forall n :: n in Nodes() ==> Comparable(key, n.key)
    }

    /** What the map says of a key, by spellings: a node answers to exactly the spellings of its key. */
    lemma Spellings(key: Key)
      requires Sorted(ByRank(ignoreCase), Nodes())
      ensures forall n :: n in Nodes() && SameKey(ignoreCase, key, n.key) ==>
                Rank(ignoreCase, key) in Contents() && Contents()[Rank(ignoreCase, key)] == n.value
      ensures Rank(ignoreCase, key) in Contents() ==> exists n :: n in Nodes() && SameKey(ignoreCase, key, n.key)
    {
      hide Rank, SameKey, Sorted, Bindings, InOrder;
      BindingsSpec(ByRank(ignoreCase), Nodes());
      forall n | n in Nodes()
        ensures Rank(ignoreCase, key) == ByRank(ignoreCase)(n) <==> SameKey(ignoreCase, key, n.key)
      {
        SameRankOfSpellings(ignoreCase, key, n.key);
      }
    }

    /** The node_cmp callback, as the tree code uses its result. */
    method Compare(key: Key, node: Node) returns (re: int)
      requires Comparable(key, node.key)
      ensures re < 0 <==> Rank(ignoreCase, key) < ByRank(ignoreCase)(node)
      ensures re == 0 <==> Rank(ignoreCase, key) == ByRank(ignoreCase)(node)
    {
      NodeCmpIsRankOrderIff(ignoreCase, key, node.key);
      re := NodeCmp(ignoreCase, key, node.key);
    }

    /** http2d_avl_generic_get. */
    method Get(key: Key) returns (ret: Ret, value: Value)
      requires Valid() && ComparableWithAll(key)
      ensures key == [] ==> ret == RetError
      ensures key != [] && Rank(ignoreCase, key) in Contents() ==>
                ret == RetOk && value == Contents()[Rank(ignoreCase, key)]
      ensures key != [] && Rank(ignoreCase, key) !in Contents() ==> ret == RetNotFound
      ensures key != [] ==>
                (ret == RetOk <==> exists n :: n in Nodes() && SameKey(ignoreCase, key, n.key))
      ensures key != [] ==>
                forall n :: n in Nodes() && SameKey(ignoreCase, key, n.key) ==> value == n.value
    {
      ghost var k, m, rk := Rank(ignoreCase, key), Snap(Repr()), ByRank(ignoreCase);
      EmptyBindings(rk);
      hide Bindings, Fits, InOrder, Sorted, Before, After, Rank, SameKey;
      Spellings(key);
      value := 0;
      if key == [] {
        return RetError, value;
      }
      var node := root;
      if node == null {
        return RetNotFound, value;
      }
      ghost var c, t := Top, shape;
      while true
        invariant Plug(c, t) == shape && t.Fork? && node == t.n && Brackets(rk, c, k)
        decreases t
      {
        SearchAt(m, c, t);
        var re := Compare(key, node);
        if re == 0 {
          SearchHit(rk, c, t);
          return RetOk, node.value;
        } else if re < 0 {
          SearchLeft(rk, c, t, k);
          c, t := InLeft(c, t.n, t.right), t.left;
          if !node.leftChild {
            SearchMiss(rk, c, k);
            return RetNotFound, value;
          }
          node := node.left;
        } else {
          SearchRight(rk, c, t, k);
          c, t := InRight(c, t.left, t.n), t.right;
          if !node.rightChild {
            SearchMiss(rk, c, k);
            return RetNotFound, value;
          }
          node := node.right;
        }
      }
    }

    /** The descent node_add and http2d_avl_generic_del share: walk towards the key, recording the
        ancestors in the path array, until the key is found or the side to take has no child. */
    method Descend(key: Key, path: array<Node?>)
      returns (idx: nat, node: Node, re: int, ghost c: Ctx, ghost t: Tree)
      requires Valid() && root != null && ComparableWithAll(key) && |Nodes()| < MAX_NODES
      requires path.Length == MAX_HEIGHT
      modifies path
      ensures t.Fork? && node == t.n && Plug(c, t) == shape
      ensures 1 <= idx <= MAX_HEIGHT && path[..idx] == [null] + Path(c) && idx + Height(t) <= MAX_HEIGHT + 1
      ensures re == 0 ==> Rank(ignoreCase, key) == ByRank(ignoreCase)(node)
      ensures re < 0 ==> t.left.Leaf?
      ensures re < 0 ==> Brackets(ByRank(ignoreCase), InLeft(c, t.n, t.right), Rank(ignoreCase, key))
      ensures re > 0 ==> t.right.Leaf?
      ensures re > 0 ==> Brackets(ByRank(ignoreCase), InRight(c, t.left, t.n), Rank(ignoreCase, key))
    {
      hide Fits, FitsCtx, InOrder, Balanced, Before, After, Height, Sorted, Around, Brackets, Rank;
      ghost var k, m, rk := Rank(ignoreCase, key), Snap(Repr()), ByRank(ignoreCase);
      EmptyBindings(rk);
      HeightFitsPath(shape);
      path[0] := null;
      idx, node := 1, root;
      c, t := Top, shape;
      while true
        invariant Plug(c, t) == shape && t.Fork? && node == t.n && Brackets(rk, c, k)
        invariant 1 <= idx <= MAX_HEIGHT && path[..idx] == [null] + Path(c)
        invariant idx + Height(t) <= MAX_HEIGHT + 1
        decreases t
      {
        SearchAt(m, c, t);
        HeightFork(t);
        re := Compare(key, node);
        if re == 0 {
          return;
        } else if re < 0 {
          SearchLeft(rk, c, t, k);
          if !node.leftChild {
            return;
          }
          HeightFork(t.left);
          path[idx] := node;
          idx := idx + 1;
          node := node.left;
          c, t := InLeft(c, t.n, t.right), t.left;
        } else {
          SearchRight(rk, c, t, k);
          if !node.rightChild {
            return;
          }
          HeightFork(t.right);
          path[idx] := node;
          idx := idx + 1;
          node := node.right;
          c, t := InRight(c, t.left, t.n), t.right;
        }
      }
    }

    /** Hang the subtree now rooted at top where the one rooted at node was. */
    method Hang(top: Node, parent: Node?, isLeft: bool, ghost S: set<Node>,
                ghost c: Ctx, ghost node: Node, ghost u: Tree, ghost h: nat)
      requires u.Fork? && u.n == top
      requires FitsCtx(Snap(S), c, node, h) && Fits(Snap(S), u, Lo(c), Hi(c))
      requires Distinct(Around(c, u)) && (c.Top? || c.n in S)
      requires parent == (if c.Top? then null else c.n) && isLeft == c.InLeft?
      requires !c.Top? ==> root == Plug(c, u).Root()
      modifies this`root, S
      ensures FitsCtx(Snap(S), c, top, h) && Fits(Snap(S), u, Lo(c), Hi(c))
      ensures root == Plug(c, u).Root()
    {
      ghost var m := Snap(S);
      if parent == null {
        root := top;
      } else if isLeft {
        parent.left := top;
      } else {
        parent.right := top;
      }
      if !c.Top? {
        ParentDistinct(c, u);
        RerootCtx(m, Snap(S), c, node, top, u, h);
        FitsFrame(m, Snap(S), u, Lo(c), Hi(c));
      }
    }

    /** The step both rebalancing loops share: restore one node that is off by two and hang the new
        subtree root where the old one was. */
    method Settle(node: Node, parent: Node?, isLeft: bool,
                  ghost S: set<Node>, ghost c: Ctx, ghost t: Tree, ghost h: nat)
      returns (top: Node, ghost u: Tree)
      requires t.Fork? && t.n == node && Balanced(t.left) && Balanced(t.right) && -2 <= Tilt(t) <= 2
      requires FitsCtx(Snap(S), c, node, h) && Fits(Snap(S), t, Lo(c), Hi(c))
      requires Distinct(Around(c, t)) && NodeSet(Around(c, t)) <= S
      requires parent == (if c.Top? then null else c.n) && isLeft == c.InLeft?
      requires root == Plug(c, t).Root()
      modifies this`root, S
      ensures Settled(t, u) && top == u.n && top.balance == Tilt(u)
      ensures FitsCtx(Snap(S), c, top, h) && Fits(Snap(S), u, Lo(c), Hi(c))
      ensures root == Plug(c, u).Root()
    {
      hide Fits, FitsCtx, InOrder, Plug, Balanced, Height, Distinct;
      top, u := node, t;
      if -1 <= Tilt(t) <= 1 { AlreadySettled(t); }
      FitsFork(Snap(S), t, Lo(c), Hi(c));
      if node.balance < -1 || node.balance > 1 {
        HoleDistinct(c, t);
        ghost var m := Snap(S);
        top, u := NodeBalance(node, S, t, Lo(c), Hi(c));
        FitsCtxFrame(m, Snap(S), c, node, h);
        if !c.Top? {
          PlugRoot(c, t, u);
          ParentInside(c);
        }
        Hang(top, parent, isLeft, S, c, node, u, h);
        FitsFork(Snap(S), u, Lo(c), Hi(c));
      }
    }

    /** Correct the parent's balance field; the parent becomes the subtree to look at. */
    method Bump(parent: Node, delta: int, ghost S: set<Node>, ghost c: Ctx, ghost t: Tree, ghost h: nat)
      requires !c.Top? && c.n == parent && t.Fork? && delta == if c.InLeft? then h - Height(t) else Height(t) - h
      requires FitsCtx(Snap(S), c, t.n, h) && Fits(Snap(S), t, Lo(c), Hi(c)) && Distinct(Around(c, t))
      modifies S
      ensures Fits(Snap(S), Wrap(c, t), Lo(c.up), Hi(c.up)) && FitsCtx(Snap(S), c.up, parent, WrapHeight(c, h))
    {
      ghost var m := Snap(S);
      parent.balance := parent.balance + delta;
      RaiseFits(m, Snap(S), c, t, h);
    }

    /** Second loop of node_add: from the parent of the new node towards the root. */
    method RebalanceGrown(path: array<Node?>, depth: nat, start: Node,
                          ghost S: set<Node>, ghost c0: Ctx, ghost t0: Tree, ghost h0: nat)
      returns (ghost t: Tree)
      requires 1 <= depth <= path.Length && path[..depth] == [null] + Path(c0)
      requires Grown(t0, h0) && start == t0.n && BalancedCtx(c0, h0)
      requires FitsCtx(Snap(S), c0, t0.n, h0) && Fits(Snap(S), t0, Lo(c0), Hi(c0))
      requires Distinct(Around(c0, t0)) && NodeSet(Around(c0, t0)) <= S
      requires root == Plug(c0, t0).Root()
      modifies this`root, S
      ensures InOrder(t) == Around(c0, t0) && Balanced(t)
      ensures Fits(Snap(S), t, null, null) && root == t.Root()
    {
      hide Fits, FitsCtx, InOrder, Plug, Balanced, BalancedCtx, Path, Before, After, Height, Distinct;
      var idx, node := depth, start;
      ghost var c, h, p := c0, h0, path[..];
      t := t0;
      while true
        invariant 1 <= idx <= path.Length && path[..] == p && p[..idx] == [null] + Path(c)
        invariant Grown(t, h) && node == t.n && BalancedCtx(c, h)
        invariant FitsCtx(Snap(S), c, t.n, h) && Fits(Snap(S), t, Lo(c), Hi(c))
        invariant Around(c, t) == Around(c0, t0) && root == Plug(c, t).Root()
        decreases idx
      {
        PathTop(p, idx, c);
        idx := idx - 1;
        var parent := path[idx];
        if !c.Top? { IsLeftTest(Snap(S), c, t, h); }
        var isLeft := parent != null && parent.left == node;
        node, t := Settle(node, parent, isLeft, S, c, t, h);
        if node.balance == 0 || parent == null {
          break;
        }
        GrownParent(c, t, h);
        WrapAround(c, t);
        Bump(parent, if isLeft then -1 else 1, S, c, t, h);
        node := parent;
        c, t, h := c.up, Wrap(c, t), WrapHeight(c, h);
      }
      PlugWhole(Snap(S), c, t, h);
      t := Plug(c, t);
    }

    /** Where the search of node_add ran out on the left: hang child there, threaded to its neighbours. */
    method LinkLeft(node: Node, child: Node, ghost S: set<Node>, ghost c: Ctx, ghost t: Tree)
      requires t.Fork? && t.n == node && t.left.Leaf? && Balanced(t) && child in S && child != node
      requires child.Fields() == Cell(null, null, false, false, 0)
      requires FitsCtx(Snap(S), c, node, Height(t)) && Fits(Snap(S), t, Lo(c), Hi(c))
      requires child !in Around(c, t) && Distinct(Around(c, t))
      modifies node, child
      ensures var u := Fork(Fork(Leaf, child, Leaf), node, t.right);
              && Grown(u, Height(t)) && Fits(Snap(S), u, Lo(c), Hi(c))
              && FitsCtx(Snap(S), c, node, Height(t))
    {
      hide Fits, FitsCtx, InOrder, Distinct, Height, Balanced, Around, Grown;
      ghost var m := Snap(S);
      FitsFork(m, t, Lo(c), Hi(c));
      child.left := node.left;
      child.right := node;
      node.left := child;
      node.leftChild := true;
      node.balance := node.balance - 1;
      LinkLeftFits(m, Snap(S), c, t, child);
    }

    /** Where the search of node_add ran out on the right: hang child there, threaded to its neighbours. */
    method LinkRight(node: Node, child: Node, ghost S: set<Node>, ghost c: Ctx, ghost t: Tree)
      requires t.Fork? && t.n == node && t.right.Leaf? && Balanced(t) && child in S && child != node
      requires child.Fields() == Cell(null, null, false, false, 0)
      requires FitsCtx(Snap(S), c, node, Height(t)) && Fits(Snap(S), t, Lo(c), Hi(c))
      requires child !in Around(c, t) && Distinct(Around(c, t))
      modifies node, child
      ensures var u := Fork(t.left, node, Fork(Leaf, child, Leaf));
              && Grown(u, Height(t)) && Fits(Snap(S), u, Lo(c), Hi(c))
              && FitsCtx(Snap(S), c, node, Height(t))
    {
      hide Fits, FitsCtx, InOrder, Distinct, Height, Balanced, Around, Grown;
      ghost var m := Snap(S);
      FitsFork(m, t, Lo(c), Hi(c));
      child.right := node.right;
      child.left := node;
      node.right := child;
      node.rightChild := true;
      node.balance := node.balance + 1;
      LinkRightFits(m, Snap(S), c, t, child);
    }

    /** Rebalance after child was linked at the given hole, and record the new shape. */
    method Grow(path: array<Node?>, depth: nat, node: Node, ghost child: Node, ghost hole: Ctx, ghost t: Tree)
      requires !hole.Top? && Plug(hole, Leaf) == shape && Wrap(hole, Leaf) == t && t.n == node
      requires 1 <= depth <= path.Length && path[..depth] == [null] + Path(hole.up)
      requires var u := Wrap(hole, Fork(Leaf, child, Leaf));
               && Grown(u, Height(t)) && FitsCtx(Snap(Repr() + {child}), hole.up, node, Height(t))
               && Fits(Snap(Repr() + {child}), u, Lo(hole.up), Hi(hole.up))
      requires root == shape.Root() && Balanced(shape) && Sorted(ByRank(ignoreCase), Nodes())
      requires Brackets(ByRank(ignoreCase), hole, Rank(ignoreCase, child.key))
      modifies this, Repr(), child
      ensures Valid() && Repr() == old(Repr()) + {child}
      ensures Contents() == old(Contents())[Rank(ignoreCase, child.key) := child.value]
    {
      hide Fits, FitsCtx, InOrder, Plug, Balanced, BalancedCtx, Path, Before, After, Height, Sorted, Bindings;
      ghost var S, c, leaf := Repr() + {child}, hole.up, Fork(Leaf, child, Leaf);
      ghost var rk, u := ByRank(ignoreCase), Wrap(hole, leaf);
      InsertAtHole(rk, hole, child);
      SortedDistinct(rk, Around(hole, leaf));
      WrapAround(hole, leaf);
      WrapAround(hole, Leaf);
      PlugBalanced(c, t);
      if !c.Top? { PlugRoot(c, t, u); } else { PlugTop(t); PlugTop(u); }
      ghost var s := RebalanceGrown(path, depth, node, S, c, u, Height(t));
      shape := s;
      assert Repr() == S;
    }

    /** Insert below node on its free left side. */
    method InsertLeft(path: array<Node?>, depth: nat, node: Node, child: Node, ghost c: Ctx, ghost t: Tree)
      requires Valid() && child !in Nodes() && child.Fields() == Cell(null, null, false, false, 0)
      requires Plug(c, t) == shape && t.Fork? && t.n == node && t.left.Leaf?
      requires 1 <= depth <= path.Length && path[..depth] == [null] + Path(c)
      requires Brackets(ByRank(ignoreCase), InLeft(c, t.n, t.right), Rank(ignoreCase, child.key))
      modifies this, Repr(), child
      ensures Valid() && Repr() == old(Repr()) + {child}
      ensures Rank(ignoreCase, child.key) !in old(Contents())
      ensures Contents() == old(Contents())[Rank(ignoreCase, child.key) := child.value]
    {
      hide Fits, FitsCtx, InOrder, Balanced, BalancedCtx, Before, After, Height, Sorted, Bindings, Plug, Path,
           Around, Distinct, Grown, Lo, Hi, Rank, Brackets;
      ghost var S, hole := Repr() + {child}, InLeft(c, t.n, t.right);
      OpenAt(Snap(Repr()), Snap(S), c, t);
      PlugLeaf(c, t);
      SearchMiss(ByRank(ignoreCase), hole, Rank(ignoreCase, child.key));
      SortedDistinct(ByRank(ignoreCase), Nodes());
      LinkLeft(node, child, S, c, t);
      Grow(path, depth, node, child, hole, t);
    }

    /** Insert below node on its free right side. */
    method InsertRight(path: array<Node?>, depth: nat, node: Node, child: Node, ghost c: Ctx, ghost t: Tree)
      requires Valid() && child !in Nodes() && child.Fields() == Cell(null, null, false, false, 0)
      requires Plug(c, t) == shape && t.Fork? && t.n == node && t.right.Leaf?
      requires 1 <= depth <= path.Length && path[..depth] == [null] + Path(c)
      requires Brackets(ByRank(ignoreCase), InRight(c, t.left, t.n), Rank(ignoreCase, child.key))
      modifies this, Repr(), child
      ensures Valid() && Repr() == old(Repr()) + {child}
      ensures Rank(ignoreCase, child.key) !in old(Contents())
      ensures Contents() == old(Contents())[Rank(ignoreCase, child.key) := child.value]
    {
      hide Fits, FitsCtx, InOrder, Balanced, BalancedCtx, Before, After, Height, Sorted, Bindings, Plug, Path,
           Around, Distinct, Grown, Lo, Hi, Rank, Brackets;
      ghost var S, hole := Repr() + {child}, InRight(c, t.left, t.n);
      OpenAt(Snap(Repr()), Snap(S), c, t);
      PlugLeaf(c, t);
      SearchMiss(ByRank(ignoreCase), hole, Rank(ignoreCase, child.key));
      SortedDistinct(ByRank(ignoreCase), Nodes());
      LinkRight(node, child, S, c, t);
      Grow(path, depth, node, child, hole, t);
    }

    /** node_add. */
    method NodeAdd(child: Node) returns (ret: Ret)
      requires Valid() && child !in Nodes() && child.Fields() == Cell(null, null, false, false, 0)
      requires ComparableWithAll(child.key) && |Nodes()| < MAX_NODES
      modifies this, Repr(), child
      ensures Valid()
      ensures Rank(ignoreCase, child.key) in old(Contents()) ==>
                && ret == RetError && shape == old(shape) && root == old(root)
                && Snap(Repr()) == old(Snap(Repr()))
      ensures Rank(ignoreCase, child.key) !in old(Contents()) ==>
                && ret == RetOk && Repr() == old(Repr()) + {child}
                && Contents() == old(Contents())[Rank(ignoreCase, child.key) := child.value]
    {
      hide Fits, FitsCtx, InOrder, Balanced, BalancedCtx, Before, After, Height, Sorted, Bindings, Plug, Path,
           Around, Distinct, Grown, Lo, Hi, Rank, Brackets;
      ghost var k, m, rk := Rank(ignoreCase, child.key), Snap(Repr()), ByRank(ignoreCase);
      EmptyBindings(rk);
      if root == null {
        SingleNode(rk, Snap({child}), child);
        root := child;
        shape := Fork(Leaf, child, Leaf);
        return RetOk;
      }
      var path := new Node?[MAX_HEIGHT];
      var idx, node, re;
      ghost var c, t;
      idx, node, re, c, t := Descend(child.key, path);
      if re == 0 {
        SearchHit(rk, c, t);
        return RetError;
      } else if re < 0 {
        InsertLeft(path, idx, node, child, c, t);
      } else {
        InsertRight(path, idx, node, child, c, t);
      }
      return RetOk;
    }

    /** http2d_avl_add with http2d_avl_generic_add: a new binding, or ret_error and no change. */
    method Add(key: Key, value: Value) returns (ret: Ret)
      requires Valid() && ComparableWithAll(key) && |Nodes()| < MAX_NODES
      modifies this, Repr()
      ensures Valid() && fresh(Repr() - old(Repr()))
      ensures forall n :: n in Repr() && n !in old(Repr()) ==> n.key == key && n.value == value
      ensures key == [] || Rank(ignoreCase, key) in old(Contents()) ==>
                ret == RetError && shape == old(shape) && root == old(root) && Snap(Repr()) == old(Snap(Repr()))
      ensures key != [] && Rank(ignoreCase, key) !in old(Contents()) ==>
                ret == RetOk && Contents() == old(Contents())[Rank(ignoreCase, key) := value]
      ensures ret == RetOk <==> key != [] && forall n :: n in old(Nodes()) ==> !SameKey(ignoreCase, key, n.key)
    {
      hide Fits, InOrder, Balanced, Sorted, Bindings, Rank, SameKey;
      Spellings(key);
      ghost var S, ns := Repr(), Nodes();
      assert forall n :: n in ns ==> n in S;
      var child := new Node(key, value);
      assert child !in S && Snap(S) == old(Snap(S));
      if key == [] {
        return RetError;
      }
      ret := NodeAdd(child);
    }

    /** The leftmost node of a subtree. */
    static method Leftmost(start: Node, ghost m: Mem, ghost t: Tree, ghost lo: Node?, ghost hi: Node?)
      returns (tmp: Node)
      requires t.Fork? && start == t.n && Fits(m, t, lo, hi) && m == Snap(m.Keys)
      ensures tmp == First(t)
    {
      tmp := start;
      ghost var u, h := t, hi;
      while tmp.leftChild
        invariant u.Fork? && tmp == u.n && Fits(m, u, lo, h) && First(u) == First(t)
        invariant tmp.Fields() == Expected(u.left, u.right, lo, h)
        decreases u
      {
        tmp := tmp.left;
        u, h := u.left, u.n;
      }
    }

    /** The rightmost node of a subtree. */
    static method Rightmost(start: Node, ghost m: Mem, ghost t: Tree, ghost lo: Node?, ghost hi: Node?)
      returns (tmp: Node)
      requires t.Fork? && start == t.n && Fits(m, t, lo, hi) && m == Snap(m.Keys)
      ensures tmp == Last(t)
    {
      tmp := start;
      ghost var u, l := t, lo;
      while tmp.rightChild
        invariant u.Fork? && tmp == u.n && Fits(m, u, l, hi) && Last(u) == Last(t)
        invariant tmp.Fields() == Expected(u.left, u.right, l, hi)
        decreases u
      {
        tmp := tmp.right;
        u, l := u.right, u.n;
      }
    }

    /** node_next: the in-order successor, or null after the last node. */
    static method NodeNext(node: Node, ghost m: Mem, ghost c: Ctx, ghost t: Tree) returns (tmp: Node?)
      requires t.Fork? && t.n == node && Fits(m, t, Lo(c), Hi(c)) && m == Snap(m.Keys)
      ensures tmp == if t.right.Fork? then First(t.right) else Hi(c)
    {
      FitsFork(m, t, Lo(c), Hi(c));
      tmp := node.right;
      if node.rightChild {
        tmp := Leftmost(tmp, m, t.right, node, Hi(c));
      }
    }

    /** node_prev: the in-order predecessor, or null before the first node. */
    static method NodePrev(node: Node, ghost m: Mem, ghost c: Ctx, ghost t: Tree) returns (tmp: Node?)
      requires t.Fork? && t.n == node && Fits(m, t, Lo(c), Hi(c)) && m == Snap(m.Keys)
      ensures tmp == if t.left.Fork? then Last(t.left) else Lo(c)
    {
      FitsFork(m, t, Lo(c), Hi(c));
      tmp := node.left;
      if node.leftChild {
        tmp := Rightmost(tmp, m, t.left, Lo(c), node);
      }
    }

    /** Deleting a node without children. */
    method UnlinkLeaf(node: Node, parent: Node?, isLeft: bool, ghost S: set<Node>, ghost c: Ctx, ghost t: Tree)
      requires t.Fork? && t.n == node && t.left.Leaf? && t.right.Leaf?
      requires FitsCtx(Snap(S), c, node, Height(t)) && Fits(Snap(S), t, Lo(c), Hi(c)) && Distinct(Around(c, t))
      requires parent == (if c.Top? then null else c.n) && isLeft == c.InLeft?
      modifies this`root, S
      ensures parent == null ==> root == Remainder(t).Root() && Fits(Snap(S), Remainder(t), null, null)
      ensures parent != null ==>
                && root == old(root) && Fits(Snap(S), Wrap(c, Remainder(t)), Lo(c.up), Hi(c.up))
                && FitsCtx(Snap(S), c.up, parent, WrapHeight(c, Height(t)))
    {
      hide Fits, FitsCtx, InOrder, Distinct, Before, After, Around, Height;
      ghost var m := Snap(S);
      HoleDistinct(c, t);
      ParentKnown(m, c, node, Height(t));
      FitsFork(m, t, Lo(c), Hi(c));
      ghost var m1 := Snap(S);
      RemainderFits(m, m1, t, Lo(c), Hi(c));
      if parent == null {
        root := null;
      } else if isLeft {
        parent.leftChild := false;
        parent.left := node.left;
        parent.balance := parent.balance + 1;
      } else {
        parent.rightChild := false;
        parent.right := node.right;
        parent.balance := parent.balance - 1;
      }
      if !c.Top? {
        assert parent.Fields() == ParentCell(m, c, t);
        RemoveFits(m, m1, Snap(S), c, t);
      }
    }

    /** The only child of the deleted node takes its place. */
    method Promote(child: Node, parent: Node?, isLeft: bool,
                   ghost S: set<Node>, ghost m: Mem, ghost c: Ctx, ghost t: Tree)
      requires t.Fork? && t.left.Leaf? != t.right.Leaf? && child == Remainder(t).n
      requires FitsCtx(m, c, t.n, Height(t)) && Fits(m, t, Lo(c), Hi(c)) && Distinct(Around(c, t))
      requires Rethreaded(m, Snap(S), t, Lo(c), Hi(c)) && m.Keys == S
      requires parent == (if c.Top? then null else c.n) && isLeft == c.InLeft?
      modifies this`root, S
      ensures parent == null ==> root == child && Fits(Snap(S), Remainder(t), null, null)
      ensures parent != null ==>
                && root == old(root) && Fits(Snap(S), Wrap(c, Remainder(t)), Lo(c.up), Hi(c.up))
                && FitsCtx(Snap(S), c.up, parent, WrapHeight(c, Height(t)))
    {
      hide Fits, FitsCtx, InOrder, Distinct, Before, After, Around, Height;
      ghost var m1 := Snap(S);
      HoleDistinct(c, t);
      ParentKnown(m, c, t.n, Height(t));
      RemainderFits(m, m1, t, Lo(c), Hi(c));
      if t.left.Fork? { LastKnown(m, t, Lo(c), Hi(c)); } else { FirstKnown(m, t, Lo(c), Hi(c)); }
      if parent == null {
        root := child;
      } else if isLeft {
        parent.left := child;
        parent.balance := parent.balance + 1;
      } else {
        parent.right := child;
        parent.balance := parent.balance - 1;
      }
      if !c.Top? {
        RemoveFits(m, m1, Snap(S), c, t);
      }
    }

    /** Deleting a node that has only a right child. */
    method UnlinkWithRight(node: Node, parent: Node?, isLeft: bool, ghost S: set<Node>, ghost c: Ctx, ghost t: Tree)
      requires t.Fork? && t.n == node && t.left.Leaf? && t.right.Fork?
      requires FitsCtx(Snap(S), c, node, Height(t)) && Fits(Snap(S), t, Lo(c), Hi(c)) && Distinct(Around(c, t))
      requires parent == (if c.Top? then null else c.n) && isLeft == c.InLeft?
      modifies this`root, S
      ensures parent == null ==> root == Remainder(t).Root() && Fits(Snap(S), Remainder(t), null, null)
      ensures parent != null ==>
                && root == old(root) && Fits(Snap(S), Wrap(c, Remainder(t)), Lo(c.up), Hi(c.up))
                && FitsCtx(Snap(S), c.up, parent, WrapHeight(c, Height(t)))
    {
      hide Fits, FitsCtx, InOrder, Distinct, Before, After, Around, Height;
      ghost var m := Snap(S);
      FitsFork(m, t, Lo(c), Hi(c));
      var tmp := NodeNext(node, m, c, t);
      FirstKnown(m, t, Lo(c), Hi(c));
      tmp.left := node.left;
      assert Snap(S) == m[tmp := m[tmp].(left := Lo(c))];
      Promote(node.right, parent, isLeft, S, m, c, t);
    }

    /** Deleting a node that has only a left child. */
    method UnlinkWithLeft(node: Node, parent: Node?, isLeft: bool, ghost S: set<Node>, ghost c: Ctx, ghost t: Tree)
      requires t.Fork? && t.n == node && t.right.Leaf? && t.left.Fork?
      requires FitsCtx(Snap(S), c, node, Height(t)) && Fits(Snap(S), t, Lo(c), Hi(c)) && Distinct(Around(c, t))
      requires parent == (if c.Top? then null else c.n) && isLeft == c.InLeft?
      modifies this`root, S
      ensures parent == null ==> root == Remainder(t).Root() && Fits(Snap(S), Remainder(t), null, null)
      ensures parent != null ==>
                && root == old(root) && Fits(Snap(S), Wrap(c, Remainder(t)), Lo(c.up), Hi(c.up))
                && FitsCtx(Snap(S), c.up, parent, WrapHeight(c, Height(t)))
    {
      hide Fits, FitsCtx, InOrder, Distinct, Before, After, Around, Height;
      ghost var m := Snap(S);
      FitsFork(m, t, Lo(c), Hi(c));
      var tmp := NodePrev(node, m, c, t);
      LastKnown(m, t, Lo(c), Hi(c));
      tmp.right := node.right;
      assert Snap(S) == m[tmp := m[tmp].(right := Hi(c))];
      Promote(node.left, parent, isLeft, S, m, c, t);
    }

    /** One more node on the way down. */
    static method RecordRib(path: array<Node?>, base: nat, idx: nat, next: Node, ghost ribs: seq<Node>)
      requires base <= idx < path.Length - 1 && path[base + 1..idx + 1] == ribs
      modifies path
      ensures path[..base] == old(path[..base]) && path[base + 1..idx + 2] == ribs + [next]
    {
      path[idx + 1] := next;
      assert path[base + 1..idx + 2] == path[base + 1..idx + 1] + [path[idx + 1]];
    }

    /** Two children: find the in-order successor of node, recording the way down in the path array
        from slot base + 1 on. */
    method FindNext(path: array<Node?>, base: nat, node: Node, ghost m: Mem, ghost c: Ctx, ghost t: Tree)
      returns (next: Node, nextp: Node, idx: nat, ghost s: seq<Rib>, ghost nr: Tree)
      requires t.Fork? && t.n == node && t.right.Fork? && m == Snap(m.Keys)
      requires Fits(m, Plug(c, t), null, null) && Height(Plug(c, t)) <= MAX_HEIGHT
      requires path.Length == MAX_HEIGHT && base == |Path(c)| + 1
      modifies path
      ensures Plug(Spine(InRight(c, t.left, node), s), Fork(Leaf, next, nr)) == Plug(c, t)
      ensures nextp == (if s == [] then node else s[|s| - 1].n) && |s| == |RibNodes(s)|
      ensures idx == base + |s| && idx < MAX_HEIGHT
      ensures path[..base] == old(path[..base]) && path[base + 1..idx + 1] == RibNodes(s)
    {
      hide Fits, FitsCtx, InOrder, Height, Plug, Path, Before, After, RibNodes, Spine, Around, Hi;
      s := [];
      NoRibs();
      ghost var w := t.right;
      PlugRight(c, t);
      SpineAt(m, c, t.left, node, s, w);
      SearchAt(m, c, t);
      HeightFork(w);
      next, nextp, idx := node.right, node, base;
      while next.leftChild
        invariant w.Fork? && next == w.n && Plug(Spine(InRight(c, t.left, node), s), w) == Plug(c, t)
        invariant next.Fields() == Expected(w.left, w.right, node, Hi(Spine(InRight(c, t.left, node), s)))
        invariant nextp == if s == [] then node else s[|s| - 1].n
        invariant idx == base + |s| && |s| == |RibNodes(s)| && idx + Height(w) <= MAX_HEIGHT
        invariant path[..base] == old(path[..base]) && idx < MAX_HEIGHT && path[base + 1..idx + 1] == RibNodes(s)
        modifies path
        decreases w
      {
        HeightFork(w);
        SpineStep(InRight(c, t.left, node), s, w);
        SpineAt(m, c, t.left, node, s + [Rib(w.n, w.right)], w.left);
        HeightFork(w.left);
        RecordRib(path, base, idx, next, RibNodes(s));
        idx := idx + 1;
        nextp := next;
        next := next.left;
        s, w := s + [Rib(w.n, w.right)], w.left;
      }
      nr := w.right;
    }

    /** Take next out of its old place below nextp. */
    static method Detach(node: Node, next: Node, nextp: Node, ghost S: set<Node>)
      requires next != node && next != nextp && {node, next, nextp} <= S
      modifies node, next, nextp
      ensures Detached(old(Snap(S)), Snap(S), node, next, nextp)
    {
      if nextp != node {
        if next.rightChild {
          nextp.left := next.right;
        } else {
          nextp.leftChild := false;
        }
        nextp.balance := nextp.balance + 1;
        next.rightChild := true;
        next.right := node.right;
      } else {
        node.balance := node.balance - 1;
      }
    }

    /** Put next where node was, and thread the last node before it to it. */
    method Install(node: Node, next: Node, prev: Node, parent: Node?, isLeft: bool, ghost S: set<Node>)
      requires prev != next && prev != node && next != node && parent != prev && parent != next && parent != node
      requires {node, next, prev} <= S && (parent != null ==> parent in S)
      modifies this`root, S
      ensures Installed(old(Snap(S)), Snap(S), node, next, prev, parent, isLeft)
      ensures root == if parent == null then next else old(root)
    {
      prev.right := next;
      next.leftChild := true;
      next.left := node.left;
      next.balance := node.balance;
      if parent == null {
        root := next;
      } else if isLeft {
        parent.left := next;
      } else {
        parent.right := next;
      }
    }

    /** Two children: next takes the place of node. */
    method Rewire(node: Node, next: Node, nextp: Node, parent: Node?, isLeft: bool,
                  ghost S: set<Node>, ghost c: Ctx, ghost l: Tree, ghost s: seq<Rib>, ghost nr: Tree)
      requires l.Fork? && nextp == if s == [] then node else s[|s| - 1].n
      requires var d := Spine(InRight(c, l, node), s);
               && FitsCtx(Snap(S), d, next, 1 + Height(nr)) && Fits(Snap(S), Fork(Leaf, next, nr), node, Hi(d))
               && Distinct(Around(d, Fork(Leaf, next, nr)))
      requires parent == (if c.Top? then null else c.n) && isLeft == c.InLeft?
      modifies this`root, S
      ensures Replaced(old(Snap(S)), Snap(S), c, l, node, s, next, nr)
      ensures root == if parent == null then next else old(root)
    {
      hide Fits, FitsCtx, InOrder, Height, Distinct, Before, After, Around, Spine, RibsAfter, Replaced, Installed;
      ghost var m := Snap(S);
      SpineKnown(m, c, l, node, s, next, nr);
      Detach(node, next, nextp, S);
      ghost var m1 := Snap(S);
      FitsFrame(m, m1, l, Lo(c), node);
      var prev := Rightmost(node.left, m1, l, Lo(c), node);
      Install(node, next, prev, parent, isLeft, S);
      ReplacedInSteps(m, m1, Snap(S), c, l, node, s, next, nextp, nr);
    }

    /** Last loop of http2d_avl_generic_del: from the lowest node that lost height towards the root. */
    method RebalanceShrunk(path: array<Node?>, depth: nat, start: Node,
                           ghost S: set<Node>, ghost c0: Ctx, ghost t0: Tree, ghost h0: nat)
      returns (ghost t: Tree)
      requires 1 <= depth <= path.Length && path[..depth] == [null] + Path(c0)
      requires Shrunk(t0, h0) && start == t0.n && BalancedCtx(c0, h0)
      requires FitsCtx(Snap(S), c0, t0.n, h0) && Fits(Snap(S), t0, Lo(c0), Hi(c0))
      requires Distinct(Around(c0, t0)) && NodeSet(Around(c0, t0)) <= S
      requires root == Plug(c0, t0).Root()
      modifies this`root, S
      ensures InOrder(t) == Around(c0, t0) && Balanced(t)
      ensures Fits(Snap(S), t, null, null) && root == t.Root()
    {
      hide Fits, FitsCtx, InOrder, Plug, Balanced, BalancedCtx, Path, Before, After, Height, Distinct;
      var idx, pbalance := depth, start;
      ghost var c, h, p := c0, h0, path[..];
      t := t0;
      while true
        invariant 1 <= idx <= path.Length && path[..] == p && p[..idx] == [null] + Path(c)
        invariant Shrunk(t, h) && pbalance == t.n && BalancedCtx(c, h)
        invariant FitsCtx(Snap(S), c, t.n, h) && Fits(Snap(S), t, Lo(c), Hi(c))
        invariant Around(c, t) == Around(c0, t0) && root == Plug(c, t).Root()
        decreases idx
      {
        PathTop(p, idx, c);
        idx := idx - 1;
        var bparent := path[idx];
        if !c.Top? { IsLeftTest(Snap(S), c, t, h); }
        var isLeft := bparent != null && bparent.left == pbalance;
        pbalance, t := Settle(pbalance, bparent, isLeft, S, c, t, h);
        if pbalance.balance != 0 || bparent == null {
          break;
        }
        ShrunkParent(c, t, h);
        WrapAround(c, t);
        Bump(bparent, if isLeft then 1 else -1, S, c, t, h);
        pbalance := bparent;
        c, t, h := c.up, Wrap(c, t), WrapHeight(c, h);
      }
      PlugWhole(Snap(S), c, t, h);
      t := Plug(c, t);
    }

    /** Deleting a node with two children: its successor takes its place. */
    method UnlinkBoth(path: array<Node?>, base: nat, node: Node, parent: Node?, isLeft: bool,
                      ghost S: set<Node>, ghost c: Ctx, ghost t: Tree)
      returns (pbalance: Node, idx: nat, ghost d: Ctx, ghost nr: Tree, ghost h: nat)
      requires t.Fork? && t.n == node && t.left.Fork? && t.right.Fork?
      requires Fits(Snap(S), Plug(c, t), null, null) && Balanced(Plug(c, t)) && Distinct(InOrder(Plug(c, t)))
      requires root == Plug(c, t).Root() && Height(Plug(c, t)) <= MAX_HEIGHT
      requires parent == (if c.Top? then null else c.n) && isLeft == c.InLeft?
      requires path.Length == MAX_HEIGHT && 1 <= base <= MAX_HEIGHT && path[..base] == [null] + Path(c)
      modifies this`root, S, path
      ensures !d.Top? && Balanced(nr) && Height(nr) == h - 1 && BalancedCtx(d, h) && pbalance == d.n
      ensures Fits(Snap(S), Wrap(d, nr), Lo(d.up), Hi(d.up)) && FitsCtx(Snap(S), d.up, pbalance, WrapHeight(d, h))
      ensures 1 <= idx < MAX_HEIGHT && path[..idx + 1] == [null] + Path(d) && root == Plug(d, nr).Root()
      ensures Around(d, nr) == (Before(c) + InOrder(t.left)) + (InOrder(t.right) + After(c))
    {
      hide Fits, FitsCtx, InOrder, Height, Distinct, Before, After, Around, RibsAfter, Replaced, Plug, Balanced,
           BalancedCtx, Spine, Path;
      ghost var m, l := Snap(S), t.left;
      var next, nextp;
      ghost var s;
      next, nextp, idx, s, nr := FindNext(path, base, node, m, c, t);
      ReplaceStart(m, c, t, s, next, nr);
      ReplacedAround(c, t, s, next, nr);
      ReplacedRoot(c, l, node, s, next, Fork(Leaf, next, nr), nr);
      path[base] := next;
      ReplacedPath(path[..], base, c, l, s, next);
      pbalance := path[idx];
      Rewire(node, next, nextp, parent, isLeft, S, c, l, s, nr);
      ReplaceDone(m, Snap(S), c, l, node, s, next, nr);
      d, h := Spine(InRight(c, l, next), s), 1 + Height(nr);
    }

    /** Unlink a node with at most one child and restore balance above it. */
    method DeleteOuter(path: array<Node?>, depth: nat, node: Node, parent: Node?, isLeft: bool,
                       ghost S: set<Node>, ghost c: Ctx, ghost t: Tree)
      returns (ghost u: Tree)
      requires t.Fork? && t.n == node && (t.left.Leaf? || t.right.Leaf?)
      requires Fits(Snap(S), Plug(c, t), null, null) && Balanced(Plug(c, t)) && Distinct(InOrder(Plug(c, t)))
      requires root == Plug(c, t).Root() && NodeSet(InOrder(Plug(c, t))) <= S
      requires parent == (if c.Top? then null else c.n) && isLeft == c.InLeft?
      requires 1 <= depth <= path.Length && path[..depth] == [null] + Path(c)
      modifies this`root, S
      ensures InOrder(u) == Others(c, t) && Balanced(u) && Fits(Snap(S), u, null, null) && root == u.Root()
    {
      hide Fits, FitsCtx, InOrder, Height, Distinct, Before, After, Around, Plug, Balanced, BalancedCtx, Path;
      OpenAt(Snap(S), Snap(S), c, t);
      FitsFork(Snap(S), t, Lo(c), Hi(c));
      RemainderInOrder(c, t);
      RemainderBalanced(t);
      OthersDistinct(c, t);
      if !c.Top? {
        ShrunkParent(c, Remainder(t), Height(t));
        WrapAround(c, Remainder(t));
        PlugRoot(c, t, Remainder(t));
      }
      if !node.leftChild {
        if !node.rightChild {
          UnlinkLeaf(node, parent, isLeft, S, c, t);
        } else {
          UnlinkWithRight(node, parent, isLeft, S, c, t);
        }
      } else {
        UnlinkWithLeft(node, parent, isLeft, S, c, t);
      }
      u := Remainder(t);
      if parent != null {
        PathTop(path[..], depth, c);
        u := RebalanceShrunk(path, depth - 1, parent, S, c.up, Wrap(c, Remainder(t)), WrapHeight(c, Height(t)));
      } else {
        TopAround(Remainder(t));
      }
    }

    /** Unlink a node with two children and restore balance above its successor. */
    method DeleteInner(path: array<Node?>, depth: nat, node: Node, parent: Node?, isLeft: bool,
                       ghost S: set<Node>, ghost c: Ctx, ghost t: Tree)
      returns (ghost u: Tree)
      requires t.Fork? && t.n == node && t.left.Fork? && t.right.Fork?
      requires Fits(Snap(S), Plug(c, t), null, null) && Balanced(Plug(c, t)) && Distinct(InOrder(Plug(c, t)))
      requires root == Plug(c, t).Root() && Height(Plug(c, t)) <= MAX_HEIGHT && NodeSet(InOrder(Plug(c, t))) <= S
      requires parent == (if c.Top? then null else c.n) && isLeft == c.InLeft?
      requires path.Length == MAX_HEIGHT && 1 <= depth <= MAX_HEIGHT && path[..depth] == [null] + Path(c)
      modifies this`root, S, path
      ensures InOrder(u) == Others(c, t) && Balanced(u) && Fits(Snap(S), u, null, null) && root == u.Root()
    {
      hide Fits, FitsCtx, InOrder, Height, Distinct, Before, After, Plug, Balanced, BalancedCtx, Path;
      PlugInOrder(c, t);
      OthersDistinct(c, t);
      var pbalance, idx;
      ghost var d, nr, h;
      pbalance, idx, d, nr, h := UnlinkBoth(path, depth, node, parent, isLeft, S, c, t);
      ShrunkParent(d, nr, h);
      WrapAround(d, nr);
      PathTop(path[..], idx + 1, d);
      u := RebalanceShrunk(path, idx, pbalance, S, d.up, Wrap(d, nr), WrapHeight(d, h));
    }

    /** Unlink a node, whatever its children, and restore balance. */
    method DeleteNode(path: array<Node?>, depth: nat, node: Node, ghost S: set<Node>, ghost c: Ctx, ghost t: Tree)
      returns (ghost u: Tree)
      requires t.Fork? && t.n == node
      requires Fits(Snap(S), Plug(c, t), null, null) && Balanced(Plug(c, t)) && Distinct(InOrder(Plug(c, t)))
      requires root == Plug(c, t).Root() && Height(Plug(c, t)) <= MAX_HEIGHT && NodeSet(InOrder(Plug(c, t))) <= S
      requires path.Length == MAX_HEIGHT && 1 <= depth <= MAX_HEIGHT && path[..depth] == [null] + Path(c)
      modifies this`root, S, path
      ensures InOrder(u) == Others(c, t) && Balanced(u) && Fits(Snap(S), u, null, null) && root == u.Root()
    {
      hide Fits, FitsCtx, InOrder, Height, Distinct, Before, After, Plug, Balanced, BalancedCtx, Path, Around, Others;
      OpenAt(Snap(S), Snap(S), c, t);
      PathTop(path[..], depth, c);
      FitsFork(Snap(S), t, Lo(c), Hi(c));
      if !c.Top? { IsLeftTest(Snap(S), c, t, Height(t)); }
      var parent := path[depth - 1];
      var isLeft := parent != null && node == parent.left;
      if node.leftChild && node.rightChild {
        u := DeleteInner(path, depth, node, parent, isLeft, S, c, t);
      } else {
        u := DeleteOuter(path, depth, node, parent, isLeft, S, c, t);
      }
    }

    /** Delete the node a search has found. */
    method DeleteAt(path: array<Node?>, depth: nat, node: Node, ghost c: Ctx, ghost t: Tree)
      requires Valid() && |Nodes()| < MAX_NODES && Plug(c, t) == shape && t.Fork? && t.n == node
      requires path.Length == MAX_HEIGHT && 1 <= depth <= MAX_HEIGHT && path[..depth] == [null] + Path(c)
      modifies this, Repr(), path
      ensures Valid() && Repr() == old(Repr()) - {node}
      ensures Contents() == old(Contents()) - {ByRank(ignoreCase)(node)}
    {
      hide Fits, FitsCtx, InOrder, Height, Distinct, Before, After, Plug, Balanced, BalancedCtx, Path, Around, Sorted,
           Bindings, Others, Rank;
      ghost var rk, S := ByRank(ignoreCase), Repr();
      OpenAt(Snap(S), Snap(S), c, t);
      SortedDistinct(rk, Nodes());
      HeightFitsPath(shape);
      ghost var u := DeleteNode(path, depth, node, S, c, t);
      DeleteSorted(rk, Snap(S), c, t, u);
      shape := u;
    }

    /** http2d_avl_generic_del: the map without the key, or ret_not_found and no change. */
    method Del(key: Key) returns (ret: Ret, value: Value)
      requires Valid() && ComparableWithAll(key) && |Nodes()| < MAX_NODES
      modifies this, Repr()
      ensures Valid() && Repr() <= old(Repr())
      ensures key == [] ==> ret == RetError
      ensures key != [] && Rank(ignoreCase, key) !in old(Contents()) ==> ret == RetNotFound
      ensures ret != RetOk ==> shape == old(shape) && root == old(root) && Snap(Repr()) == old(Snap(Repr()))
      ensures key != [] && Rank(ignoreCase, key) in old(Contents()) ==>
                && ret == RetOk && value == old(Contents())[Rank(ignoreCase, key)]
                && Contents() == old(Contents()) - {Rank(ignoreCase, key)}
      ensures ret == RetOk <==> key != [] && exists n :: n in old(Nodes()) && SameKey(ignoreCase, key, n.key)
    {
      hide Fits, InOrder, Height, Plug, Balanced, Path, Sorted, Bindings, Brackets, Rank, SameKey;
      Spellings(key);
      value := 0;
      if key == [] {
        return RetError, value;
      }
      ghost var rk, k := ByRank(ignoreCase), Rank(ignoreCase, key);
      if root == null {
        EmptyBindings(rk);
        return RetNotFound, value;
      }
      ghost var S, m := Repr(), Snap(Repr());
      var path := new Node?[MAX_HEIGHT];
      var idx, node, re;
      ghost var c, t;
      idx, node, re, c, t := Descend(key, path);
      assert Snap(S) == m;
      PlugLeaf(c, t);
      if re == 0 {
        SearchHit(rk, c, t);
        value := node.value;
        DeleteAt(path, idx, node, c, t);
        return RetOk, value;
      } else if re < 0 {
        SearchMiss(rk, InLeft(c, t.n, t.right), k);
      } else {
        SearchMiss(rk, InRight(c, t.left, t.n), k);
      }
      return RetNotFound, value;
    }
  }
}
