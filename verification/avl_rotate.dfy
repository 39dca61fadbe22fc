/** Rotations and the local rebalancing step of src/avl_generic.c, on shapes and in memory. */
module AvlRotate {
  import opened Common
  import opened AvlShape

  ghost function RotL(t: Tree): Tree
    requires t.Fork? && t.right.Fork?
  {
    Fork(Fork(t.left, t.n, t.right.left), t.right.n, t.right.right)
  }

  ghost function RotR(t: Tree): Tree
    requires t.Fork? && t.left.Fork?
  {
    Fork(t.left.left, t.left.n, Fork(t.left.right, t.n, t.right))
  }

  /** Height of the right subtree minus height of the left one. */
  ghost function Tilt(t: Tree): int
    requires t.Fork?
  {
    Height(t.right) - Height(t.left)
  }

  lemma HeightFork(t: Tree)
    requires t.Fork?
    ensures Height(t) == 1 + Max(Height(t.left), Height(t.right))
  {
  }

  lemma RootInOrder(t: Tree)
    requires t.Fork?
    ensures t.n in InOrder(t)
  {
  }

  lemma InnerNodes(t: Tree)
    requires t.Fork?
    ensures t.n in InOrder(t)
    ensures t.left.Fork? ==> t.left.n in InOrder(t) && t.left.n in InOrder(t.left)
    ensures t.right.Fork? ==> t.right.n in InOrder(t) && t.right.n in InOrder(t.right)
    ensures t.left.Fork? && t.left.right.Fork? ==> t.left.right.n in InOrder(t) && t.left.right.n in InOrder(t.left)
    ensures t.right.Fork? && t.right.left.Fork? ==> t.right.left.n in InOrder(t) && t.right.left.n in InOrder(t.right)
  {
  }

  lemma TallSideExists(t: Tree)
    requires t.Fork?
    ensures Tilt(t) > 0 ==> t.right.Fork?
    ensures Tilt(t) < 0 ==> t.left.Fork?
  {
  }

  lemma RotLInOrder(t: Tree)
    requires t.Fork? && t.right.Fork?
    ensures InOrder(RotL(t)) == InOrder(t)
  {
    RegroupFive(InOrder(t.left), t.n, InOrder(t.right.left), t.right.n, InOrder(t.right.right));
  }

  lemma RegroupFive(a: seq<Node>, x: Node, b: seq<Node>, y: Node, c: seq<Node>)
    ensures (a + [x] + b) + [y] + c == a + [x] + (b + [y] + c)
  {
  }

  lemma RotRInOrder(t: Tree)
    requires t.Fork? && t.left.Fork?
    ensures InOrder(RotR(t)) == InOrder(t)
  {
    RotLInOrder(RotR(t));
  }

  /** What node_balance makes of t: the same nodes in the same order, balanced. A root that was off by
      two ends level and one lower, or tilted by one at the same height; it ends level whenever its
      heavy child was tilted. Any other root is left alone. */
  ghost predicate Settled(t: Tree, u: Tree)
    requires t.Fork?
  {
    && u.Fork? && Balanced(u) && InOrder(u) == InOrder(t)
    && (-1 <= Tilt(t) <= 1 ==> u == t)
    && (Tilt(t) == 2 || Tilt(t) == -2 ==>
          var heavy := if Tilt(t) > 0 then t.right else t.left;
          && Height(u) == (if Tilt(u) == 0 then Height(t) - 1 else Height(t))
          && heavy.Fork? && (Tilt(heavy) != 0 ==> Tilt(u) == 0))
  }

  lemma AlreadySettled(t: Tree)
    requires t.Fork? && Balanced(t.left) && Balanced(t.right) && -1 <= Tilt(t) <= 1
    ensures Settled(t, t)
  {
  }

  /** The single and the double rotation of a left-heavy node. */
  lemma RotationsSettleLeft(t: Tree)
    requires t.Fork? && Balanced(t.left) && Balanced(t.right) && Tilt(t) == -2
    ensures Tilt(t.left) <= 0 ==> Settled(t, RotR(t))
    ensures Tilt(t.left) > 0 ==> Settled(t, RotR(Fork(RotL(t.left), t.n, t.right)))
  {
    var l := t.left;
    if Tilt(l) > 0 {
      var Fork(b, x, c) := l.right;
      var y := Fork(l.left, l.n, b);
      assert RotL(l) == Fork(y, x, c) && Height(y) == 1 + Height(l.left);
      RotLInOrder(l);
      RotRInOrder(Fork(RotL(l), t.n, t.right));
    } else {
      RotRInOrder(t);
    }
  }

  /** The single and the double rotation of a right-heavy node. */
  lemma RotationsSettleRight(t: Tree)
    requires t.Fork? && Balanced(t.left) && Balanced(t.right) && Tilt(t) == 2
    ensures Tilt(t.right) >= 0 ==> Settled(t, RotL(t))
    ensures Tilt(t.right) < 0 ==> Settled(t, RotL(Fork(t.left, t.n, RotR(t.right))))
  {
    var r := t.right;
    if Tilt(r) < 0 {
      var Fork(b, x, c) := r.left;
      var y := Fork(c, r.n, r.right);
      assert RotR(r) == Fork(b, x, y) && Height(y) == 1 + Height(r.right);
      RotRInOrder(r);
      RotLInOrder(Fork(t.left, t.n, RotR(r)));
    } else {
      RotLInOrder(t);
    }
  }

  /** Turning the taller inner grandchild outwards leaves the height of a balanced subtree alone. */
  lemma InnerRotationKeepsHeight(t: Tree)
    requires t.Fork? && Balanced(t)
    ensures Tilt(t) > 0 ==> Height(RotL(t)) == Height(t)
    ensures Tilt(t) < 0 ==> Height(RotR(t)) == Height(t)
  {
  }

  /** m' differs from m at most in the cells of a and b. */
  ghost predicate SameBut(m: Mem, m': Mem, a: Node, b: Node) {
    forall n :: n in m && n != a && n != b ==> n in m' && m'[n] == m[n]
  }

  lemma RotLFits(m: Mem, m': Mem, t: Tree, lo: Node?, hi: Node?)
    requires t.Fork? && t.right.Fork? && Fits(m, t, lo, hi) && Distinct(InOrder(t))
    requires t.n in m' && m'[t.n] == Expected(t.left, t.right.left, lo, t.right.n)
    requires t.right.n in m' && m'[t.right.n] == Expected(RotL(t).left, t.right.right, lo, hi)
    requires SameBut(m, m', t.n, t.right.n)
    ensures Fits(m', RotL(t), lo, hi)
  {
    DistinctFork(t);
    DistinctFork(t.right);
    FitsFrame(m, m', t.left, lo, t.n);
    FitsFrame(m, m', t.right.left, t.n, t.right.n);
    FitsFrame(m, m', t.right.right, t.right.n, hi);
    assert Fits(m', RotL(t).left, lo, t.right.n);
  }

  lemma RotRFits(m: Mem, m': Mem, t: Tree, lo: Node?, hi: Node?)
    requires t.Fork? && t.left.Fork? && Fits(m, t, lo, hi) && Distinct(InOrder(t))
    requires t.n in m' && m'[t.n] == Expected(t.left.right, t.right, t.left.n, hi)
    requires t.left.n in m' && m'[t.left.n] == Expected(t.left.left, RotR(t).right, lo, hi)
    requires SameBut(m, m', t.n, t.left.n)
    ensures Fits(m', RotR(t), lo, hi)
  {
    DistinctFork(t);
    DistinctFork(t.left);
    FitsFrame(m, m', t.right, t.n, hi);
    FitsFrame(m, m', t.left.right, t.left.n, t.n);
    FitsFrame(m, m', t.left.left, lo, t.left.n);
    assert Fits(m', RotR(t).right, t.left.n, hi);
  }

  /** Replacing one subtree by another of the same height: only the child pointer changes. */
  lemma SwapLeftFits(m: Mem, m': Mem, t: Tree, l': Tree, lo: Node?, hi: Node?)
    requires t.Fork? && t.left.Fork? && l'.Fork? && Height(l') == Height(t.left)
    requires Fits(m, t, lo, hi) && Fits(m', l', lo, t.n) && Distinct(InOrder(t))
    requires t.n in m' && m'[t.n] == m[t.n].(left := l'.n)
    requires forall n :: n in m && n !in InOrder(t.left) && n != t.n ==> n in m' && m'[n] == m[n]
    ensures Fits(m', Fork(l', t.n, t.right), lo, hi)
  {
    DistinctFork(t);
    FitsFrame(m, m', t.right, t.n, hi);
  }

  lemma SwapRightFits(m: Mem, m': Mem, t: Tree, r': Tree, lo: Node?, hi: Node?)
    requires t.Fork? && t.right.Fork? && r'.Fork? && Height(r') == Height(t.right)
    requires Fits(m, t, lo, hi) && Fits(m', r', t.n, hi) && Distinct(InOrder(t))
    requires t.n in m' && m'[t.n] == m[t.n].(right := r'.n)
    requires forall n :: n in m && n !in InOrder(t.right) && n != t.n ==> n in m' && m'[n] == m[n]
    ensures Fits(m', Fork(t.left, t.n, r'), lo, hi)
  {
    DistinctFork(t);
    FitsFrame(m, m', t.left, lo, t.n);
  }

  ghost function NodeSet(s: seq<Node>): set<Node> {
    set n | n in s
  }

  /** Balance fields node_rotate_left stores in the old root and in its right child. */
  function LeftBalances(aBal: int, bBal: int): (int, int) {
    if bBal <= 0 then
      (aBal - 1, if aBal >= 1 then bBal - 1 else aBal + bBal - 2)
    else
      (aBal - bBal - 1, if aBal <= bBal then aBal - 2 else bBal - 1)
  }

  /** Balance fields node_rotate_right stores in the old root and in its left child. */
  function RightBalances(aBal: int, bBal: int): (int, int) {
    if bBal <= 0 then
      (aBal - bBal + 1, if bBal > aBal then bBal + 1 else aBal + 2)
    else
      (aBal + 1, if aBal <= -1 then bBal + 1 else aBal + bBal + 2)
  }

  /** The formulas are exact height differences for subtrees of any heights a, b, c. */
  lemma LeftBalancesExact(a: nat, b: nat, c: nat)
    ensures LeftBalances(1 + Max(b, c) - a, c - b) == (b - a, c - (1 + Max(a, b)))
  {
  }

  lemma RightBalancesExact(a: nat, b: nat, c: nat)
    ensures RightBalances(c - (1 + Max(a, b)), b - a) == (c - b, 1 + Max(b, c) - a)
  {
  }

  /** node_rotate_left. Exact balance fields for every shape, whatever the height differences. */
  method RotateLeft(node: Node, ghost S: set<Node>, ghost t: Tree, ghost lo: Node?, ghost hi: Node?)
    returns (right: Node)
    requires t.Fork? && t.n == node && t.right.Fork?
    requires Fits(Snap(S), t, lo, hi) && Distinct(InOrder(t))
    modifies node, t.right.n
    ensures right == RotL(t).n && Fits(Snap(S), RotL(t), lo, hi)
  {
    hide Fits, InOrder, Distinct, Height, LeftBalances, RightBalances;
    ghost var m := Snap(S);
    DistinctFork(t);
    HeightFork(t.right);
    HeightFork(RotL(t).left);
    RootInOrder(t.right);
    FitsFork(m, t, lo, hi);
    FitsFork(m, t.right, node, hi);
    right := node.right;
    if right.leftChild {
      node.right := right.left;
    } else {
      node.rightChild := false;
      node.right := right;
      right.leftChild := true;
    }
    right.left := node;

    LeftBalancesExact(Height(t.left), Height(t.right.left), Height(t.right.right));
    var (nodeBal, rightBal) := LeftBalances(node.balance, right.balance);
    right.balance, node.balance := rightBal, nodeBal;
    assert node.Fields() == Expected(t.left, t.right.left, lo, right);
    assert right.Fields() == Expected(RotL(t).left, t.right.right, lo, hi);
    RotLFits(m, Snap(S), t, lo, hi);
  }

  /** node_rotate_right. */
  method RotateRight(node: Node, ghost S: set<Node>, ghost t: Tree, ghost lo: Node?, ghost hi: Node?)
    returns (left: Node)
    requires t.Fork? && t.n == node && t.left.Fork?
    requires Fits(Snap(S), t, lo, hi) && Distinct(InOrder(t))
    modifies node, t.left.n
    ensures left == RotR(t).n && Fits(Snap(S), RotR(t), lo, hi)
  {
    hide Fits, InOrder, Distinct, Height, LeftBalances, RightBalances;
    ghost var m := Snap(S);
    DistinctFork(t);
    HeightFork(t.left);
    HeightFork(RotR(t).right);
    RootInOrder(t.left);
    FitsFork(m, t, lo, hi);
    FitsFork(m, t.left, lo, node);
    left := node.left;
    if left.rightChild {
      node.left := left.right;
    } else {
      node.leftChild := false;
      node.left := left;
      left.rightChild := true;
    }
    left.right := node;

    RightBalancesExact(Height(t.left.left), Height(t.left.right), Height(t.right));
    var (nodeBal, leftBal) := RightBalances(node.balance, left.balance);
    left.balance, node.balance := leftBal, nodeBal;
    assert node.Fields() == Expected(t.left.right, t.right, left, hi);
    assert left.Fields() == Expected(t.left.left, RotR(t).right, lo, hi);
    RotRFits(m, Snap(S), t, lo, hi);
  }

  /** First half of node_balance on a left-heavy node: a left child that leans right is turned. */
  method StraightenLeft(node: Node, ghost S: set<Node>, ghost t: Tree, ghost lo: Node?, ghost hi: Node?)
    requires t.Fork? && t.n == node && t.left.Fork? && Balanced(t.left)
    requires Fits(Snap(S), t, lo, hi) && Distinct(InOrder(t))
    modifies NodeSet(InOrder(t))
    ensures Fits(Snap(S), if Tilt(t.left) > 0 then Fork(RotL(t.left), t.n, t.right) else t, lo, hi)
  {
    hide Fits, InOrder, Distinct, Height, Balanced;
    ghost var m := Snap(S);
    DistinctFork(t);
    InnerNodes(t);
    TallSideExists(t.left);
    FitsFork(m, t, lo, hi);
    FitsFork(m, t.left, lo, node);
    if node.left.balance > 0 {
      InnerRotationKeepsHeight(t.left);
      RotLInOrder(t.left);
      var l := RotateLeft(node.left, S, t.left, lo, node);
      ghost var m1 := Snap(S);
      node.left := l;
      FitsFrame(m1, Snap(S), RotL(t.left), lo, node);
      SwapLeftFits(m, Snap(S), t, RotL(t.left), lo, hi);
    }
  }

  /** First half of node_balance on a right-heavy node: a right child that leans left is turned. */
  method StraightenRight(node: Node, ghost S: set<Node>, ghost t: Tree, ghost lo: Node?, ghost hi: Node?)
    requires t.Fork? && t.n == node && t.right.Fork? && Balanced(t.right)
    requires Fits(Snap(S), t, lo, hi) && Distinct(InOrder(t))
    modifies NodeSet(InOrder(t))
    ensures Fits(Snap(S), if Tilt(t.right) < 0 then Fork(t.left, t.n, RotR(t.right)) else t, lo, hi)
  {
    hide Fits, InOrder, Distinct, Height, Balanced;
    ghost var m := Snap(S);
    DistinctFork(t);
    InnerNodes(t);
    TallSideExists(t.right);
    FitsFork(m, t, lo, hi);
    FitsFork(m, t.right, node, hi);
    if node.right.balance < 0 {
      InnerRotationKeepsHeight(t.right);
      RotRInOrder(t.right);
      var r := RotateRight(node.right, S, t.right, node, hi);
      ghost var m1 := Snap(S);
      node.right := r;
      FitsFrame(m1, Snap(S), RotR(t.right), node, hi);
      SwapRightFits(m, Snap(S), t, RotR(t.right), lo, hi);
    }
  }

  /** node_balance. */
  method NodeBalance(node: Node, ghost S: set<Node>, ghost t: Tree, ghost lo: Node?, ghost hi: Node?)
    returns (top: Node, ghost u: Tree)
    requires t.Fork? && t.n == node && Balanced(t.left) && Balanced(t.right) && -2 <= Tilt(t) <= 2
    requires Fits(Snap(S), t, lo, hi) && Distinct(InOrder(t))
    modifies NodeSet(InOrder(t))
    ensures Settled(t, u) && top == u.n && Fits(Snap(S), u, lo, hi)
  {
    top, u := node, t;
    assert node.balance == Tilt(t);
    if node.balance < -1 {
      RotationsSettleLeft(t);
      if Tilt(t.left) > 0 {
        RotLInOrder(t.left);
        u := Fork(RotL(t.left), t.n, t.right);
      }
      StraightenLeft(node, S, t, lo, hi);
      assert InOrder(u) == InOrder(t) && u.left.n in InOrder(u);
      top := RotateRight(node, S, u, lo, hi);
      u := RotR(u);
    } else if node.balance > 1 {
      RotationsSettleRight(t);
      if Tilt(t.right) < 0 {
        RotRInOrder(t.right);
        u := Fork(t.left, t.n, RotR(t.right));
      }
      StraightenRight(node, S, t, lo, hi);
      assert InOrder(u) == InOrder(t) && u.right.n in InOrder(u);
      top := RotateLeft(node, S, u, lo, hi);
      u := RotL(u);
    }
  }
}
