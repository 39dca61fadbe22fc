/** Moving a subtree up through its context: what the rebalancing loops of src/avl_generic.c rely on. */
module AvlContext {
  import opened Common
  import opened AvlShape
  import opened AvlRotate

  /** The whole tree in order, cut at the hole. */
  ghost function Around(c: Ctx, t: Tree): seq<Node> {
    Before(c) + InOrder(t) + After(c)
  }

  /** The subtree one level up: the parent frame of c filled with t. */
  ghost function Wrap(c: Ctx, t: Tree): Tree
    requires !c.Top?
  {
    if c.InLeft? then Fork(t, c.n, c.right) else Fork(c.left, c.n, t)
  }

  ghost function Sibling(c: Ctx): Tree
    requires !c.Top?
  {
    if c.InLeft? then c.right else c.left
  }

  /** Height the frame above records for the parent when the hole is recorded with height h. */
  ghost function WrapHeight(c: Ctx, h: nat): nat
    requires !c.Top?
  {
    1 + Max(h, Height(Sibling(c)))
  }

  ghost function WrapCell(c: Ctx, t: Tree): Cell
    requires !c.Top?
  {
    Expected(Wrap(c, t).left, Wrap(c, t).right, Lo(c.up), Hi(c.up))
  }

  lemma WrapAround(c: Ctx, t: Tree)
    requires !c.Top?
    ensures Around(c.up, Wrap(c, t)) == Around(c, t)
    ensures Plug(c.up, Wrap(c, t)) == Plug(c, t)
  {
    if c.InLeft? {
      assert Before(c.up) + (InOrder(t) + [c.n] + InOrder(c.right)) + After(c.up)
          == Before(c.up) + InOrder(t) + ([c.n] + InOrder(c.right) + After(c.up));
    } else {
      assert Before(c.up) + (InOrder(c.left) + [c.n] + InOrder(t)) + After(c.up)
          == (Before(c.up) + InOrder(c.left) + [c.n]) + InOrder(t) + After(c.up);
    }
  }

  /** The last used slot of the path array is the parent of the hole. */
  lemma PathTop(p: seq<Node?>, idx: nat, c: Ctx)
    requires 1 <= idx <= |p| && p[..idx] == [null] + Path(c)
    ensures p[idx - 1] == if c.Top? then null else c.n
    ensures !c.Top? ==> 1 <= idx - 1 && p[..idx - 1] == [null] + Path(c.up)
    ensures c.Top? <==> idx == 1
  {
    assert p[idx - 1] == p[..idx][idx - 1];
    if !c.Top? {
      assert p[..idx - 1] == p[..idx][..idx - 1];
      assert Path(c) == Path(c.up) + [c.n];
    }
  }

  lemma HoleDistinct(c: Ctx, t: Tree)
    requires Distinct(Around(c, t))
    ensures Distinct(InOrder(t))
    ensures forall n :: n in InOrder(t) ==> n !in Before(c) && n !in After(c)
    ensures forall n :: n in Before(c) ==> n !in After(c)
  {
    DistinctParts(Before(c) + InOrder(t), After(c));
    DistinctParts(Before(c), InOrder(t));
    assert forall n :: n in InOrder(t) || n in Before(c) ==> n in Before(c) + InOrder(t);
  }

  /** The parent of the hole is in none of: the hole, the sibling, the rest of the context. */
  lemma ParentDistinct(c: Ctx, t: Tree)
    requires !c.Top? && Distinct(Around(c, t))
    ensures c.n !in InOrder(t) && c.n !in InOrder(Sibling(c)) && c.n !in Before(c.up) && c.n !in After(c.up)
    ensures forall n :: n in InOrder(t) ==> n !in InOrder(Sibling(c)) && n !in Before(c.up) && n !in After(c.up)
  {
    WrapAround(c, t);
    HoleDistinct(c.up, Wrap(c, t));
    DistinctFork(Wrap(c, t));
    assert c.n in InOrder(Wrap(c, t));
    assert forall n :: n in InOrder(t) ==> n in InOrder(Wrap(c, t));
  }

  lemma ParentInside(c: Ctx)
    requires !c.Top?
    ensures c.n in Before(c) || c.n in After(c)
  {
  }

  /** The pointer test of the C code tells the two kinds of frame apart. */
  lemma IsLeftTest(m: Mem, c: Ctx, t: Tree, h: nat)
    requires !c.Top? && t.Fork? && FitsCtx(m, c, t.n, h) && Distinct(Around(c, t))
    ensures c.n in m && (m[c.n].left == t.n <==> c.InLeft?)
  {
    ParentDistinct(c, t);
    assert t.n in InOrder(t);
    if c.InRight? {
      if c.left.Fork? {
        assert c.left.n in InOrder(c.left);
      } else {
        LoHiInside(c.up);
      }
    }
  }

  /** The other subtrees of the context are untouched. */
  ghost predicate SameBeside(m: Mem, m': Mem, c: Ctx)
    requires !c.Top?
  {
    SameOn(m, m', InOrder(Sibling(c))) && SameOn(m, m', Before(c.up)) && SameOn(m, m', After(c.up))
  }

  /** Redirecting the parent's child pointer from one subtree root to another. */
  lemma Redirect(m: Mem, m': Mem, c: Ctx, root: Node, root': Node, h: nat)
    requires !c.Top? && FitsCtx(m, c, root, h) && SameBeside(m, m', c)
    requires c.n in m' && m'[c.n] == (if c.InLeft? then m[c.n].(left := root') else m[c.n].(right := root'))
    ensures FitsCtx(m', c, root', h)
  {
    hide Fits, InOrder, Before, After, SameOn;
    if c.InLeft? {
      FitsFrame(m, m', c.right, c.n, Hi(c.up));
    } else {
      FitsFrame(m, m', c.left, Lo(c.up), c.n);
    }
    FitsCtxFrame(m, m', c.up, c.n, WrapHeight(c, h));
  }

  lemma RerootCtx(m: Mem, m': Mem, c: Ctx, root: Node, root': Node, t: Tree, h: nat)
    requires !c.Top? && FitsCtx(m, c, root, h) && Distinct(Around(c, t))
    requires SameBut(m, m', c.n, c.n)
    requires c.n in m' && m'[c.n] == (if c.InLeft? then m[c.n].(left := root') else m[c.n].(right := root'))
    ensures FitsCtx(m', c, root', h)
  {
    ParentDistinct(c, t);
    Redirect(m, m', c, root, root', h);
  }

  /** Once the parent's cell is right for the new subtree, the parent becomes the subtree to look at. */
  lemma WrapFits(m: Mem, m': Mem, c: Ctx, root: Node?, t: Tree, h: nat)
    requires !c.Top? && FitsCtx(m, c, root, h) && Fits(m', t, Lo(c), Hi(c))
    requires c.n in m' && m'[c.n] == WrapCell(c, t)
    requires SameBeside(m, m', c)
    ensures Fits(m', Wrap(c, t), Lo(c.up), Hi(c.up))
    ensures FitsCtx(m', c.up, c.n, WrapHeight(c, h))
  {
    if c.InLeft? {
      FitsFrame(m, m', c.right, c.n, Hi(c.up));
    } else {
      FitsFrame(m, m', c.left, Lo(c.up), c.n);
    }
    FitsCtxFrame(m, m', c.up, c.n, WrapHeight(c, h));
  }

  /** The same when only the parent's balance field had to catch up. */
  lemma RaiseFits(m: Mem, m': Mem, c: Ctx, t: Tree, h: nat)
    requires !c.Top? && t.Fork? && FitsCtx(m, c, t.n, h) && Fits(m, t, Lo(c), Hi(c)) && Distinct(Around(c, t))
    requires SameBut(m, m', c.n, c.n) && c.n in m' && m'[c.n] == m[c.n].(balance := Tilt(Wrap(c, t)))
    ensures Fits(m', Wrap(c, t), Lo(c.up), Hi(c.up))
    ensures FitsCtx(m', c.up, c.n, WrapHeight(c, h))
  {
    ParentDistinct(c, t);
    FitsFrame(m, m', t, Lo(c), Hi(c));
    WrapFits(m, m', c, t.n, t, h);
  }

  lemma {:induction false} PlugRoot(c: Ctx, t: Tree, u: Tree)
    requires !c.Top?
    ensures Plug(c, t).Root() == Plug(c, u).Root()
    decreases c
  {
    match c
    case InLeft(up, n, r) => if !up.Top? { PlugRoot(up, Wrap(c, t), Wrap(c, u)); }
    case InRight(up, l, n) => if !up.Top? { PlugRoot(up, Wrap(c, t), Wrap(c, u)); }
  }

  lemma PlugTop(t: Tree)
    ensures Plug(Top, t) == t
  {
  }

  /** A subtree whose true height is the recorded one completes the tree. */
  lemma PlugWhole(m: Mem, c: Ctx, t: Tree, h: nat)
    requires t.Fork? && FitsCtx(m, c, t.n, h) && Fits(m, t, Lo(c), Hi(c)) && Balanced(t) && BalancedCtx(c, h)
    requires c.Top? || Height(t) == h
    ensures Fits(m, Plug(c, t), null, null) && Balanced(Plug(c, t)) && InOrder(Plug(c, t)) == Around(c, t)
  {
    PlugFits(m, c, t);
    PlugBalanced(c, t);
    PlugInOrder(c, t);
  }

  /** Subtree on which an insertion has just been recorded: its root field is exact, the fields above
      still record height h. */
  ghost predicate Grown(t: Tree, h: nat) {
    && t.Fork? && Balanced(t.left) && Balanced(t.right) && -2 <= Tilt(t) <= 2
    && (Tilt(t) == 0 ==> Height(t) == h)
    && (Tilt(t) != 0 ==> Height(t) == h + 1)
    && (Tilt(t) == 2 ==> t.right.Fork? && Tilt(t.right) != 0)
    && (Tilt(t) == -2 ==> t.left.Fork? && Tilt(t.left) != 0)
  }

  /** The same after a removal. */
  ghost predicate Shrunk(t: Tree, h: nat) {
    && t.Fork? && Balanced(t.left) && Balanced(t.right) && -2 <= Tilt(t) <= 2
    && (Tilt(t) == 0 ==> Height(t) == h - 1)
    && (Tilt(t) != 0 ==> Height(t) == h)
  }

  lemma BalancedSibling(c: Ctx, h: nat)
    requires !c.Top? && BalancedCtx(c, h)
    ensures -1 <= Height(Sibling(c)) - h <= 1 && Balanced(Sibling(c)) && BalancedCtx(c.up, WrapHeight(c, h))
  {
  }

  /** A subtree that grew by one and leans makes its parent a grown subtree. */
  lemma GrownParent(c: Ctx, t: Tree, h: nat)
    requires !c.Top? && t.Fork? && Balanced(t) && Tilt(t) != 0 && Height(t) == h + 1 && BalancedCtx(c, h)
    ensures Grown(Wrap(c, t), WrapHeight(c, h)) && BalancedCtx(c.up, WrapHeight(c, h))
  {
    HeightFork(Wrap(c, t));
    BalancedSibling(c, h);
    hide Balanced, BalancedCtx, Height;
  }

  /** A subtree that lost one level makes its parent a shrunk subtree. */
  lemma ShrunkParent(c: Ctx, t: Tree, h: nat)
    requires !c.Top? && Balanced(t) && Height(t) == h - 1 && BalancedCtx(c, h)
    ensures Shrunk(Wrap(c, t), WrapHeight(c, h)) && BalancedCtx(c.up, WrapHeight(c, h))
  {
    HeightFork(Wrap(c, t));
    BalancedSibling(c, h);
    hide Balanced, BalancedCtx, Height;
  }

  lemma OneFits(m: Mem, n: Node, lo: Node?, hi: Node?)
    requires n in m && m[n] == Cell(lo, hi, false, false, 0)
    ensures Fits(m, Fork(Leaf, n, Leaf), lo, hi)
  {
  }

  /** A new node hung on the free left side of t's root. */
  lemma LinkLeftFits(m: Mem, m': Mem, c: Ctx, t: Tree, child: Node)
    requires t.Fork? && t.left.Leaf? && Balanced(t)
    requires FitsCtx(m, c, t.n, Height(t)) && Fits(m, t, Lo(c), Hi(c))
    requires child !in Around(c, t) && Distinct(Around(c, t)) && SameBut(m, m', t.n, child)
    requires child in m' && m'[child] == Cell(Lo(c), t.n, false, false, 0)
    requires t.n in m' && m'[t.n] == m[t.n].(left := child, leftChild := true, balance := m[t.n].balance - 1)
    ensures var u := Fork(Fork(Leaf, child, Leaf), t.n, t.right);
            Grown(u, Height(t)) && Fits(m', u, Lo(c), Hi(c)) && FitsCtx(m', c, t.n, Height(t))
  {
    HoleDistinct(c, t);
    DistinctFork(t);
    RootInOrder(t);
    FitsFork(m, t, Lo(c), Hi(c));
    FitsFrame(m, m', t.right, t.n, Hi(c));
    FitsCtxFrame(m, m', c, t.n, Height(t));
    OneFits(m', child, Lo(c), t.n);
  }

  /** A new node hung on the free right side of t's root. */
  lemma LinkRightFits(m: Mem, m': Mem, c: Ctx, t: Tree, child: Node)
    requires t.Fork? && t.right.Leaf? && Balanced(t)
    requires FitsCtx(m, c, t.n, Height(t)) && Fits(m, t, Lo(c), Hi(c))
    requires child !in Around(c, t) && Distinct(Around(c, t)) && SameBut(m, m', t.n, child)
    requires child in m' && m'[child] == Cell(t.n, Hi(c), false, false, 0)
    requires t.n in m' && m'[t.n] == m[t.n].(right := child, rightChild := true, balance := m[t.n].balance + 1)
    ensures var u := Fork(t.left, t.n, Fork(Leaf, child, Leaf));
            Grown(u, Height(t)) && Fits(m', u, Lo(c), Hi(c)) && FitsCtx(m', c, t.n, Height(t))
  {
    HoleDistinct(c, t);
    DistinctFork(t);
    RootInOrder(t);
    FitsFork(m, t, Lo(c), Hi(c));
    FitsFrame(m, m', t.left, Lo(c), t.n);
    FitsCtxFrame(m, m', c, t.n, Height(t));
    OneFits(m', child, t.n, Hi(c));
  }
}
