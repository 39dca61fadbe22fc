/** Taking a node out of the threaded tree: the memory after each of the child shapes that
    http2d_avl_generic_del distinguishes. */
module AvlRemove {
  import opened Common
  import opened AvlShape
  import opened AvlRotate
  import opened AvlContext
  import opened AvlOrder

  // ---------------------------------------------------------------- at most one child

  /** The subtree left when the root of t, which lacks a child, is taken out. */
  ghost function Remainder(t: Tree): Tree
    requires t.Fork?
  {
    if t.left.Leaf? then t.right else t.left
  }

  /** Memory in which the remainder of t is threaded to the neighbours of t. */
  ghost predicate Rethreaded(m: Mem, m': Mem, t: Tree, lo: Node?, hi: Node?)
    requires t.Fork?
  {
    if t.left.Leaf? then
      t.right.Fork? ==> First(t.right) in m && m' == m[First(t.right) := m[First(t.right)].(left := lo)]
    else
      Last(t.left) in m && m' == m[Last(t.left) := m[Last(t.left)].(right := hi)]
  }

  lemma RemainderFits(m: Mem, m': Mem, t: Tree, lo: Node?, hi: Node?)
    requires t.Fork? && (t.left.Leaf? || t.right.Leaf?) && Fits(m, t, lo, hi) && Distinct(InOrder(t))
    requires Rethreaded(m, m', t, lo, hi)
    ensures Fits(m', Remainder(t), lo, hi)
  {
    DistinctFork(t);
    FitsFork(m, t, lo, hi);
    if t.left.Fork? {
      RethreadLast(m, m', t.left, lo, t.n, hi);
    } else if t.right.Fork? {
      RethreadFirst(m, m', t.right, t.n, hi, lo);
    }
  }

  /** Field values of the parent of t once t is replaced by its remainder. */
  ghost function ParentCell(m: Mem, c: Ctx, t: Tree): Cell
    requires !c.Top? && c.n in m && t.Fork?
  {
    var u := Remainder(t);
    if c.InLeft? then
      m[c.n].(left := if u.Fork? then u.n else Lo(c), leftChild := u.Fork?, balance := m[c.n].balance + 1)
    else
      m[c.n].(right := if u.Fork? then u.n else Hi(c), rightChild := u.Fork?, balance := m[c.n].balance - 1)
  }

  /** Replacing t by its remainder under the parent of t. */
  lemma RemoveFits(m: Mem, m1: Mem, m': Mem, c: Ctx, t: Tree)
    requires !c.Top? && t.Fork? && (t.left.Leaf? || t.right.Leaf?)
    requires FitsCtx(m, c, t.n, Height(t)) && Fits(m, t, Lo(c), Hi(c)) && Distinct(Around(c, t))
    requires t.left.Leaf? && t.right.Leaf? ==> m1 == m
    requires Rethreaded(m, m1, t, Lo(c), Hi(c))
    requires c.n in m && SameBut(m1, m', c.n, c.n) && c.n in m' && m'[c.n] == ParentCell(m, c, t)
    ensures Fits(m', Wrap(c, Remainder(t)), Lo(c.up), Hi(c.up))
    ensures FitsCtx(m', c.up, c.n, WrapHeight(c, Height(t)))
  {
    hide InOrder, Fits, FitsCtx, Distinct, Before, After, Around, Height;
    ParentDistinct(c, t);
    HoleDistinct(c, t);
    RemainderFits(m, m1, t, Lo(c), Hi(c));
    RemainderInside(t);
    if t.left.Fork? { LastIsTail(t.left); }
    if t.right.Fork? { FirstIsHead(t.right); }
    FitsFrame(m1, m', Remainder(t), Lo(c), Hi(c));
    ParentCellIsWrap(m, c, t);
    WrapFits(m, m', c, t.n, Remainder(t), Height(t));
  }

  lemma RemainderInside(t: Tree)
    requires t.Fork?
    ensures forall n :: n in InOrder(t.left) || n in InOrder(t.right) ==> n in InOrder(t)
  {
  }

  lemma ParentCellIsWrap(m: Mem, c: Ctx, t: Tree)
    requires !c.Top? && t.Fork? && (t.left.Leaf? || t.right.Leaf?) && FitsCtx(m, c, t.n, Height(t))
    ensures c.n in m && ParentCell(m, c, t) == WrapCell(c, Remainder(t))
  {
    assert Height(Remainder(t)) == Height(t) - 1;
  }

  lemma FirstKnown(m: Mem, t: Tree, lo: Node?, hi: Node?)
    requires t.Fork? && t.right.Fork? && Fits(m, t, lo, hi)
    ensures First(t.right) in m && First(t.right) in InOrder(t)
  {
    FirstIsHead(t.right);
    FitsInside(m, t, lo, hi);
  }

  lemma LastKnown(m: Mem, t: Tree, lo: Node?, hi: Node?)
    requires t.Fork? && t.left.Fork? && Fits(m, t, lo, hi)
    ensures Last(t.left) in m && Last(t.left) in InOrder(t)
  {
    LastIsTail(t.left);
    FitsInside(m, t, lo, hi);
  }

  lemma ParentKnown(m: Mem, c: Ctx, root: Node?, h: nat)
    requires FitsCtx(m, c, root, h)
    ensures !c.Top? ==> c.n in m && (c.n in Before(c) || c.n in After(c))
    ensures c.InLeft? && root != null ==> m[c.n].leftChild
    ensures c.InRight? && root != null ==> m[c.n].rightChild
  {
    if !c.Top? { ParentInside(c); }
  }

  lemma RemainderInOrder(c: Ctx, t: Tree)
    requires t.Fork? && (t.left.Leaf? || t.right.Leaf?)
    ensures Around(c, Remainder(t)) == (Before(c) + InOrder(t.left)) + (InOrder(t.right) + After(c))
    ensures Height(Remainder(t)) == Height(t) - 1
  {
  }

  lemma RemainderBalanced(t: Tree)
    requires t.Fork? && (t.left.Leaf? || t.right.Leaf?) && Balanced(t)
    ensures Balanced(Remainder(t))
  {
  }

  lemma TopAround(t: Tree)
    ensures Around(Top, t) == InOrder(t)
  {
  }

  lemma AroundFork(c: Ctx, t: Tree)
    requires t.Fork?
    ensures Around(c, t) == (Before(c) + InOrder(t.left)) + [t.n] + (InOrder(t.right) + After(c))
  {
  }

  // ---------------------------------------------------------------- two children

  /** One node on the left edge of a subtree, with its right subtree. */
  datatype Rib = Rib(n: Node, right: Tree)

  /** The context reached from base by going left past the given ribs. */
  ghost function Spine(base: Ctx, s: seq<Rib>): Ctx {
    if s == [] then base else InLeft(Spine(base, s[..|s| - 1]), s[|s| - 1].n, s[|s| - 1].right)
  }

  ghost function RibsAfter(s: seq<Rib>): seq<Node> {
    if s == [] then [] else [s[|s| - 1].n] + InOrder(s[|s| - 1].right) + RibsAfter(s[..|s| - 1])
  }

  ghost function RibNodes(s: seq<Rib>): seq<Node> {
    if s == [] then [] else RibNodes(s[..|s| - 1]) + [s[|s| - 1].n]
  }

  lemma {:induction false} SpineParts(base: Ctx, s: seq<Rib>)
    ensures Before(Spine(base, s)) == Before(base) && Lo(Spine(base, s)) == Lo(base)
    ensures After(Spine(base, s)) == RibsAfter(s) + After(base)
    ensures Path(Spine(base, s)) == Path(base) + RibNodes(s) && |RibNodes(s)| == |s|
  {
    hide InOrder;
    if s != [] {
      var p, z := s[..|s| - 1], s[|s| - 1];
      SpineParts(base, p);
      Reassociate([z.n] + InOrder(z.right), RibsAfter(p), After(base));
      Reassociate(Path(base), RibNodes(p), [z.n]);
    }
  }

  lemma SpineHi(c: Ctx, l: Tree, a: Node, b: Node, s: seq<Rib>)
    ensures Hi(Spine(InRight(c, l, a), s)) == Hi(Spine(InRight(c, l, b), s))
  {
  }

  /** Heights recorded along a spine do not depend on the node its base hangs from. */
  ghost function SpineHeight(s: seq<Rib>, h: nat): nat {
    if s == [] then h else SpineHeight(s[..|s| - 1], 1 + Max(h, Height(s[|s| - 1].right)))
  }

  ghost function SpineRoot(s: seq<Rib>, root: Node): Node {
    if s == [] then root else SpineRoot(s[..|s| - 1], s[|s| - 1].n)
  }

  /** What a spine fitting in memory says about its base. */
  lemma {:induction false} SpineBase(m: Mem, base: Ctx, s: seq<Rib>, root: Node, h: nat)
    requires FitsCtx(m, Spine(base, s), root, h)
    ensures FitsCtx(m, base, SpineRoot(s, root), SpineHeight(s, h))
    decreases |s|
  {
    if s != [] {
      SpineBase(m, base, s[..|s| - 1], s[|s| - 1].n, 1 + Max(h, Height(s[|s| - 1].right)));
    }
  }

  /** Moving a spine from one base to another, when the ribs are untouched and the new base fits. */
  lemma {:induction false} SpineRebase(m: Mem, m': Mem, c: Ctx, l: Tree, a: Node, b: Node, s: seq<Rib>, root: Node,
                                       h: nat)
    requires FitsCtx(m, Spine(InRight(c, l, a), s), root, h)
    requires FitsCtx(m', InRight(c, l, b), SpineRoot(s, root), SpineHeight(s, h))
    requires SameOn(m, m', RibsAfter(s))
    ensures FitsCtx(m', Spine(InRight(c, l, b), s), root, h)
    decreases |s|
  {
    if s != [] {
      var p, z := s[..|s| - 1], s[|s| - 1];
      SpineRebase(m, m', c, l, a, b, p, z.n, 1 + Max(h, Height(z.right)));
      SpineHi(c, l, a, b, p);
      assert z.n in RibsAfter(s);
      FitsFrame(m, m', z.right, z.n, Hi(Spine(InRight(c, l, a), p)));
    }
  }

  ghost predicate Apart(a: seq<Node>, b: seq<Node>) {
    forall n :: n in a ==> n !in b
  }

  /** Seven consecutive stretches of a sequence without repetitions are pairwise disjoint. */
  lemma StretchesApart(a: seq<Node>, b: seq<Node>, x: Node, y: Node, p: seq<Node>, q: seq<Node>, z: seq<Node>)
    requires Distinct(a + b + [x] + [y] + p + q + z)
    ensures x !in a && x !in b && x !in p && x !in q && x !in z
    ensures y !in a && y !in b && y !in p && y !in q && y !in z && x != y
    ensures Distinct(b) && Distinct(q)
    ensures Apart(b, a) && Apart(b, p) && Apart(b, q) && Apart(b, z)
    ensures Apart(q, a) && Apart(q, p) && Apart(q, z) && Apart(p, a) && Apart(p, z) && Apart(a, z)
  {
    hide Distinct;
    DistinctParts(a + b + [x] + [y] + p + q, z);
    DistinctParts(a + b + [x] + [y] + p, q);
    DistinctParts(a + b + [x] + [y], p);
    DistinctParts(a + b + [x], [y]);
    DistinctParts(a + b, [x]);
    DistinctParts(a, b);
    assert x in [x] && y in [y];
  }

  /** Everything around a node with two children is pairwise disjoint. */
  lemma SpineApart(c: Ctx, l: Tree, node: Node, s: seq<Rib>, next: Node, nr: Tree)
    requires Distinct(Around(Spine(InRight(c, l, node), s), Fork(Leaf, next, nr)))
    ensures node !in Before(c) && node !in InOrder(l) && node !in InOrder(nr) && node !in RibsAfter(s)
    ensures node !in After(c)
    ensures next !in Before(c) && next !in InOrder(l) && next !in InOrder(nr) && next !in RibsAfter(s)
    ensures next !in After(c)
    ensures next != node && Distinct(InOrder(l)) && Distinct(RibsAfter(s))
    ensures Apart(InOrder(l), Before(c)) && Apart(InOrder(l), InOrder(nr))
    ensures Apart(InOrder(l), RibsAfter(s)) && Apart(InOrder(l), After(c))
    ensures Apart(RibsAfter(s), Before(c)) && Apart(RibsAfter(s), InOrder(nr)) && Apart(RibsAfter(s), After(c))
    ensures Apart(InOrder(nr), Before(c)) && Apart(InOrder(nr), After(c)) && Apart(Before(c), After(c))
  {
    SpineAround(c, l, node, s, next, nr);
    StretchesApart(Before(c), InOrder(l), node, next, InOrder(nr), RibsAfter(s), After(c));
  }

  lemma SingleLeftInOrder(next: Node, nr: Tree)
    ensures InOrder(Fork(Leaf, next, nr)) == [next] + InOrder(nr)
  {
  }

  lemma Regroup(a: seq<Node>, b: seq<Node>, x: seq<Node>, y: seq<Node>, z: seq<Node>)
    ensures a + (b + x) + (y + z) == a + b + x + y + z
  {
  }

  lemma SpineAround(c: Ctx, l: Tree, node: Node, s: seq<Rib>, next: Node, nr: Tree)
    ensures Around(Spine(InRight(c, l, node), s), Fork(Leaf, next, nr))
         == Before(c) + InOrder(l) + [node] + [next] + InOrder(nr) + RibsAfter(s) + After(c)
  {
    SpineParts(InRight(c, l, node), s);
    SingleLeftInOrder(next, nr);
    assert Before(InRight(c, l, node)) == Before(c) + InOrder(l) + [node];
    Regroup(Before(c) + InOrder(l) + [node], [next], InOrder(nr), RibsAfter(s), After(c));
  }

  /** The memory after the node with two children has been replaced by its successor. */
  ghost predicate Replaced(m: Mem, m': Mem, c: Ctx, l: Tree, node: Node, s: seq<Rib>, next: Node, nr: Tree)
    requires l.Fork?
  {
    && {node, next, Last(l)} <= m.Keys && {next, Last(l)} <= m'.Keys
    && m'[next] == Cell(l.n, if s == [] then m[next].right else m[node].right, true, s != [] || nr.Fork?,
                        m[node].balance - (if s == [] then 1 else 0))
    && m'[Last(l)] == m[Last(l)].(right := next)
    && (s != [] ==>
          var p := s[|s| - 1].n;
          && p in m && p in m'
          && m'[p] == m[p].(left := if nr.Fork? then nr.n else m[p].left, leftChild := nr.Fork?,
                            balance := m[p].balance + 1))
    && (!c.Top? ==>
          && c.n in m && c.n in m'
          && m'[c.n] == if c.InLeft? then m[c.n].(left := next) else m[c.n].(right := next))
    && (forall x :: (x in m && x != node && x != next && x != Last(l) && (s == [] || x != s[|s| - 1].n)
                     && (c.Top? || x != c.n)) ==> x in m' && m'[x] == m[x])
  }

  /** The frames of a context are disjoint whatever fills the hole. */
  lemma CtxOwnApart(c: Ctx, mid: seq<Node>)
    requires !c.Top? && Distinct(Before(c) + mid + After(c))
    ensures c.n !in InOrder(Sibling(c)) && c.n !in Before(c.up) && c.n !in After(c.up)
    ensures forall n :: n in InOrder(Sibling(c)) || n in Before(c.up) || n in After(c.up) ==>
              n in Before(c) || n in After(c)
  {
    hide InOrder, Distinct;
    var a, b, s := Before(c.up), After(c.up), InOrder(Sibling(c));
    if c.InLeft? {
      FrameLeftApart(a, mid, c.n, s, b);
    } else {
      FrameRightApart(a, s, c.n, mid, b);
    }
  }

  lemma FrameLeftApart(a: seq<Node>, mid: seq<Node>, x: Node, s: seq<Node>, b: seq<Node>)
    requires Distinct(a + mid + ([x] + s + b))
    ensures x !in a && x !in s && x !in b
  {
    hide Distinct;
    assert a + mid + ([x] + s + b) == a + (mid + [x]) + (s + b);
    TwoApart(a, mid, x, s + b);
  }

  lemma FrameRightApart(a: seq<Node>, s: seq<Node>, x: Node, mid: seq<Node>, b: seq<Node>)
    requires Distinct((a + s + [x]) + mid + b)
    ensures x !in a && x !in s && x !in b
  {
    hide Distinct;
    assert (a + s + [x]) + mid + b == (a + s) + ([] + [x]) + (mid + b);
    TwoApart(a + s, [], x, mid + b);
  }

  lemma TwoApart(a: seq<Node>, b: seq<Node>, x: Node, z: seq<Node>)
    requires Distinct(a + (b + [x]) + z)
    ensures x !in a && x !in z
  {
    hide Distinct;
    DistinctParts(a + (b + [x]), z);
    DistinctParts(a, b + [x]);
    assert x in b + [x];
  }

  lemma ReplacedLeft(m: Mem, m': Mem, c: Ctx, l: Tree, node: Node, s: seq<Rib>, next: Node, nr: Tree)
    requires l.Fork? && Replaced(m, m', c, l, node, s, next, nr) && Fits(m, l, Lo(c), node)
    requires Distinct(Around(Spine(InRight(c, l, node), s), Fork(Leaf, next, nr)))
    ensures Fits(m', l, Lo(c), next)
  {
    SpineApart(c, l, node, s, next, nr);
    var m1 := m[Last(l) := m[Last(l)].(right := next)];
    RethreadLast(m, m1, l, Lo(c), node, next);
    if !c.Top? { ParentInside(c); }
    if s != [] { assert s[|s| - 1].n in RibsAfter(s); }
    FitsFrame(m1, m', l, Lo(c), next);
  }

  lemma ReplacedAbove(m: Mem, m': Mem, c: Ctx, l: Tree, node: Node, s: seq<Rib>, next: Node, nr: Tree, h: nat)
    requires l.Fork? && Replaced(m, m', c, l, node, s, next, nr) && FitsCtx(m, c, node, h)
    requires Distinct(Around(Spine(InRight(c, l, node), s), Fork(Leaf, next, nr)))
    ensures FitsCtx(m', c, next, h)
  {
    hide InOrder, Fits, FitsCtx, Distinct, Before, After, Around, RibsAfter;
    SpineApart(c, l, node, s, next, nr);
    LastIsTail(l);
    if s != [] { RibApart(s); }
    if c.Top? {
      TopFits(m', next, h);
    } else {
      SpineAround(c, l, node, s, next, nr);
      var mid := InOrder(l) + [node] + [next] + InOrder(nr) + RibsAfter(s);
      assert Before(c) + InOrder(l) + [node] + [next] + InOrder(nr) + RibsAfter(s) + After(c)
          == Before(c) + mid + After(c);
      CtxOwnApart(c, mid);
      Redirect(m, m', c, node, next, h);
    }
  }

  /** The successor was the right child itself. */
  lemma ReplaceByChildFits(m: Mem, m': Mem, c: Ctx, l: Tree, node: Node, next: Node, nr: Tree)
    requires l.Fork? && Replaced(m, m', c, l, node, [], next, nr)
    requires FitsCtx(m, InRight(c, l, node), next, 1 + Height(nr))
    requires Fits(m, Fork(Leaf, next, nr), node, Hi(c))
    requires Distinct(Around(InRight(c, l, node), Fork(Leaf, next, nr)))
    ensures Fits(m', Fork(l, next, nr), Lo(c), Hi(c))
    ensures FitsCtx(m', c, next, 1 + Max(Height(l), 1 + Height(nr)))
  {
    assert Spine(InRight(c, l, node), []) == InRight(c, l, node);
    SpineApart(c, l, node, [], next, nr);
    ReplacedLeft(m, m', c, l, node, [], next, nr);
    ReplacedAbove(m, m', c, l, node, [], next, nr, 1 + Max(Height(l), 1 + Height(nr)));
    if !c.Top? { ParentInside(c); }
    LastIsTail(l);
    FitsFrame(m, m', nr, next, Hi(c));
  }

  /** The successor was deeper, on the left edge of the right subtree. */
  lemma ReplaceByDeepFits(m: Mem, m': Mem, c: Ctx, l: Tree, node: Node, s: seq<Rib>, next: Node, nr: Tree)
    requires l.Fork? && s != [] && Replaced(m, m', c, l, node, s, next, nr)
    requires FitsCtx(m, Spine(InRight(c, l, node), s), next, 1 + Height(nr))
    requires Fits(m, Fork(Leaf, next, nr), node, Hi(Spine(InRight(c, l, node), s)))
    requires Distinct(Around(Spine(InRight(c, l, node), s), Fork(Leaf, next, nr)))
    ensures var d := Spine(InRight(c, l, next), s);
            && Fits(m', Wrap(d, nr), Lo(d.up), Hi(d.up))
            && FitsCtx(m', d.up, d.n, WrapHeight(d, 1 + Height(nr)))
  {
    hide InOrder, Distinct, Before, After, Around, RibsAfter, SameOn, RibNodes, Path;
    var p, z := s[..|s| - 1], s[|s| - 1];
    var d := Spine(InRight(c, l, node), s);
    DeepSpine(m, m', c, l, node, s, next, nr);
    ReplacedRibs(m, m', c, l, node, s, next, nr);
    SpineHi(c, l, node, next, p);
    SpineParts(InRight(c, l, next), p);
    FitsFrame(m, m', z.right, z.n, Hi(d.up));
    FitsFrame(m, m', nr, next, z.n);
  }

  /** The spine above the successor's old place, now below the successor. */
  lemma DeepSpine(m: Mem, m': Mem, c: Ctx, l: Tree, node: Node, s: seq<Rib>, next: Node, nr: Tree)
    requires l.Fork? && s != [] && Replaced(m, m', c, l, node, s, next, nr)
    requires FitsCtx(m, Spine(InRight(c, l, node), s), next, 1 + Height(nr))
    requires Distinct(Around(Spine(InRight(c, l, node), s), Fork(Leaf, next, nr)))
    ensures var p, z := s[..|s| - 1], s[|s| - 1];
            FitsCtx(m', Spine(InRight(c, l, next), p), z.n, 1 + Max(1 + Height(nr), Height(z.right)))
  {
    hide InOrder, Distinct, Before, After, Around, RibsAfter, SameOn, RibNodes, Path, FitsCtx, Fits, Replaced;
    var p, z := s[..|s| - 1], s[|s| - 1];
    var h := 1 + Max(1 + Height(nr), Height(z.right));
    var top, up := SpineRoot(p, z.n), SpineHeight(p, h);
    SpineUp(m, InRight(c, l, node), s, next, 1 + Height(nr));
    SpineBase(m, InRight(c, l, node), p, z.n, h);
    RightFrame(m, c, l, node, top, up);
    ReplacedLeft(m, m', c, l, node, s, next, nr);
    ReplacedAbove(m, m', c, l, node, s, next, nr, 1 + Max(Height(l), up));
    ReplacedRibs(m, m', c, l, node, s, next, nr);
    NextBase(m, m', c, l, node, s, next, nr, top, up);
    SpineRebase(m, m', c, l, node, next, p, z.n, h);
  }

  lemma SpineUp(m: Mem, base: Ctx, s: seq<Rib>, root: Node, h: nat)
    requires s != [] && FitsCtx(m, Spine(base, s), root, h)
    ensures FitsCtx(m, Spine(base, s[..|s| - 1]), s[|s| - 1].n, 1 + Max(h, Height(s[|s| - 1].right)))
  {
  }

  lemma RightFrame(m: Mem, c: Ctx, l: Tree, node: Node, root: Node?, h: nat)
    requires FitsCtx(m, InRight(c, l, node), root, h)
    ensures Fits(m, l, Lo(c), node) && FitsCtx(m, c, node, 1 + Max(Height(l), h))
  {
  }

  /** The successor, with the fields of the node it replaces, is the base of the spine. */
  lemma NextBase(m: Mem, m': Mem, c: Ctx, l: Tree, node: Node, s: seq<Rib>, next: Node, nr: Tree, root: Node, h: nat)
    requires l.Fork? && s != [] && Replaced(m, m', c, l, node, s, next, nr) && FitsCtx(m, InRight(c, l, node), root, h)
    requires Fits(m', l, Lo(c), next) && FitsCtx(m', c, next, 1 + Max(Height(l), h))
    ensures FitsCtx(m', InRight(c, l, next), root, h)
  {
    hide Fits;
  }

  /** Replacing the node leaves the right subtrees and the upper ribs of the spine alone. */
  lemma ReplacedRibs(m: Mem, m': Mem, c: Ctx, l: Tree, node: Node, s: seq<Rib>, next: Node, nr: Tree)
    requires l.Fork? && s != [] && Replaced(m, m', c, l, node, s, next, nr)
    requires Distinct(Around(Spine(InRight(c, l, node), s), Fork(Leaf, next, nr)))
    ensures SameOn(m, m', InOrder(nr)) && SameOn(m, m', InOrder(s[|s| - 1].right))
    ensures SameOn(m, m', RibsAfter(s[..|s| - 1]))
  {
    hide InOrder, Distinct, Before, After, Around, RibsAfter;
    SpineApart(c, l, node, s, next, nr);
    if !c.Top? { ParentInside(c); }
    LastIsTail(l);
    RibApart(s);
  }

  lemma RibApart(s: seq<Rib>)
    requires s != [] && Distinct(RibsAfter(s))
    ensures var z := s[|s| - 1];
            && z.n in RibsAfter(s) && z.n !in InOrder(z.right) && z.n !in RibsAfter(s[..|s| - 1])
            && (forall n :: n in InOrder(z.right) || n in RibsAfter(s[..|s| - 1]) ==> n in RibsAfter(s))
  {
    hide InOrder, Distinct;
    var z, p := s[|s| - 1], s[..|s| - 1];
    RibsStep(s);
    DistinctParts([z.n], InOrder(z.right) + RibsAfter(p));
    assert z.n in [z.n];
  }

  lemma RibsStep(s: seq<Rib>)
    requires s != []
    ensures RibsAfter(s) == [s[|s| - 1].n] + (InOrder(s[|s| - 1].right) + RibsAfter(s[..|s| - 1]))
  {
    hide InOrder;
    Reassociate([s[|s| - 1].n], InOrder(s[|s| - 1].right), RibsAfter(s[..|s| - 1]));
  }

  lemma NoRibs()
    ensures RibNodes([]) == []
  {
  }

  lemma SpineStep(base: Ctx, s: seq<Rib>, w: Tree)
    requires w.Fork?
    ensures Plug(Spine(base, s + [Rib(w.n, w.right)]), w.left) == Plug(Spine(base, s), w)
    ensures RibNodes(s + [Rib(w.n, w.right)]) == RibNodes(s) + [w.n]
  {
    assert (s + [Rib(w.n, w.right)])[..|s|] == s;
  }

  /** What the search for the successor knows when it stands at w. */
  lemma SpineAt(m: Mem, c: Ctx, l: Tree, node: Node, s: seq<Rib>, w: Tree)
    requires w.Fork? && Fits(m, Plug(Spine(InRight(c, l, node), s), w), null, null)
    ensures var d := Spine(InRight(c, l, node), s);
            && FitsCtx(m, d, w.n, Height(w)) && Fits(m, w, node, Hi(d)) && w.n in m
            && m[w.n] == Expected(w.left, w.right, node, Hi(d)) && |Path(d)| == |Path(c)| + 1 + |RibNodes(s)|
            && |Path(c)| + 1 + |RibNodes(s)| + Height(w) <= Height(Plug(d, w)) && |RibNodes(s)| == |s|
            && InOrder(Plug(d, w)) == Around(d, w)
  {
    var d := Spine(InRight(c, l, node), s);
    PlugFits(m, d, w);
    PlugHeight(d, w);
    PlugInOrder(d, w);
    SpineParts(InRight(c, l, node), s);
  }

  /** First half of the replacement: next leaves its old place below nextp. */
  ghost predicate Detached(m: Mem, m': Mem, node: Node, next: Node, nextp: Node) {
    && {node, next, nextp} <= m.Keys && {node, next, nextp} <= m'.Keys
    && (nextp != node ==>
          && m'[node] == m[node]
          && m'[next] == m[next].(right := m[node].right, rightChild := true)
          && m'[nextp] == m[nextp].(left := if m[next].rightChild then m[next].right else m[nextp].left,
                                    leftChild := m[nextp].leftChild && m[next].rightChild,
                                    balance := m[nextp].balance + 1))
    && (nextp == node ==> m'[node] == m[node].(balance := m[node].balance - 1) && m'[next] == m[next])
    && (forall x :: x in m && x != node && x != next && x != nextp ==> x in m' && m'[x] == m[x])
  }

  /** Second half: next takes the fields of node, the node before and the parent point to it. */
  ghost predicate Installed(m: Mem, m': Mem, node: Node, next: Node, prev: Node, parent: Node?, isLeft: bool) {
    && {node, next, prev} <= m.Keys && {node, next, prev} <= m'.Keys
    && m'[prev] == m[prev].(right := next) && m'[node] == m[node]
    && m'[next] == m[next].(left := m[node].left, leftChild := true, balance := m[node].balance)
    && (parent != null ==>
          && parent in m && parent in m'
          && m'[parent] == if isLeft then m[parent].(left := next) else m[parent].(right := next))
    && (forall x :: x in m && x != node && x != next && x != prev && x != parent ==> x in m' && m'[x] == m[x])
  }

  lemma ReplacedInSteps(m: Mem, m1: Mem, m': Mem, c: Ctx, l: Tree, node: Node, s: seq<Rib>, next: Node, nextp: Node,
                        nr: Tree)
    requires l.Fork? && nextp == if s == [] then node else s[|s| - 1].n
    requires var d := Spine(InRight(c, l, node), s);
             && FitsCtx(m, d, next, 1 + Height(nr)) && Fits(m, Fork(Leaf, next, nr), node, Hi(d))
             && Distinct(Around(d, Fork(Leaf, next, nr)))
    requires Detached(m, m1, node, next, nextp)
    requires Installed(m1, m', node, next, Last(l), if c.Top? then null else c.n, c.InLeft?)
    ensures Replaced(m, m', c, l, node, s, next, nr)
  {
    hide Fits, FitsCtx, InOrder, Height, Distinct, Before, After, Around, Spine, RibsAfter;
    SpineKnown(m, c, l, node, s, next, nr);
  }

  /** What fills the right side of the base when x fills the end of the spine. */
  ghost function SpineFill(s: seq<Rib>, x: Tree): Tree {
    if s == [] then x else SpineFill(s[..|s| - 1], Fork(x, s[|s| - 1].n, s[|s| - 1].right))
  }

  lemma {:induction false} SpinePlug(base: Ctx, s: seq<Rib>, x: Tree)
    ensures Plug(Spine(base, s), x) == Plug(base, SpineFill(s, x))
    decreases |s|
  {
    if s != [] {
      SpinePlug(base, s[..|s| - 1], Fork(x, s[|s| - 1].n, s[|s| - 1].right));
    }
  }

  lemma {:induction false} SpineBalanced(c: Ctx, l: Tree, a: Node, b: Node, s: seq<Rib>, h: nat)
    ensures BalancedCtx(Spine(InRight(c, l, a), s), h) == BalancedCtx(Spine(InRight(c, l, b), s), h)
    decreases |s|
  {
    if s != [] {
      SpineBalanced(c, l, a, b, s[..|s| - 1], 1 + Max(h, Height(s[|s| - 1].right)));
    }
  }

  /** Root of the whole tree once next stands where node stood. */
  lemma ReplacedRoot(c: Ctx, l: Tree, node: Node, s: seq<Rib>, next: Node, x: Tree, y: Tree)
    ensures Plug(Spine(InRight(c, l, next), s), y).Root()
         == if c.Top? then next else Plug(Spine(InRight(c, l, node), s), x).Root()
  {
    SpinePlug(InRight(c, l, next), s, y);
    SpinePlug(InRight(c, l, node), s, x);
    if !c.Top? {
      PlugRoot(c, Fork(l, next, SpineFill(s, y)), Fork(l, node, SpineFill(s, x)));
    }
  }

  lemma SameTail<T>(a: seq<T>, x: seq<T>, y: seq<T>)
    requires a + x == a + y
    ensures x == y
  {
    assert x == (a + x)[|a|..] && y == (a + y)[|a|..];
  }

  /** The nodes left when next stands where node stood. */
  lemma ReplacedAround(c: Ctx, t: Tree, s: seq<Rib>, next: Node, nr: Tree)
    requires t.Fork? && Plug(Spine(InRight(c, t.left, t.n), s), Fork(Leaf, next, nr)) == Plug(c, t)
    ensures Around(Spine(InRight(c, t.left, next), s), nr)
         == (Before(c) + InOrder(t.left)) + (InOrder(t.right) + After(c))
  {
    hide InOrder, Before, After, Plug, RibsAfter, Spine;
    var l, d := t.left, Spine(InRight(c, t.left, t.n), s);
    PlugInOrder(d, Fork(Leaf, next, nr));
    PlugInOrder(c, t);
    AroundFork(c, t);
    SpineAround(c, l, t.n, s, next, nr);
    var a, b := Before(c) + InOrder(l), [next] + InOrder(nr) + RibsAfter(s) + After(c);
    assert a + [t.n] + [next] + InOrder(nr) + RibsAfter(s) + After(c) == (a + [t.n]) + b;
    SameTail(a + [t.n], b, InOrder(t.right) + After(c));
    SpineParts(InRight(c, l, next), s);
    BeforeRight(c, l, next);
    assert (a + [next]) + InOrder(nr) + (RibsAfter(s) + After(c)) == a + b;
  }

  lemma BeforeRight(c: Ctx, l: Tree, n: Node)
    ensures Before(InRight(c, l, n)) == Before(c) + InOrder(l) + [n] && After(InRight(c, l, n)) == After(c)
  {
  }

  lemma PlugRight(c: Ctx, t: Tree)
    requires t.Fork?
    ensures Plug(Spine(InRight(c, t.left, t.n), []), t.right) == Plug(c, t)
  {
  }

  /** The cells a replacement reads, and which nodes are different ones. */
  lemma SpineKnown(m: Mem, c: Ctx, l: Tree, node: Node, s: seq<Rib>, next: Node, nr: Tree)
    requires l.Fork?
    requires var d := Spine(InRight(c, l, node), s);
             && FitsCtx(m, d, next, 1 + Height(nr)) && Fits(m, Fork(Leaf, next, nr), node, Hi(d))
             && Distinct(Around(d, Fork(Leaf, next, nr)))
    ensures node in m && next in m && node != next && m[node].left == l.n && m[node].leftChild
    ensures m[node].rightChild && (s == [] ==> m[node].right == next)
    ensures !m[next].leftChild && m[next].rightChild == nr.Fork? && (nr.Fork? ==> m[next].right == nr.n)
    ensures s != [] ==> var p := s[|s| - 1].n; p in m && p != node && p != next && p !in InOrder(l)
    ensures s != [] ==> m[s[|s| - 1].n].leftChild && m[s[|s| - 1].n].left == next
    ensures Fits(m, l, Lo(c), node) && node !in InOrder(l) && next !in InOrder(l)
    ensures Last(l) in m && Last(l) in InOrder(l)
    ensures !c.Top? ==> c.n in m && c.n != node && c.n != next && c.n !in InOrder(l)
    ensures !c.Top? && s != [] ==> c.n != s[|s| - 1].n
  {
    SpineApart(c, l, node, s, next, nr);
    SpineBase(m, InRight(c, l, node), s, next, 1 + Height(nr));
    LastIsTail(l);
    FitsInside(m, l, Lo(c), node);
    if !c.Top? { ParentInside(c); }
    if s != [] { RibApart(s); }
  }

  lemma OneSided(n: Node, r: Tree)
    ensures Height(Fork(Leaf, n, r)) == 1 + Height(r)
    ensures Balanced(Fork(Leaf, n, r)) ==> Balanced(r)
  {
  }

  /** A well-formed tree opened at a node with two children and at its successor. */
  lemma ReplaceStart(m: Mem, c: Ctx, t: Tree, s: seq<Rib>, next: Node, nr: Tree)
    requires t.Fork? && Plug(Spine(InRight(c, t.left, t.n), s), Fork(Leaf, next, nr)) == Plug(c, t)
    requires Fits(m, Plug(c, t), null, null) && Balanced(Plug(c, t)) && Distinct(InOrder(Plug(c, t)))
    ensures var d, u := Spine(InRight(c, t.left, t.n), s), Fork(Leaf, next, nr);
            FitsCtx(m, d, next, 1 + Height(nr)) && Fits(m, u, t.n, Hi(d)) && Distinct(Around(d, u))
    ensures Balanced(nr) && BalancedCtx(Spine(InRight(c, t.left, next), s), 1 + Height(nr))
  {
    hide Fits, FitsCtx, InOrder, Height, Distinct, Before, After, Plug, Balanced, BalancedCtx;
    var d, u := Spine(InRight(c, t.left, t.n), s), Fork(Leaf, next, nr);
    OneSided(next, nr);
    SpineAt(m, c, t.left, t.n, s, u);
    PlugBalanced(d, u);
    SpineBalanced(c, t.left, t.n, next, s, 1 + Height(nr));
  }

  /** The lowest node that lost height, ready for the rebalancing loop. */
  lemma ReplaceDone(m: Mem, m': Mem, c: Ctx, l: Tree, node: Node, s: seq<Rib>, next: Node, nr: Tree)
    requires l.Fork? && Replaced(m, m', c, l, node, s, next, nr)
    requires FitsCtx(m, Spine(InRight(c, l, node), s), next, 1 + Height(nr))
    requires Fits(m, Fork(Leaf, next, nr), node, Hi(Spine(InRight(c, l, node), s)))
    requires Distinct(Around(Spine(InRight(c, l, node), s), Fork(Leaf, next, nr)))
    ensures var d := Spine(InRight(c, l, next), s);
            && !d.Top? && Fits(m', Wrap(d, nr), Lo(d.up), Hi(d.up))
            && FitsCtx(m', d.up, d.n, WrapHeight(d, 1 + Height(nr)))
            && d.n == if s == [] then next else s[|s| - 1].n
  {
    hide Fits, FitsCtx, InOrder, Height, Distinct, Before, After, Plug, Replaced;
    if s == [] {
      ReplaceByChildFits(m, m', c, l, node, next, nr);
    } else {
      ReplaceByDeepFits(m, m', c, l, node, s, next, nr);
    }
  }

  /** The path array after the slot of the deleted node was given to its successor. */
  lemma ReplacedPath(p: seq<Node?>, base: nat, c: Ctx, l: Tree, s: seq<Rib>, next: Node)
    requires 1 <= base && base + |s| < |p| && p[..base] == [null] + Path(c) && p[base] == next
    requires |RibNodes(s)| == |s| && p[base + 1..base + |s| + 1] == RibNodes(s)
    ensures p[..base + |s| + 1] == [null] + Path(Spine(InRight(c, l, next), s))
    ensures p[base + |s|] == if s == [] then next else s[|s| - 1].n
  {
    hide Spine, Before, After, InOrder, Lo;
    SpineParts(InRight(c, l, next), s);
    CutTwice(p, base, |s|);
    if s != [] {
      assert p[base + |s|] == p[base + 1..base + |s| + 1][|s| - 1];
    }
  }

  lemma CutTwice(p: seq<Node?>, base: nat, k: nat)
    requires base + k < |p|
    ensures p[..base + k + 1] == p[..base] + [p[base]] + p[base + 1..base + k + 1]
  {
  }

  /** The nodes of a tree without the root of the subtree t. */
  ghost function Others(c: Ctx, t: Tree): seq<Node>
    requires t.Fork?
  {
    (Before(c) + InOrder(t.left)) + (InOrder(t.right) + After(c))
  }

  lemma OthersDistinct(c: Ctx, t: Tree)
    requires t.Fork? && Distinct(Around(c, t))
    ensures Distinct(Others(c, t)) && t.n !in Others(c, t)
    ensures NodeSet(Around(c, t)) == NodeSet(Others(c, t)) + {t.n}
  {
    AroundFork(c, t);
    WithoutOne(Before(c) + InOrder(t.left), t.n, InOrder(t.right) + After(c));
  }

  lemma WithoutOne(a: seq<Node>, x: Node, b: seq<Node>)
    requires Distinct(a + [x] + b)
    ensures Distinct(a + b) && x !in a + b && NodeSet(a + [x] + b) == NodeSet(a + b) + {x}
  {
    DistinctParts(a + [x], b);
    DistinctParts(a, [x]);
    assert x in [x] && x in a + [x];
    var s, r := a + [x] + b, a + b;
    forall i, j | 0 <= i < j < |r| ensures r[i] != r[j] {
      assert r[i] == s[if i < |a| then i else i + 1] && r[j] == s[if j < |a| then j else j + 1];
    }
  }

  /** Order, contents and memory of the tree that is left. */
  lemma DeleteSorted(rk: Node -> int, m: Mem, c: Ctx, t: Tree, u: Tree)
    requires t.Fork? && Sorted(rk, InOrder(Plug(c, t))) && InOrder(u) == Others(c, t) && Fits(m, u, null, null)
    ensures Sorted(rk, InOrder(u)) && NodeSet(InOrder(u)) == NodeSet(InOrder(Plug(c, t))) - {t.n}
    ensures Bindings(rk, InOrder(u)) == Bindings(rk, InOrder(Plug(c, t))) - {rk(t.n)}
    ensures forall m' :: SameOn(m, m', InOrder(u)) ==> Fits(m', u, null, null)
  {
    hide InOrder, Fits, Before, After, Sorted, Bindings, Distinct, Plug;
    PlugInOrder(c, t);
    AroundFork(c, t);
    SortedDistinct(rk, Around(c, t));
    OthersDistinct(c, t);
    BindingsAdd(rk, Before(c) + InOrder(t.left), t.n, InOrder(t.right) + After(c));
    forall m' | SameOn(m, m', InOrder(u)) ensures Fits(m', u, null, null) {
      FitsFrame(m, m', u, null, null);
    }
  }
}
