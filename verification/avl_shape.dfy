/** Shapes of the threaded AVL tree of src/avl_generic.c and the memory cells that represent them.
    A node pointer without its child flag is a thread to the in-order neighbour. */
module AvlShape {
  import opened Common
  import opened AvlKeys

  /** Stored values are opaque pointers; only their identity matters. */
  type Value = nat

  class Node {
    const key: Key
    const value: Value
    var left: Node?
    var right: Node?
    var leftChild: bool
    var rightChild: bool
    var balance: int

    constructor (key: Key, value: Value)
      ensures this.key == key && this.value == value
      ensures Fields() == Cell(null, null, false, false, 0)
    {
      this.key, this.value := key, value;
      left, right, leftChild, rightChild, balance := null, null, false, false, 0;
    }

    ghost function Fields(): Cell
      reads this
    {
      Cell(left, right, leftChild, rightChild, balance)
    }
  }

  /** The mutable fields of one node. */
  datatype Cell = Cell(left: Node?, right: Node?, leftChild: bool, rightChild: bool, balance: int)

  /** A snapshot of the fields of a set of nodes. */
  type Mem = map<Node, Cell>

  ghost function Snap(S: set<Node>): Mem
    reads S
  {
    map n | n in S :: n.Fields()
  }

  datatype Tree = Leaf | Fork(left: Tree, n: Node, right: Tree) {
    ghost function Root(): Node? {
      if Fork? then n else null
    }
  }

  ghost function Height(t: Tree): nat {
    match t
    case Leaf => 0
    case Fork(l, _, r) => 1 + Max(Height(l), Height(r))
  }

  ghost function InOrder(t: Tree): seq<Node> {
    match t
    case Leaf => []
    case Fork(l, n, r) => InOrder(l) + [n] + InOrder(r)
  }

  lemma LeafNodes()
    ensures InOrder(Leaf) == []
  {
  }

  /** Height difference at every node is at most one. */
  ghost predicate Balanced(t: Tree) {
    match t
    case Leaf => true
    case Fork(l, _, r) => -1 <= Height(r) - Height(l) <= 1 && Balanced(l) && Balanced(r)
  }

  /** What the cell of a node must hold, given its subtrees and the neighbours of its whole subtree. */
  ghost function Expected(l: Tree, r: Tree, lo: Node?, hi: Node?): Cell {
    Cell(if l.Fork? then l.n else lo, if r.Fork? then r.n else hi, l.Fork?, r.Fork?, Height(r) - Height(l))
  }

  /** Memory m represents t, whose in-order neighbours are lo and hi: child links, threads in both
      directions and exact balance fields. */
  ghost predicate Fits(m: Mem, t: Tree, lo: Node?, hi: Node?) {
    match t
    case Leaf => true
    case Fork(l, n, r) => n in m && m[n] == Expected(l, r, lo, hi) && Fits(m, l, lo, n) && Fits(m, r, n, hi)
  }

  /** A tree with a hole. InLeft: the hole is the left subtree of n. */
  datatype Ctx = Top | InLeft(up: Ctx, n: Node, right: Tree) | InRight(up: Ctx, left: Tree, n: Node)

  ghost function Plug(c: Ctx, t: Tree): Tree {
    match c
    case Top => t
    case InLeft(up, n, r) => Plug(up, Fork(t, n, r))
    case InRight(up, l, n) => Plug(up, Fork(l, n, t))
  }

  /** In-order predecessor of the hole. */
  ghost function Lo(c: Ctx): Node? {
    match c
    case Top => null
    case InLeft(up, _, _) => Lo(up)
    case InRight(_, _, n) => n
  }

  /** In-order successor of the hole. */
  ghost function Hi(c: Ctx): Node? {
    match c
    case Top => null
    case InLeft(_, n, _) => n
    case InRight(up, _, _) => Hi(up)
  }

  ghost function Before(c: Ctx): seq<Node> {
    match c
    case Top => []
    case InLeft(up, _, _) => Before(up)
    case InRight(up, l, n) => Before(up) + InOrder(l) + [n]
  }

  ghost function After(c: Ctx): seq<Node> {
    match c
    case Top => []
    case InLeft(up, n, r) => [n] + InOrder(r) + After(up)
    case InRight(up, _, _) => After(up)
  }

  /** The ancestors of the hole, root first: the contents of the path array. */
  ghost function Path(c: Ctx): seq<Node> {
    match c
    case Top => []
    case InLeft(up, n, _) => Path(up) + [n]
    case InRight(up, _, n) => Path(up) + [n]
  }

  /** Memory m represents the context c around a subtree rooted at root (null: no subtree) whose
      height the balance fields record as h. */
  ghost predicate FitsCtx(m: Mem, c: Ctx, root: Node?, h: nat) {
    match c
    case Top => true
    case InLeft(up, n, r) =>
      && n in m
      && m[n] == Cell(if root != null then root else Lo(up), if r.Fork? then r.n else Hi(up),
                      root != null, r.Fork?, Height(r) - h)
      && Fits(m, r, n, Hi(up)) && FitsCtx(m, up, n, 1 + Max(h, Height(r)))
    case InRight(up, l, n) =>
      && n in m
      && m[n] == Cell(if l.Fork? then l.n else Lo(up), if root != null then root else Hi(up),
                      l.Fork?, root != null, h - Height(l))
      && Fits(m, l, Lo(up), n) && FitsCtx(m, up, n, 1 + Max(Height(l), h))
  }

  ghost predicate BalancedCtx(c: Ctx, h: nat) {
    match c
    case Top => true
    case InLeft(up, n, r) => -1 <= Height(r) - h <= 1 && Balanced(r) && BalancedCtx(up, 1 + Max(h, Height(r)))
    case InRight(up, l, n) => -1 <= h - Height(l) <= 1 && Balanced(l) && BalancedCtx(up, 1 + Max(Height(l), h))
  }

  // ---------------------------------------------------------------- taking a tree apart at a hole

  lemma {:induction false} PlugInOrder(c: Ctx, t: Tree)
    ensures InOrder(Plug(c, t)) == Before(c) + InOrder(t) + After(c)
    decreases c
  {
    match c
    case Top =>
    case InLeft(up, n, r) => PlugInOrder(up, Fork(t, n, r));
    case InRight(up, l, n) => PlugInOrder(up, Fork(l, n, t));
  }

  /** One frame moved from the context into the subtree. */
  lemma FrameLeft(m: Mem, up: Ctx, n: Node, r: Tree, t: Tree)
    ensures FitsCtx(m, InLeft(up, n, r), t.Root(), Height(t)) && Fits(m, t, Lo(up), n)
       <==> FitsCtx(m, up, n, Height(Fork(t, n, r))) && Fits(m, Fork(t, n, r), Lo(up), Hi(up))
  {
    assert Height(Fork(t, n, r)) == 1 + Max(Height(t), Height(r));
  }

  lemma FrameRight(m: Mem, up: Ctx, l: Tree, n: Node, t: Tree)
    ensures FitsCtx(m, InRight(up, l, n), t.Root(), Height(t)) && Fits(m, t, n, Hi(up))
       <==> FitsCtx(m, up, n, Height(Fork(l, n, t))) && Fits(m, Fork(l, n, t), Lo(up), Hi(up))
  {
    assert Height(Fork(l, n, t)) == 1 + Max(Height(l), Height(t));
  }

  lemma TopFits(m: Mem, root: Node?, h: nat)
    ensures FitsCtx(m, Top, root, h) && BalancedCtx(Top, h)
  {
  }

  lemma {:induction false} PlugFits(m: Mem, c: Ctx, t: Tree)
    ensures Fits(m, Plug(c, t), null, null) <==> FitsCtx(m, c, t.Root(), Height(t)) && Fits(m, t, Lo(c), Hi(c))
    decreases c
  {
    hide Fits, FitsCtx, Height;
    match c
    case Top => TopFits(m, t.Root(), Height(t));
    case InLeft(up, n, r) =>
      PlugFits(m, up, Fork(t, n, r));
      FrameLeft(m, up, n, r, t);
    case InRight(up, l, n) =>
      PlugFits(m, up, Fork(l, n, t));
      FrameRight(m, up, l, n, t);
  }

  lemma FrameBalancedLeft(up: Ctx, n: Node, r: Tree, t: Tree)
    ensures BalancedCtx(InLeft(up, n, r), Height(t)) && Balanced(t)
       <==> BalancedCtx(up, Height(Fork(t, n, r))) && Balanced(Fork(t, n, r))
  {
    assert Height(Fork(t, n, r)) == 1 + Max(Height(t), Height(r));
  }

  lemma FrameBalancedRight(up: Ctx, l: Tree, n: Node, t: Tree)
    ensures BalancedCtx(InRight(up, l, n), Height(t)) && Balanced(t)
       <==> BalancedCtx(up, Height(Fork(l, n, t))) && Balanced(Fork(l, n, t))
  {
    assert Height(Fork(l, n, t)) == 1 + Max(Height(l), Height(t));
  }

  lemma {:induction false} PlugBalanced(c: Ctx, t: Tree)
    ensures Balanced(Plug(c, t)) <==> BalancedCtx(c, Height(t)) && Balanced(t)
    decreases c
  {
    hide Balanced, BalancedCtx, Height;
    match c
    case Top => TopFits(map[], t.Root(), Height(t));
    case InLeft(up, n, r) =>
      PlugBalanced(up, Fork(t, n, r));
      FrameBalancedLeft(up, n, r, t);
    case InRight(up, l, n) =>
      PlugBalanced(up, Fork(l, n, t));
      FrameBalancedRight(up, l, n, t);
  }

  lemma {:induction false} PlugHeight(c: Ctx, t: Tree)
    ensures |Path(c)| + Height(t) <= Height(Plug(c, t))
    decreases c
  {
    match c
    case Top =>
    case InLeft(up, n, r) => PlugHeight(up, Fork(t, n, r));
    case InRight(up, l, n) => PlugHeight(up, Fork(l, n, t));
  }

  lemma {:induction false} LoHiInside(c: Ctx)
    ensures Lo(c) != null ==> Lo(c) in Before(c)
    ensures Hi(c) != null ==> Hi(c) in After(c)
  {
    match c
    case Top =>
    case InLeft(up, n, r) => LoHiInside(up);
    case InRight(up, l, n) => LoHiInside(up);
  }

  /** One level of Fits. */
  lemma FitsFork(m: Mem, t: Tree, lo: Node?, hi: Node?)
    requires t.Fork? && Fits(m, t, lo, hi)
    ensures t.n in m && m[t.n] == Expected(t.left, t.right, lo, hi)
    ensures Fits(m, t.left, lo, t.n) && Fits(m, t.right, t.n, hi)
  {
  }

  // ---------------------------------------------------------------- changing memory elsewhere

  ghost predicate SameOn(m: Mem, m': Mem, s: seq<Node>) {
    forall n :: n in s && n in m ==> n in m' && m'[n] == m[n]
  }

  lemma {:induction false} FitsFrame(m: Mem, m': Mem, t: Tree, lo: Node?, hi: Node?)
    requires Fits(m, t, lo, hi) && SameOn(m, m', InOrder(t))
    ensures Fits(m', t, lo, hi)
    decreases t
  {
    match t
    case Leaf =>
    case Fork(l, n, r) =>
      assert n in InOrder(t);
      FitsFrame(m, m', l, lo, n);
      FitsFrame(m, m', r, n, hi);
  }

  lemma {:induction false} FitsCtxFrame(m: Mem, m': Mem, c: Ctx, root: Node?, h: nat)
    requires FitsCtx(m, c, root, h) && SameOn(m, m', Before(c)) && SameOn(m, m', After(c))
    ensures FitsCtx(m', c, root, h)
    decreases c
  {
    hide Fits, InOrder, SameOn;
    match c
    case Top =>
    case InLeft(up, n, r) =>
      SameOnParts(m, m', [n], InOrder(r), After(up));
      FitsFrame(m, m', r, n, Hi(up));
      FitsCtxFrame(m, m', up, n, 1 + Max(h, Height(r)));
    case InRight(up, l, n) =>
      SameOnParts(m, m', Before(up), InOrder(l), [n]);
      FitsFrame(m, m', l, Lo(up), n);
      FitsCtxFrame(m, m', up, n, 1 + Max(Height(l), h));
  }

  lemma SameOnParts(m: Mem, m': Mem, a: seq<Node>, b: seq<Node>, c: seq<Node>)
    requires SameOn(m, m', a + b + c)
    ensures SameOn(m, m', a) && SameOn(m, m', b) && SameOn(m, m', c)
    ensures forall n :: (a == [n] || c == [n]) && n in m ==> n in m' && m'[n] == m[n]
  {
    assert forall n :: n in a || n in b || n in c ==> n in a + b + c;
  }

  lemma {:induction false} FitsInside(m: Mem, t: Tree, lo: Node?, hi: Node?)
    requires Fits(m, t, lo, hi)
    ensures forall n :: n in InOrder(t) ==> n in m
  {
    match t
    case Leaf =>
    case Fork(l, n, r) =>
      FitsInside(m, l, lo, n);
      FitsInside(m, r, n, hi);
  }

  // ---------------------------------------------------------------- the two ends of a subtree

  ghost function First(t: Tree): Node
    requires t.Fork?
  {
    if t.left.Fork? then First(t.left) else t.n
  }

  ghost function Last(t: Tree): Node
    requires t.Fork?
  {
    if t.right.Fork? then Last(t.right) else t.n
  }

  lemma {:induction false} FirstIsHead(t: Tree)
    requires t.Fork?
    ensures InOrder(t) != [] && InOrder(t)[0] == First(t) && First(t) in InOrder(t)
  {
    if t.left.Fork? { FirstIsHead(t.left); }
  }

  lemma {:induction false} LastIsTail(t: Tree)
    requires t.Fork?
    ensures InOrder(t) != [] && InOrder(t)[|InOrder(t)| - 1] == Last(t) && Last(t) in InOrder(t)
  {
    if t.right.Fork? { LastIsTail(t.right); }
  }

  lemma DistinctParts(a: seq<Node>, b: seq<Node>)
    requires Distinct(a + b)
    ensures Distinct(a) && Distinct(b)
    ensures forall n :: n in a ==> n !in b
  {
    var s := a + b;
    forall i, j | 0 <= i < j < |a| ensures a[i] != a[j] { assert s[i] == a[i] && s[j] == a[j]; }
    forall i, j | 0 <= i < j < |b| ensures b[i] != b[j] { assert s[|a| + i] == b[i] && s[|a| + j] == b[j]; }
    forall n | n in a ensures n !in b {
      var i :| 0 <= i < |a| && a[i] == n;
      forall j | 0 <= j < |b| ensures b[j] != n { assert s[i] == n && s[|a| + j] == b[j]; }
    }
  }

  lemma DistinctFork(t: Tree)
    requires t.Fork? && Distinct(InOrder(t))
    ensures Distinct(InOrder(t.left)) && Distinct(InOrder(t.right))
    ensures t.n !in InOrder(t.left) && t.n !in InOrder(t.right)
    ensures forall n :: n in InOrder(t.left) ==> n !in InOrder(t.right)
  {
    DistinctParts(InOrder(t.left) + [t.n], InOrder(t.right));
    DistinctParts(InOrder(t.left), [t.n]);
    assert t.n in InOrder(t.left) + [t.n];
  }

  /** Redirecting the leftmost thread of a subtree changes its predecessor and nothing else. */
  lemma {:induction false} RethreadFirst(m: Mem, m': Mem, t: Tree, lo: Node?, hi: Node?, lo': Node?)
    requires t.Fork? && Fits(m, t, lo, hi) && Distinct(InOrder(t))
    requires First(t) in m && m' == m[First(t) := m[First(t)].(left := lo')]
    ensures Fits(m', t, lo', hi)
    decreases t
  {
    DistinctFork(t);
    if t.left.Fork? {
      FirstIsHead(t.left);
      RethreadFirst(m, m', t.left, lo, t.n, lo');
      FitsFrame(m, m', t.right, t.n, hi);
    } else {
      FitsFrame(m, m', t.right, t.n, hi);
    }
  }

  lemma {:induction false} RethreadLast(m: Mem, m': Mem, t: Tree, lo: Node?, hi: Node?, hi': Node?)
    requires t.Fork? && Fits(m, t, lo, hi) && Distinct(InOrder(t))
    requires Last(t) in m && m' == m[Last(t) := m[Last(t)].(right := hi')]
    ensures Fits(m', t, lo, hi')
    decreases t
  {
    DistinctFork(t);
    if t.right.Fork? {
      LastIsTail(t.right);
      RethreadLast(m, m', t.right, t.n, hi, hi');
      FitsFrame(m, m', t.left, lo, t.n);
    } else {
      FitsFrame(m, m', t.left, lo, t.n);
    }
  }

  // ---------------------------------------------------------------- height and size

  /** Fewest nodes of an AVL tree of height h. */
  function MinNodes(h: nat): nat {
    if h < 2 then h else 1 + MinNodes(h - 1) + MinNodes(h - 2)
  }

  lemma {:induction false} MinNodesMonotone(a: nat, b: nat)
    requires a <= b
    ensures MinNodes(a) <= MinNodes(b)
    decreases b
  {
    if a < b {
      MinNodesMonotone(a, b - 1);
    }
  }

  lemma {:induction false} SizeAtLeastMinNodes(t: Tree)
    requires Balanced(t)
    ensures MinNodes(Height(t)) <= |InOrder(t)|
  {
    match t
    case Leaf =>
    case Fork(l, _, r) =>
      SizeAtLeastMinNodes(l);
      SizeAtLeastMinNodes(r);
      var h := Height(t);
      if h >= 2 {
        MinNodesMonotone(h - 2, Height(l));
        MinNodesMonotone(h - 2, Height(r));
      }
  }

  lemma MinNodes46()
    ensures MinNodes(46) == 4807526975
  {
    assert MinNodes(10) == 143 && MinNodes(11) == 232;
    assert MinNodes(20) == 17710 && MinNodes(21) == 28656;
    assert MinNodes(30) == 2178308 && MinNodes(31) == 3524577;
    assert MinNodes(40) == 267914295 && MinNodes(41) == 433494436;
  }

  const MAX_HEIGHT: nat := 45
  const MAX_NODES: nat := 0x1_0000_0000

  /** An AVL tree with fewer than 2^32 nodes is at most as high as the path array is long. */
  lemma HeightFitsPath(t: Tree)
    requires Balanced(t) && |InOrder(t)| < MAX_NODES
    ensures Height(t) <= MAX_HEIGHT
  {
    if Height(t) > MAX_HEIGHT {
      SizeAtLeastMinNodes(t);
      MinNodesMonotone(46, Height(t));
      MinNodes46();
    }
  }
}
