/** Search order of the threaded AVL tree and the finite map it stands for. */
module AvlOrder {
  import opened Common
  import opened AvlKeys
  import opened AvlShape
  import opened AvlRotate
  import opened AvlContext

  /** The order of a tree: nodes by the rank of their keys. */
  ghost function ByRank(ignoreCase: bool): Node -> int {
    (n: Node) => Rank(ignoreCase, n.key)
  }

  /** Strictly increasing ranks. */
  ghost predicate Sorted(rk: Node -> int, s: seq<Node>) {
    forall i, j :: 0 <= i < j < |s| ==> rk(s[i]) < rk(s[j])
  }

  /** The finite map a sequence of nodes stands for, keyed by rank. */
  ghost function Bindings(rk: Node -> int, s: seq<Node>): map<int, Value> {
    if s == [] then map[] else Bindings(rk, s[..|s| - 1])[rk(s[|s| - 1]) := s[|s| - 1].value]
  }

  lemma SortedDistinct(rk: Node -> int, s: seq<Node>)
    requires Sorted(rk, s)
    ensures Distinct(s)
  {
  }

  lemma SortedParts(rk: Node -> int, a: seq<Node>, b: seq<Node>)
    ensures Sorted(rk, a + b) <==>
            Sorted(rk, a) && Sorted(rk, b) && forall x, y :: x in a && y in b ==> rk(x) < rk(y)
  {
    var s := a + b;
    if Sorted(rk, s) {
      forall i, j | 0 <= i < j < |a| ensures rk(a[i]) < rk(a[j]) { assert s[i] == a[i] && s[j] == a[j]; }
      forall i, j | 0 <= i < j < |b| ensures rk(b[i]) < rk(b[j]) {
        assert s[|a| + i] == b[i] && s[|a| + j] == b[j];
      }
      forall x, y | x in a && y in b ensures rk(x) < rk(y) {
        var i :| 0 <= i < |a| && a[i] == x;
        var j :| 0 <= j < |b| && b[j] == y;
        assert s[i] == x && s[|a| + j] == y;
      }
    }
  }

  lemma {:induction false} BindingsSpec(rk: Node -> int, s: seq<Node>)
    requires Sorted(rk, s)
    ensures forall n :: n in s ==> rk(n) in Bindings(rk, s) && Bindings(rk, s)[rk(n)] == n.value
    ensures forall k :: k in Bindings(rk, s) ==> exists n :: n in s && rk(n) == k
    ensures |Bindings(rk, s)| == |s|
  {
    if s != [] {
      var a, z := s[..|s| - 1], s[|s| - 1];
      assert s == a + [z];
      SortedParts(rk, a, [z]);
      BindingsSpec(rk, a);
      assert z in [z];
      assert rk(z) !in Bindings(rk, a);
      forall k | k in Bindings(rk, s) ensures exists n :: n in s && rk(n) == k {
        if k == rk(z) { assert z in s; }
      }
    }
  }

  /** m is the map of s, stated by membership. */
  ghost predicate MapsTo(rk: Node -> int, s: seq<Node>, m: map<int, Value>) {
    && (forall n :: n in s ==> rk(n) in m && m[rk(n)] == n.value)
    && (forall k :: k in m ==> exists n :: n in s && rk(n) == k)
  }

  lemma MapsToUnique(rk: Node -> int, s: seq<Node>, m: map<int, Value>, m': map<int, Value>)
    requires MapsTo(rk, s, m) && MapsTo(rk, s, m')
    ensures m == m'
  {
    forall k | k in m ensures k in m' && m[k] == m'[k] {
      var n :| n in s && rk(n) == k;
    }
    forall k | k in m' ensures k in m {
      var n :| n in s && rk(n) == k;
    }
  }

  lemma SortedWithout(rk: Node -> int, a: seq<Node>, x: Node, b: seq<Node>)
    requires Sorted(rk, a + [x] + b)
    ensures Sorted(rk, a + b)
    ensures forall n :: n in a + b ==> rk(n) != rk(x)
  {
    SortedParts(rk, a + [x], b);
    SortedParts(rk, a, [x]);
    assert x in [x] && x in a + [x];
    assert forall n :: n in a ==> n in a + [x];
    SortedParts(rk, a, b);
  }

  lemma BindingsAdd(rk: Node -> int, a: seq<Node>, x: Node, b: seq<Node>)
    requires Sorted(rk, a + [x] + b)
    ensures Sorted(rk, a + b) && rk(x) !in Bindings(rk, a + b)
    ensures Bindings(rk, a + [x] + b) == Bindings(rk, a + b)[rk(x) := x.value]
  {
    SortedWithout(rk, a, x, b);
    BindingsSpec(rk, a + b);
    BindingsSpec(rk, a + [x] + b);
    var m := Bindings(rk, a + b)[rk(x) := x.value];
    forall k | k in m ensures exists n :: n in a + [x] + b && rk(n) == k {
      if k == rk(x) {
        assert x in a + [x] + b;
      } else {
        var n :| n in a + b && rk(n) == k;
        assert n in a + [x] + b;
      }
    }
    forall n | n in a + [x] + b ensures rk(n) in m && m[rk(n)] == n.value {
      if n != x { assert n in a + b; }
    }
    MapsToUnique(rk, a + [x] + b, m, Bindings(rk, a + [x] + b));
  }

  // ---------------------------------------------------------------- searching

  /** Everything before the hole ranks below k and everything after it above k. */
  ghost predicate Brackets(rk: Node -> int, c: Ctx, k: int) {
    (forall n :: n in Before(c) ==> rk(n) < k) && (forall n :: n in After(c) ==> k < rk(n))
  }

  /** What a search standing at t knows about the node it looks at. */
  lemma SearchAt(m: Mem, c: Ctx, t: Tree)
    requires t.Fork? && Fits(m, Plug(c, t), null, null)
    ensures t.n in m && m[t.n] == Expected(t.left, t.right, Lo(c), Hi(c))
    ensures InOrder(Plug(c, t)) == Around(c, t) && t.n in InOrder(Plug(c, t))
  {
    PlugInOrder(c, t);
    PlugFits(m, c, t);
    assert t.n in InOrder(t);
  }

  /** Opening a well-formed tree at t, in a snapshot m' that may cover more nodes than m. */
  lemma OpenAt(m: Mem, m': Mem, c: Ctx, t: Tree)
    requires t.Fork? && Fits(m, Plug(c, t), null, null) && Balanced(Plug(c, t))
    requires forall n :: n in m ==> n in m' && m'[n] == m[n]
    ensures InOrder(Plug(c, t)) == Around(c, t) && t.n in Around(c, t) && t.n in m
    ensures FitsCtx(m', c, t.n, Height(t)) && Fits(m', t, Lo(c), Hi(c))
    ensures Balanced(t) && BalancedCtx(c, Height(t))
  {
    SearchAt(m, c, t);
    FitsFrame(m, m', Plug(c, t), null, null);
    PlugFits(m', c, t);
    PlugBalanced(c, t);
  }

  lemma PlugLeaf(c: Ctx, t: Tree)
    requires t.Fork?
    ensures t.left.Leaf? ==> Plug(InLeft(c, t.n, t.right), Leaf) == Plug(c, t)
    ensures t.right.Leaf? ==> Plug(InRight(c, t.left, t.n), Leaf) == Plug(c, t)
  {
  }

  lemma SubtreeSorted(rk: Node -> int, c: Ctx, t: Tree)
    requires t.Fork? && Sorted(rk, Around(c, t))
    ensures forall n :: n in InOrder(t.left) ==> rk(n) < rk(t.n)
    ensures forall n :: n in InOrder(t.right) ==> rk(t.n) < rk(n)
  {
    SortedParts(rk, Before(c) + InOrder(t), After(c));
    SortedParts(rk, Before(c), InOrder(t));
    SortedParts(rk, InOrder(t.left) + [t.n], InOrder(t.right));
    SortedParts(rk, InOrder(t.left), [t.n]);
    assert t.n in [t.n] && t.n in InOrder(t.left) + [t.n];
  }

  lemma EmptyBindings(rk: Node -> int)
    ensures Bindings(rk, InOrder(Leaf)) == map[] && InOrder(Leaf) == [] && forall k :: Brackets(rk, Top, k)
  {
  }

  lemma SearchLeft(rk: Node -> int, c: Ctx, t: Tree, k: int)
    requires t.Fork? && Sorted(rk, Around(c, t)) && Brackets(rk, c, k) && k < rk(t.n)
    ensures Brackets(rk, InLeft(c, t.n, t.right), k)
  {
    SubtreeSorted(rk, c, t);
  }

  lemma SearchRight(rk: Node -> int, c: Ctx, t: Tree, k: int)
    requires t.Fork? && Sorted(rk, Around(c, t)) && Brackets(rk, c, k) && rk(t.n) < k
    ensures Brackets(rk, InRight(c, t.left, t.n), k)
  {
    SubtreeSorted(rk, c, t);
  }

  /** A search that runs into an empty hole proves the key absent. */
  lemma SearchMiss(rk: Node -> int, c: Ctx, k: int)
    requires Sorted(rk, InOrder(Plug(c, Leaf))) && Brackets(rk, c, k)
    ensures k !in Bindings(rk, InOrder(Plug(c, Leaf)))
  {
    PlugInOrder(c, Leaf);
    BindingsSpec(rk, InOrder(Plug(c, Leaf)));
  }

  lemma SearchHit(rk: Node -> int, c: Ctx, t: Tree)
    requires t.Fork? && Sorted(rk, InOrder(Plug(c, t)))
    ensures rk(t.n) in Bindings(rk, InOrder(Plug(c, t)))
    ensures Bindings(rk, InOrder(Plug(c, t)))[rk(t.n)] == t.n.value
  {
    PlugInOrder(c, t);
    assert t.n in InOrder(t);
    BindingsSpec(rk, InOrder(Plug(c, t)));
  }

  /** Filling the hole where a search for a new node's key ended keeps the order and adds its binding. */
  lemma InsertAtHole(rk: Node -> int, c: Ctx, child: Node)
    requires Sorted(rk, InOrder(Plug(c, Leaf))) && Brackets(rk, c, rk(child))
    ensures Sorted(rk, Around(c, Fork(Leaf, child, Leaf)))
    ensures Bindings(rk, Around(c, Fork(Leaf, child, Leaf)))
         == Bindings(rk, InOrder(Plug(c, Leaf)))[rk(child) := child.value]
    ensures NodeSet(Around(c, Fork(Leaf, child, Leaf))) == NodeSet(InOrder(Plug(c, Leaf))) + {child}
  {
    hide InOrder, Before, After, Plug, Sorted, Bindings;
    PlugInOrder(c, Leaf);
    OneNode(child);
    var a, b := Before(c), After(c);
    assert InOrder(Plug(c, Leaf)) == a + b;
    SortedParts(rk, a, b);
    SortedParts(rk, a, [child]);
    SortedParts(rk, a + [child], b);
    SortedOne(rk, child);
    BindingsAdd(rk, a, child, b);
    SetWith(a, child, b);
  }

  lemma OneNode(child: Node)
    ensures InOrder(Leaf) == [] && InOrder(Fork(Leaf, child, Leaf)) == [child]
  {
  }

  lemma SortedOne(rk: Node -> int, child: Node)
    ensures Sorted(rk, [child])
  {
  }

  lemma SetWith(a: seq<Node>, x: Node, b: seq<Node>)
    ensures NodeSet(a + [x] + b) == NodeSet(a + b) + {x}
  {
    assert x in [x];
  }

  /** The first node of an empty tree. */
  lemma SingleNode(rk: Node -> int, m: Mem, child: Node)
    requires child in m && m[child] == Cell(null, null, false, false, 0)
    ensures var t := Fork(Leaf, child, Leaf);
            && Fits(m, t, null, null) && Balanced(t) && InOrder(t) == [child] && NodeSet(InOrder(t)) == {child}
            && Sorted(rk, InOrder(t)) && Bindings(rk, InOrder(t)) == map[rk(child) := child.value]
  {
    var s := [child];
    assert s[..0] == [];
    assert InOrder(Fork(Leaf, child, Leaf)) == s;
  }
}
