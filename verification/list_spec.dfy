/** What http2d_list_sort computes: bottom-up merging of runs whose width doubles with every pass. */
module ListSpec {
  import opened Common

  /** A comparator; what it returns for two entries does not depend on how they are linked. */
  type Cmp<!T> = (T, T) -> int

  /** The comparator orders the elements of d, possibly with ties. */
  ghost predicate TotalPreorder<T>(cmp: Cmp<T>, d: set<T>) {
    && (forall x, y :: x in d && y in d ==> cmp(x, y) <= 0 || cmp(y, x) <= 0)
    && (forall x, y, z :: x in d && y in d && z in d && cmp(x, y) <= 0 && cmp(y, z) <= 0 ==> cmp(x, z) <= 0)
  }

  ghost predicate Within<T>(s: seq<T>, d: set<T>) {
    forall i :: 0 <= i < |s| ==> s[i] in d
  }

  ghost predicate Sorted<T>(cmp: Cmp<T>, s: seq<T>) {
    forall i, j :: 0 <= i < j < |s| ==> cmp(s[i], s[j]) <= 0
  }

  /** x and y tie. */
  predicate Same<T>(cmp: Cmp<T>, x: T, y: T) {
    cmp(x, y) <= 0 && cmp(y, x) <= 0
  }

  /** The elements that tie with x, in their order. */
  function Ties<T>(cmp: Cmp<T>, x: T, s: seq<T>): seq<T> {
    if s == [] then []
    else (if Same(cmp, x, s[0]) then [s[0]] else []) + Ties(cmp, x, s[1..])
  }

  /** t is a sorted permutation of s that keeps the order of ties. */
  ghost predicate StableSorting<T>(cmp: Cmp<T>, s: seq<T>, t: seq<T>) {
    && Sorted(cmp, t) && multiset(t) == multiset(s)
    && (forall x :: x in s ==> Ties(cmp, x, t) == Ties(cmp, x, s))
  }

  function Merge<T>(cmp: Cmp<T>, a: seq<T>, b: seq<T>): seq<T>
    decreases |a| + |b|
  {
    if a == [] then b
    else if b == [] then a
    else if cmp(a[0], b[0]) <= 0 then [a[0]] + Merge(cmp, a[1..], b)
    else [b[0]] + Merge(cmp, a, b[1..])
  }

  function Clip(k: int, n: nat): nat {
    if k < 0 then 0 else if k < n then k else n
  }

  /** One pass: neighbouring runs of width w are merged. */
  function Pass<T>(cmp: Cmp<T>, s: seq<T>, w: nat): seq<T>
    requires w >= 1
    decreases |s|
  {
    if s == [] then []
    else
      var m, e := Clip(w, |s|), Clip(2 * w, |s|);
      Merge(cmp, s[..m], s[m..e]) + Pass(cmp, s[e..], w)
  }

  lemma ConsBag<T>(s: seq<T>)
    requires s != []
    ensures multiset(s) == multiset{s[0]} + multiset(s[1..])
  {
    assert s == [s[0]] + s[1..];
  }

  lemma {:induction false} MergeLen<T>(cmp: Cmp<T>, a: seq<T>, b: seq<T>)
    ensures multiset(Merge(cmp, a, b)) == multiset(a) + multiset(b) && |Merge(cmp, a, b)| == |a| + |b|
    decreases |a| + |b|
  {
    if a != [] && b != [] {
      ConsBag(a);
      ConsBag(b);
      ConsBag(Merge(cmp, a, b));
      if cmp(a[0], b[0]) <= 0 {
        MergeLen(cmp, a[1..], b);
        assert Merge(cmp, a, b)[1..] == Merge(cmp, a[1..], b);
      } else {
        MergeLen(cmp, a, b[1..]);
        assert Merge(cmp, a, b)[1..] == Merge(cmp, a, b[1..]);
      }
    }
  }

  lemma PassNone<T>(cmp: Cmp<T>, w: nat)
    requires w >= 1
    ensures Pass(cmp, [], w) == []
  {
  }

  /** A pass loses and invents nothing. */
  lemma {:induction false} PassPermutes<T>(cmp: Cmp<T>, s: seq<T>, w: nat)
    requires w >= 1
    ensures multiset(Pass(cmp, s, w)) == multiset(s) && |Pass(cmp, s, w)| == |s|
    decreases |s|
  {
    hide Merge, Pass;
    PassNone(cmp, w);
    if s != [] {
      var m, e := Clip(w, |s|), Clip(2 * w, |s|);
      MergeLen(cmp, s[..m], s[m..e]);
      PassPermutes(cmp, s[e..], w);
      ThreeBags(s, m, e);
      TwoBags(Merge(cmp, s[..m], s[m..e]), Pass(cmp, s[e..], w));
      PassUnfolds(cmp, s, w);
    }
  }

  lemma TwoBags<T>(a: seq<T>, b: seq<T>)
    ensures multiset(a + b) == multiset(a) + multiset(b)
  {
  }

  lemma ThreeBags<T>(s: seq<T>, m: nat, e: nat)
    requires m <= e <= |s|
    ensures multiset(s) == multiset(s[..m]) + multiset(s[m..e]) + multiset(s[e..])
  {
    assert s == s[..m] + s[m..e] + s[e..];
  }

  lemma PassUnfolds<T>(cmp: Cmp<T>, s: seq<T>, w: nat)
    requires w >= 1 && s != []
    ensures var m, e := Clip(w, |s|), Clip(2 * w, |s|);
            Pass(cmp, s, w) == Merge(cmp, s[..m], s[m..e]) + Pass(cmp, s[e..], w)
  {
    hide Merge;
  }

  /** All passes, starting with width w. */
  function SortFrom<T>(cmp: Cmp<T>, s: seq<T>, w: nat): seq<T>
    requires w >= 1
    decreases |s| - w
  {
    if |s| <= 2 * w then Pass(cmp, s, w)
    else
      PassPermutes(cmp, s, w);
      SortFrom(cmp, Pass(cmp, s, w), 2 * w)
  }

  // ---------------------------------------------------------------- sortedness

  lemma {:induction false} MergeMembers<T>(cmp: Cmp<T>, a: seq<T>, b: seq<T>, x: T)
    ensures x in Merge(cmp, a, b) <==> x in a || x in b
  {
    MergeLen(cmp, a, b);
    assert x in Merge(cmp, a, b) <==> x in multiset(Merge(cmp, a, b));
  }

  lemma ConsSorted<T>(cmp: Cmp<T>, x: T, s: seq<T>)
    requires Sorted(cmp, s) && forall y :: y in s ==> cmp(x, y) <= 0
    ensures Sorted(cmp, [x] + s)
  {
  }

  lemma HeadLeast<T>(cmp: Cmp<T>, s: seq<T>, d: set<T>, x: T, y: T)
    requires TotalPreorder(cmp, d) && Within(s, d) && Sorted(cmp, s) && x in d && s != [] && cmp(x, s[0]) <= 0 && y in s
    ensures cmp(x, y) <= 0
  {
    var i :| 0 <= i < |s| && s[i] == y;
    assert i > 0 ==> cmp(s[0], s[i]) <= 0;
  }

  lemma TailSorted<T>(cmp: Cmp<T>, s: seq<T>, d: set<T>)
    requires Within(s, d) && Sorted(cmp, s) && s != []
    ensures Within(s[1..], d) && Sorted(cmp, s[1..]) && s == [s[0]] + s[1..]
  {
  }

  lemma LeastFirst<T>(cmp: Cmp<T>, x: T, a: seq<T>, b: seq<T>, a': seq<T>, b': seq<T>, d: set<T>)
    requires TotalPreorder(cmp, d) && Within(a, d) && Within(b, d) && Sorted(cmp, a) && Sorted(cmp, b) && a != []
    requires b != []
    requires x in d && cmp(x, a[0]) <= 0 && cmp(x, b[0]) <= 0
    requires (forall y :: y in a' ==> y in a) && (forall y :: y in b' ==> y in b)
    requires Sorted(cmp, Merge(cmp, a', b')) && Within(Merge(cmp, a', b'), d)
    ensures Sorted(cmp, [x] + Merge(cmp, a', b')) && Within([x] + Merge(cmp, a', b'), d)
  {
    hide TotalPreorder, Sorted, Merge;
    forall y | y in Merge(cmp, a', b') ensures cmp(x, y) <= 0 {
      MergeMembers(cmp, a', b', y);
      if y in a { HeadLeast(cmp, a, d, x, y); } else { HeadLeast(cmp, b, d, x, y); }
    }
    ConsSorted(cmp, x, Merge(cmp, a', b'));
  }

  lemma {:induction false} MergeSorted<T>(cmp: Cmp<T>, a: seq<T>, b: seq<T>, d: set<T>)
    requires TotalPreorder(cmp, d) && Within(a, d) && Within(b, d) && Sorted(cmp, a) && Sorted(cmp, b)
    ensures Sorted(cmp, Merge(cmp, a, b)) && Within(Merge(cmp, a, b), d)
    decreases |a| + |b|
  {
    hide Sorted;
    if a != [] && b != [] {
      TailSorted(cmp, a, d);
      TailSorted(cmp, b, d);
      assert a[0] in d && b[0] in d && cmp(a[0], a[0]) <= 0 && cmp(b[0], b[0]) <= 0;
      if cmp(a[0], b[0]) <= 0 {
        MergeSorted(cmp, a[1..], b, d);
        LeastFirst(cmp, a[0], a, b, a[1..], b, d);
      } else {
        MergeSorted(cmp, a, b[1..], d);
        LeastFirst(cmp, b[0], a, b, a, b[1..], d);
      }
    }
  }

  /** Runs of width w are sorted. */
  ghost predicate RunsSorted<T>(cmp: Cmp<T>, s: seq<T>, w: nat)
    requires w >= 1
    decreases |s|
  {
    s == [] || (Sorted(cmp, s[..Clip(w, |s|)]) && RunsSorted(cmp, s[Clip(w, |s|)..], w))
  }

  lemma {:induction false} UnitRuns<T>(cmp: Cmp<T>, s: seq<T>)
    ensures RunsSorted(cmp, s, 1)
    decreases |s|
  {
    if s != [] { UnitRuns(cmp, s[1..]); }
  }

  /** The first two runs of a sequence. */
  lemma TwoRuns<T>(cmp: Cmp<T>, s: seq<T>, w: nat)
    requires w >= 1 && s != [] && RunsSorted(cmp, s, w)
    ensures var m, e := Clip(w, |s|), Clip(2 * w, |s|);
            Sorted(cmp, s[..m]) && Sorted(cmp, s[m..e]) && RunsSorted(cmp, s[e..], w)
  {
    hide Sorted;
    var m, e := Clip(w, |s|), Clip(2 * w, |s|);
    var t := s[m..];
    if t == [] {
      assert s[m..e] == t && s[e..] == t;
      assert Sorted(cmp, t) by { EmptySorted(cmp, t); }
    } else {
      assert t[..Clip(w, |t|)] == s[m..e] && t[Clip(w, |t|)..] == s[e..];
    }
  }

  lemma EmptySorted<T>(cmp: Cmp<T>, s: seq<T>)
    requires s == []
    ensures Sorted(cmp, s)
  {
  }

  lemma ConsRun<T>(cmp: Cmp<T>, a: seq<T>, s: seq<T>, w: nat)
    requires w >= 1 && a != [] && Sorted(cmp, a) && RunsSorted(cmp, s, w) && |a| == Clip(w, |a| + |s|)
    ensures RunsSorted(cmp, a + s, w)
  {
    hide Sorted;
    assert (a + s)[..|a|] == a && (a + s)[|a|..] == s;
  }

  /** A pass doubles the width of the sorted runs. */
  lemma {:induction false} PassDoubles<T>(cmp: Cmp<T>, s: seq<T>, w: nat, d: set<T>)
    requires w >= 1 && TotalPreorder(cmp, d) && Within(s, d) && RunsSorted(cmp, s, w)
    ensures RunsSorted(cmp, Pass(cmp, s, w), 2 * w) && Within(Pass(cmp, s, w), d)
    decreases |s|
  {
    hide Sorted, RunsSorted, TotalPreorder;
    if s != [] {
      var m, e := Clip(w, |s|), Clip(2 * w, |s|);
      TwoRuns(cmp, s, w);
      MergeSorted(cmp, s[..m], s[m..e], d);
      MergeLen(cmp, s[..m], s[m..e]);
      PassDoubles(cmp, s[e..], w, d);
      PassPermutes(cmp, s[e..], w);
      ConsRun(cmp, Merge(cmp, s[..m], s[m..e]), Pass(cmp, s[e..], w), 2 * w);
    } else {
      EmptyRuns(cmp, Pass(cmp, s, w), 2 * w);
    }
  }

  lemma EmptyRuns<T>(cmp: Cmp<T>, s: seq<T>, w: nat)
    requires w >= 1 && s == []
    ensures RunsSorted(cmp, s, w)
  {
  }

  lemma SingleRun<T>(cmp: Cmp<T>, s: seq<T>, w: nat)
    requires w >= 1 && RunsSorted(cmp, s, w) && |s| <= w
    ensures Sorted(cmp, s)
  {
    if s != [] { assert s[..Clip(w, |s|)] == s; }
  }

  // ---------------------------------------------------------------- stability

  lemma {:induction false} TiesConcat<T>(cmp: Cmp<T>, x: T, a: seq<T>, b: seq<T>)
    ensures Ties(cmp, x, a + b) == Ties(cmp, x, a) + Ties(cmp, x, b)
    decreases |a|
  {
    if a == [] {
      assert a + b == b;
    } else {
      TiesConcat(cmp, x, a[1..], b);
      assert (a + b)[0] == a[0] && (a + b)[1..] == a[1..] + b;
      var h := if Same(cmp, x, a[0]) then [a[0]] else [];
      Reassociate(h, Ties(cmp, x, a[1..]), Ties(cmp, x, b));
    }
  }

  lemma {:induction false} NoTies<T>(cmp: Cmp<T>, x: T, s: seq<T>)
    requires forall y :: y in s ==> !Same(cmp, x, y)
    ensures Ties(cmp, x, s) == []
  {
    if s != [] { NoTies(cmp, x, s[1..]); }
  }

  /** An element that ties with x overtakes a run only when nothing there ties with x. */
  lemma OvertakesNone<T>(cmp: Cmp<T>, x: T, a: seq<T>, y: T, d: set<T>)
    requires TotalPreorder(cmp, d) && Within(a, d) && Sorted(cmp, a) && x in d && y in d
    requires a != [] && cmp(a[0], y) > 0 && Same(cmp, x, y)
    ensures Ties(cmp, x, a) == []
  {
    forall z | z in a ensures !Same(cmp, x, z) {
      assert a[0] in d && cmp(a[0], a[0]) <= 0;
      HeadLeast(cmp, a, d, a[0], z);
      assert z in d;
      assert cmp(z, x) <= 0 && cmp(x, y) <= 0 ==> cmp(z, y) <= 0;
    }
    NoTies(cmp, x, a);
  }

  /** Merging keeps the order of ties: those of the first run come first. */
  lemma {:induction false} MergeStable<T>(cmp: Cmp<T>, x: T, a: seq<T>, b: seq<T>, d: set<T>)
    requires TotalPreorder(cmp, d) && Within(a, d) && Within(b, d) && Sorted(cmp, a) && Sorted(cmp, b) && x in d
    ensures Ties(cmp, x, Merge(cmp, a, b)) == Ties(cmp, x, a) + Ties(cmp, x, b)
    decreases |a| + |b|
  {
    hide TotalPreorder, Sorted, Ties, Merge;
    MergeUnfolds(cmp, a, b);
    if a == [] || b == [] {
      TiesNone(cmp, x);
    } else {
      TailSorted(cmp, a, d);
      TailSorted(cmp, b, d);
      if cmp(a[0], b[0]) <= 0 {
        MergeStable(cmp, x, a[1..], b, d);
        TiesFirst(cmp, x, a[0], Merge(cmp, a[1..], b));
        TiesFirst(cmp, x, a[0], a[1..]);
        Reassociate(Tied(cmp, x, a[0]), Ties(cmp, x, a[1..]), Ties(cmp, x, b));
      } else {
        MergeStable(cmp, x, a, b[1..], d);
        TiesFirst(cmp, x, b[0], Merge(cmp, a, b[1..]));
        TiesFirst(cmp, x, b[0], b[1..]);
        if Same(cmp, x, b[0]) { OvertakesNone(cmp, x, a, b[0], d); }
      }
    }
  }

  lemma MergeUnfolds<T>(cmp: Cmp<T>, a: seq<T>, b: seq<T>)
    ensures Merge(cmp, a, b) ==
              if a == [] then b else if b == [] then a
              else if cmp(a[0], b[0]) <= 0 then [a[0]] + Merge(cmp, a[1..], b) else [b[0]] + Merge(cmp, a, b[1..])
  {
  }

  function Tied<T>(cmp: Cmp<T>, x: T, y: T): seq<T> {
    if Same(cmp, x, y) then [y] else []
  }

  lemma TiesFirst<T>(cmp: Cmp<T>, x: T, y: T, s: seq<T>)
    ensures Ties(cmp, x, [y] + s) == Tied(cmp, x, y) + Ties(cmp, x, s)
  {
    assert ([y] + s)[1..] == s;
  }

  lemma TiesNone<T>(cmp: Cmp<T>, x: T)
    ensures Ties(cmp, x, []) == []
  {
  }

  lemma {:induction false} PassStable<T>(cmp: Cmp<T>, x: T, s: seq<T>, w: nat, d: set<T>)
    requires w >= 1 && TotalPreorder(cmp, d) && Within(s, d) && RunsSorted(cmp, s, w) && x in d
    ensures Ties(cmp, x, Pass(cmp, s, w)) == Ties(cmp, x, s)
    decreases |s|
  {
    hide TotalPreorder, Sorted, RunsSorted, Ties;
    if s != [] {
      var m, e := Clip(w, |s|), Clip(2 * w, |s|);
      TwoRuns(cmp, s, w);
      MergeStable(cmp, x, s[..m], s[m..e], d);
      PassStable(cmp, x, s[e..], w, d);
      TiesConcat(cmp, x, Merge(cmp, s[..m], s[m..e]), Pass(cmp, s[e..], w));
      TiesConcat(cmp, x, s[..m], s[m..e]);
      TiesConcat(cmp, x, s[..m] + s[m..e], s[e..]);
      assert s == s[..m] + s[m..e] + s[e..];
    }
  }

  // ---------------------------------------------------------------- the whole sort

  lemma {:induction false} SortFromPermutes<T>(cmp: Cmp<T>, s: seq<T>, w: nat)
    requires w >= 1
    ensures multiset(SortFrom(cmp, s, w)) == multiset(s) && |SortFrom(cmp, s, w)| == |s|
    decreases |s| - w
  {
    PassPermutes(cmp, s, w);
    if |s| > 2 * w { SortFromPermutes(cmp, Pass(cmp, s, w), 2 * w); }
  }

  lemma {:induction false} SortFromSorts<T>(cmp: Cmp<T>, s: seq<T>, w: nat, d: set<T>)
    requires w >= 1 && TotalPreorder(cmp, d) && Within(s, d) && RunsSorted(cmp, s, w)
    ensures Sorted(cmp, SortFrom(cmp, s, w))
    ensures forall x :: x in d ==> Ties(cmp, x, SortFrom(cmp, s, w)) == Ties(cmp, x, s)
    decreases |s| - w
  {
    hide TotalPreorder, Sorted, RunsSorted, Ties, Pass;
    PassPermutes(cmp, s, w);
    PassDoubles(cmp, s, w, d);
    forall x | x in d ensures Ties(cmp, x, Pass(cmp, s, w)) == Ties(cmp, x, s) { PassStable(cmp, x, s, w, d); }
    if |s| > 2 * w {
      SortFromSorts(cmp, Pass(cmp, s, w), 2 * w, d);
    } else {
      SingleRun(cmp, Pass(cmp, s, w), 2 * w);
    }
  }

  function SetOf<T>(s: seq<T>): set<T> {
    set x | x in s
  }

  /** For every comparator that is a total preorder on the list the result is a stable sorted
      permutation of it. */
  lemma SortIsStableSorting<T>(cmp: Cmp<T>, s: seq<T>)
    requires TotalPreorder(cmp, SetOf(s))
    ensures StableSorting(cmp, s, SortFrom(cmp, s, 1))
  {
    hide TotalPreorder, Sorted, RunsSorted, Ties, Pass, SortFrom;
    UnitRuns(cmp, s);
    SortFromPermutes(cmp, s, 1);
    SortFromSorts(cmp, s, 1, SetOf(s));
  }

  /** The result is the only stable sorted permutation. */
  lemma SortIsTheStableSorting<T>(cmp: Cmp<T>, s: seq<T>, t: seq<T>)
    requires TotalPreorder(cmp, SetOf(s))
    ensures StableSorting(cmp, s, t) <==> t == SortFrom(cmp, s, 1)
  {
    hide TotalPreorder, Sorted, Ties, SortFrom;
    SortIsStableSorting(cmp, s);
    if StableSorting(cmp, s, t) {
      var r := SortFrom(cmp, s, 1);
      SameBagWithin(s, t);
      SameBagWithin(s, r);
      StableSortingUnique(cmp, t, r, SetOf(s));
    }
  }

  lemma SameBagWithin<T>(s: seq<T>, t: seq<T>)
    requires multiset(t) == multiset(s)
    ensures |t| == |s| && Within(t, SetOf(s))
  {
    assert |multiset(t)| == |t| && |multiset(s)| == |s|;
    forall i | 0 <= i < |t| ensures t[i] in s { assert t[i] in multiset(t); }
  }

  lemma CancelLeft<T>(p: seq<T>, u: seq<T>, v: seq<T>)
    requires p + u == p + v
    ensures u == v
  {
    assert u == (p + u)[|p|..] && v == (p + v)[|p|..];
  }

  lemma {:induction false} StableSortingUnique<T>(cmp: Cmp<T>, a: seq<T>, b: seq<T>, d: set<T>)
    requires TotalPreorder(cmp, d) && Within(a, d) && Within(b, d) && Sorted(cmp, a) && Sorted(cmp, b) && |a| == |b|
    requires forall x :: x in d ==> Ties(cmp, x, a) == Ties(cmp, x, b)
    ensures a == b
    decreases |a|
  {
    hide TotalPreorder, Sorted, Ties;
    if a != [] {
      TailSorted(cmp, a, d);
      TailSorted(cmp, b, d);
      SameHeads(cmp, a, b, d);
      forall x | x in d ensures Ties(cmp, x, a[1..]) == Ties(cmp, x, b[1..]) {
        TiesConcat(cmp, x, [a[0]], a[1..]);
        TiesConcat(cmp, x, [a[0]], b[1..]);
        CancelLeft(Ties(cmp, x, [a[0]]), Ties(cmp, x, a[1..]), Ties(cmp, x, b[1..]));
      }
      StableSortingUnique(cmp, a[1..], b[1..], d);
    }
  }

  lemma SameHeads<T>(cmp: Cmp<T>, a: seq<T>, b: seq<T>, d: set<T>)
    requires TotalPreorder(cmp, d) && Within(a, d) && Within(b, d) && Sorted(cmp, a) && Sorted(cmp, b)
    requires a != [] && b != []
    requires forall x :: x in d ==> Ties(cmp, x, a) == Ties(cmp, x, b)
    ensures a[0] == b[0]
  {
    HeadTies(cmp, a, b, d);
    HeadTies(cmp, b, a, d);
    assert Ties(cmp, a[0], a)[0] == a[0];
  }

  lemma HeadTies<T>(cmp: Cmp<T>, a: seq<T>, b: seq<T>, d: set<T>)
    requires TotalPreorder(cmp, d) && Within(a, d) && Within(b, d) && Sorted(cmp, b) && a != [] && b != []
    requires forall x :: x in d ==> Ties(cmp, x, a) == Ties(cmp, x, b)
    ensures cmp(b[0], a[0]) <= 0 && Same(cmp, a[0], a[0])
  {
    assert a[0] in d && b[0] in d;
    assert Ties(cmp, a[0], b) != [];
    if forall y :: y in b ==> !Same(cmp, a[0], y) {
      NoTies(cmp, a[0], b);
    } else {
      var y :| y in b && Same(cmp, a[0], y);
      HeadLeast(cmp, b, d, b[0], y);
    }
  }
}
