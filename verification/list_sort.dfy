/** http2d_list_sort: the links are rewritten in place, pass by pass. */
module ListSort {
  import opened Common
  import opened ListSpec
  import opened ListRing

  /** Positions lo to hi of the circle a still have their forward links. */
  ghost predicate Forward(a: seq<Entry>, lo: nat, hi: nat)
    reads a
  {
    hi <= |a| && forall k :: lo <= k < hi ==> a[k].next == a[After(k, |a|)]
  }

  /** The output so far: linked forward up to its last entry, and backward down to null. */
  ghost predicate Chain(out: seq<Entry>)
    reads out
  {
    && (forall k :: 0 <= k < |out| - 1 ==> out[k].next == out[k + 1])
    && (forall k :: 0 <= k < |out| ==> out[k].prev == (if k == 0 then null else out[k - 1]))
  }

  /** The two ends of the output. */
  ghost predicate Ends(out: seq<Entry>, list: Entry?, tail: Entry?) {
    if out == [] then list == null && tail == null else list == out[0] && tail == out[|out| - 1]
  }

  /** The entry at position k, or null past the end. */
  ghost function At(a: seq<Entry>, k: nat): Entry? {
    if k < |a| then a[k] else null
  }

  /** None of the positions lo to hi has been moved to the output. */
  ghost predicate Waiting(a: seq<Entry>, lo: nat, hi: nat, out: seq<Entry>) {
    hi <= |a| && forall k :: lo <= k < hi ==> a[k] !in out
  }

  ghost predicate Output(out: seq<Entry>, list: Entry?, tail: Entry?, a: seq<Entry>)
    reads out
  {
    Chain(out) && Distinct(out) && Ends(out, list, tail) && forall x :: x in out ==> x in a
  }

  /** One entry is appended to the output. */
  method Append(e: Entry, list: Entry?, tail: Entry?, ghost out: seq<Entry>, ghost a: seq<Entry>)
    returns (list': Entry?, tail': Entry?)
    requires Output(out, list, tail, a) && e !in out && e in a
    modifies a
    ensures Output(out + [e], list', tail', a)
    ensures forall x :: x in a && x != tail ==> x.next == old(x.next)
  {
    list' := list;
    if tail != null {
      assert tail in out;
      tail.next := e;
    } else {
      list' := e;
    }
    e.prev := tail;
    tail' := e;
    ghost var r := out + [e];
    assert forall k :: 0 <= k < |out| ==> r[k] == out[k] && out[k] in out;
    forall k | 0 <= k < |r| ensures r[k].prev == (if k == 0 then null else r[k - 1]) {
    }
    assert Chain(r);
  }

  /** The entry after x, or null at the end of the circle. */
  method Step(x: Entry, oldhead: Entry, ghost a: seq<Entry>, ghost k: nat, ghost hi: nat) returns (y: Entry?)
    requires Distinct(a) && k < hi <= |a| && a[0] == oldhead && a[k] == x && Forward(a, k, hi)
    ensures y == At(a, k + 1)
  {
    y := x.next;
    if y == oldhead { y := null; }
  }

  /** Finds where the second run starts, and how long the first one is. */
  method FindRun(p: Entry, insize: nat, oldhead: Entry, ghost a: seq<Entry>, ghost b: nat)
    returns (q: Entry?, psize: nat)
    requires Distinct(a) && b < |a| && a[0] == oldhead && a[b] == p && insize >= 1 && Forward(a, b, |a|)
    ensures psize == Clip(b + insize, |a|) - b && q == At(a, b + psize)
  {
    q, psize := p, 0;
    var i := 0;
    while i < insize
      invariant 0 <= i <= insize && psize == i && b + i < |a| && q == a[b + i]
    {
      psize := psize + 1;
      q := Step(q, oldhead, a, b + i, |a|);
      if q == null { break; }
      i := i + 1;
    }
  }

  /** Where a merge stands: i of the first run [b, m) and j of the second run [m, e) come next. */
  ghost predicate Merging(a: seq<Entry>, i: nat, m: nat, j: nat, e: nat, out: seq<Entry>)
    reads a
  {
    && i <= m <= j <= e <= |a| && Distinct(a)
    && Forward(a, i, m) && Forward(a, j, |a|) && Waiting(a, i, m, out) && Waiting(a, j, |a|, out)
  }

  lemma MergeTakesP(cmp: Cmp<Entry>, a: seq<Entry>, i: nat, m: nat, j: nat, e: nat, out: seq<Entry>)
    requires i < m <= j <= e <= |a| && (j == e || cmp(a[i], a[j]) <= 0)
    ensures out + Merge(cmp, a[i..m], a[j..e]) == (out + [a[i]]) + Merge(cmp, a[i + 1..m], a[j..e])
  {
    assert a[i..m][1..] == a[i + 1..m];
    assert a[i..m] == [a[i]] + a[i + 1..m];
    if j == e { MergeNil(cmp, a[i..m], a[j..e]); MergeNil(cmp, a[i + 1..m], a[j..e]); }
  }

  lemma MergeTakesQ(cmp: Cmp<Entry>, a: seq<Entry>, i: nat, m: nat, j: nat, e: nat, out: seq<Entry>)
    requires i <= m <= j < e <= |a| && (i == m || cmp(a[i], a[j]) > 0)
    ensures out + Merge(cmp, a[i..m], a[j..e]) == (out + [a[j]]) + Merge(cmp, a[i..m], a[j + 1..e])
  {
    assert a[j..e][1..] == a[j + 1..e];
    assert a[j..e] == [a[j]] + a[j + 1..e];
  }

  lemma MergeNil(cmp: Cmp<Entry>, s: seq<Entry>, t: seq<Entry>)
    requires t == []
    ensures Merge(cmp, s, t) == s
  {
  }

  /** Moving one waiting entry to the output leaves the others waiting. */
  lemma StillWaiting(a: seq<Entry>, lo: nat, hi: nat, out: seq<Entry>, k: nat)
    requires Waiting(a, lo, hi, out) && Distinct(a) && k < |a|
    ensures k < lo || hi <= k ==> Waiting(a, lo, hi, out + [a[k]])
    ensures k == lo ==> Waiting(a, lo + 1, hi, out + [a[k]])
  {
  }

  /** The next entry of one of the two runs goes to the output. */
  method Take(x: Entry, list: Entry?, tail: Entry?, ghost out: seq<Entry>, ghost a: seq<Entry>,
              ghost i: nat, ghost m: nat, ghost j: nat, ghost e: nat, ghost k: nat)
    returns (list': Entry?, tail': Entry?)
    requires Merging(a, i, m, j, e, out) && Output(out, list, tail, a) && (k == i < m || k == j < e) && a[k] == x
    modifies a
    ensures k == i < m ==> Merging(a, i + 1, m, j, e, out + [x])
    ensures k == j < e ==> Merging(a, i, m, j + 1, e, out + [x])
    ensures Output(out + [x], list', tail', a)
  {
    assert tail != null ==> tail in out;
    list', tail' := Append(x, list, tail, out, a);
    assert Forward(a, i, m) && Forward(a, j, |a|);
    StillWaiting(a, i, m, out, k);
    StillWaiting(a, j, |a|, out, k);
  }

  lemma SplitRuns(a: seq<Entry>, b: nat, m: nat, e: nat, out: seq<Entry>)
    requires b <= m <= e <= |a| && Merging(a, b, b, b, |a|, out)
    ensures Merging(a, b, m, m, e, out)
  {
  }

  lemma JoinRuns(a: seq<Entry>, m: nat, e: nat, out: seq<Entry>)
    requires Merging(a, m, m, e, e, out)
    ensures Merging(a, e, e, e, |a|, out)
  {
  }

  /** The inner loop: two neighbouring runs are merged onto the output. */
  method MergeRuns(cmp: Cmp<Entry>, p0: Entry, q0: Entry?, psize0: nat, insize: nat, oldhead: Entry,
                   list0: Entry?, tail0: Entry?, ghost a: seq<Entry>, ghost b: nat, ghost out0: seq<Entry>)
    returns (q: Entry?, list: Entry?, tail: Entry?, ghost out: seq<Entry>)
    requires insize >= 1 && b < |a| && a[0] == oldhead && p0 == a[b]
    requires psize0 == Clip(b + insize, |a|) - b && q0 == At(a, b + psize0)
    requires Merging(a, b, b, b, |a|, out0) && Output(out0, list0, tail0, a)
    modifies a
    ensures var m, e := b + psize0, Clip(b + psize0 + insize, |a|);
            && q == At(a, e) && Merging(a, e, e, e, |a|, out) && Output(out, list, tail, a)
            && out == out0 + Merge(cmp, a[b..m], a[m..e])
  {
    hide Merge, Output, Forward, Waiting, Distinct;
    var p, psize, qsize := p0, psize0, insize;
    q, list, tail, out := q0, list0, tail0, out0;
    ghost var m, e := b + psize0, Clip(b + psize0 + insize, |a|);
    ghost var i, j := b, m;
    SplitRuns(a, b, m, e, out0);
    while psize > 0 || (qsize > 0 && q != null)
      invariant b <= i <= m <= j <= e && psize == m - i && qsize == insize - (j - m)
      invariant q == At(a, j) && (i < m ==> p == a[i])
      invariant Merging(a, i, m, j, e, out) && Output(out, list, tail, a)
      invariant out + Merge(cmp, a[i..m], a[j..e]) == out0 + Merge(cmp, a[b..m], a[m..e])
      decreases psize + qsize
    {
      if psize == 0 || (qsize > 0 && q != null && cmp(p, q) > 0) {
        MergeTakesQ(cmp, a, i, m, j, e, out);
        var x := q;
        q := Step(q, oldhead, a, j, |a|);
        qsize := qsize - 1;
        list, tail := Take(x, list, tail, out, a, i, m, j, e, j);
        out := out + [x];
        j := j + 1;
      } else {
        MergeTakesP(cmp, a, i, m, j, e, out);
        var x := p;
        p := Step(p, oldhead, a, i, m);
        psize := psize - 1;
        list, tail := Take(x, list, tail, out, a, i, m, j, e, i);
        out := out + [x];
        i := i + 1;
      }
    }
    MergeNil(cmp, a[i..m], a[j..e]);
    JoinRuns(a, m, e, out);
  }

  lemma PassStep(cmp: Cmp<Entry>, a: seq<Entry>, b: nat, w: nat, out: seq<Entry>)
    requires w >= 1 && b < |a|
    ensures var m, e := Clip(b + w, |a|), Clip(b + 2 * w, |a|);
            out + Pass(cmp, a[b..], w) == (out + Merge(cmp, a[b..m], a[m..e])) + Pass(cmp, a[e..], w)
  {
    hide Merge, Pass;
    var m, e := Clip(b + w, |a|), Clip(b + 2 * w, |a|);
    PassUnfolds(cmp, a[b..], w);
    assert a[b..][..m - b] == a[b..m] && a[b..][m - b..e - b] == a[m..e] && a[b..][e - b..] == a[e..];
    Reassociate(out, Merge(cmp, a[b..m], a[m..e]), Pass(cmp, a[e..], w));
  }

  lemma PassEnd(cmp: Cmp<Entry>, s: seq<Entry>, w: nat)
    requires w >= 1 && s == []
    ensures Pass(cmp, s, w) == []
  {
  }

  /** A ring is where a pass starts: nothing moved, nothing written. */
  lemma RingIsForward(a: seq<Entry>)
    requires Ring(a)
    ensures Merging(a, 0, 0, 0, |a|, []) && Output([], null, null, a) && Distinct(a)
  {
  }

  /** Closing the output makes it a ring. */
  method Close(list: Entry, tail: Entry, ghost out: seq<Entry>, ghost a: seq<Entry>)
    requires Output(out, list, tail, a)
    modifies a
    ensures Ring(out)
  {
    assert out[0] in a && out[|out| - 1] in a;
    tail.next := list;
    list.prev := tail;
  }

  /** One pass over the circle, for one value of insize; nmerges counts the pairs of runs. */
  method OnePass(cmp: Cmp<Entry>, oldhead: Entry, insize: nat, ghost a: seq<Entry>)
    returns (list: Entry, nmerges: nat, ghost out: seq<Entry>)
    requires insize >= 1 && Ring(a) && a[0] == oldhead
    modifies set x | x in a
    ensures out == Pass(cmp, a, insize) && Ring(out) && list == out[0]
    ensures nmerges <= 1 <==> |a| <= 2 * insize
    ensures nmerges <= |a|
  {
    hide Merge, Output, Forward, Waiting, Distinct, Pass, Ring;
    RingIsForward(a);
    RingNotEmpty(a);
    var p: Entry?, first: Entry?, tail: Entry? := oldhead, null, null;
    out, nmerges := [], 0;
    ghost var b := 0;
    assert a[0..] == a;
    while p != null
      invariant b <= |a| && p == At(a, b)
      invariant Merging(a, b, b, b, |a|, out) && Output(out, first, tail, a)
      invariant out + Pass(cmp, a[b..], insize) == Pass(cmp, a, insize)
      invariant nmerges == 0 ==> b == 0
      invariant nmerges == 1 ==> b == Clip(2 * insize, |a|)
      invariant nmerges >= 2 ==> |a| > 2 * insize
      invariant nmerges <= b
      decreases |a| - b
    {
      nmerges := nmerges + 1;
      PassStep(cmp, a, b, insize, out);
      var q, psize := FindRun(p, insize, oldhead, a, b);
      q, first, tail, out := MergeRuns(cmp, p, q, psize, insize, oldhead, first, tail, a, b, out);
      p := q;
      b := Clip(b + 2 * insize, |a|);
    }
    PassEnd(cmp, a[b..], insize);
    PassPermutes(cmp, a, insize);
    OutputEnds(out, first, tail, a);
    list := first;
    Close(list, tail, out, a);
  }

  lemma RingNotEmpty(a: seq<Entry>)
    requires Ring(a)
    ensures a != []
  {
  }

  lemma OutputEnds(out: seq<Entry>, list: Entry?, tail: Entry?, a: seq<Entry>)
    requires Output(out, list, tail, a) && out != []
    ensures list == out[0] && tail == out[|out| - 1]
  {
  }

  /** The circle the passes work on. The head leaves the list first; an empty list leaves the head alone
      in its circle, and then the head itself is the one entry that is sorted. */
  ghost function Circle(head: Entry, xs: seq<Entry>): seq<Entry> {
    if xs == [] then [head] else xs
  }

  method Unhead(head: Entry, ghost xs: seq<Entry>) returns (list: Entry)
    requires Ring([head] + xs)
    modifies head, set x | x in xs
    ensures Ring(Circle(head, xs)) && list == Circle(head, xs)[0]
  {
    hide Ring, Distinct;
    ghost var s := [head] + xs;
    RingLinks(s);
    assert s[0] == head;
    assert xs != [] ==> s[1] == xs[0];
    assert forall x :: x in s ==> x == head || x in xs;
    list := head.next;
    Del(head, s, 0);
    assert s[..0] + s[1..] == xs;
    assert xs == [] ==> s == [head];
  }

  method Rehead(head: Entry, list: Entry, ghost ys: seq<Entry>)
    requires Ring(Circle(head, ys)) && list == Circle(head, ys)[0] && head !in ys
    modifies head, set x | x in ys
    ensures Ring([head] + ys)
  {
    hide Ring, Distinct;
    RingLinks(Circle(head, ys));
    LastApart(Circle(head, ys));
    head.next := list;
    head.prev := list.prev;
    list.prev.next := head;
    list.prev := head;
    if ys != [] {
      InsertedRing(ys, head);
    } else {
      assert [head] + ys == [head];
      SingleRing(head);
    }
  }

  /** The same entries, in whatever order. */
  ghost predicate SameEntries(s: seq<Entry>, t: seq<Entry>) {
    |s| == |t| && (forall x :: x in s ==> x in t) && (forall x :: x in t ==> x in s)
  }

  lemma SameBag(s: seq<Entry>, t: seq<Entry>)
    requires multiset(s) == multiset(t)
    ensures SameEntries(s, t)
  {
    assert |multiset(s)| == |s| && |multiset(t)| == |t|;
    forall x | x in s ensures x in t { assert x in multiset(s); }
    forall x | x in t ensures x in s { assert x in multiset(t); }
  }

  lemma SortFromStep(cmp: Cmp<Entry>, s: seq<Entry>, w: nat)
    requires w >= 1
    ensures SortFrom(cmp, s, w) == if |s| <= 2 * w then Pass(cmp, s, w) else SortFrom(cmp, Pass(cmp, s, w), 2 * w)
    ensures SameEntries(s, Pass(cmp, s, w))
  {
    PassPermutes(cmp, s, w);
    SameBag(s, Pass(cmp, s, w));
  }

  /** http2d_list_sort: for every list and comparator the ring ends up holding the sorted entries, linked
      both ways. The width of the runs stays below the length of the list, so it fits an int whenever
      the length does. */
  method Sort(head: Entry, cmp: Cmp<Entry>, ghost xs: seq<Entry>)
    requires Ring([head] + xs)
    modifies head, set x | x in xs
    ensures Ring([head] + SortFrom(cmp, xs, 1))
  {
    hide Ring, SortFrom, Pass;
    HeadApart(head, xs);
    var list := Unhead(head, xs);
    ghost var a := Circle(head, xs);
    ghost var s := a;
    var insize: nat := 1;
    while true
      invariant insize >= 1 && SameEntries(s, a) && Ring(s) && list == s[0]
      invariant SortFrom(cmp, s, insize) == SortFrom(cmp, a, 1)
      invariant insize == 1 || insize < |s|
      decreases |s| - insize
    {
      var nmerges;
      SortFromStep(cmp, s, insize);
      list, nmerges, s := OnePass(cmp, list, insize, s);
      if nmerges <= 1 { break; }
      insize := insize * 2;
    }
    SortedCircle(cmp, head, xs);
    Rehead(head, list, SortFrom(cmp, xs, 1));
  }

  lemma HeadApart(head: Entry, xs: seq<Entry>)
    requires Ring([head] + xs)
    ensures head !in xs
  {
    var s := [head] + xs;
    assert forall k :: 0 <= k < |xs| ==> xs[k] == s[k + 1];
    assert s[0] == head;
  }

  lemma SortedCircle(cmp: Cmp<Entry>, head: Entry, xs: seq<Entry>)
    ensures SortFrom(cmp, Circle(head, xs), 1) == Circle(head, SortFrom(cmp, xs, 1))
    ensures SameEntries(SortFrom(cmp, xs, 1), xs)
  {
    SortFromPermutes(cmp, xs, 1);
    SameBag(SortFrom(cmp, xs, 1), xs);
    SortFromPermutes(cmp, [head], 1);
    if xs == [] { assert |SortFrom(cmp, [head], 1)| == 1; SingleBag(SortFrom(cmp, [head], 1), head); }
  }

  lemma SingleBag(s: seq<Entry>, x: Entry)
    requires multiset(s) == multiset{x} && |s| == 1
    ensures s == [x]
  {
    assert s == [s[0]];
    assert s[0] in multiset(s);
  }
}
