/** The intrusive circular lists of src/list.h and src/list.c. */
module ListRing {
  import opened Common

  /** The links are a part of some larger structure; owner names it. */
  class Entry {
    const owner: int
    var next: Entry?
    var prev: Entry?

    constructor (owner: int)
      ensures this.owner == owner && next == null && prev == null
    {
      this.owner, next, prev := owner, null, null;
    }
  }

  function After(k: nat, n: nat): nat {
    if k + 1 < n then k + 1 else 0
  }

  function Before(k: nat, n: nat): nat
    requires k < n
  {
    if k > 0 then k - 1 else n - 1
  }

  /** The entries of s, and no others, form a circle in this order, linked both ways. A list with head h
      and content xs is the ring [h] + xs. */
  ghost predicate Ring(s: seq<Entry>)
    reads set x | x in s
  {
    && s != [] && Distinct(s)
    && (forall k :: 0 <= k < |s| ==> s[k].next == s[After(k, |s|)])
    && (forall k :: 0 <= k < |s| ==> s[k].prev == s[Before(k, |s|)])
  }

  /** INIT_LIST_HEAD. */
  method InitHead(head: Entry)
    modifies head
    ensures Ring([head])
  {
    head.next := head;
    head.prev := head;
  }

  method IsEmpty(head: Entry, ghost xs: seq<Entry>) returns (r: bool)
    requires Ring([head] + xs)
    ensures r <==> xs == []
  {
    assert ([head] + xs)[0] == head;
    if xs != [] { assert ([head] + xs)[1] == xs[0]; }
    r := head.next == head;
  }

  /** Links that pass through x between the last and the first entry of s. */
  ghost predicate Inserted(s: seq<Entry>, x: Entry)
    reads s, x
    requires s != []
  {
    var n := |s|;
    && x.next == s[0] && x.prev == s[n - 1] && s[n - 1].next == x && s[0].prev == x
    && (forall k :: 0 <= k < n - 1 ==> s[k].next == s[k + 1])
    && (forall k :: 1 <= k < n ==> s[k].prev == s[k - 1])
  }

  lemma InsertedRing(s: seq<Entry>, x: Entry)
    requires s != [] && Distinct(s) && x !in s && Inserted(s, x)
    ensures Ring([x] + s)
  {
    var r := [x] + s;
    forall k | 0 <= k < |r| ensures r[k].next == r[After(k, |r|)] && r[k].prev == r[Before(k, |r|)] {
      assert k > 0 ==> r[k] == s[k - 1];
    }
  }

  /** The links of a ring, without the wrap-around arithmetic. */
  lemma RingLinks(s: seq<Entry>)
    requires Ring(s)
    ensures s != [] && Distinct(s) && s[|s| - 1].next == s[0] && s[0].prev == s[|s| - 1]
    ensures forall k :: 0 <= k < |s| - 1 ==> s[k].next == s[k + 1]
    ensures forall k :: 1 <= k < |s| ==> s[k].prev == s[k - 1]
  {
    assert After(|s| - 1, |s|) == 0 && Before(0, |s|) == |s| - 1;
    forall k | 0 <= k < |s| - 1 ensures s[k].next == s[k + 1] { assert After(k, |s|) == k + 1; }
    forall k | 1 <= k < |s| ensures s[k].prev == s[k - 1] { assert Before(k, |s|) == k - 1; }
  }

  lemma RingInserted(s: seq<Entry>, x: Entry)
    requires s != [] && Ring([x] + s)
    ensures Inserted(s, x) && Distinct(s) && x !in s
  {
    hide Distinct, Ring;
    var r := [x] + s;
    RingLinks(r);
    RestDistinct(r);
    assert r[0] == x && r[1..] == s;
    assert forall k :: 0 <= k < |s| ==> s[k] == r[k + 1];
    forall k | 0 <= k < |s| - 1 ensures s[k].next == s[k + 1] { assert r[k + 1].next == r[k + 1 + 1]; }
    forall k | 1 <= k < |s| ensures s[k].prev == s[k - 1] { assert r[k + 1].prev == r[k + 1 - 1]; }
  }

  lemma RestDistinct(r: seq<Entry>)
    requires Distinct(r) && r != []
    ensures Distinct(r[1..]) && r[0] !in r[1..]
  {
    forall k | 0 <= k < |r[1..]| ensures r[1..][k] != r[0] { assert r[1..][k] == r[k + 1]; }
  }

  lemma TailInserted(s: seq<Entry>, x: Entry)
    requires s != [] && Ring(s + [x])
    ensures Inserted(s, x) && Distinct(s) && x !in s
  {
    hide Distinct, Ring;
    var r := s + [x];
    RingLinks(r);
    FrontDistinct(s, x);
    assert r[|s|] == x && r[0] == s[0] && r[|s| - 1] == s[|s| - 1];
    forall k | 0 <= k < |s| - 1 ensures s[k].next == s[k + 1] { assert r[k].next == r[k + 1]; }
    forall k | 1 <= k < |s| ensures s[k].prev == s[k - 1] { assert r[k].prev == r[k - 1]; }
  }

  lemma FrontDistinct(s: seq<Entry>, x: Entry)
    requires Distinct(s + [x])
    ensures Distinct(s) && x !in s
  {
    var r := s + [x];
    assert r[|s|] == x;
    assert forall k :: 0 <= k < |s| ==> s[k] == r[k];
  }

  lemma InsertedTail(s: seq<Entry>, x: Entry)
    requires s != [] && Distinct(s) && x !in s && Inserted(s, x)
    ensures Ring(s + [x])
  {
    var r := s + [x];
    forall k | 0 <= k < |r| ensures r[k].next == r[After(k, |r|)] && r[k].prev == r[Before(k, |r|)] {
      assert k < |s| ==> r[k] == s[k];
    }
  }

  /** A ring may be read from any of its entries. */
  lemma RingRotates(x: Entry, s: seq<Entry>)
    ensures Ring([x] + s) <==> Ring(s + [x])
  {
    hide Ring, Inserted, Distinct;
    if s == [] {
      assert [x] + s == s + [x];
    } else if Ring([x] + s) {
      RingInserted(s, x);
      InsertedTail(s, x);
    } else if Ring(s + [x]) {
      TailInserted(s, x);
      InsertedRing(s, x);
    }
  }

  /** The last entry is at no other position, nor is the first. */
  lemma LastApart(s: seq<Entry>)
    requires Distinct(s) && s != []
    ensures forall k :: 0 <= k < |s| - 1 ==> s[k] != s[|s| - 1]
    ensures forall k :: 1 <= k < |s| ==> s[k] != s[0]
  {
  }

  /** A ring, with a new entry before the first one. */
  method Insert(entry: Entry, next: Entry, prev: Entry, ghost s: seq<Entry>)
    requires Ring(s) && entry !in s && next == s[0] && prev == s[|s| - 1]
    modifies entry, set x | x in s
    ensures Ring([entry] + s)
  {
    hide Ring, Distinct;
    RingLinks(s);
    LastApart(s);
    entry.next := next;
    entry.prev := prev;
    prev.next := entry;
    next.prev := entry;
    InsertedRing(s, entry);
  }

  /** The new entry comes right after the head. */
  method Add(entry: Entry, head: Entry, ghost xs: seq<Entry>)
    requires Ring([head] + xs) && entry !in [head] + xs
    modifies entry, set x | x in [head] + xs
    ensures Ring([head, entry] + xs)
  {
    assert ([head] + xs)[0] == head;
    ghost var s := xs + [head];
    assert forall x :: x in s <==> x in [head] + xs;
    RingRotates(head, xs);
    assert s[|xs|] == head && head.next == s[0];
    Insert(entry, head.next, head, s);
    assert [entry] + s == ([entry] + xs) + [head];
    RingRotates(head, [entry] + xs);
    assert [head] + ([entry] + xs) == [head, entry] + xs;
  }

  /** The new entry comes right before the head. */
  method AddTail(entry: Entry, head: Entry, ghost xs: seq<Entry>)
    requires Ring([head] + xs) && entry !in [head] + xs
    modifies entry, set x | x in [head] + xs
    ensures Ring([head] + xs + [entry])
  {
    ghost var s := [head] + xs;
    assert s[0] == head;
    Insert(entry, head, head.prev, s);
    RingRotates(entry, s);
  }

  /** The neighbours of position i once position k is skipped. */
  function AfterSkip(i: nat, k: nat, n: nat): nat
    requires i < n && k < n
  {
    if i == Before(k, n) then After(k, n) else After(i, n)
  }

  function BeforeSkip(i: nat, k: nat, n: nat): nat
    requires i < n && k < n
  {
    if i == After(k, n) then Before(k, n) else Before(i, n)
  }

  /** Links that skip position k. */
  ghost predicate Skips(s: seq<Entry>, k: nat)
    requires k < |s|
    reads s
  {
    && (forall i: nat :: i < |s| && i != k ==> s[i].next == s[AfterSkip(i, k, |s|)])
    && (forall i: nat :: i < |s| && i != k ==> s[i].prev == s[BeforeSkip(i, k, |s|)])
  }

  /** The sequence without position k. */
  ghost function Dropped(s: seq<Entry>, k: nat): seq<Entry>
    requires k < |s|
  {
    s[..k] + s[k + 1..]
  }

  /** Where position i of the shorter sequence was. */
  function Was(i: nat, k: nat): nat { if i < k then i else i + 1 }

  lemma DroppedAt(s: seq<Entry>, k: nat, i: nat)
    requires k < |s| && i < |s| - 1
    ensures |Dropped(s, k)| == |s| - 1 && Dropped(s, k)[i] == s[Was(i, k)]
  {
  }

  lemma DroppedDistinct(s: seq<Entry>, k: nat)
    requires k < |s| && Distinct(s)
    ensures Distinct(Dropped(s, k))
  {
    var r := Dropped(s, k);
    forall i, j | 0 <= i < j < |r| ensures r[i] != r[j] {
      DroppedAt(s, k, i);
      DroppedAt(s, k, j);
    }
  }

  lemma SkipNeighbours(i: nat, k: nat, n: nat)
    requires i < n - 1 && k < n
    ensures Was(After(i, n - 1), k) == AfterSkip(Was(i, k), k, n)
    ensures Was(Before(i, n - 1), k) == BeforeSkip(Was(i, k), k, n)
  {
  }

  lemma SkipsRing(s: seq<Entry>, k: nat)
    requires k < |s| && |s| >= 2 && Distinct(s) && Skips(s, k)
    ensures Ring(s[..k] + s[k + 1..])
  {
    hide Distinct, Dropped;
    var n, r := |s|, Dropped(s, k);
    DroppedDistinct(s, k);
    DroppedAt(s, k, 0);
    forall i | 0 <= i < n - 1 ensures r[i].next == r[After(i, n - 1)] && r[i].prev == r[Before(i, n - 1)] {
      DroppedAt(s, k, i);
      DroppedAt(s, k, After(i, n - 1));
      DroppedAt(s, k, Before(i, n - 1));
      SkipNeighbours(i, k, n);
    }
    assert r == s[..k] + s[k + 1..] by { DroppedIs(s, k); }
  }

  lemma DroppedIs(s: seq<Entry>, k: nat)
    requires k < |s|
    ensures Dropped(s, k) == s[..k] + s[k + 1..]
  {
  }

  lemma DelSkips(s: seq<Entry>, k: nat)
    requires Distinct(s) && k < |s| && |s| >= 2
    requires forall i: nat :: i < |s| ==>
               s[i].next == s[if s[i] == s[Before(k, |s|)] then After(k, |s|) else After(i, |s|)]
    requires forall i: nat :: i < |s| ==>
               s[i].prev == s[if s[i] == s[After(k, |s|)] then Before(k, |s|) else Before(i, |s|)]
    ensures Skips(s, k)
  {
  }

  lemma Neighbours(s: seq<Entry>, k: nat)
    requires Ring(s) && k < |s|
    ensures Distinct(s)
    ensures forall i: nat :: i < |s| ==> s[i].next == s[After(i, |s|)] && s[i].prev == s[Before(i, |s|)]
    ensures |s| >= 2 ==> s[k] != s[After(k, |s|)] && s[k] != s[Before(k, |s|)]
  {
  }

  /** The entry leaves the ring; its own links keep pointing at the old neighbours. The entry of a ring
      of one stays where it is. */
  method Del(entry: Entry, ghost s: seq<Entry>, ghost k: nat)
    requires Ring(s) && k < |s| && s[k] == entry
    modifies set x | x in s
    ensures Ring(if |s| == 1 then s else s[..k] + s[k + 1..])
    ensures entry.next == old(entry.next) && entry.prev == old(entry.prev)
  {
    hide Ring, Skips, Distinct;
    Neighbours(s, k);
    entry.next.prev := entry.prev;
    entry.prev.next := entry.next;
    if |s| >= 2 {
      DelSkips(s, k);
      SkipsRing(s, k);
    } else {
      assert s == [entry];
      SingleRing(entry);
    }
  }

  lemma SingleRing(x: Entry)
    requires x.next == x && x.prev == x
    ensures Ring([x])
  {
  }

  /** http2d_list_reparent: the content moves to another head. An empty list is left alone, and then the
      new head keeps whatever links it had. */
  method Reparent(list: Entry, head: Entry, ghost xs: seq<Entry>)
    requires Ring([list] + xs) && head !in [list] + xs
    modifies head, set x | x in xs
    ensures xs != [] ==> Ring([head] + xs)
    ensures xs == [] ==> head.next == old(head.next) && head.prev == old(head.prev)
  {
    hide Ring, Distinct;
    var none := IsEmpty(list, xs);
    if none { return; }
    RingInserted(xs, list);
    head.next := list.next;
    head.prev := list.prev;
    head.prev.next := head;
    head.next.prev := head;
    InsertedRing(xs, head);
  }

  /** The first k entries of xs, the last of them first. */
  ghost function Backwards(xs: seq<Entry>, k: nat): seq<Entry>
    requires k <= |xs|
  {
    seq(k, i requires 0 <= i < k => xs[k - 1 - i])
  }

  /** The entries of a list that still have their forward links, the head at the end. */
  ghost predicate Pending(head: Entry, xs: seq<Entry>, k: nat)
    reads xs
  {
    forall j :: k <= j < |xs| ==> xs[j].next == if j + 1 < |xs| then xs[j + 1] else head
  }

  ghost function Upcoming(head: Entry, xs: seq<Entry>, k: nat): Entry {
    if k < |xs| then xs[k] else head
  }

  lemma AllPending(head: Entry, xs: seq<Entry>)
    requires Ring([head] + xs)
    ensures Pending(head, xs, 0) && head.next == Upcoming(head, xs, 0) && Distinct(xs) && head !in xs
    ensures xs == [] ==> head.prev == head
  {
    if xs != [] { RingInserted(xs, head); } else { assert ([head] + xs)[0] == head; }
  }

  /** One more entry moves to the front of the new list. */
  method MoveFirst(i: Entry, head: Entry, other: Entry, ghost xs: seq<Entry>, ghost k: nat)
    requires k < |xs| && i == xs[k] && Distinct(xs) && head !in xs && other !in xs && other != head
    requires Ring([other] + Backwards(xs, k)) && Pending(head, xs, k)
    modifies other, set x | x in xs
    ensures Ring([other] + Backwards(xs, k + 1)) && Pending(head, xs, k + 1)
  {
    hide Ring, Distinct;
    ghost var b := Backwards(xs, k);
    WaitingApart(other, xs, k);
    Add(i, other, b);
    assert [other, i] + b == [other] + Backwards(xs, k + 1);
    assert forall j :: k + 1 <= j < |xs| ==> xs[j] !in [other] + b && xs[j] != i;
  }

  lemma WaitingApart(other: Entry, xs: seq<Entry>, k: nat)
    requires k < |xs| && Distinct(xs) && other !in xs
    ensures forall x :: x in [other] + Backwards(xs, k) ==> x == other || x in xs
    ensures forall j :: k <= j < |xs| ==> xs[j] !in [other] + Backwards(xs, k)
    ensures forall j :: k + 1 <= j < |xs| ==> xs[j] != xs[k]
  {
  }

  /** http2d_list_invert: the list holds the same entries in the opposite order. */
  method Invert(head: Entry, ghost xs: seq<Entry>)
    requires Ring([head] + xs)
    modifies head, set x | x in xs
    ensures Ring([head] + Backwards(xs, |xs|))
  {
    hide Ring, Pending, Distinct;
    AllPending(head, xs);
    var other := new Entry(0);
    InitHead(other);
    assert [other] + Backwards(xs, 0) == [other];
    var i := head.next;
    ghost var k := 0;
    while i != head
      invariant k <= |xs| && i == Upcoming(head, xs, k)
      invariant Ring([other] + Backwards(xs, k)) && Pending(head, xs, k)
      invariant xs == [] ==> head.next == head && head.prev == head
      decreases |xs| - k
    {
      PendingNext(head, xs, k);
      var tmp := i.next;
      MoveFirst(i, head, other, xs, k);
      i, k := tmp, k + 1;
    }
    assert forall x :: x in Backwards(xs, |xs|) ==> x in xs;
    Reparent(other, head, Backwards(xs, |xs|));
    if xs == [] {
      SingleRing(head);
      assert [head] + Backwards(xs, 0) == [head];
    }
  }

  lemma PendingNext(head: Entry, xs: seq<Entry>, k: nat)
    requires Pending(head, xs, k) && k < |xs|
    ensures xs[k].next == Upcoming(head, xs, k + 1)
  {
  }
}
