/** The four lists of the cache as they are in memory: rings of the links embedded in the entries. */
module ArcRings {
  import opened Common
  import opened ArcSpec
  import opened ArcProofs
  import R = ListRing

  /** The links of the entries of a list, in order. */
  ghost function Chain(links: map<Entry, R.Entry>, l: seq<Entry>): seq<R.Entry>
    requires forall e :: e in l ==> e in links
  {
    seq(|l|, i requires 0 <= i < |l| => links[l[i]])
  }

  /** Who owns the head of a list: no entry. */
  function HeadOwner(w: Where): int {
    match w case NoList => -5 case T1 => -1 case T2 => -2 case B1 => -3 case B2 => -4
  }

  lemma ChainWithout(links: map<Entry, R.Entry>, l: seq<Entry>, k: nat)
    requires (forall e :: e in l ==> e in links) && k < |l| && Distinct(l)
    ensures (forall e :: e in Without(l, l[k]) ==> e in links)
    ensures Chain(links, Without(l, l[k])) == Chain(links, l)[..k] + Chain(links, l)[k + 1..]
  {
    hide Without;
    WithoutAt(l, k);
    ChainCut(links, l, k);
  }

  lemma ChainCut(links: map<Entry, R.Entry>, l: seq<Entry>, k: nat)
    requires (forall e :: e in l ==> e in links) && k < |l|
    ensures forall e :: e in l[..k] + l[k + 1..] ==> e in links
    ensures Chain(links, l[..k] + l[k + 1..]) == Chain(links, l)[..k] + Chain(links, l)[k + 1..]
  {
    var r := l[..k] + l[k + 1..];
    forall e | e in r ensures e in l {
      assert e in l[..k] || e in l[k + 1..];
    }
  }

  lemma {:induction false} WithoutAt(l: seq<Entry>, k: nat)
    requires k < |l| && Distinct(l)
    ensures Without(l, l[k]) == l[..k] + l[k + 1..]
    decreases |l|
  {
    if k > 0 {
      TailNoDup(l);
      WithoutAt(l[1..], k - 1);
      assert l[..k] == [l[0]] + l[1..][..k - 1] && l[1..][k..] == l[k + 1..];
    }
  }

  lemma CutAfterHead(h: R.Entry, b: seq<R.Entry>, k: nat)
    requires k < |b|
    ensures ([h] + b)[..k + 1] + ([h] + b)[k + 1 + 1..] == [h] + (b[..k] + b[k + 1..])
  {
    assert ([h] + b)[..k + 1] == [h] + b[..k] && ([h] + b)[k + 1 + 1..] == b[k + 1..];
  }

  /** The heads of the four lists, the links of the entries, and what is on the lists: every link belongs
      to one entry, every entry is on one list at most. */
  ghost predicate Owned(heads: map<Where, R.Entry>, links: map<Entry, R.Entry>, lists: map<Where, seq<Entry>>) {
    && lists.Keys == heads.Keys == {T1, T2, B1, B2}
    && (forall w :: w in heads ==> heads[w].owner == HeadOwner(w))
    && (forall e :: e in links ==> links[e].owner == e)
    && (forall w, e :: w in lists && e in lists[w] ==> e in links)
    && (forall v, w, e :: v in lists && w in lists && e in lists[v] && e in lists[w] ==> v == w)
    && (forall w :: w in lists ==> Distinct(lists[w]))
  }

  /** A list with its head, as a ring. */
  ghost function Around(heads: map<Where, R.Entry>, links: map<Entry, R.Entry>, lists: map<Where, seq<Entry>>,
                        w: Where): seq<R.Entry>
    requires Owned(heads, links, lists) && w in lists
  {
    [heads[w]] + Chain(links, lists[w])
  }

  /** What is on a ring has an owner there. */
  lemma OwnerOn(heads: map<Where, R.Entry>, links: map<Entry, R.Entry>, lists: map<Where, seq<Entry>>, w: Where,
                x: R.Entry)
    requires Owned(heads, links, lists) && w in lists && x in Around(heads, links, lists, w)
    ensures x in heads.Values + links.Values
    ensures (x.owner == HeadOwner(w) || x.owner in lists[w]) && (x.owner >= 0 <==> x.owner in lists[w])
  {
  }

  /** Different rings share nothing. */
  lemma RingsApart(heads: map<Where, R.Entry>, links: map<Entry, R.Entry>, lists: map<Where, seq<Entry>>, v: Where,
                   w: Where)
    requires Owned(heads, links, lists) && v in lists && w in lists && v != w
    ensures forall x :: x in Around(heads, links, lists, v) ==> x !in Around(heads, links, lists, w)
  {
    hide Around;
    forall x | x in Around(heads, links, lists, v) ensures x !in Around(heads, links, lists, w) {
      if x in Around(heads, links, lists, w) {
        OwnerOn(heads, links, lists, v, x);
        OwnerOn(heads, links, lists, w, x);
      }
    }
  }

  /** The link of an entry is on a ring exactly when the entry is on the list. */
  lemma LinkOn(heads: map<Where, R.Entry>, links: map<Entry, R.Entry>, lists: map<Where, seq<Entry>>, w: Where,
               e: Entry)
    requires Owned(heads, links, lists) && w in lists && e in links
    ensures links[e] in Around(heads, links, lists, w) <==> e in lists[w]
  {
    if links[e] in Around(heads, links, lists, w) { OwnerOn(heads, links, lists, w, links[e]); }
    if e in lists[w] {
      var i :| 0 <= i < |lists[w]| && lists[w][i] == e;
      assert Around(heads, links, lists, w)[i + 1] == links[e];
    }
  }

  /** A list changes at one place, to entries that are on no other list. */
  lemma ListChanged(heads: map<Where, R.Entry>, links: map<Entry, R.Entry>, lists: map<Where, seq<Entry>>, w: Where,
                    l: seq<Entry>)
    requires Owned(heads, links, lists) && w in lists && Distinct(l)
    requires forall e :: e in l ==> e in links && forall v :: v in lists && v != w ==> e !in lists[v]
    ensures Owned(heads, links, lists[w := l])
    ensures Around(heads, links, lists[w := l], w) == [heads[w]] + Chain(links, l)
    ensures forall v :: v in lists && v != w ==>
              Around(heads, links, lists[w := l], v) == Around(heads, links, lists, v)
  {
    hide Distinct;
  }

  lemma FourLists(heads: map<Where, R.Entry>, links: map<Entry, R.Entry>, lists: map<Where, seq<Entry>>)
    requires Owned(heads, links, lists)
    ensures lists.Keys == heads.Keys == {T1, T2, B1, B2}
  {
  }

  lemma ListedOnce(heads: map<Where, R.Entry>, links: map<Entry, R.Entry>, lists: map<Where, seq<Entry>>, w: Where)
    requires Owned(heads, links, lists) && w in lists
    ensures w in heads && Distinct(lists[w])
    ensures forall e :: e in lists[w] ==> e in links && forall v :: v in lists && v != w ==> e !in lists[v]
  {
  }

  lemma LinkOwner(heads: map<Where, R.Entry>, links: map<Entry, R.Entry>, lists: map<Where, seq<Entry>>, e: Entry)
    requires Owned(heads, links, lists) && e in links
    ensures links[e].owner == e
  {
  }

  lemma NewOwned(heads: map<Where, R.Entry>, links: map<Entry, R.Entry>, lists: map<Where, seq<Entry>>, e: Entry)
    requires Owned(heads, links, lists)
    ensures forall d :: d in links ==> links[d].owner == d
    ensures forall w, d :: w in lists && d in lists[w] ==> d in links
  {
  }

  /** Links of entries on no list do not matter for the rings. */
  lemma SameRings(heads: map<Where, R.Entry>, links: map<Entry, R.Entry>, links': map<Entry, R.Entry>,
                  lists: map<Where, seq<Entry>>)
    requires Owned(heads, links, lists)
    requires (forall e :: e in links' ==> links'[e].owner == e)
    requires forall w, e :: w in lists && e in lists[w] ==> e in links' && links'[e] == links[e]
    ensures Owned(heads, links', lists)
    ensures forall w :: w in lists ==> Around(heads, links', lists, w) == Around(heads, links, lists, w)
  {
    hide Distinct;
  }

  class Rings {
    const heads: map<Where, R.Entry>
    /** The field of every live entry that links it. */
    var links: map<Entry, R.Entry>
    ghost var lists: map<Where, seq<Entry>>

    /** All links. */
    ghost var repr: set<R.Entry>

    /** The ring of w is intact. */
    ghost predicate Intact(w: Where)
      reads this, repr
    {
      && Owned(heads, links, lists) && repr == heads.Values + links.Values
      && w in lists && R.Ring(Around(heads, links, lists, w))
    }

    ghost predicate Valid()
      reads this, repr
    {
      && Owned(heads, links, lists) && repr == heads.Values + links.Values
      && Intact(T1) && Intact(T2) && Intact(B1) && Intact(B2)
    }

    constructor (t1: R.Entry, t2: R.Entry, b1: R.Entry, b2: R.Entry)
      requires t1.owner == -1 && t2.owner == -2 && b1.owner == -3 && b2.owner == -4
      requires R.Ring([t1]) && R.Ring([t2]) && R.Ring([b1]) && R.Ring([b2])
      ensures Valid() && lists == map[T1 := [], T2 := [], B1 := [], B2 := []] && links == map[]
      ensures repr == {t1, t2, b1, b2}
    {
      hide *;
      heads := map[T1 := t1, T2 := t2, B1 := b1, B2 := b2];
      links := map[];
      lists := map[T1 := [], T2 := [], B1 := [], B2 := []];
      repr := {t1, t2, b1, b2};
      new;
      EmptyRings(t1, t2, b1, b2);
    }

    lemma EmptyRings(t1: R.Entry, t2: R.Entry, b1: R.Entry, b2: R.Entry)
      requires heads == map[T1 := t1, T2 := t2, B1 := b1, B2 := b2] && links == map[] && repr == {t1, t2, b1, b2}
      requires lists == map[T1 := [], T2 := [], B1 := [], B2 := []]
      requires t1.owner == -1 && t2.owner == -2 && b1.owner == -3 && b2.owner == -4
      requires R.Ring([t1]) && R.Ring([t2]) && R.Ring([b1]) && R.Ring([b2])
      ensures Valid()
    {
      hide R.Ring;
      assert Around(heads, links, lists, T1) == [t1] && Around(heads, links, lists, T2) == [t2];
      assert Around(heads, links, lists, B1) == [b1] && Around(heads, links, lists, B2) == [b2];
    }

    /** Writing to the ring of w, and to the link of an entry that is not on v, leaves the ring of v alone. */
    lemma OtherApart(v: Where, w: Where, e: Entry)
      requires Owned(heads, links, lists) && w in lists && e in links && v in lists && v != w && e !in lists[v]
      ensures forall x :: x in Around(heads, links, lists, v) ==> x != links[e] && x !in Around(heads, links, lists, w)
    {
      hide Around, Owned;
      LinkOn(heads, links, lists, v, e);
      RingsApart(heads, links, lists, v, w);
    }

    lemma RingInside(w: Where)
      requires Owned(heads, links, lists) && repr == heads.Values + links.Values && w in lists
      ensures w in heads && (forall e :: e in lists[w] ==> e in links)
      ensures Around(heads, links, lists, w) == [heads[w]] + Chain(links, lists[w])
      ensures forall x :: x in Around(heads, links, lists, w) ==> x in repr
    {
      forall x | x in Around(heads, links, lists, w) ensures x in repr { OwnerOn(heads, links, lists, w, x); }
    }

    lemma AllIntact(v: Where)
      requires Valid() && v in lists
      ensures Intact(v)
    {
      hide Intact;
    }

    /** The pointer part of adding in front. */
    method LinkFront(w: Where, e: Entry)
      requires Valid() && w in lists && e in links && forall v :: v in lists ==> e !in lists[v]
      modifies repr
      ensures R.Ring([heads[w]] + Chain(links, [e] + lists[w]))
      ensures forall v :: v in lists && v != w ==> Intact(v)
    {
      hide R.Ring, Owned, Around;
      RingInside(w);
      LinkOn(heads, links, lists, w, e);
      forall v | v in lists ensures Intact(v) { AllIntact(v); }
      forall v | v in lists && v != w
        ensures forall x :: x in Around(heads, links, lists, v) ==>
                  x != links[e] && x !in Around(heads, links, lists, w)
      {
        OtherApart(v, w, e);
      }
      ghost var b := Chain(links, lists[w]);
      R.Add(links[e], heads[w], b);
      forall v | v in lists && v != w ensures Intact(v) {
        ghost var s := Around(heads, links, lists, v);
        assert old(R.Ring(s));
        assert forall x :: x in s ==> x.next == old(x.next) && x.prev == old(x.prev);
        assert R.Ring(s);
      }
      assert [heads[w]] + Chain(links, [e] + lists[w]) == [heads[w], links[e]] + b;
    }

    /** A list with new content: one ring was rewritten, the others are as they were. */
    ghost method Relist(w: Where, l: seq<Entry>)
      requires Owned(heads, links, lists) && repr == heads.Values + links.Values && w in lists && Distinct(l)
      requires forall e :: e in l ==> e in links && forall v :: v in lists && v != w ==> e !in lists[v]
      requires R.Ring([heads[w]] + Chain(links, l))
      requires forall v :: v in lists && v != w ==> Intact(v)
      modifies this`lists
      ensures Valid() && lists == old(lists)[w := l]
    {
      hide R.Ring, Owned, Around, Distinct;
      ListChanged(heads, links, lists, w, l);
      ghost var was := lists;
      lists := lists[w := l];
      FourLists(heads, links, lists);
      forall v | v in lists ensures Intact(v) {
        if v != w { assert R.Ring(Around(heads, links, was, v)); }
      }
    }

    /** http2d_list_add on the list of w. */
    method AddFront(w: Where, e: Entry)
      requires Valid() && w in lists && e in links && forall v :: v in lists ==> e !in lists[v]
      modifies this`lists, repr
      ensures Valid() && lists == old(lists)[w := [e] + old(lists[w])]
    {
      hide R.Ring, Owned, Around, Distinct, Intact;
      ListedOnce(heads, links, lists, w);
      AddNoDup(lists[w], e);
      LinkFront(w, e);
      Relist(w, [e] + lists[w]);
    }

    /** The pointer part of taking an entry off. */
    method Unlink(w: Where, e: Entry)
      requires Valid() && w in lists && e in lists[w]
      modifies repr
      ensures e in links && (forall x :: x in Without(lists[w], e) ==> x in links)
      ensures R.Ring([heads[w]] + Chain(links, Without(lists[w], e)))
      ensures forall v :: v in lists && v != w ==> Intact(v)
    {
      hide R.Ring, Owned, Around, Without, Distinct;
      RingInside(w);
      ListedOnce(heads, links, lists, w);
      forall v | v in lists ensures Intact(v) { AllIntact(v); }
      forall v | v in lists && v != w
        ensures forall x :: x in Around(heads, links, lists, v) ==> x !in Around(heads, links, lists, w)
      {
        RingsApart(heads, links, lists, v, w);
      }
      ghost var k :| 0 <= k < |lists[w]| && lists[w][k] == e;
      ChainWithout(links, lists[w], k);
      ghost var b, s := Chain(links, lists[w]), [heads[w]] + Chain(links, lists[w]);
      R.Del(links[e], s, k + 1);
      forall v | v in lists && v != w ensures Intact(v) {
        ghost var a := Around(heads, links, lists, v);
        assert old(R.Ring(a));
        assert forall x :: x in a ==> x.next == old(x.next) && x.prev == old(x.prev);
        assert R.Ring(a);
      }
      CutAfterHead(heads[w], b, k);
    }

    /** http2d_list_del on the list of w. */
    method Del(w: Where, e: Entry)
      requires Valid() && w in lists && e in lists[w]
      modifies this`lists, repr
      ensures Valid() && lists == old(lists)[w := Without(old(lists[w]), e)] && e in links
    {
      hide R.Ring, Owned, Around, Without, Distinct, Intact;
      ListedOnce(heads, links, lists, w);
      WithoutSpec(lists[w], e);
      Unlink(w, e);
      Relist(w, Without(lists[w], e));
    }

    /** cache_list_get_lru: the entry before the head, unless the list is empty. */
    method GetLru(w: Where) returns (e: Option<Entry>)
      requires Valid() && w in lists
      ensures e == if lists[w] == [] then None else Some(Lru(lists[w]))
    {
      hide Owned, Around, R.Ring;
      AllIntact(w);
      RingInside(w);
      ghost var s := [heads[w]] + Chain(links, lists[w]);
      R.RingLinks(s);
      assert s[0] == heads[w];
      var empty := R.IsEmpty(heads[w], Chain(links, lists[w]));
      if empty { return None; }
      assert s[|s| - 1] == links[Lru(lists[w])];
      LinkOwner(heads, links, lists, Lru(lists[w]));
      return Some(heads[w].prev.owner);
    }

    /** The links of entries that are on no list may come and go. */
    lemma SameIntact(was: map<Entry, R.Entry>, v: Where)
      requires Owned(heads, was, lists) && Owned(heads, links, lists) && repr == heads.Values + links.Values
      requires v in lists && Around(heads, links, lists, v) == Around(heads, was, lists, v)
      requires R.Ring(Around(heads, was, lists, v))
      ensures Intact(v)
    {
      hide R.Ring, Owned, Around;
    }

    /** http2d_cache_entry_init: the links of an entry that is on no list. */
    method AddLink(e: Entry, link: R.Entry)
      requires Valid() && e !in links && link.owner == e
      modifies this`links, this`repr
      ensures Valid() && links.Keys == old(links.Keys) + {e} && repr <= old(repr) + {link}
    {
      hide R.Ring, Owned, Around;
      NewOwned(heads, links, lists, e);
      FourLists(heads, links, lists);
      ghost var was := links;
      links := links[e := link];
      repr := heads.Values + links.Values;
      SameRings(heads, was, links, lists);
      SameIntact(was, T1);
      SameIntact(was, T2);
      SameIntact(was, B1);
      SameIntact(was, B2);
    }

    /** entry_free: the links of an entry that is on no list go with it. */
    method Free(e: Entry)
      requires Valid() && e in links && forall v :: v in lists ==> e !in lists[v]
      modifies this`links, this`repr
      ensures Valid() && links.Keys == old(links.Keys) - {e} && repr <= old(repr)
    {
      hide R.Ring, Owned, Around;
      NewOwned(heads, links, lists, e);
      FourLists(heads, links, lists);
      ghost var was := links;
      links := links - {e};
      repr := heads.Values + links.Values;
      SameRings(heads, was, links, lists);
      SameIntact(was, T1);
      SameIntact(was, T2);
      SameIntact(was, B1);
      SameIntact(was, B2);
    }
  }

  method NewHead(owner: int) returns (h: R.Entry)
    ensures fresh(h) && h.owner == owner && R.Ring([h])
  {
    h := new R.Entry(owner);
    R.InitHead(h);
  }

  /** http2d_cache_init: four empty lists. */
  method NewRings() returns (r: Rings)
    ensures fresh(r) && r.Valid() && r.lists == map[T1 := [], T2 := [], B1 := [], B2 := []] && r.links == map[]
    ensures fresh(r.repr)
  {
    hide *;
    var t1 := NewHead(-1);
    var t2 := NewHead(-2);
    var b1 := NewHead(-3);
    var b2 := NewHead(-4);
    r := new Rings(t1, t2, b1, b2);
  }
}
