/** The cache object of src/cache.c, over lists that are rings and an index that is a threaded tree. Each
    method is proved to take exactly one transition of the state machine. */
module ArcCache {
  import opened Common
  import opened ArcSpec
  import opened ArcProofs
  import opened ArcLists
  import opened ArcStore
  import K = AvlKeys
  import S = AvlShape
  import T = AvlTree

  /** The counters are the lengths of the four lists. */
  ghost predicate Lens(lens: map<Where, int>, lists: map<Where, seq<Entry>>) {
    lists.Keys == {T1, T2, B1, B2} && forall w :: w in lists ==> w in lens && lens[w] == |lists[w]|
  }

  lemma LensAt(lens: map<Where, int>, lists: map<Where, seq<Entry>>, w: Where)
    requires Lens(lens, lists) && w != NoList
    ensures w in lens && w in lists && lens[w] == |lists[w]|
  {
  }

  lemma LensSet(lens: map<Where, int>, lists: map<Where, seq<Entry>>, w: Where, l: seq<Entry>)
    requires Lens(lens, lists) && w != NoList
    ensures w in lens && w in lists && lens[w] == |lists[w]| && Lens(lens[w := |l|], lists[w := l])
  {
  }

  /** Exactly the live entries have keys, and their places in the index are those of the keys. */
  ghost predicate Keyed(keys: map<Entry, K.Key>, entries: map<Entry, Rec>) {
    keys.Keys == entries.Keys && forall e :: e in entries ==> K.Rank(false, keys[e]) == entries[e].slot
  }

  lemma KeyedSame(keys: map<Entry, K.Key>, entries: map<Entry, Rec>, e: Entry, r: Rec)
    requires Keyed(keys, entries) && e in entries && r.slot == entries[e].slot
    ensures Keyed(keys, entries[e := r]) && e in keys
  {
    hide K.Rank;
  }

  lemma KeyedDrop(keys: map<Entry, K.Key>, entries: map<Entry, Rec>, e: Entry)
    requires Keyed(keys, entries) && e in entries
    ensures Keyed(keys - {e}, entries - {e}) && e in keys && K.Rank(false, keys[e]) == entries[e].slot
  {
    hide K.Rank;
  }

  lemma KeyedAdd(keys: map<Entry, K.Key>, entries: map<Entry, Rec>, e: Entry, key: K.Key)
    requires Keyed(keys, entries) && e !in entries
    ensures Keyed(keys[e := key], entries[e := Rec(K.Rank(false, key), NoList, 0)]) && e !in keys
  {
    hide K.Rank;
  }

  lemma FewerKeys(m: map<int, Entry>, n: map<int, Entry>)
    requires m.Keys <= n.Keys
    ensures |m| <= |n|
  {
    assert n.Keys == m.Keys + (n.Keys - m.Keys);
    assert |m.Keys| == |m| && |n.Keys| == |n|;
  }

  class Cache {
    const maxSize: int
    var targetT1: int
    /** The lists _t1, _t2, _b1 and _b2, the lookup table, and the keys and links of the live entries. */
    const store: Store
    /** The counters len_t1, len_t2, len_b1 and len_b2. */
    var lens: map<Where, int>
    /** The live entries. An access to a freed entry would be an access outside this map. */
    var entries: map<Entry, Rec>
    var count: int
    var countHit: int
    var countMiss: int
    ghost var handles: multiset<Entry>
    ghost var blanks: int
    ghost var adopted: int
    ghost var failed: bool

    ghost function St(): State
      reads this, store.rings, store.table
    {
      State(maxSize, targetT1, store.Lists(), store.Index(), entries, handles,
            Stats(count, countHit, countMiss, blanks, adopted, failed))
    }

    ghost predicate Held()
      reads this, store, store.rings, store.rings.repr, store.table, store.nodes
    {
      store.Valid() && Lens(lens, store.Lists()) && Keyed(store.keys, entries)
    }

    ghost predicate Valid()
      reads this, store, store.rings, store.rings.repr, store.table, store.nodes
    {
      Held() && Safe(St())
    }

    /** http2d_cache_init, with the configured size. */
    constructor (maxSize: int)
      requires maxSize >= 1
      ensures Valid() && St() == Init(maxSize)
      ensures this.maxSize == maxSize && targetT1 == 0 && count == 0 && countHit == 0 && countMiss == 0
      ensures entries == map[] && St().index == map[] && forall w :: St().L(w) == []
      ensures fresh(store) && fresh(store.rings) && fresh(store.rings.repr) && fresh(store.table) && store.nodes == {}
    {
      hide Store.Valid, Safe;
      var st := new Store();
      this.maxSize, targetT1, store := maxSize, 0, st;
      lens := map[T1 := 0, T2 := 0, B1 := 0, B2 := 0];
      entries := map[];
      count, countHit, countMiss := 0, 0, 0;
      handles, blanks, adopted, failed := multiset{}, 0, 0, false;
      new;
      InitSafe(maxSize);
    }

    /** cache_list_del. */
    method CacheListDel(w: Where, e: Entry)
      requires Held() && ListsAgree(St()) && e in St().L(w)
      modifies this, store.rings`lists, store.rings.repr
      ensures Held() && St() == ListDel(old(St()), w, e)
    {
      hide Store.Valid, Lens, Keyed, ListsAgree, Without;
      DelAgrees(St(), w, e);
      LensSet(lens, store.Lists(), w, Without(store.Lists()[w], e));
      KeyedSame(store.keys, entries, e, entries[e].(where := NoList));
      entries := entries[e := entries[e].(where := NoList)];
      store.ListDel(w, e);
      lens := lens[w := lens[w] - 1];
    }

    /** cache_list_add, for an entry that is on no list. */
    method CacheListAdd(w: Where, e: Entry)
      requires Held() && ListsAgree(St()) && w != NoList && e in entries && entries[e].where == NoList
      modifies this, store.rings`lists, store.rings.repr
      ensures Held() && St() == ListAdd(old(St()), w, e)
    {
      hide Store.Valid, Lens, Keyed, ListsAgree;
      OnNoList(St(), e);
      LensAt(lens, store.Lists(), w);
      LensSet(lens, store.Lists(), w, [e] + store.Lists()[w]);
      KeyedSame(store.keys, entries, e, entries[e].(where := w));
      store.ListAdd(w, e);
      lens := lens[w := lens[w] + 1];
      entries := entries[e := entries[e].(where := w)];
    }

    /** cache_list_swap. */
    method CacheListSwap(from: Where, to: Where, e: Entry)
      requires Held() && Refs(St()) && to != NoList && e in St().L(from)
      modifies this, store.rings`lists, store.rings.repr
      ensures Held() && St() == Move(old(St()), from, to, e)
    {
      hide Held, ListDel, ListAdd, ListsAgree, CountsExact, IndexExact;
      DelAgrees(St(), from, e);
      CacheListDel(from, e);
      CacheListAdd(to, e);
    }

    /** cache_list_make_first on T2. */
    method CacheListMakeFirst(e: Entry)
      requires Held() && Refs(St()) && e in entries && entries[e].where == T2
      modifies store.rings`lists, store.rings.repr
      ensures Held() && St() == old(St()).(lists := old(St().lists)[T2 := [e] + Without(old(St()).L(T2), e)])
    {
      hide Store.Valid, Lens, Keyed, ListsAgree, CountsExact, IndexExact, Without;
      ListedAt(St(), e);
      FrontLen(St(), e);
      DelAgrees(St(), T2, e);
      OnNoList(ListDel(St(), T2, e), e);
      ghost var lists, l := store.Lists(), [e] + Without(store.Lists()[T2], e);
      LensSet(lens, lists, T2, l);
      assert lens[T2 := |l|] == lens;
      KeyedSame(store.keys, entries, e, entries[e]);
      store.ListDel(T2, e);
      store.ListAdd(T2, e);
      assert store.Lists() == lists[T2 := l];
    }

    /** entry_ref. */
    method EntryRef(e: Entry)
      requires Held() && e in entries
      modifies this`entries
      ensures Held() && St() == Ref(old(St()), e)
    {
      hide Store.Valid, Lens, Keyed;
      KeyedSame(store.keys, entries, e, entries[e].(refs := entries[e].refs + 1));
      entries := entries[e := entries[e].(refs := entries[e].refs + 1)];
    }

    /** entry_unref_guts: one reference less; with the last one the entry leaves the index and its list, and
        is freed. */
    method EntryUnrefGuts(e: Entry) returns (ret: Ret)
      requires Held() && ListsAgree(St()) && e in entries
      modifies this, store, store.rings, store.rings.repr, store.table, store.nodes
      ensures Held() && St() == Unref(old(St()), e)
      ensures ret == if old(entries[e].refs) > 1 then RetEagain else RetOk
      ensures store.nodes <= old(store.nodes) && store.rings.repr <= old(store.rings.repr)
      ensures store.keys == if ret == RetEagain then old(store.keys) else old(store.keys) - {e}
    {
      hide Store.Valid, Lens, Keyed, ListsAgree, Without;
      var rec := entries[e].(refs := entries[e].refs - 1);
      KeyedSame(store.keys, entries, e, rec);
      if rec.refs > 0 {
        entries := entries[e := rec];
        return RetEagain;
      }
      KeyedDrop(store.keys, entries, e);
      store.Unindex(e);
      SameLists(old(St()), St());
      if rec.where != NoList {
        Unlist(e, rec.where);
      } else {
        OnNoList(St(), e);
      }
      store.Free(e);
      entries := entries - {e};
      return RetOk;
    }

    /** The switch on the tag of an entry that is being freed. */
    method Unlist(e: Entry, w: Where)
      requires Held() && ListsAgree(St()) && e in entries && entries[e].where == w != NoList
      modifies this`lens, store.rings`lists, store.rings.repr
      ensures Held() && St() == old(St()).(lists := old(St().lists)[w := Without(old(St()).L(w), e)])
      ensures forall v :: v in store.rings.lists ==> e !in store.rings.lists[v]
    {
      hide Store.Valid, Lens, Keyed, ListsAgree, Without;
      ListedAt(St(), e);
      DelAgrees(St(), w, e);
      OnNoList(ListDel(St(), w, e), e);
      LensSet(lens, store.Lists(), w, Without(store.Lists()[w], e));
      store.ListDel(w, e);
      lens := lens[w := lens[w] - 1];
    }

    /** replace; forB2 tells whether the page to make room for is a ghost of B2. */
    method ReplacePage(forB2: bool)
      requires Held() && Refs(St())
      modifies this, store.rings`lists, store.rings.repr
      ensures Held() && St() == Replace(old(St()), forB2)
      ensures ListsOf(St()) == GivenWay(ListsOf(old(St())), old(targetT1), forB2)
    {
      hide Store.Valid, Lens, Keyed, ListsAgree, CountsExact, IndexExact, Move, GivenWay;
      ReplaceIs(St(), forB2);
      LensAt(lens, store.Lists(), T1);
      LensAt(lens, store.Lists(), T2);
      var p := targetT1;
      if lens[T1] >= 1 && (lens[T1] > p || (lens[T1] == p && forB2)) {
        var tmp := store.GetLru(T1);
        if tmp.Some? { CacheListSwap(T1, B1, tmp.value); }
      } else {
        var tmp := store.GetLru(T2);
        if tmp.Some? { CacheListSwap(T2, B2, tmp.value); }
      }
    }

    /** cache_list_get_lru, cache_list_del and entry_unref_guts on the victim. A fault: there is none, and the
        code follows a null pointer. */
    method EvictLru(w: Where) returns (fault: bool)
      requires Held() && Refs(St()) && w != NoList
      modifies this, store, store.rings, store.rings.repr, store.table, store.nodes
      ensures fault <==> old(St()).L(w) == []
      ensures !fault ==> Held() && St() == Evict(old(St()), w)
      ensures store.nodes <= old(store.nodes) && store.rings.repr <= old(store.rings.repr)
      ensures forall e :: e in store.keys ==> e in old(store.keys) && store.keys[e] == old(store.keys)[e]
    {
      hide Store.Valid, Lens, Keyed, ListsAgree, CountsExact, IndexExact, ListDel, Unref;
      LensAt(lens, store.Lists(), w);
      var tmp := store.GetLru(w);
      if tmp == None { return true; }
      DelAgrees(St(), w, tmp.value);
      CacheListDel(w, tmp.value);
      var _ := EntryUnrefGuts(tmp.value);
      return false;
    }

    /** on_new_added. A fault: the victim is missing. */
    method MakeRoom() returns (fault: bool)
      requires Held() && Refs(St()) && maxSize >= 1
      modifies this, store, store.rings, store.rings.repr, store.table, store.nodes
      ensures fault <==> OnNewAdded(old(St())).None?
      ensures !fault ==> Held() && OnNewAdded(old(St())) == Some(St())
      ensures store.nodes <= old(store.nodes) && store.rings.repr <= old(store.rings.repr)
      ensures forall e :: e in store.keys ==> e in old(store.keys) && store.keys[e] == old(store.keys)[e]
    {
      hide Held, Refs, Replace, Evict, GivenWay, ListsOf;
      HeldLens(T1);
      HeldLens(T2);
      HeldLens(B1);
      HeldLens(B2);
      var c := maxSize;
      var lenL1 := lens[T1] + lens[B1];
      var lenL2 := lens[T2] + lens[B2];
      var totalLen := lenL1 + lenL2;
      CountOneMiss();
      StatsRefs(old(St()), St());
      fault := false;
      if lenL1 >= c {
        if lens[T1] < c {
          EvictShrinks(St(), B1);
          fault := EvictLru(B1);
          if !fault { ReplacePage(false); }
        } else {
          fault := EvictLru(T1);
        }
      } else if totalLen >= c {
        if totalLen >= 2 * c {
          if St().L(B2) != [] { EvictShrinks(St(), B2); }
          fault := EvictLru(B2);
          if fault { return; }
        }
        ReplacePage(false);
      }
    }

    lemma HeldLens(w: Where)
      requires Held() && w != NoList
      ensures w in lens && w in St().lists && lens[w] == St().Len(w)
    {
      hide Store.Valid, Keyed;
    }

    method SetTarget(target: int)
      requires Held()
      modifies this`targetT1
      ensures Held() && St() == old(St()).(target := target)
    {
      hide Store.Valid, Lens, Keyed;
      targetT1 := target;
    }

    ghost method SetFailed()
      requires Held()
      modifies this`failed
      ensures Held() && St() == Failing(old(St()))
    {
      hide Store.Valid, Lens, Keyed;
      failed := true;
    }

    method CountOneMiss()
      requires Held()
      modifies this`countMiss
      ensures Held() && St() == Missing(old(St()))
    {
      hide Store.Valid, Lens, Keyed;
      countMiss := countMiss + 1;
    }

    /** A ghost hit on B1 moves the target and may replace a page. */
    method AdaptB1(e: Entry)
      requires Held() && Refs(St()) && e in entries && entries[e].where == B1
      modifies this, store.rings`lists, store.rings.repr
      ensures old(St()).L(B1) != [] && Held() && Refs(St()) && e in entries && entries[e].where == B1
      ensures St() == AdaptedB1(old(St()))
    {
      hide Held, Refs, Replace;
      GhostListed(St(), e);
      HeldLens(B1);
      HeldLens(B2);
      SetTarget(Min(maxSize, targetT1 + Max(1, lens[B2] / lens[B1])));
      StatsRefs(old(St()), St());
      ReplaceRefs(St(), false);
      ReplacePage(false);
    }

    /** update_ghost_b1. */
    method UpdateGhostB1(e: Entry, fetch: Ret) returns (ret: Ret)
      requires Held() && Refs(St()) && e in entries && entries[e].where == B1
      modifies this, store.rings`lists, store.rings.repr
      ensures old(St()).L(B1) != [] && Held() && St() == GhostHitB1(old(St()), e, fetch)
      ensures ret == if FetchedB1(fetch) then RetOk else if GivenBackB1(fetch) then fetch else RetError
    {
      hide Held, Refs, AdaptedB1, Move;
      AdaptB1(e);
      if !FetchedB1(fetch) {
        SetFailed();
        return if GivenBackB1(fetch) then fetch else RetError;
      }
      GhostListed(St(), e);
      CacheListSwap(B1, T2, e);
      return RetOk;
    }

    /** A ghost hit on B2 moves the target and may replace a page. */
    method AdaptB2(e: Entry)
      requires Held() && Refs(St()) && e in entries && entries[e].where == B2
      modifies this, store.rings`lists, store.rings.repr
      ensures old(St()).L(B2) != [] && Held() && Refs(St()) && e in entries && entries[e].where == B2
      ensures St() == AdaptedB2(old(St()))
    {
      hide Held, Refs, Replace;
      GhostListed(St(), e);
      HeldLens(B1);
      HeldLens(B2);
      SetTarget(Max(0, targetT1 - Max(1, lens[B1] / lens[B2])));
      StatsRefs(old(St()), St());
      ReplaceRefs(St(), true);
      ReplacePage(true);
    }

    /** update_ghost_b2. */
    method UpdateGhostB2(e: Entry, fetch: Ret) returns (ret: Ret)
      requires Held() && Refs(St()) && e in entries && entries[e].where == B2
      modifies this, store.rings`lists, store.rings.repr
      ensures old(St()).L(B2) != [] && Held() && St() == GhostHitB2(old(St()), e, fetch)
      ensures ret == if FetchedB2(fetch) then RetOk else if GivenBackB2(fetch) then fetch else RetError
    {
      hide Held, Refs, AdaptedB2, Move;
      AdaptB2(e);
      if !FetchedB2(fetch) {
        SetFailed();
        return if GivenBackB2(fetch) then fetch else RetError;
      }
      GhostListed(St(), e);
      CacheListSwap(B2, T2, e);
      return RetOk;
    }

    method CountOneHit()
      requires Held()
      modifies this`countHit
      ensures Held() && St() == Hit(old(St()))
    {
      hide Store.Valid, Lens, Keyed;
      countHit := countHit + 1;
    }

    /** update_cache. */
    method Update(e: Entry, fetch: Ret) returns (ret: Ret)
      requires Held() && Refs(St()) && e in entries && entries[e].where != NoList
      modifies this, store.rings`lists, store.rings.repr
      ensures CanUpdate(old(St()), e) && Held() && St() == UpdateCache(old(St()), e, fetch)
      ensures ret == UpdateRet(old(entries[e].where), fetch)
    {
      hide Held, Refs, Replace, Move, Without, GhostHitB1, GhostHitB2;
      GhostListed(St(), e);
      CountOneHit();
      StatsRefs(old(St()), St());
      var w := entries[e].where;
      if w == T1 {
        CacheListSwap(T1, T2, e);
        return RetOk;
      } else if w == T2 {
        CacheListMakeFirst(e);
        return RetOk;
      } else if w == B1 {
        ret := UpdateGhostB1(e, fetch);
      } else {
        ret := UpdateGhostB2(e, fetch);
      }
      if ret != RetOk && ret != RetNoSys {
        ret := RetError;
      }
    }

    /** A client receives a handle. */
    ghost method HandOut(e: Entry)
      requires Held()
      modifies this`handles
      ensures Held() && St() == Hand(old(St()), e)
    {
      hide Store.Valid, Lens, Keyed;
      handles := handles + multiset{e};
    }

    /** The add_list part of http2d_cache_get, shared by new and re-adopted entries. */
    method AddToT1(e: Entry)
      requires Held() && ListsAgree(St()) && e in entries && entries[e].where == NoList
      modifies this, store.rings`lists, store.rings.repr
      ensures Held() && St() == Hand(Ref(ListAdd(old(St()), T1, e), e), e)
    {
      hide Held, ListsAgree, ListAdd, Ref, Hand;
      CacheListAdd(T1, e);
      AddedLives(old(St()), T1, e);
      EntryRef(e);
      HandOut(e);
    }

    /** What a lookup of an entry answers. It succeeds on a page and on a lingering entry, and on a ghost when
        that is fetched again; ret_no_sys is the one failure that is handed on. */
    static function Answer(w: Where, fetch: Ret): Ret {
      if w in {T1, T2, NoList} || fetch in {RetOk, RetDeny} || (w == B1 && fetch == RetOkAndSent) then RetOk
      else if fetch == RetNoSys then RetNoSys
      else RetError
    }

    static lemma Answers(w: Where, fetch: Ret)
      ensures Answer(w, fetch) == if w == NoList then RetOk else UpdateRet(w, fetch)
    {
    }

    /** http2d_cache_get on a key that is in the index. */
    method GetKnownEntry(e: Entry, fetch: Ret) returns (ret: Ret)
      requires Held() && Refs(St()) && e in entries
      modifies this, store.rings`lists, store.rings.repr
      ensures CanUpdate(old(St()), e) && Held() && St() == GetKnown(old(St()), e, fetch)
      ensures ret == Answer(old(entries[e].where), fetch)
    {
      hide Store.Valid, Lens, Keyed, Refs, UpdateCache, ListAdd, Hand, Answer, UpdateRet;
      Answers(entries[e].where, fetch);
      if entries[e].where == NoList {
        adopted := adopted + 1;
        EntryRef(e);
        AdoptedLists(old(St()), St(), e);
        AddToT1(e);
        return RetOk;
      }
      ret := Update(e, fetch);
      UpdateKeeps(old(St()), e, fetch);
      EntryRef(e);
      HandOut(e);
    }

    /** The page new_cb made becomes an entry, and the entry is indexed under its key. */
    method IndexPage(key: K.Key, e: Entry)
      requires Held() && store.Mixes(key) && key != [] && e !in entries
      requires K.Rank(false, key) !in St().index && |St().index| + 1 < S.MAX_NODES
      modifies this`entries, store`keys, store`nodes, store.rings, store.table, store.nodes
      ensures Held() && e in entries && entries[e] == Rec(K.Rank(false, key), NoList, 0)
      ensures var slot := K.Rank(false, key);
              St() == old(St()).(index := old(St()).index[slot := e], recs := old(St()).recs[e := Rec(slot, NoList, 0)])
      ensures fresh(store.nodes - old(store.nodes)) && fresh(store.rings.repr - old(store.rings.repr))
    {
      hide Store.Valid, Lens, Keyed, K.Rank, Store.Mixes;
      KeyedAdd(store.keys, entries, e, key);
      store.NewEntry(key, e);
      store.AddIndex(e);
      entries := entries[e := Rec(K.Rank(false, key), NoList, 0)];
    }

    /** http2d_cache_get on a key that is not in the index. */
    method EnterPage(key: K.Key, page: Option<Entry>) returns (ret: Ret, fault: bool)
      requires Held() && Refs(St()) && Bounds(St()) && Steady(St()) && store.Mixes(key) && key != []
      requires K.Rank(false, key) !in St().index && |St().index| + 1 < S.MAX_NODES
      requires page.Some? ==> page.value !in entries
      modifies this, store, store.rings, store.rings.repr, store.table, store.nodes
      ensures fault <==> GetNew(old(St()), K.Rank(false, key), page).None?
      ensures !fault ==> Held() && GetNew(old(St()), K.Rank(false, key), page) == Some(St())
      ensures !fault ==> (ret == RetOk <==> page.Some?)
      ensures fresh(store.nodes - old(store.nodes)) && fresh(store.rings.repr - old(store.rings.repr))
    {
      hide Held, Refs, OnNewAdded, ListAdd, Bounds, Steady, Ref, Hand, K.Rank, Store.Mixes;
      ret := RetError;
      fault := MakeRoomFor(key);
      if fault { return; }
      if page == None {
        SetFailed();
        return;
      }
      TakePage(key, page.value);
      ret := RetOk;
    }

    /** on_new_added, before a page for the key enters. */
    method MakeRoomFor(key: K.Key) returns (fault: bool)
      requires Held() && Refs(St()) && Bounds(St()) && Steady(St()) && store.Mixes(key)
      modifies this, store, store.rings, store.rings.repr, store.table, store.nodes
      ensures fault <==> OnNewAdded(old(St())).None?
      ensures !fault ==> Held() && OnNewAdded(old(St())) == Some(St()) && Refs(St()) && store.Mixes(key)
      ensures !fault ==> entries.Keys <= old(entries.Keys) && St().index.Keys <= old(St()).index.Keys
      ensures !fault ==> |St().index| <= |old(St()).index|
      ensures store.nodes <= old(store.nodes) && store.rings.repr <= old(store.rings.repr)
    {
      hide Held, Refs, OnNewAdded, Bounds, Steady, MixesWith, Room;
      BoundsSize(St());
      fault := MakeRoom();
      if fault { return; }
      NewMakesRoom(old(St()));
      MixesFewer(old(store.keys), store.keys, key);
      FewerKeys(St().index, old(St()).index);
    }

    /** The new page is indexed, referenced by the cache, put on T1 and handed out. */
    method TakePage(key: K.Key, e: Entry)
      requires Held() && Refs(St()) && store.Mixes(key) && key != [] && e !in entries
      requires K.Rank(false, key) !in St().index && |St().index| + 1 < S.MAX_NODES
      modifies this, store, store.rings, store.rings.repr, store.table, store.nodes
      ensures var s, slot := old(St()), K.Rank(false, key);
              var s2 := s.(index := s.index[slot := e], recs := s.recs[e := Rec(slot, NoList, 0)]);
              Held() && St() == Hand(Ref(ListAdd(Ref(s2, e), T1, e), e), e)
      ensures fresh(store.nodes - old(store.nodes)) && fresh(store.rings.repr - old(store.rings.repr))
    {
      hide Held, Refs, ListAdd, Ref, Hand, K.Rank, Store.Mixes;
      IndexPage(key, e);
      ghost var s2 := St();
      EntryRef(e);
      NewUnlisted(old(St()), s2, St(), K.Rank(false, key), e);
      AddToT1(e);
    }

    /** The step a lookup takes; fetch is what the fetch callback of the entry will return, page what new_cb
        will return. */
    static function Lookup(key: K.Key, fetch: Ret, page: Option<Entry>): Op {
      ArcSpec.Get(key == [], K.Rank(false, key), fetch, page)
    }

    method CountOne()
      requires Held()
      modifies this`count
      ensures Held() && St() == Counting(old(St()))
    {
      hide Store.Valid, Lens, Keyed;
      count := count + 1;
    }

    ghost method CountBlank()
      requires Held()
      modifies this`blanks
      ensures Held() && St() == old(St()).(stats := old(St()).stats.(blanks := old(St()).stats.blanks + 1))
    {
      hide Store.Valid, Lens, Keyed;
      blanks := blanks + 1;
    }

    /** http2d_cache_get. A fault exactly when the step fails: the code follows a null pointer. */
    method Get(key: K.Key, fetch: Ret, page: Option<Entry>) returns (ret: Ret, entry: Option<Entry>, fault: bool)
      requires Valid() && Legal(St(), Lookup(key, fetch, page)) && store.Mixes(key) && |St().index| + 1 < S.MAX_NODES
      modifies this, store, store.rings, store.rings.repr, store.table, store.nodes
      ensures fault <==> Step(old(St()), Lookup(key, fetch, page)).None?
      ensures !fault ==> Valid() && Step(old(St()), Lookup(key, fetch, page)) == Some(St())
      ensures !fault ==> Follows(old(St()), Lookup(key, fetch, page), St())
      ensures !fault && key == [] ==> ret == RetError && entry == None
      ensures var slot := K.Rank(false, key);
              !fault && key != [] && slot in old(St()).index ==>
                var e := old(St()).index[slot];
                && entry == Some(e) && e in handles && e in old(entries)
                && ret == Answer(old(entries)[e].where, fetch)
      ensures var slot := K.Rank(false, key);
              !fault && key != [] && slot !in old(St()).index ==> entry == page && (ret == RetOk <==> page.Some?)
      ensures fresh(store.nodes - old(store.nodes)) && fresh(store.rings.repr - old(store.rings.repr))
    {
      hide Held, Safe, Step, K.Rank, Store.Mixes, Answer, Follows;
      ghost var s := St();
      StepSafe(s, Lookup(key, fetch, page));
      ret, entry, fault := GetLocked(key, fetch, page);
      if !fault {
        StepFollows(s, Lookup(key, fetch, page));
      }
    }

    /** The body of http2d_cache_get, between lock and unlock. */
    method GetLocked(key: K.Key, fetch: Ret, page: Option<Entry>) returns (ret: Ret, entry: Option<Entry>, fault: bool)
      requires Valid() && Legal(St(), Lookup(key, fetch, page)) && store.Mixes(key) && |St().index| + 1 < S.MAX_NODES
      modifies this, store, store.rings, store.rings.repr, store.table, store.nodes
      ensures fault <==> Step(old(St()), Lookup(key, fetch, page)).None?
      ensures !fault ==> Held() && Step(old(St()), Lookup(key, fetch, page)) == Some(St())
      ensures !fault && key == [] ==> ret == RetError && entry == None
      ensures var slot := K.Rank(false, key);
              !fault && key != [] && slot in old(St()).index ==>
                var e := old(St()).index[slot];
                && entry == Some(e) && e in handles && e in old(entries)
                && ret == Answer(old(entries)[e].where, fetch)
      ensures var slot := K.Rank(false, key);
              !fault && key != [] && slot !in old(St()).index ==> entry == page && (ret == RetOk <==> page.Some?)
      ensures fresh(store.nodes - old(store.nodes)) && fresh(store.rings.repr - old(store.rings.repr))
    {
      hide Held, Refs, GetKnown, GetNew, Bounds, Steady, Tallied, K.Rank, Store.Mixes, CanUpdate, Answer;
      ghost var s := St();
      CountingSafe(s);
      CountOne();
      fault := false;
      var found, e := FindKey(key);
      if found == T.RetError {
        CountBlank();
        return RetError, None, false;
      }
      if found == T.RetOk {
        IndexedLives(St(), K.Rank(false, key));
        ret := GetKnownEntry(e, fetch);
        KnownHands(Counting(s), e, fetch);
        return ret, Some(e), false;
      }
      ret, fault := EnterPage(key, page);
      return ret, page, fault;
    }

    /** http2d_avl_get on the lookup table. */
    method FindKey(key: K.Key) returns (ret: T.Ret, e: Entry)
      requires Held() && store.Mixes(key)
      ensures ret == T.RetError <==> key == []
      ensures ret == T.RetOk <==> key != [] && K.Rank(false, key) in St().index
      ensures ret == T.RetOk ==> e == St().index[K.Rank(false, key)]
    {
      hide Store.Valid, Lens, Keyed, K.Rank, Store.Mixes;
      ret, e := store.Find(key);
    }

    /** http2d_cache_entry_unref: a client gives back a handle. */
    method EntryUnref(e: Entry) returns (ret: Ret)
      requires Valid() && e in handles
      modifies this, store, store.rings, store.rings.repr, store.table, store.nodes
      ensures Valid() && Step(old(St()), Release(e)) == Some(St())
      ensures ret == RetOk <==> e !in entries
      ensures ret == RetOk || ret == RetEagain
      ensures store.nodes <= old(store.nodes) && store.rings.repr <= old(store.rings.repr)
    {
      hide Held, Safe, Unref, Refs, ListsAgree;
      SafeParts(St(), e);
      UnrefKeys(St(), e);
      ReleaseSafe(St(), e);
      ReleaseRefs(St(), e);
      ret := EntryUnrefGuts(e);
      TakeBack(e);
      assert St() == Released(old(St()), e);
    }

    ghost method TakeBack(e: Entry)
      requires Held()
      modifies this`handles
      ensures Held() && St() == old(St()).(handles := old(St()).handles - multiset{e})
    {
      hide Store.Valid, Lens, Keyed;
      handles := handles - multiset{e};
    }
  }
}
