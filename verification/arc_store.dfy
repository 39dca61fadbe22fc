/** What the cache keeps in memory: the lists as rings, and the index as a threaded AVL tree. */
module ArcStore {
  import opened Common
  import opened ArcSpec
  import opened ArcProofs
  import opened ArcRings
  import K = AvlKeys
  import S = AvlShape
  import Rt = AvlRotate
  import O = AvlOrder
  import T = AvlTree

  /** Keys that the tree tells apart, none of them empty. */
  ghost predicate KeysApart(keys: map<Entry, K.Key>) {
    && (forall d, e :: d in keys && e in keys ==> K.Comparable(keys[d], keys[e]))
    && (forall e :: e in keys ==> keys[e] != [])
  }

  /** A key that the tree tells apart from all given ones. */
  ghost predicate MixesWith(keys: map<Entry, K.Key>, key: K.Key) {
    forall e :: e in keys ==> K.Comparable(key, keys[e]) && K.Comparable(keys[e], key)
  }

  lemma MixesFewer(keys: map<Entry, K.Key>, keys': map<Entry, K.Key>, key: K.Key)
    requires MixesWith(keys, key) && forall e :: e in keys' ==> e in keys && keys'[e] == keys[e]
    ensures MixesWith(keys', key)
  {
  }

  class Store {
    const rings: Rings
    const table: T.Avl
    /** The key of every live entry. */
    var keys: map<Entry, K.Key>
    /** The nodes of the tree. */
    ghost var nodes: set<S.Node>

    ghost function Lists(): map<Where, seq<Entry>>
      reads rings
    {
      rings.lists
    }

    ghost function Index(): map<int, Entry>
      reads table
    {
      table.Contents()
    }

    /** The index for the given keys: every node carries the key of its entry, and the tree tells all keys
        apart. */
    ghost predicate TableHolds(keys: map<Entry, K.Key>)
      reads this`nodes, table, nodes
    {
      && nodes == table.Repr() && table.Valid() && !table.ignoreCase && |table.Nodes()| < S.MAX_NODES
      && (forall n :: n in table.Nodes() ==> n.value in keys && n.key == keys[n.value])
      && KeysApart(keys)
    }

    ghost predicate TableValid()
      reads this, table, nodes
    {
      TableHolds(keys)
    }

    ghost predicate Valid()
      reads this, rings, rings.repr, table, nodes
    {
      rings.Valid() && TableValid() && rings.links.Keys == keys.Keys
    }

    /** A key that the tree tells apart from all keys of live entries. */
    ghost predicate Mixes(key: K.Key)
      reads this
    {
      MixesWith(keys, key)
    }

    function Slot(e: Entry): int
      reads this
      requires e in keys
    {
      K.Rank(false, keys[e])
    }

    lemma SelfCompares(key: K.Key)
      ensures K.Comparable(key, key)
    {
    }

    lemma MixesTable(key: K.Key)
      requires TableValid() && Mixes(key)
      ensures table.ComparableWithAll(key)
    {
      hide T.Avl.Valid;
    }

    constructor ()
      ensures Valid() && Lists() == map[T1 := [], T2 := [], B1 := [], B2 := []] && Index() == map[] && keys == map[]
      ensures fresh(rings) && fresh(rings.repr) && fresh(table) && nodes == {}
    {
      hide Rings.Valid, T.Avl.Valid, TableHolds;
      var r := NewRings();
      var t := new T.Avl(false);
      S.LeafNodes();
      rings, table := r, t;
      keys, nodes := map[], {};
      new;
      EmptyTable();
    }

    lemma EmptyTable()
      requires table.root == null && table.shape == S.Leaf && !table.ignoreCase && keys == map[] && nodes == {}
      ensures TableValid()
    {
    }

    /** http2d_list_add, for an entry that is on no list. */
    method ListAdd(w: Where, e: Entry)
      requires Valid() && w in Lists() && e in keys && forall v :: v in rings.lists ==> e !in rings.lists[v]
      modifies rings`lists, rings.repr
      ensures Valid() && Lists() == old(Lists())[w := [e] + old(Lists()[w])]
    {
      hide Rings.Valid, TableHolds;
      rings.AddFront(w, e);
    }

    /** http2d_list_del. */
    method ListDel(w: Where, e: Entry)
      requires Valid() && w in Lists() && e in Lists()[w]
      modifies rings`lists, rings.repr
      ensures Valid() && Lists() == old(Lists())[w := Without(old(Lists()[w]), e)]
    {
      hide Rings.Valid, TableHolds, Without;
      rings.Del(w, e);
    }

    /** cache_list_get_lru. */
    method GetLru(w: Where) returns (e: Option<Entry>)
      requires Valid() && w in Lists()
      ensures e == if Lists()[w] == [] then None else Some(Lru(Lists()[w]))
    {
      hide Rings.Valid, TableHolds;
      e := rings.GetLru(w);
    }

    /** http2d_avl_get. */
    method Find(key: K.Key) returns (ret: T.Ret, e: Entry)
      requires Valid() && Mixes(key)
      ensures ret == T.RetError <==> key == []
      ensures ret == T.RetOk <==> key != [] && K.Rank(false, key) in Index()
      ensures ret == T.RetOk ==> e == Index()[K.Rank(false, key)]
    {
      hide Rings.Valid, T.Avl.Valid, K.Rank, T.Avl.ComparableWithAll, T.Avl.Contents;
      MixesTable(key);
      ret, e := table.Get(key);
    }

    /** http2d_cache_entry_init on the page new_cb made. */
    method NewEntry(key: K.Key, e: Entry)
      requires Valid() && Mixes(key) && key != [] && e !in keys
      modifies this`keys, rings`links, rings`repr
      ensures Valid() && keys == old(keys)[e := key] && fresh(rings.repr - old(rings.repr))
    {
      hide Rings.Valid, TableHolds, K.Comparable, Mixes;
      var link := NewHead(e);
      KeyAdded(key, e);
      rings.AddLink(e, link);
      keys := keys[e := key];
    }

    lemma KeyAdded(key: K.Key, e: Entry)
      requires TableValid() && Mixes(key) && key != [] && e !in keys
      ensures TableHolds(keys[e := key])
    {
      hide T.Avl.Valid;
      SelfCompares(key);
    }

    /** http2d_avl_add with the key of an entry. */
    method AddIndex(e: Entry)
      requires Valid() && e in keys && Slot(e) !in Index() && |Index()| + 1 < S.MAX_NODES
      modifies this`nodes, table, nodes
      ensures Valid() && Index() == old(Index())[Slot(e) := e] && fresh(nodes - old(nodes))
    {
      hide Rings.Valid, T.Avl.Valid, K.Rank, K.Comparable, T.Avl.ComparableWithAll, T.Avl.Contents;
      MixesTable(keys[e]);
      IndexSize();
      var ret := table.Add(keys[e], e);
      nodes := table.Repr();
      IndexSize();
    }

    /** http2d_avl_del on the key of an entry. */
    method Unindex(e: Entry)
      requires Valid() && e in keys
      modifies this`nodes, table, nodes
      ensures Valid() && Index() == old(Index()) - {Slot(e)} && nodes <= old(nodes)
    {
      hide Rings.Valid, T.Avl.Valid, K.Rank, T.Avl.ComparableWithAll, O.Bindings, S.InOrder, KeysApart;
      SelfMixes(e);
      MixesTable(keys[e]);
      IndexSize();
      ghost var before := table.Nodes();
      var ret, value := table.Del(keys[e]);
      nodes := table.Repr();
      if ret != T.RetOk { assert table.Nodes() == before && Slot(e) !in old(Index()); }
      IndexSize();
      NodesStay(before);
    }

    lemma SelfMixes(e: Entry)
      requires KeysApart(keys) && e in keys
      ensures Mixes(keys[e]) && keys[e] != []
    {
      hide K.Comparable;
    }

    lemma NodesStay(before: seq<S.Node>)
      requires forall n :: n in table.Repr() ==> n in Rt.NodeSet(before)
      ensures forall n :: n in table.Nodes() ==> n in before
    {
      hide S.InOrder;
      forall n | n in table.Nodes() ensures n in before { assert n in table.Repr(); }
    }

    /** entry_free, for an entry that is on no list and not in the index. */
    method Free(e: Entry)
      requires Valid() && e in keys && Slot(e) !in Index() && forall v :: v in rings.lists ==> e !in rings.lists[v]
      modifies this`keys, rings`links, rings`repr
      ensures Valid() && keys == old(keys) - {e} && rings.repr <= old(rings.repr)
    {
      hide Rings.Valid, TableHolds, K.Rank;
      KeyDropped(e);
      rings.Free(e);
      keys := keys - {e};
    }

    lemma KeyDropped(e: Entry)
      requires TableValid() && e in keys && Slot(e) !in Index()
      ensures TableHolds(keys - {e})
    {
      O.BindingsSpec(O.ByRank(false), table.Nodes());
    }

    lemma IndexSize()
      requires table.Valid()
      ensures |Index()| == |table.Nodes()|
    {
      O.BindingsSpec(O.ByRank(table.ignoreCase), table.Nodes());
    }
  }
}
