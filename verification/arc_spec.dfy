/** The ARC cache of src/cache.c as a state machine. Every public call holds the cache mutex, so one call
    is one atomic step. Four LRU lists (most recent first), an adaptive target, a reference count per
    entry, and lingering entries: evicted, but still held by a client and still in the index. */
module ArcSpec {
  import opened Common

  /** enum http2d_cache_list_t. */
  datatype Where = NoList | T1 | T2 | B1 | B2

  /** Return codes of the fetch callback and of http2d_cache_get. */
  datatype Ret = RetOk | RetDeny | RetOkAndSent | RetError | RetNoSys | RetNotFound | RetEagain | RetOther

  /** The address of a cache entry. */
  type Entry = nat

  /** What lives at such an address: the index slot of the key, the list tag and the reference count. */
  datatype Rec = Rec(slot: int, where: Where, refs: int)

  /** Statistics the code keeps (count, hits, misses), and history of the run: lookups with an empty
      key, re-adopted lingering entries, and whether any callback has failed. */
  datatype Stats = Stats(count: int, hits: int, misses: int, blanks: int, adopted: int, failed: bool)

  /** The cache: capacity and target for T1, the four lists, the index by key, the live entries, and the
      handles clients hold. */
  datatype State = State(
    c: int, target: int, lists: map<Where, seq<Entry>>, index: map<int, Entry>, recs: map<Entry, Rec>,
    handles: multiset<Entry>, stats: Stats)
  {
    function L(w: Where): seq<Entry> {
      if w in lists then lists[w] else []
    }

    function Len(w: Where): nat {
      |L(w)|
    }
  }

  function Init(c: int): State {
    State(c, 0, map[T1 := [], T2 := [], B1 := [], B2 := []], map[], map[], multiset{}, Stats(0, 0, 0, 0, 0, false))
  }

  function Min(a: int, b: int): int { if a < b then a else b }

  /** A list without one of its entries. */
  function Without(l: seq<Entry>, e: Entry): seq<Entry> {
    if l == [] then [] else if l[0] == e then l[1..] else [l[0]] + Without(l[1..], e)
  }

  /** The list tag of an entry. */
  function Tag(s: State, e: Entry, w: Where): State {
    if e in s.recs then s.(recs := s.recs[e := s.recs[e].(where := w)]) else s
  }

  /** cache_list_del. */
  function ListDel(s: State, w: Where, e: Entry): State {
    Tag(s.(lists := s.lists[w := Without(s.L(w), e)]), e, NoList)
  }

  /** cache_list_add: new entries go to the front. */
  function ListAdd(s: State, w: Where, e: Entry): State {
    Tag(s.(lists := s.lists[w := [e] + s.L(w)]), e, w)
  }

  /** cache_list_swap. */
  function Move(s: State, from: Where, to: Where, e: Entry): State {
    ListAdd(ListDel(s, from, e), to, e)
  }

  /** cache_list_get_lru on a list that is not empty. */
  function Lru(l: seq<Entry>): Entry
    requires l != []
  {
    l[|l| - 1]
  }

  /** entry_ref. */
  function Ref(s: State, e: Entry): State {
    if e in s.recs then s.(recs := s.recs[e := s.recs[e].(refs := s.recs[e].refs + 1)]) else s
  }

  /** entry_unref_guts: drop one reference; at zero the entry leaves the index and its list and is freed. */
  function Unref(s: State, e: Entry): State {
    if e !in s.recs then s
    else
      var r := s.recs[e].(refs := s.recs[e].refs - 1);
      if r.refs > 0 then
        s.(recs := s.recs[e := r])
      else
        s.(index := s.index - {r.slot}, recs := s.recs - {e},
           lists := if r.where == NoList then s.lists else s.lists[r.where := Without(s.L(r.where), e)])
  }

  /** replace: make room by turning the LRU page of T1 or T2 into a ghost. */
  function Replace(s: State, forB2: bool): State {
    if s.Len(T1) >= 1 && (s.Len(T1) > s.target || (s.Len(T1) == s.target && forB2)) then
      Move(s, T1, B1, Lru(s.L(T1)))
    else if s.L(T2) != [] then
      Move(s, T2, B2, Lru(s.L(T2)))
    else
      s
  }

  /** Take the LRU entry off a list and drop the reference the cache held on it. */
  function Evict(s: State, w: Where): State
    requires s.L(w) != []
  {
    Unref(ListDel(s, w, Lru(s.L(w))), Lru(s.L(w)))
  }

  /** on_new_added: free room for a page about to enter T1. None: the victim pointer is null, and the
      code dereferences it. */
  function OnNewAdded(s0: State): Option<State> {
    var s := s0.(stats := s0.stats.(misses := s0.stats.misses + 1));
    var l1, total := s.Len(T1) + s.Len(B1), s.Len(T1) + s.Len(B1) + s.Len(T2) + s.Len(B2);
    if l1 >= s.c then
      if s.Len(T1) < s.c then
        if s.L(B1) == [] then None else Some(Replace(Evict(s, B1), false))
      else
        if s.L(T1) == [] then None else Some(Evict(s, T1))
    else if total >= s.c then
      if total >= 2 * s.c then
        if s.L(B2) == [] then None else Some(Replace(Evict(s, B2), false))
      else
        Some(Replace(s, false))
    else
      Some(s)
  }

  /** Fetch results after which a ghost of B1 counts as cached again (update_ghost_b1). */
  predicate FetchedB1(ret: Ret) { ret == RetOk || ret == RetDeny || ret == RetOkAndSent }

  /** The same for B2 (update_ghost_b2): ret_ok_and_sent is not accepted there. */
  predicate FetchedB2(ret: Ret) { ret == RetOk || ret == RetDeny }

  /** Failures that update_ghost_b1 hands to its caller; any other code becomes ret_error. */
  predicate GivenBackB1(ret: Ret) { ret == RetError || ret == RetNoSys || ret == RetNotFound }

  /** The same for update_ghost_b2. */
  predicate GivenBackB2(ret: Ret) { ret == RetError || ret == RetNoSys }

  /** The entry is live, and the target update does not divide by the length of an empty ghost list. */
  predicate CanUpdate(s: State, e: Entry) {
    e in s.recs && (s.recs[e].where == B1 ==> s.L(B1) != []) && (s.recs[e].where == B2 ==> s.L(B2) != [])
  }

  function Failing(s: State): State {
    s.(stats := s.stats.(failed := true))
  }

  /** A hit on B1 favours recency: the target of T1 goes up. */
  function AdaptedB1(s: State): State
    requires s.L(B1) != []
  {
    Replace(s.(target := Min(s.c, s.target + Max(1, s.Len(B2) / s.Len(B1)))), false)
  }

  /** A hit on B2 favours frequency: the target of T1 goes down. */
  function AdaptedB2(s: State): State
    requires s.L(B2) != []
  {
    Replace(s.(target := Max(0, s.target - Max(1, s.Len(B1) / s.Len(B2)))), true)
  }

  /** update_ghost_b1. The target adapts, and a page may be replaced, before the re-fetch of the ghost is
      known to work. */
  function GhostHitB1(s: State, e: Entry, fetch: Ret): State
    requires s.L(B1) != []
  {
    var s1 := AdaptedB1(s);
    if FetchedB1(fetch) then Move(s1, B1, T2, e) else Failing(s1)
  }

  /** update_ghost_b2. */
  function GhostHitB2(s: State, e: Entry, fetch: Ret): State
    requires s.L(B2) != []
  {
    var s1 := AdaptedB2(s);
    if FetchedB2(fetch) then Move(s1, B2, T2, e) else Failing(s1)
  }

  /** update_cache on an entry found in the index. */
  function UpdateCache(s0: State, e: Entry, fetch: Ret): State
    requires CanUpdate(s0, e)
  {
    var s := s0.(stats := s0.stats.(hits := s0.stats.hits + 1));
    match s.recs[e].where
    case NoList => s
    case T1 => Move(s, T1, T2, e)
    case T2 => s.(lists := s.lists[T2 := [e] + Without(s.L(T2), e)])
    case B1 => GhostHitB1(s, e, fetch)
    case B2 => GhostHitB2(s, e, fetch)
  }

  /** The value update_cache returns. */
  function UpdateRet(where: Where, fetch: Ret): Ret {
    match where
    case NoList => RetError
    case T1 => RetOk
    case T2 => RetOk
    case B1 => if FetchedB1(fetch) then RetOk else if fetch == RetNoSys then RetNoSys else RetError
    case B2 => if FetchedB2(fetch) then RetOk else if fetch == RetNoSys then RetNoSys else RetError
  }

  /** A client gets a handle. */
  function Hand(s: State, e: Entry): State {
    s.(handles := s.handles + multiset{e})
  }

  /** One lookup (blank: the key is empty) or the release of one handle. */
  datatype Op =
    | Get(blank: bool, slot: int, fetch: Ret, page: Option<Entry>)
    | Release(e: Entry)

  /** What a caller may do: release handles it holds; new_cb hands out pages the cache does not know. */
  predicate Legal(s: State, op: Op) {
    match op
    case Get(_, _, _, page) => page.Some? ==> page.value !in s.recs
    case Release(e) => e in s.handles
  }

  /** The step hits a lingering entry and puts it back on T1. */
  predicate Readopts(s: State, op: Op) {
    && op.Get? && !op.blank && op.slot in s.index && s.index[op.slot] in s.recs
    && s.recs[s.index[op.slot]].where == NoList
  }

  function Adopting(s: State): State {
    s.(stats := s.stats.(adopted := s.stats.adopted + 1))
  }

  /** http2d_cache_get with a key that is in the index. */
  function GetKnown(s: State, e: Entry, fetch: Ret): State
    requires CanUpdate(s, e)
  {
    if s.recs[e].where == NoList then
      Hand(Ref(ListAdd(Ref(Adopting(s), e), T1, e), e), e)
    else
      Hand(Ref(UpdateCache(s, e, fetch), e), e)
  }

  /** http2d_cache_get with a key that is not in the index. */
  function GetNew(s: State, slot: int, page: Option<Entry>): Option<State> {
    match OnNewAdded(s)
    case None => None
    case Some(s1) =>
      match page
      case None => Some(Failing(s1))
      case Some(e) =>
        var s2 := s1.(index := s1.index[slot := e], recs := s1.recs[e := Rec(slot, NoList, 0)]);
        Some(Hand(Ref(ListAdd(Ref(s2, e), T1, e), e), e))
  }

  /** One step of the machine; None when the code would follow a null pointer or divide by zero. */
  function Step(s0: State, op: Op): Option<State> {
    match op
    case Release(e) => Some(Unref(s0, e).(handles := s0.handles - multiset{e}))
    case Get(blank, slot, fetch, page) =>
      var s := s0.(stats := s0.stats.(count := s0.stats.count + 1));
      if blank then
        Some(s.(stats := s.stats.(blanks := s.stats.blanks + 1)))
      else if slot in s.index then
        if CanUpdate(s, s.index[slot]) then Some(GetKnown(s, s.index[slot], fetch)) else None
      else
        GetNew(s, slot, page)
  }

  /** A whole run. */
  function Run(s: State, ops: seq<Op>): Option<State>
    decreases |ops|
  {
    if ops == [] then Some(s)
    else match Step(s, ops[0])
      case None => None
      case Some(s1) => Run(s1, ops[1..])
  }

  /** Every step of a run is one a caller may take. */
  predicate LegalRun(s: State, ops: seq<Op>)
    decreases |ops|
  {
    ops == [] || (Legal(s, ops[0]) && (Step(s, ops[0]).Some? ==> LegalRun(Step(s, ops[0]).value, ops[1..])))
  }
}
