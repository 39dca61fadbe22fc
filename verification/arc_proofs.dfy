/** What every step of the ARC cache keeps: reference safety, the ARC bounds and the statistics. */
module ArcProofs {
  import opened Common
  import opened ArcSpec

  /** Listed entries are live and carry the tag of their list; with one tag each, lists are disjoint. */
  ghost predicate Tagged(s: State) {
    NoList !in s.lists && forall w, e :: w in s.lists && e in s.lists[w] ==> e in s.recs && s.recs[e].where == w
  }

  /** Entries with the tag of a list are on that list. */
  ghost predicate Enlisted(s: State) {
    forall e :: e in s.recs && s.recs[e].where != NoList ==> s.recs[e].where in s.lists && e in s.lists[s.recs[e].where]
  }

  ghost predicate NoDups(s: State) {
    forall w :: w in s.lists ==> Distinct(s.lists[w])
  }

  ghost predicate ListsAgree(s: State) {
    Tagged(s) && Enlisted(s) && NoDups(s)
  }

  /** One reference for being on a list, one per outstanding client handle. */
  function Owed(s: State, e: Entry): int
    requires e in s.recs
  {
    (if s.recs[e].where != NoList then 1 else 0) + s.handles[e]
  }

  ghost predicate CountsExact(s: State) {
    && (forall e :: e in s.recs ==> s.recs[e].refs == Owed(s, e) >= 1)
    && (forall e :: e in s.handles ==> e in s.recs)
  }

  /** The index holds exactly the live entries, one per key. */
  ghost predicate IndexExact(s: State) {
    && (forall e :: e in s.recs ==> s.recs[e].slot in s.index && s.index[s.recs[e].slot] == e)
    && (forall k :: k in s.index ==> s.index[k] in s.recs && s.recs[s.index[k]].slot == k)
  }

  ghost predicate Refs(s: State) {
    ListsAgree(s) && CountsExact(s) && IndexExact(s)
  }

  function Pages(s: State): int { s.Len(T1) + s.Len(T2) }

  function Total(s: State): int { s.Len(T1) + s.Len(T2) + s.Len(B1) + s.Len(B2) }

  /** The ARC bounds, loosened by one per re-adoption. */
  ghost predicate Bounds(s: State) {
    && s.c >= 1 && 0 <= s.target <= s.c && s.stats.adopted >= 0
    && Pages(s) <= s.c + s.stats.adopted
    && s.Len(T1) + s.Len(B1) <= s.c + s.stats.adopted
    && Total(s) <= 2 * s.c + s.stats.adopted
  }

  /** While nothing failed and nothing was re-adopted: no ghosts below capacity, all pages in use above. */
  ghost predicate Steady(s: State) {
    !s.stats.failed && s.stats.adopted == 0 ==> Pages(s) == Min(s.c, Total(s))
  }

  /** Every lookup is a hit, a miss, a re-adoption or has an empty key. */
  ghost predicate Tallied(s: State) {
    s.stats.count == s.stats.hits + s.stats.misses + s.stats.adopted + s.stats.blanks
  }

  ghost predicate Safe(s: State) {
    Refs(s) && Bounds(s) && Steady(s) && Tallied(s)
  }

  // ---------------------------------------------------------------- lists

  lemma TailNoDup(l: seq<Entry>)
    requires Distinct(l) && l != []
    ensures Distinct(l[1..]) && l[0] !in l[1..] && l == [l[0]] + l[1..]
  {
    var r := l[1..];
    forall i, j | 0 <= i < j < |r| ensures r[i] != r[j] { assert r[i] == l[i + 1] && r[j] == l[j + 1]; }
    forall i | 0 <= i < |r| ensures r[i] != l[0] { assert r[i] == l[i + 1]; }
  }

  lemma AddNoDup(l: seq<Entry>, e: Entry)
    requires Distinct(l) && e !in l
    ensures Distinct([e] + l)
  {
  }

  lemma {:induction false} WithoutSpec(l: seq<Entry>, e: Entry)
    requires Distinct(l)
    ensures Distinct(Without(l, e))
    ensures forall x :: x in Without(l, e) <==> x in l && x != e
    ensures |Without(l, e)| == |l| - (if e in l then 1 else 0)
  {
    if l != [] {
      TailNoDup(l);
      WithoutSpec(l[1..], e);
      assert forall x :: x in l <==> x == l[0] || x in l[1..];
      if l[0] != e {
        AddNoDup(Without(l[1..], e), l[0]);
      }
    }
  }

  /** One entry enters or leaves the list w, and its tag says so. */
  ghost predicate Relisted(s: State, r: State, w: Where, l: seq<Entry>, e: Entry, tag: Where) {
    && w != NoList && e in s.recs && (s.recs[e].where == w || s.recs[e].where == NoList) && (tag == w || tag == NoList)
    && r.lists == s.lists[w := l] && r.recs == s.recs[e := s.recs[e].(where := tag)]
    && Distinct(l) && (forall x :: x in l <==> (x in s.L(w) && x != e) || (x == e && tag == w))
  }

  lemma RelistedTagged(s: State, r: State, w: Where, l: seq<Entry>, e: Entry, tag: Where)
    requires ListsAgree(s) && Relisted(s, r, w, l, e, tag)
    ensures Tagged(r)
  {
    hide Distinct, Enlisted, NoDups;
  }

  lemma RelistedEnlisted(s: State, r: State, w: Where, l: seq<Entry>, e: Entry, tag: Where)
    requires ListsAgree(s) && Relisted(s, r, w, l, e, tag)
    ensures Enlisted(r)
  {
    hide Distinct, NoDups;
  }

  lemma RelistedAgrees(s: State, r: State, w: Where, l: seq<Entry>, e: Entry, tag: Where)
    requires ListsAgree(s) && Relisted(s, r, w, l, e, tag)
    ensures ListsAgree(r)
  {
    hide Distinct, Tagged, Enlisted;
    RelistedTagged(s, r, w, l, e, tag);
    RelistedEnlisted(s, r, w, l, e, tag);
  }

  lemma DelAgrees(s: State, w: Where, e: Entry)
    requires ListsAgree(s) && e in s.L(w)
    ensures var r := ListDel(s, w, e);
            && ListsAgree(r) && w in s.lists && w != NoList && e in s.recs && s.recs[e].where == w
            && r == s.(lists := s.lists[w := Without(s.lists[w], e)], recs := s.recs[e := s.recs[e].(where := NoList)])
            && |r.lists[w]| == |s.lists[w]| - 1
  {
    hide ListsAgree, Without, Distinct;
    TagOf(s, w, e);
    WithoutSpec(s.lists[w], e);
    RelistedAgrees(s, ListDel(s, w, e), w, Without(s.lists[w], e), e, NoList);
  }

  lemma AddAgrees(s: State, w: Where, e: Entry)
    requires ListsAgree(s) && w != NoList && e in s.recs && s.recs[e].where == NoList
    ensures var r := ListAdd(s, w, e);
            && ListsAgree(r)
            && r == s.(lists := s.lists[w := [e] + s.L(w)], recs := s.recs[e := s.recs[e].(where := w)])
  {
    hide ListsAgree, Distinct;
    OnNoList(s, e);
    ListNoDup(s, w);
    AddNoDup(s.L(w), e);
    RelistedAgrees(s, ListAdd(s, w, e), w, [e] + s.L(w), e, w);
  }

  lemma ListNoDup(s: State, w: Where)
    requires ListsAgree(s)
    ensures Distinct(s.L(w))
  {
  }

  /** Changing the list tag of a listed entry to another list leaves counts and index exact. */
  lemma RetagExact(s: State, r: State, e: Entry, w: Where)
    requires CountsExact(s) && IndexExact(s) && e in s.recs && s.recs[e].where != NoList && w != NoList
    requires r.recs == s.recs[e := s.recs[e].(where := w)] && r.handles == s.handles && r.index == s.index
    ensures CountsExact(r) && IndexExact(r)
  {
  }

  /** Moving an entry between lists keeps reference safety. */
  lemma MoveRefs(s: State, from: Where, to: Where, e: Entry)
    requires Refs(s) && e in s.L(from) && to != NoList && from != to
    ensures var r := Move(s, from, to, e);
            && Refs(r) && e in s.recs
            && r == s.(lists := r.lists, recs := s.recs[e := s.recs[e].(where := to)])
            && r.Len(from) == s.Len(from) - 1 && r.Len(to) == s.Len(to) + 1
    ensures forall v :: v != from && v != to ==> Move(s, from, to, e).L(v) == s.L(v)
  {
    hide ListDel, ListAdd, ListsAgree, CountsExact, IndexExact, Without;
    ListsHold(s);
    DelAgrees(s, from, e);
    AddAgrees(ListDel(s, from, e), to, e);
    var r := Move(s, from, to, e);
    assert r.recs == s.recs[e := s.recs[e].(where := to)];
    RetagExact(s, r, e, to);
  }

  lemma TagOnly(s: State, e: Entry, w: Where)
    ensures var r := Tag(s, e, w);
            && r == s.(recs := r.recs) && r.recs.Keys == s.recs.Keys
            && (forall x :: x in s.recs ==> r.recs[x].slot == s.recs[x].slot)
  {
  }

  /** What a move does to the lists. */
  lemma MoveLists(s: State, from: Where, to: Where, e: Entry)
    requires from != to
    ensures Move(s, from, to, e).L(from) == Without(s.L(from), e) && Move(s, from, to, e).L(to) == [e] + s.L(to)
    ensures forall v :: v != from && v != to ==> Move(s, from, to, e).L(v) == s.L(v)
    ensures Move(s, from, to, e).target == s.target && Move(s, from, to, e).handles == s.handles
    ensures Move(s, from, to, e).recs.Keys == s.recs.Keys && Move(s, from, to, e).index == s.index
    ensures forall x :: x in s.recs ==> Move(s, from, to, e).recs[x].slot == s.recs[x].slot
  {
    hide Tag, Without;
    var s0 := s.(lists := s.lists[from := Without(s.L(from), e)]);
    TagOnly(s0, e, NoList);
    var s1 := ListDel(s, from, e);
    TagOnly(s1.(lists := s1.lists[to := [e] + s1.L(to)]), e, to);
  }

  lemma ListsHold(s: State)
    requires ListsAgree(s)
    ensures NoList !in s.lists
  {
  }

  /** Handles before and after one of the references to e went away. */
  ghost predicate HandlesNow(s: State, r: State, e: Entry, k: int) {
    && (forall x :: x in s.recs && x != e ==> s.recs[x].refs == Owed(s, x) >= 1)
    && (forall x :: x in r.handles ==> x in s.recs && r.handles[x] == (if x == e then k else s.handles[x]))
    && (forall x :: x in s.recs ==> r.handles[x] == (if x == e then k else s.handles[x]))
  }

  lemma KeepExact(s: State, r: State, e: Entry, k: int)
    requires IndexExact(s) && e in s.recs && k >= 1 && s.recs[e].where == NoList && HandlesNow(s, r, e, k)
    requires r == s.(recs := s.recs[e := s.recs[e].(refs := k)], handles := r.handles)
    ensures CountsExact(r) && IndexExact(r)
  {
  }

  lemma FreeExact(s: State, r: State, e: Entry)
    requires IndexExact(s) && e in s.recs && s.recs[e].where == NoList && HandlesNow(s, r, e, 0)
    requires r == s.(recs := s.recs - {e}, index := s.index - {s.recs[e].slot}, handles := r.handles)
    ensures CountsExact(r) && IndexExact(r)
  {
  }

  /** Dropping the last reference frees the entry, dropping any other keeps it. */
  lemma UnrefExact(s: State, r: State, e: Entry, k: int)
    requires IndexExact(s) && e in s.recs && s.recs[e].refs == k + 1 && k >= 0 && s.recs[e].where == NoList
    requires HandlesNow(s, r, e, k) && r == Unref(s, e).(handles := r.handles)
    ensures CountsExact(r) && IndexExact(r)
    ensures e in r.recs <==> k > 0
  {
    hide IndexExact, CountsExact, HandlesNow;
    if k > 0 { KeepExact(s, r, e, k); } else { FreeExact(s, r, e); }
  }

  lemma UnrefLists(s: State, e: Entry)
    requires ListsAgree(s) && e in s.recs && s.recs[e].where == NoList
    ensures ListsAgree(Unref(s, e)) && Unref(s, e).lists == s.lists
  {
  }

  /** Evicting drops exactly the reference the list stood for: the entry lingers or is freed. */
  lemma EvictRefs(s: State, w: Where)
    requires Refs(s) && s.L(w) != []
    ensures var r, e := Evict(s, w), Lru(s.L(w));
            && Refs(r) && r == s.(lists := r.lists, recs := r.recs, index := r.index)
            && r.Len(w) == s.Len(w) - 1
            && e in s.recs && (e in r.recs <==> s.handles[e] > 0)
    ensures forall v :: v != w ==> Evict(s, w).L(v) == s.L(v)
    ensures Evict(s, w).recs.Keys <= s.recs.Keys && Evict(s, w).index.Keys <= s.index.Keys
  {
    hide ListDel, ListsAgree, Without, Unref, IndexExact;
    var e := Lru(s.L(w));
    assert e in s.L(w);
    DelAgrees(s, w, e);
    var s1 := ListDel(s, w, e);
    UnrefLists(s1, e);
    UnrefKeys(s1, e);
    assert s1.recs[e].refs == s.recs[e].refs == 1 + s.handles[e];
    TagIndex(s, s1, e);
    UnrefExact(s1, Unref(s1, e), e, s.handles[e]);
  }

  lemma TagIndex(s: State, r: State, e: Entry)
    requires IndexExact(s) && e in s.recs && r.index == s.index && r.recs == s.recs[e := s.recs[e].(where := NoList)]
    ensures IndexExact(r)
  {
  }

  lemma UnrefKeys(s: State, e: Entry)
    ensures var r := Unref(s, e);
            r == s.(lists := r.lists, recs := r.recs, index := r.index)
            && r.recs.Keys <= s.recs.Keys && r.index.Keys <= s.index.Keys
  {
  }

  /** replace moves at most one LRU page: of T1 exactly when T1 exceeds the target, or equals it on a hit of B2;
      otherwise of T2, and none exactly when T2 is empty then. */
  lemma ReplaceRefs(s: State, forB2: bool)
    requires Refs(s)
    ensures var r := Replace(s, forB2);
            && Refs(r) && r == s.(lists := r.lists, recs := r.recs)
            && r.recs.Keys == s.recs.Keys
            && (|| (&& r.Len(T1) == s.Len(T1) - 1 && r.Len(B1) == s.Len(B1) + 1
                    && r.L(T2) == s.L(T2) && r.L(B2) == s.L(B2)
                    && (s.Len(T1) > s.target || (s.Len(T1) == s.target && forB2)))
                || (&& r.Len(T2) == s.Len(T2) - 1 && r.Len(B2) == s.Len(B2) + 1
                    && r.L(T1) == s.L(T1) && r.L(B1) == s.L(B1)
                    && (s.L(T1) == [] || (s.Len(T1) <= s.target && !(s.Len(T1) == s.target && forB2))))
                || (&& r == s && s.L(T2) == []
                    && (s.L(T1) == [] || (s.Len(T1) <= s.target && !(s.Len(T1) == s.target && forB2)))))
    ensures forall x :: x in s.recs && (s.recs[x].where == B1 || s.recs[x].where == B2) ==>
              x in Replace(s, forB2).recs && Replace(s, forB2).recs[x].where == s.recs[x].where
  {
    hide ListsAgree, CountsExact, IndexExact, Move;
    ListsHold(s);
    if s.Len(T1) >= 1 && (s.Len(T1) > s.target || (s.Len(T1) == s.target && forB2)) {
      MoveRefs(s, T1, B1, Lru(s.L(T1)));
      TagOf(s, T1, Lru(s.L(T1)));
    } else if s.L(T2) != [] {
      MoveRefs(s, T2, B2, Lru(s.L(T2)));
      TagOf(s, T2, Lru(s.L(T2)));
    }
  }

  lemma TagOf(s: State, w: Where, e: Entry)
    requires ListsAgree(s) && e in s.L(w)
    ensures w in s.lists && w != NoList && e in s.recs && s.recs[e].where == w && Distinct(s.lists[w])
  {
  }
  // ---------------------------------------------------------------- making room

  /** There is room for one more page in T1. */
  ghost predicate Room(s: State) {
    && s.c >= 1 && 0 <= s.target <= s.c && s.stats.adopted >= 0
    && Pages(s) + 1 <= s.c + s.stats.adopted
    && s.Len(T1) + s.Len(B1) + 1 <= s.c + s.stats.adopted
    && Total(s) + 1 <= 2 * s.c + s.stats.adopted
    && (!s.stats.failed && s.stats.adopted == 0 ==> Pages(s) + 1 == Min(s.c, Total(s) + 1))
  }

  function Missing(s: State): State {
    s.(stats := s.stats.(misses := s.stats.misses + 1))
  }

  /** on_new_added finds no victim exactly when B2 must give one up and is empty. */
  ghost predicate NoVictim(s: State) {
    s.Len(T1) + s.Len(B1) < s.c && Total(s) >= 2 * s.c && s.L(B2) == []
  }

  lemma NewCrashesIff(s: State)
    requires s.c >= 1
    ensures OnNewAdded(s).None? <==> NoVictim(s)
  {
    hide Replace, Evict;
  }

  /** Within the textbook bounds there always is a victim. */
  lemma VictimExists(s: State)
    requires Bounds(s) && s.stats.adopted == 0
    ensures !NoVictim(s)
  {
  }

  /** What the first phase of on_new_added leaves: sizes of the four lists. */
  ghost predicate Shrinks(s: State, r: State, w: Where) {
    && Refs(r) && r == s.(lists := r.lists, recs := r.recs, index := r.index)
    && r.Len(w) == s.Len(w) - 1 && (forall v :: v != w ==> r.L(v) == s.L(v))
    && r.recs.Keys <= s.recs.Keys && r.index.Keys <= s.index.Keys
  }

  lemma EvictShrinks(s: State, w: Where)
    requires Refs(s) && s.L(w) != []
    ensures Shrinks(s, Evict(s, w), w)
  {
    hide ListsAgree, CountsExact, IndexExact, Evict;
    EvictRefs(s, w);
  }

  /** What replace leaves: one page became a ghost, or T2 is empty and T1 is within its target. */
  ghost predicate Replaces(s: State, r: State, forB2: bool) {
    && Refs(r) && r == s.(lists := r.lists, recs := r.recs) && r.recs.Keys == s.recs.Keys
    && (|| (&& r.Len(T1) == s.Len(T1) - 1 && r.Len(B1) == s.Len(B1) + 1
            && r.Len(T2) == s.Len(T2) && r.Len(B2) == s.Len(B2))
        || (&& r.Len(T2) == s.Len(T2) - 1 && r.Len(B2) == s.Len(B2) + 1
            && r.Len(T1) == s.Len(T1) && r.Len(B1) == s.Len(B1))
        || (r == s && s.Len(T2) == 0 && (s.Len(T1) == 0 || s.Len(T1) < s.target || (s.Len(T1) == s.target && !forB2))))
  }

  lemma ReplaceReplaces(s: State, forB2: bool)
    requires Refs(s)
    ensures Replaces(s, Replace(s, forB2), forB2)
  {
    hide ListsAgree, CountsExact, IndexExact, Replace;
    ReplaceRefs(s, forB2);
  }

  lemma NewMakesRoom(s: State)
    requires Refs(s) && Bounds(s) && Steady(s) && OnNewAdded(s).Some?
    ensures var r := OnNewAdded(s).value;
            && Refs(r) && Room(r) && r == Missing(s).(lists := r.lists, recs := r.recs, index := r.index)
            && r.recs.Keys <= s.recs.Keys && r.index.Keys <= s.index.Keys
  {
    hide Refs, Replace, Evict;
    var s1 := Missing(s);
    StatsRefs(s, s1);
    if s1.Len(T1) + s1.Len(B1) >= s1.c {
      if s1.Len(T1) < s1.c {
        EvictShrinks(s1, B1);
        var s2 := Evict(s1, B1);
        ReplaceReplaces(s2, false);
        RoomAfterB1(s1, s2, Replace(s2, false));
      } else {
        EvictShrinks(s1, T1);
        RoomAfterT1(s1, Evict(s1, T1));
      }
    } else if Total(s1) >= s1.c {
      if Total(s1) >= 2 * s1.c {
        EvictShrinks(s1, B2);
        var s2 := Evict(s1, B2);
        ReplaceReplaces(s2, false);
        RoomAfterB2(s1, s2, Replace(s2, false));
      } else {
        ReplaceReplaces(s1, false);
        RoomAfterReplace(s1, Replace(s1, false));
      }
    }
  }

  lemma RoomAfterB1(s: State, s1: State, r: State)
    requires Bounds(s) && Steady(s) && s.Len(T1) + s.Len(B1) >= s.c > s.Len(T1)
    requires Shrinks(s, s1, B1) && Replaces(s1, r, false)
    ensures Room(r)
  {
    hide Refs;
    assert s1.Len(T1) == s.Len(T1) && s1.Len(T2) == s.Len(T2) && s1.Len(B2) == s.Len(B2);
  }

  lemma RoomAfterT1(s: State, r: State)
    requires Bounds(s) && Steady(s) && s.Len(T1) >= s.c && Shrinks(s, r, T1)
    ensures Room(r)
  {
    hide Refs;
    assert r.Len(T2) == s.Len(T2) && r.Len(B1) == s.Len(B1) && r.Len(B2) == s.Len(B2);
  }

  lemma RoomAfterB2(s: State, s1: State, r: State)
    requires Bounds(s) && Steady(s) && s.Len(T1) + s.Len(B1) < s.c && Total(s) >= 2 * s.c
    requires Shrinks(s, s1, B2) && Replaces(s1, r, false)
    ensures Room(r)
  {
    hide Refs;
    assert s1.Len(T1) == s.Len(T1) && s1.Len(T2) == s.Len(T2) && s1.Len(B1) == s.Len(B1);
  }

  lemma RoomAfterReplace(s: State, r: State)
    requires Bounds(s) && Steady(s) && s.Len(T1) + s.Len(B1) < s.c <= Total(s) < 2 * s.c && Replaces(s, r, false)
    ensures Room(r)
  {
    hide Refs;
  }

  /** Reference safety does not look at statistics or target. */
  lemma StatsRefs(s: State, r: State)
    requires Refs(s) && r == s.(stats := r.stats, target := r.target)
    ensures Refs(r)
  {
  }

  /** The state after an entry with n references and no list has been put on T1, referenced once more
      and handed to a client. */
  ghost function Entered(s: State, e: Entry, rec: Rec): State {
    s.(lists := s.lists[T1 := [e] + s.L(T1)], recs := s.recs[e := rec], handles := s.handles + multiset{e})
  }

  lemma EnterSteps(s: State, e: Entry)
    requires e in s.recs
    ensures Hand(Ref(ListAdd(Ref(s, e), T1, e), e), e) == Entered(s, e, Rec(s.recs[e].slot, T1, s.recs[e].refs + 2))
  {
  }

  lemma EnteredLists(s: State, e: Entry, rec: Rec)
    requires ListsAgree(s) && (e in s.recs ==> s.recs[e].where == NoList) && rec.where == T1
    ensures ListsAgree(Entered(s, e, rec))
  {
    var s1 := s.(recs := s.recs[e := rec.(where := NoList)]);
    NewAgrees(s, s1, e);
    AddAgrees(s1, T1, e);
    hide ListsAgree, ListAdd;
    SameLists(ListAdd(s1, T1, e), Entered(s, e, rec));
  }

  /** A page new to the cache enters T1 with one reference for the cache and one for the client. */
  lemma EnterNew(s: State, slot: int, e: Entry)
    requires Refs(s) && slot !in s.index && e !in s.recs
    ensures var s1 := s.(index := s.index[slot := e], recs := s.recs[e := Rec(slot, NoList, 0)]);
            var r := Entered(s1, e, Rec(slot, T1, 2));
            Refs(r) && r.recs == s.recs[e := Rec(slot, T1, 2)]
  {
    hide ListsAgree, CountsExact, IndexExact;
    var s1 := s.(index := s.index[slot := e], recs := s.recs[e := Rec(slot, NoList, 0)]);
    NewAgrees(s, s1, e);
    EnteredLists(s1, e, Rec(slot, T1, 2));
    var r := Entered(s1, e, Rec(slot, T1, 2));
    assert r.recs == s.recs[e := Rec(slot, T1, 2)];
    NewCounts(s, r, slot, e);
    NewIndex(s, r, slot, e);
  }

  lemma NewAgrees(s: State, r: State, e: Entry)
    requires ListsAgree(s) && (e in s.recs ==> s.recs[e].where == NoList) && r.lists == s.lists
    requires exists k, n :: r.recs == s.recs[e := Rec(k, NoList, n)]
    ensures ListsAgree(r)
  {
  }

  lemma NewCounts(s: State, r: State, slot: int, e: Entry)
    requires CountsExact(s) && e !in s.recs && r.recs == s.recs[e := Rec(slot, T1, 2)]
    requires r.handles == s.handles + multiset{e}
    ensures CountsExact(r)
  {
    assert s.handles[e] == 0;
    forall x | x in r.recs ensures r.recs[x].refs == Owed(r, x) >= 1 {
      assert r.handles[x] == s.handles[x] + (if x == e then 1 else 0);
    }
  }

  lemma NewIndex(s: State, r: State, slot: int, e: Entry)
    requires IndexExact(s) && e !in s.recs && slot !in s.index
    requires r.recs == s.recs[e := Rec(slot, T1, 2)] && r.index == s.index[slot := e]
    ensures IndexExact(r)
  {
    forall x | x in r.recs ensures r.recs[x].slot in r.index && r.index[r.recs[x].slot] == x {
      if x != e { assert s.recs[x].slot in s.index; }
    }
  }

  lemma SameLists(s: State, r: State)
    requires ListsAgree(s) && r.lists == s.lists && r.recs.Keys == s.recs.Keys
    requires forall e :: e in s.recs ==> r.recs[e].where == s.recs[e].where
    ensures ListsAgree(r)
  {
  }

  // ---------------------------------------------------------------- lookups that find an entry

  lemma HandRefs(s: State, e: Entry)
    requires Refs(s) && e in s.recs
    ensures var r := Hand(Ref(s, e), e);
            && Refs(r)
            && r == s.(recs := s.recs[e := s.recs[e].(refs := s.recs[e].refs + 1)], handles := s.handles + multiset{e})
  {
    var r := Hand(Ref(s, e), e);
    SameLists(s, r);
    hide ListsAgree;
    MoreHandles(s, r, e, 0);
  }

  /** One more handle and one more reference, or additionally the reference of a list. */
  lemma MoreHandles(s: State, r: State, e: Entry, listed: int)
    requires CountsExact(s) && IndexExact(s) && e in s.recs && r.handles == s.handles + multiset{e}
    requires r.index == s.index
    requires e in r.recs && r.recs == s.recs[e := Rec(s.recs[e].slot, r.recs[e].where, s.recs[e].refs + 1 + listed)]
    requires listed == (if r.recs[e].where != NoList then 1 else 0) - (if s.recs[e].where != NoList then 1 else 0)
    ensures CountsExact(r) && IndexExact(r)
  {
    forall x | x in r.recs ensures r.recs[x].refs == Owed(r, x) >= 1 {
      assert r.handles[x] == s.handles[x] + (if x == e then 1 else 0);
      assert s.recs[x].refs == Owed(s, x) >= 1;
    }
  }

  /** Re-adopting a lingering entry: one reference for the list, one for the client. */
  lemma AdoptRefs(s: State, e: Entry)
    requires Refs(s) && e in s.recs && s.recs[e].where == NoList
    ensures Refs(Entered(s, e, Rec(s.recs[e].slot, T1, s.recs[e].refs + 2)))
  {
    var rec := Rec(s.recs[e].slot, T1, s.recs[e].refs + 2);
    EnteredLists(s, e, rec);
    hide ListsAgree;
    MoreHandles(s, Entered(s, e, rec), e, 1);
  }

  lemma FrontList(l: seq<Entry>, e: Entry)
    requires Distinct(l) && e in l
    ensures Distinct([e] + Without(l, e)) && |[e] + Without(l, e)| == |l|
    ensures forall x :: x in [e] + Without(l, e) <==> x in l
  {
    hide Without, Distinct;
    WithoutSpec(l, e);
    AddNoDup(Without(l, e), e);
  }

  /** A list replaced by one with the same members. */
  lemma ReorderAgrees(s: State, w: Where, l: seq<Entry>)
    requires ListsAgree(s) && w in s.lists && Distinct(l) && forall x :: x in l <==> x in s.lists[w]
    ensures ListsAgree(s.(lists := s.lists[w := l]))
  {
    hide Distinct;
  }

  lemma SameExact(s: State, r: State)
    requires CountsExact(s) && IndexExact(s) && r == s.(lists := r.lists)
    ensures CountsExact(r) && IndexExact(r)
  {
  }

  lemma OnNoList(s: State, e: Entry)
    requires ListsAgree(s) && e in s.recs && s.recs[e].where == NoList
    ensures forall w :: w in s.lists ==> e !in s.lists[w]
  {
  }

  lemma ListedAt(s: State, e: Entry)
    requires ListsAgree(s) && e in s.recs && s.recs[e].where != NoList
    ensures s.recs[e].where in s.lists && e in s.lists[s.recs[e].where] && Distinct(s.lists[s.recs[e].where])
  {
  }

  /** cache_list_make_first. */
  lemma FrontRefs(s: State, e: Entry)
    requires Refs(s) && e in s.recs && s.recs[e].where == T2
    ensures var r := s.(lists := s.lists[T2 := [e] + Without(s.L(T2), e)]);
            Refs(r) && r.Len(T2) == s.Len(T2)
  {
    hide Without, Distinct, ListsAgree, CountsExact, IndexExact;
    ListedAt(s, e);
    FrontList(s.lists[T2], e);
    var l := [e] + Without(s.lists[T2], e);
    ReorderAgrees(s, T2, l);
    SameExact(s, s.(lists := s.lists[T2 := l]));
  }

  /** What the body of update_cache keeps. */
  ghost predicate Updated(s: State, r: State, e: Entry) {
    && Refs(r) && Bounds(r) && Steady(r) && e in r.recs && r.c == s.c && r.handles == s.handles && r.index == s.index
    && r.stats == s.stats.(hits := s.stats.hits + 1, failed := r.stats.failed)
  }

  function Hit(s: State): State {
    s.(stats := s.stats.(hits := s.stats.hits + 1))
  }

  lemma UpdateT1(s: State, e: Entry)
    requires Refs(s) && Bounds(s) && Steady(s) && e in s.recs && s.recs[e].where == T1
    ensures Updated(s, Move(Hit(s), T1, T2, e), e)
  {
    hide Refs, Move;
    GhostListed(s, e);
    StatsRefs(s, Hit(s));
    MoveRefs(Hit(s), T1, T2, e);
    var r := Move(Hit(s), T1, T2, e);
    assert r.L(B1) == s.L(B1) && r.L(B2) == s.L(B2);
  }

  lemma UpdateT2(s: State, e: Entry)
    requires Refs(s) && Bounds(s) && Steady(s) && e in s.recs && s.recs[e].where == T2
    ensures Updated(s, Hit(s).(lists := s.lists[T2 := [e] + Without(s.L(T2), e)]), e)
  {
    hide ListsAgree, CountsExact, IndexExact, Without;
    FrontRefs(s, e);
    var lists := s.lists[T2 := [e] + Without(s.L(T2), e)];
    StatsRefs(s.(lists := lists), Hit(s).(lists := lists));
  }

  /** Where an entry tagged as a ghost is. */
  lemma GhostListed(s: State, e: Entry)
    requires Refs(s) && e in s.recs && s.recs[e].where != NoList
    ensures e in s.L(s.recs[e].where) && s.L(s.recs[e].where) != []
  {
  }

  /** Sizes when a ghost of B1 returns to T2 after replace. */
  lemma ReturnSizesB1(s: State, s1: State, r: State)
    requires Bounds(s) && Steady(s) && Replaces(s, s1, false) && s.Len(B1) >= 1
    requires r == s1.(lists := r.lists, recs := r.recs) && r.Len(B1) == s1.Len(B1) - 1 && r.Len(T2) == s1.Len(T2) + 1
    requires r.Len(T1) == s1.Len(T1) && r.Len(B2) == s1.Len(B2)
    ensures Bounds(r) && Steady(r)
  {
    hide Refs;
  }

  lemma ReturnSizesB2(s: State, s1: State, r: State)
    requires Bounds(s) && Steady(s) && Replaces(s, s1, true) && s.Len(B2) >= 1 && s.target < s.c
    requires r == s1.(lists := r.lists, recs := r.recs) && r.Len(B2) == s1.Len(B2) - 1 && r.Len(T2) == s1.Len(T2) + 1
    requires r.Len(T1) == s1.Len(T1) && r.Len(B1) == s1.Len(B1)
    ensures Bounds(r) && Steady(r)
  {
    hide Refs;
  }

  /** A re-fetched ghost becomes a page of T2. */
  lemma GhostReturns(s: State, s1: State, w: Where, e: Entry)
    requires Bounds(s) && Steady(s) && (w == B1 || w == B2) && Replaces(s, s1, w == B2)
    requires e in s1.recs && s1.recs[e].where == w && s.Len(w) >= 1
    requires w == B2 ==> s.target < s.c
    ensures var r := Move(s1, w, T2, e);
            Refs(r) && Bounds(r) && Steady(r) && r == s1.(lists := r.lists, recs := r.recs) && e in r.recs
  {
    hide Refs, Move, Bounds, Steady;
    GhostListed(s1, e);
    MoveRefs(s1, w, T2, e);
    var r := Move(s1, w, T2, e);
    assert r.L(T1) == s1.L(T1);
    if w == B1 {
      assert r.L(B2) == s1.L(B2);
      ReturnSizesB1(s, s1, r);
    } else {
      assert r.L(B1) == s1.L(B1);
      ReturnSizesB2(s, s1, r);
    }
  }

  /** A ghost whose re-fetch failed stays a ghost; a page may have been given up for it. */
  lemma GhostStays(s: State, s1: State, forB2: bool)
    requires Bounds(s) && Replaces(s, s1, forB2)
    ensures Refs(Failing(s1)) && Bounds(Failing(s1)) && Steady(Failing(s1))
  {
    hide ListsAgree, CountsExact, IndexExact;
    StatsRefs(s1, Failing(s1));
  }

  /** The adaptive target update. */
  ghost function NewTarget(s: State, w: Where): int
    requires w == B1 ==> s.Len(B1) > 0
    requires w == B2 ==> s.Len(B2) > 0
  {
    if w == B1 then Min(s.c, s.target + Max(1, s.Len(B2) / s.Len(B1)))
    else if w == B2 then Max(0, s.target - Max(1, s.Len(B1) / s.Len(B2)))
    else s.target
  }

  lemma TargetInRange(s: State, w: Where)
    requires Bounds(s) && (w == B1 || w == B2) && s.Len(w) >= 1
    ensures Bounds(Hit(s).(target := NewTarget(s, w))) && (w == B2 ==> NewTarget(s, w) < s.c)
  {
  }

  lemma UpdateGhost(s: State, e: Entry, fetch: Ret)
    requires Refs(s) && Bounds(s) && Steady(s) && e in s.recs && (s.recs[e].where == B1 || s.recs[e].where == B2)
    ensures CanUpdate(s, e) && Updated(s, UpdateCache(s, e, fetch), e)
  {
    hide Refs, Move, Replace, Bounds, NewTarget, UpdateCache, Replaces;
    var w := s.recs[e].where;
    GhostListed(s, e);
    TargetInRange(s, w);
    var s0 := Hit(s).(target := NewTarget(s, w));
    StatsRefs(s, s0);
    ReplaceRefs(s0, w == B2);
    ReplaceReplaces(s0, w == B2);
    var s1 := Replace(s0, w == B2);
    GhostStays(s0, s1, w == B2);
    GhostReturns(s0, s1, w, e);
    UpdateGhostIs(s, e, fetch);
  }

  /** update_cache on a ghost, in one line. */
  lemma UpdateGhostIs(s: State, e: Entry, fetch: Ret)
    requires e in s.recs && (s.recs[e].where == B1 || s.recs[e].where == B2) && s.L(s.recs[e].where) != []
    ensures CanUpdate(s, e)
    ensures var w := s.recs[e].where;
            var s1 := Replace(Hit(s).(target := NewTarget(s, w)), w == B2);
            UpdateCache(s, e, fetch) ==
              if (if w == B1 then FetchedB1(fetch) else FetchedB2(fetch)) then Move(s1, w, T2, e) else Failing(s1)
  {
    hide Move, Replace;
  }

  lemma UpdateSafe(s: State, e: Entry, fetch: Ret)
    requires Refs(s) && Bounds(s) && Steady(s) && e in s.recs && s.recs[e].where != NoList
    ensures CanUpdate(s, e) && Updated(s, UpdateCache(s, e, fetch), e)
  {
    hide Refs, Move, Replace, Without;
    match s.recs[e].where
    case T1 => UpdateT1(s, e);
    case T2 => UpdateT2(s, e);
    case B1 => UpdateGhost(s, e, fetch);
    case B2 => UpdateGhost(s, e, fetch);
  }

  // ---------------------------------------------------------------- releasing a handle

  function Released(s: State, e: Entry): State {
    Unref(s, e).(handles := s.handles - multiset{e})
  }

  lemma LessHandles(s: State, e: Entry)
    requires CountsExact(s) && IndexExact(s) && e in s.handles && s.recs[e].refs > 1
    ensures CountsExact(Released(s, e)) && IndexExact(Released(s, e))
  {
    var r := Released(s, e);
    forall x | x in r.recs ensures r.recs[x].refs == Owed(r, x) >= 1 {
      assert r.handles[x] == s.handles[x] - (if x == e then 1 else 0);
      assert s.recs[x].refs == Owed(s, x) >= 1;
    }
  }

  /** A client gives a handle back: the entry is freed exactly when that was its last reference, and
      then it was on no list. */
  lemma ReleaseRefs(s: State, e: Entry)
    requires Refs(s) && e in s.handles
    ensures var r := Released(s, e);
            && Refs(r) && r.lists == s.lists && e in s.recs
            && r == s.(lists := r.lists, recs := r.recs, index := r.index, handles := r.handles)
            && (e !in r.recs <==> s.recs[e].refs == 1)
            && (e !in r.recs ==> s.recs[e].where == NoList && s.handles[e] == 1)
  {
    hide ListsAgree, CountsExact, IndexExact;
    var r := Released(s, e);
    HandleOwed(s, e);
    if s.recs[e].refs > 1 {
      LessHandles(s, e);
      SameLists(s, r);
    } else {
      UnrefLists(s, e);
      SameLists(Unref(s, e), r);
      LastHandle(s, e);
    }
  }

  lemma LastHandle(s: State, e: Entry)
    requires CountsExact(s) && IndexExact(s) && e in s.handles && s.recs[e].refs == 1
    ensures CountsExact(Released(s, e)) && IndexExact(Released(s, e))
  {
    hide CountsExact, IndexExact;
    HandleOwed(s, e);
    var r := Released(s, e);
    assert forall x :: x in s.recs ==> r.handles[x] == (if x == e then 0 else s.handles[x]);
    UnrefExact(s, r, e, 0);
  }

  lemma HandleOwed(s: State, e: Entry)
    requires CountsExact(s) && e in s.handles
    ensures e in s.recs
    ensures forall x :: x in s.recs ==> s.recs[x].refs == Owed(s, x) >= 1
    ensures forall x :: x in s.handles ==> x in s.recs
  {
  }

  // ---------------------------------------------------------------- steps and runs

  lemma InitSafe(c: int)
    requires c >= 1
    ensures Safe(Init(c))
  {
  }

  lemma EnteredSizes(s: State, e: Entry, rec: Rec)
    ensures var r := Entered(s, e, rec);
            && r == s.(lists := r.lists, recs := r.recs, handles := r.handles) && r.Len(T1) == s.Len(T1) + 1
            && r.Len(T2) == s.Len(T2) && r.Len(B1) == s.Len(B1) && r.Len(B2) == s.Len(B2)
  {
  }

  /** The lookup being served has been counted, but not yet classified. */
  ghost predicate Counted(s: State) {
    s.stats.count == s.stats.hits + s.stats.misses + s.stats.adopted + s.stats.blanks + 1
  }

  lemma AdoptBounds(s: State, r: State)
    requires Bounds(s) && Counted(s) && r == Adopting(s).(lists := r.lists, recs := r.recs, handles := r.handles)
    requires r.Len(T1) == s.Len(T1) + 1 && r.Len(T2) == s.Len(T2) && r.Len(B1) == s.Len(B1) && r.Len(B2) == s.Len(B2)
    ensures Bounds(r) && Steady(r) && Tallied(r)
  {
  }

  lemma AdoptSafe(s: State, e: Entry, fetch: Ret)
    requires Refs(s) && Bounds(s) && Counted(s) && e in s.recs && s.recs[e].where == NoList
    ensures var r := GetKnown(s, e, fetch); Safe(r) && r.c == s.c && r.stats.adopted == s.stats.adopted + 1
  {
    hide Refs, Bounds, Steady, Tallied, Counted, Entered, Ref, ListAdd, Hand;
    var s1 := Adopting(s);
    StatsRefs(s, s1);
    EnterSteps(s1, e);
    AdoptRefs(s1, e);
    var rec := Rec(s.recs[e].slot, T1, s.recs[e].refs + 2);
    EnteredSizes(s1, e, rec);
    AdoptBounds(s, Entered(s1, e, rec));
  }

  /** Bounds and tally look at lists, target and statistics only. */
  lemma SizesSame(s: State, r: State)
    requires r.lists == s.lists && r.c == s.c && r.target == s.target && r.stats == s.stats
    ensures Bounds(r) == Bounds(s) && Steady(r) == Steady(s) && Tallied(r) == Tallied(s)
  {
  }

  lemma UpdatedTally(s: State, r: State, e: Entry)
    requires Counted(s) && Updated(s, r, e)
    ensures Tallied(r) && r.stats.adopted == s.stats.adopted
  {
    hide Refs, Bounds, Steady;
  }

  lemma HitSafe(s: State, e: Entry, fetch: Ret)
    requires Refs(s) && Bounds(s) && Steady(s) && Counted(s) && e in s.recs && s.recs[e].where != NoList
    ensures CanUpdate(s, e)
    ensures var r := GetKnown(s, e, fetch); Safe(r) && r.c == s.c && r.stats.adopted == s.stats.adopted
  {
    hide Refs, UpdateCache, Ref, Hand, Bounds, Steady, Tallied, Counted;
    UpdateSafe(s, e, fetch);
    var s1 := UpdateCache(s, e, fetch);
    UpdatedTally(s, s1, e);
    HandRefs(s1, e);
    SizesSame(s1, Hand(Ref(s1, e), e));
  }

  lemma RoomEntered(s: State, r: State)
    requires Room(s) && Tallied(s) && r == s.(lists := r.lists, recs := r.recs, handles := r.handles, index := r.index)
    requires r.Len(T1) == s.Len(T1) + 1 && r.Len(T2) == s.Len(T2) && r.Len(B1) == s.Len(B1) && r.Len(B2) == s.Len(B2)
    ensures Bounds(r) && Steady(r) && Tallied(r)
  {
  }

  lemma RoomUnused(s: State)
    requires Room(s) && Tallied(s)
    ensures Bounds(Failing(s)) && Steady(Failing(s)) && Tallied(Failing(s))
  {
  }

  /** The second half of a miss: the new page enters T1, or new_cb failed. */
  lemma NewEnters(s: State, slot: int, page: Option<Entry>)
    requires Refs(s) && Bounds(s) && Steady(s) && Counted(s) && slot !in s.index
    requires (page.Some? ==> page.value !in s.recs)
    requires OnNewAdded(s).Some?
    ensures GetNew(s, slot, page).Some?
    ensures var r := GetNew(s, slot, page).value; Safe(r) && r.c == s.c && r.stats.adopted == s.stats.adopted
  {
    hide Refs, OnNewAdded, Entered, Bounds, Steady, Room, Ref, ListAdd, Hand;
    NewMakesRoom(s);
    MissingTally(s);
    var s1 := OnNewAdded(s).value;
    match page {
      case None =>
        StatsRefs(s1, Failing(s1));
        RoomUnused(s1);
      case Some(e) =>
        EnterNew(s1, slot, e);
        var s2 := s1.(index := s1.index[slot := e], recs := s1.recs[e := Rec(slot, NoList, 0)]);
        EnterSteps(s2, e);
        EnteredSizes(s2, e, Rec(slot, T1, 2));
        RoomEntered(s1, Entered(s2, e, Rec(slot, T1, 2)));
    }
  }

  lemma MissingTally(s: State)
    requires Counted(s)
    ensures Tallied(Missing(s))
  {
  }

  lemma ReleaseSafe(s: State, e: Entry)
    requires Safe(s) && e in s.handles
    ensures var r := Released(s, e); Safe(r) && r.c == s.c && r.stats.adopted == s.stats.adopted
  {
    hide Refs, Unref, Bounds, Steady, Tallied;
    ReleaseRefs(s, e);
    SizesSame(s, Released(s, e));
  }

  function Counting(s: State): State {
    s.(stats := s.stats.(count := s.stats.count + 1))
  }

  lemma CountingSafe(s: State)
    requires Safe(s)
    ensures var r := Counting(s); Refs(r) && Bounds(r) && Steady(r) && Counted(r)
    ensures Safe(Counting(s).(stats := Counting(s).stats.(blanks := s.stats.blanks + 1)))
  {
    StatsRefs(s, Counting(s));
    StatsRefs(s, Counting(s).(stats := Counting(s).stats.(blanks := s.stats.blanks + 1)));
    hide Refs;
  }

  lemma IndexedLives(s: State, slot: int)
    requires Refs(s) && slot in s.index
    ensures s.index[slot] in s.recs
  {
  }

  /** Every legal step keeps reference safety, the bounds and the tally; it fails only when a new page
      needs a victim from an empty B2, which takes a re-adoption somewhere before. */
  lemma StepSafe(s: State, op: Op)
    requires Safe(s) && Legal(s, op)
    ensures Step(s, op).None? <==> op.Get? && !op.blank && op.slot !in s.index && NoVictim(s)
    ensures s.stats.adopted == 0 ==> Step(s, op).Some?
    ensures Step(s, op).Some? ==>
              var r := Step(s, op).value;
              Safe(r) && r.c == s.c && r.stats.adopted == s.stats.adopted + if Readopts(s, op) then 1 else 0
  {
    hide Refs, Bounds, Steady, Tallied, GetKnown, GetNew, Unref, Safe;
    match op
    case Release(e) =>
      ReleaseSafe(s, e);
    case Get(blank, slot, fetch, page) =>
      CountingSafe(s);
      var s1 := Counting(s);
      if !blank && slot in s.index {
        IndexedLives(s1, slot);
        if s.recs[s.index[slot]].where == NoList {
          AdoptSafe(s1, s.index[slot], fetch);
        } else {
          HitSafe(s1, s.index[slot], fetch);
        }
      } else if !blank {
        NewCrashes(s1, slot, page);
        if s.stats.adopted == 0 { VictimExists(s1); }
        if OnNewAdded(s1).Some? { NewEnters(s1, slot, page); }
      }
  }

  lemma NewCrashes(s: State, slot: int, page: Option<Entry>)
    requires Bounds(s)
    ensures GetNew(s, slot, page).None? <==> NoVictim(s)
    ensures GetNew(s, slot, page).None? <==> OnNewAdded(s).None?
  {
    NewCrashesIff(s);
    hide OnNewAdded;
  }

  /** Number of re-adoptions in a run. */
  function Readoptions(s: State, ops: seq<Op>): nat
    decreases |ops|
  {
    if ops == [] then 0
    else (if Readopts(s, ops[0]) then 1 else 0) +
         (match Step(s, ops[0]) case None => 0 case Some(s1) => Readoptions(s1, ops[1..]))
  }

  lemma {:induction false} RunSafeFrom(s: State, ops: seq<Op>)
    requires Safe(s) && LegalRun(s, ops)
    ensures Run(s, ops).Some? ==> Safe(Run(s, ops).value) && Run(s, ops).value.c == s.c
    ensures Run(s, ops).Some? ==> Run(s, ops).value.stats.adopted == s.stats.adopted + Readoptions(s, ops)
    ensures s.stats.adopted + Readoptions(s, ops) == 0 ==> Run(s, ops).Some?
    decreases |ops|
  {
    hide Safe, Step, Legal;
    if ops != [] {
      AdoptedNat(s);
      StepSafe(s, ops[0]);
      if Step(s, ops[0]).Some? {
        RunSafeFrom(Step(s, ops[0]).value, ops[1..]);
      }
    }
  }

  lemma AdoptedNat(s: State)
    requires Safe(s)
    ensures s.stats.adopted >= 0
  {
  }

  // ---------------------------------------------------------------- what the cache object needs to know

  lemma SafeParts(s: State, e: Entry)
    requires Safe(s) && e in s.handles
    ensures Refs(s) && ListsAgree(s) && e in s.recs && s.recs[e].refs >= 1
  {
  }

  lemma UnlistLen(s: State, e: Entry)
    requires ListsAgree(s) && e in s.recs && s.recs[e].where != NoList
    ensures s.recs[e].where in s.lists
    ensures |Without(s.lists[s.recs[e].where], e)| == |s.lists[s.recs[e].where]| - 1
  {
    WithoutSpec(s.lists[s.recs[e].where], e);
  }

  lemma FrontLen(s: State, e: Entry)
    requires Refs(s) && e in s.recs && s.recs[e].where == T2
    ensures T2 in s.lists && |[e] + Without(s.lists[T2], e)| == |s.lists[T2]|
  {
    UnlistLen(s, e);
  }

  lemma UpdateKeeps(s: State, e: Entry, fetch: Ret)
    requires Refs(s) && e in s.recs && s.recs[e].where != NoList && CanUpdate(s, e)
    ensures e in UpdateCache(s, e, fetch).recs
  {
    hide Refs, Without;
    StatsRefs(s, Hit(s));
    if s.recs[e].where == B1 || s.recs[e].where == B2 {
      UpdateGhostIs(s, e, fetch);
      var s0 := Hit(s).(target := NewTarget(s, s.recs[e].where));
      StatsRefs(s, s0);
      ReplaceRefs(s0, s.recs[e].where == B2);
    }
  }

  lemma KnownHands(s: State, e: Entry, fetch: Ret)
    requires CanUpdate(s, e)
    ensures e in GetKnown(s, e, fetch).handles
  {
    hide UpdateCache, ListAdd;
  }

  lemma AddedLives(s: State, w: Where, e: Entry)
    requires e in s.recs
    ensures e in ListAdd(s, w, e).recs
  {
  }

  lemma AdoptedLists(s: State, r: State, e: Entry)
    requires Refs(s) && e in s.recs && r == Ref(Adopting(s), e)
    ensures ListsAgree(r)
  {
    hide ListsAgree, CountsExact, IndexExact;
    SameLists(s, r);
  }

  lemma NewUnlisted(s: State, s2: State, r: State, slot: int, e: Entry)
    requires Refs(s) && e !in s.recs && r == Ref(s2, e)
    requires s2 == s.(index := s.index[slot := e], recs := s.recs[e := Rec(slot, NoList, 0)])
    ensures ListsAgree(r) && e in r.recs && r.recs[e].where == NoList
  {
    hide ListsAgree, CountsExact, IndexExact;
    NewAgrees(s, s2, e);
    SameLists(s2, r);
  }

  lemma BoundsSize(s: State)
    requires Bounds(s)
    ensures s.c >= 1
  {
  }
}
