/** What every step of the cache does to its four lists, the target and the statistics, written on
    sequences alone: the policy of ARC as a reader of its description would put it. */
module ArcLists {
  import opened Common
  import opened ArcSpec
  import opened ArcProofs

  /** The four lists, most recent entry first. */
  datatype Lists = Lists(t1: seq<Entry>, t2: seq<Entry>, b1: seq<Entry>, b2: seq<Entry>)

  function ListsOf(s: State): Lists {
    Lists(s.L(T1), s.L(T2), s.L(B1), s.L(B2))
  }

  /** The page that gives way to another: the least recent of T1 turns into a ghost of B1 when T1 is longer
      than the target, or as long on a hit of B2; otherwise that of T2 into a ghost of B2. */
  function GivenWay(x: Lists, target: int, hitB2: bool): Lists {
    var n, m := |x.t1|, |x.t2|;
    if n > 0 && (n > target || (n == target && hitB2)) then
      Lists(x.t1[..n - 1], x.t2, [x.t1[n - 1]] + x.b1, x.b2)
    else if m > 0 then
      Lists(x.t1, x.t2[..m - 1], x.b1, [x.t2[m - 1]] + x.b2)
    else
      x
  }

  function ButLast(l: seq<Entry>): seq<Entry> {
    if l == [] then [] else l[..|l| - 1]
  }

  /** Room for a new page: nothing below capacity; a full T1 drops its least recent page; otherwise a full
      history first forgets a ghost, and a page gives way. */
  function WithRoom(x: Lists, c: int, target: int): Lists {
    var recent, total := |x.t1| + |x.b1|, |x.t1| + |x.t2| + |x.b1| + |x.b2|;
    if recent < c && total < c then x
    else if |x.t1| >= c then x.(t1 := ButLast(x.t1))
    else if recent >= c then GivenWay(x.(b1 := ButLast(x.b1)), target, false)
    else if total >= 2 * c then GivenWay(x.(b2 := ButLast(x.b2)), target, false)
    else GivenWay(x, target, false)
  }

  /** How often the length of the ghost list that was hit goes into that of the other, at least once. */
  function Ratio(hit: nat, other: nat): nat
    requires hit > 0
  {
    if other < hit then 1 else other / hit
  }

  /** The target after a hit on an entry of w. */
  function Retargeted(x: Lists, w: Where, c: int, target: int): int {
    if w == B1 && x.b1 != [] then
      var t := target + Ratio(|x.b1|, |x.b2|); if t > c then c else t
    else if w == B2 && x.b2 != [] then
      var t := target - Ratio(|x.b2|, |x.b1|); if t < 0 then 0 else t
    else target
  }

  /** The lists after a hit on the entry e of w; target is the target after the hit. */
  function AfterHit(x: Lists, w: Where, e: Entry, target: int, fetch: Ret): Lists {
    match w
    case NoList => x.(t1 := [e] + x.t1)
    case T1 => x.(t1 := Without(x.t1, e), t2 := [e] + x.t2)
    case T2 => x.(t2 := [e] + Without(x.t2, e))
    case B1 =>
      var y := GivenWay(x, target, false);
      if fetch in {RetOk, RetDeny, RetOkAndSent} then y.(b1 := Without(y.b1, e), t2 := [e] + y.t2) else y
    case B2 =>
      var y := GivenWay(x, target, true);
      if fetch in {RetOk, RetDeny} then y.(b2 := Without(y.b2, e), t2 := [e] + y.t2) else y
  }

  /** The entry a lookup finds in the index. */
  function Looked(s: State, op: Op): Option<Entry> {
    if op.Get? && !op.blank && op.slot in s.index then Some(s.index[op.slot]) else None
  }

  /** What a step leaves: a release and a lookup without a key touch no list, a lookup that finds its entry
      is a hit, and any other makes room and puts its page first on T1. */
  ghost predicate Follows(s: State, op: Op, r: State) {
    var x, found, t := ListsOf(s), Looked(s, op), s.stats;
    && r.c == s.c
    && (op.Release? ==>
          ListsOf(r) == x && r.target == s.target && r.stats == t && r.handles == s.handles - multiset{op.e})
    && (op.Get? && op.blank ==>
          ListsOf(r) == x && r.target == s.target && r.handles == s.handles
          && r.stats.count == t.count + 1 && r.stats.hits == t.hits && r.stats.misses == t.misses)
    && (found.Some? && found.value in s.recs ==>
          var w := s.recs[found.value].where;
          && r.target == Retargeted(x, w, s.c, s.target)
          && ListsOf(r) == AfterHit(x, w, found.value, r.target, op.fetch)
          && r.handles == s.handles + multiset{found.value} && r.stats.count == t.count + 1
          && r.stats.hits == t.hits + (if w == NoList then 0 else 1) && r.stats.misses == t.misses)
    && (op.Get? && !op.blank && found.None? ==>
          var y := WithRoom(x, s.c, s.target);
          && r.target == s.target && r.stats.count == t.count + 1
          && r.stats.hits == t.hits && r.stats.misses == t.misses + 1
          && if op.page.Some? then
               ListsOf(r) == y.(t1 := [op.page.value] + y.t1) && r.handles == s.handles + multiset{op.page.value}
             else ListsOf(r) == y && r.handles == s.handles)
  }

  // ---------------------------------------------------------------- lists

  /** Taking an entry out leaves the others in their order. */
  lemma {:induction false} WithoutAt(l: seq<Entry>, i: nat)
    requires Distinct(l) && i < |l|
    ensures Without(l, l[i]) == l[..i] + l[i + 1..]
  {
    TailNoDup(l);
    if i > 0 {
      WithoutAt(l[1..], i - 1);
      assert l[..i] + l[i + 1..] == [l[0]] + (l[1..][..i - 1] + l[1..][i..]);
    }
  }

  lemma WithoutLast(l: seq<Entry>)
    requires l != [] && Distinct(l)
    ensures Without(l, Lru(l)) == l[..|l| - 1] == ButLast(l)
  {
    hide Without;
    WithoutAt(l, |l| - 1);
  }

  lemma EvictLists(s: State, w: Where)
    requires Refs(s) && s.L(w) != []
    ensures Evict(s, w).L(w) == Without(s.L(w), Lru(s.L(w))) && Evict(s, w).target == s.target
    ensures forall v :: v != w ==> Evict(s, w).L(v) == s.L(v)
  {
    hide ListsAgree, CountsExact, IndexExact, Without, Unref;
    var e := Lru(s.L(w));
    assert e in s.L(w);
    DelAgrees(s, w, e);
    var s1 := ListDel(s, w, e);
    UnrefLists(s1, e);
    UnrefKeys(s1, e);
  }

  lemma Uniform(s: State)
    requires Refs(s)
    ensures forall w :: Distinct(s.L(w))
  {
  }

  lemma ReplaceIs(s: State, forB2: bool)
    requires Refs(s)
    ensures ListsOf(Replace(s, forB2)) == GivenWay(ListsOf(s), s.target, forB2)
  {
    hide Move, Without, Refs, Distinct;
    Uniform(s);
    if s.L(T1) != [] {
      MoveLists(s, T1, B1, Lru(s.L(T1)));
      WithoutLast(s.L(T1));
    }
    if s.L(T2) != [] {
      MoveLists(s, T2, B2, Lru(s.L(T2)));
      WithoutLast(s.L(T2));
    }
  }

  lemma EvictIs(s: State, w: Where)
    requires Refs(s) && s.L(w) != []
    ensures Evict(s, w).L(w) == ButLast(s.L(w)) && forall v :: v != w ==> Evict(s, w).L(v) == s.L(v)
    ensures Refs(Evict(s, w)) && Evict(s, w).target == s.target
  {
    hide Without, Refs, Distinct, Evict;
    Uniform(s);
    WithoutLast(s.L(w));
    EvictLists(s, w);
    EvictRefs(s, w);
  }

  // ---------------------------------------------------------------- steps

  lemma MissingIs(s: State)
    requires Refs(s)
    ensures var r := Missing(s); Refs(r) && ListsOf(r) == ListsOf(s) && r.c == s.c && r.target == s.target
  {
    StatsRefs(s, Missing(s));
  }

  lemma EvictReplaceIs(s: State, w: Where)
    requires Refs(s) && s.L(w) != [] && (w == B1 || w == B2)
    ensures var x := ListsOf(s);
            var y := if w == B1 then x.(b1 := ButLast(x.b1)) else x.(b2 := ButLast(x.b2));
            ListsOf(Replace(Evict(s, w), false)) == GivenWay(y, s.target, false)
  {
    hide Refs, Evict, Replace, GivenWay, ButLast;
    EvictIs(s, w);
    ReplaceIs(Evict(s, w), false);
  }

  lemma RoomIs(s: State)
    requires Refs(s) && OnNewAdded(s).Some?
    ensures ListsOf(OnNewAdded(s).value) == WithRoom(ListsOf(s), s.c, s.target)
  {
    hide Refs, Evict, Replace, GivenWay, ButLast;
    var s1 := Missing(s);
    MissingIs(s);
    if s1.Len(T1) + s1.Len(B1) >= s1.c {
      if s1.Len(T1) < s1.c {
        EvictReplaceIs(s1, B1);
      } else {
        EvictIs(s1, T1);
      }
    } else if Total(s1) >= s1.c {
      if Total(s1) >= 2 * s1.c {
        EvictReplaceIs(s1, B2);
      } else {
        ReplaceIs(s1, false);
      }
    }
  }

  lemma NewIs(s: State, slot: int, page: Option<Entry>)
    requires Refs(s) && Bounds(s) && Steady(s) && GetNew(s, slot, page).Some?
    ensures var r, y := GetNew(s, slot, page).value, WithRoom(ListsOf(s), s.c, s.target);
            && r.c == s.c && r.target == s.target && r.stats.count == s.stats.count
            && r.stats.hits == s.stats.hits && r.stats.misses == s.stats.misses + 1
            && if page.Some? then
                 ListsOf(r) == y.(t1 := [page.value] + y.t1) && r.handles == s.handles + multiset{page.value}
               else ListsOf(r) == y && r.handles == s.handles
  {
    hide Refs, Bounds, Steady, Room, OnNewAdded, WithRoom, ListAdd, Ref, Hand;
    RoomIs(s);
    NewMakesRoom(s);
    var s1 := OnNewAdded(s).value;
    if page.Some? {
      var e := page.value;
      EnterSteps(s1.(index := s1.index[slot := e], recs := s1.recs[e := Rec(slot, NoList, 0)]), e);
    }
  }

  lemma NewTargetIs(s: State, w: Where)
    requires w == B1 || w == B2
    requires s.L(w) != []
    ensures NewTarget(s, w) == Retargeted(ListsOf(s), w, s.c, s.target)
  {
    var hit, other := s.Len(w), if w == B1 then s.Len(B2) else s.Len(B1);
    RatioIs(hit, other);
  }

  lemma RatioIs(hit: nat, other: nat)
    requires hit > 0
    ensures Ratio(hit, other) == Max(1, other / hit)
  {
    if other >= hit {
      QuotientPositive(hit, other);
    }
  }

  lemma QuotientPositive(hit: nat, other: nat)
    requires 0 < hit <= other
    ensures other / hit >= 1
  {
  }

  /** What a hit leaves. */
  ghost predicate HitIs(s: State, e: Entry, fetch: Ret, r: State)
    requires e in s.recs
  {
    var x, w := ListsOf(s), s.recs[e].where;
    && r.c == s.c && r.target == Retargeted(x, w, s.c, s.target)
    && ListsOf(r) == AfterHit(x, w, e, r.target, fetch) && r.stats.count == s.stats.count
    && r.stats.hits == s.stats.hits + (if w == NoList then 0 else 1) && r.stats.misses == s.stats.misses
  }

  lemma GhostIs(s: State, e: Entry, fetch: Ret)
    requires Refs(s) && e in s.recs && (s.recs[e].where == B1 || s.recs[e].where == B2) && CanUpdate(s, e)
    ensures HitIs(s, e, fetch, UpdateCache(s, e, fetch)) && UpdateCache(s, e, fetch).handles == s.handles
  {
    hide Refs, Replace, NewTarget, UpdateCache, Adapted, HitIs;
    var w := s.recs[e].where;
    GhostListed(s, e);
    AdaptedIs(s, w);
    var s1 := Replace(Hit(s).(target := NewTarget(s, w)), w == B2);
    AdaptedHit(s, s1, e, fetch);
    UpdateGhostIs(s, e, fetch);
  }

  /** The state after a hit on a ghost of w, before the entry is known to be fetched again. */
  ghost predicate Adapted(s: State, s1: State, w: Where) {
    && s1.c == s.c && s1.target == Retargeted(ListsOf(s), w, s.c, s.target)
    && ListsOf(s1) == GivenWay(ListsOf(s), s1.target, w == B2)
    && s1.stats == Hit(s).stats && s1.handles == s.handles
  }

  lemma AdaptedIs(s: State, w: Where)
    requires Refs(s) && (w == B1 || w == B2) && s.L(w) != []
    ensures Adapted(s, Replace(Hit(s).(target := NewTarget(s, w)), w == B2), w)
  {
    hide Refs, Replace, GivenWay, NewTarget, Retargeted;
    NewTargetIs(s, w);
    var s0 := Hit(s).(target := NewTarget(s, w));
    StatsRefs(s, s0);
    ReplaceIs(s0, w == B2);
    ReplaceRefs(s0, w == B2);
  }

  lemma AdaptedHit(s: State, s1: State, e: Entry, fetch: Ret)
    requires e in s.recs && (s.recs[e].where == B1 || s.recs[e].where == B2) && Adapted(s, s1, s.recs[e].where)
    ensures var w := s.recs[e].where;
            var fetched := if w == B1 then FetchedB1(fetch) else FetchedB2(fetch);
            var r := if fetched then Move(s1, w, T2, e) else Failing(s1);
            HitIs(s, e, fetch, r) && r.handles == s.handles
  {
    hide Move, Without, GivenWay, Retargeted;
    var w := s.recs[e].where;
    MoveKeeps(s1, w, T2, e);
    MoveLists(s1, w, T2, e);
  }

  lemma MoveKeeps(s: State, from: Where, to: Where, e: Entry)
    ensures var r := Move(s, from, to, e); r.c == s.c && r.target == s.target && r.stats == s.stats
  {
  }

  lemma PageIs(s: State, e: Entry, fetch: Ret)
    requires Refs(s) && e in s.recs && (s.recs[e].where == T1 || s.recs[e].where == T2) && CanUpdate(s, e)
    ensures HitIs(s, e, fetch, UpdateCache(s, e, fetch)) && UpdateCache(s, e, fetch).handles == s.handles
  {
    hide Refs, Move, Without;
    MoveKeeps(Hit(s), T1, T2, e);
    MoveLists(Hit(s), T1, T2, e);
  }

  lemma KnownIs(s: State, e: Entry, fetch: Ret)
    requires Refs(s) && CanUpdate(s, e)
    ensures HitIs(s, e, fetch, GetKnown(s, e, fetch))
    ensures GetKnown(s, e, fetch).handles == s.handles + multiset{e}
  {
    hide Refs, UpdateCache, Without, AfterHit, Retargeted, HitIs;
    if s.recs[e].where == NoList {
      AdoptedIs(s, e, fetch);
    } else {
      if s.recs[e].where == T1 || s.recs[e].where == T2 { PageIs(s, e, fetch); } else { GhostIs(s, e, fetch); }
      HandedIs(s, UpdateCache(s, e, fetch), e, fetch);
    }
  }

  lemma AdoptedIs(s: State, e: Entry, fetch: Ret)
    requires e in s.recs && s.recs[e].where == NoList
    ensures HitIs(s, e, fetch, GetKnown(s, e, fetch))
    ensures GetKnown(s, e, fetch).handles == s.handles + multiset{e}
  {
    EnterSteps(Adopting(s), e);
  }

  lemma HandedIs(s: State, u: State, e: Entry, fetch: Ret)
    requires e in s.recs && HitIs(s, e, fetch, u) && u.handles == s.handles
    ensures var r := Hand(Ref(u, e), e); HitIs(s, e, fetch, r) && r.handles == s.handles + multiset{e}
  {
    hide AfterHit, Retargeted;
  }

  lemma CountingIs(s: State)
    requires Safe(s)
    ensures var r := Counting(s); Refs(r) && Bounds(r) && Steady(r) && ListsOf(r) == ListsOf(s)
  {
    hide Refs, Bounds, Steady;
    CountingSafe(s);
  }

  /** Every step from a safe state leaves exactly the lists, target, counters and handles of the policy. */
  lemma StepFollows(s: State, op: Op)
    requires Safe(s) && Legal(s, op) && Step(s, op).Some?
    ensures Follows(s, op, Step(s, op).value)
  {
    hide Refs, Bounds, Steady, Tallied, GetKnown, GetNew, Unref, AfterHit, Retargeted, WithRoom;
    match op
    case Release(e) =>
      ReleaseRefs(s, e);
    case Get(blank, slot, fetch, page) =>
      CountingIs(s);
      var s1 := Counting(s);
      if !blank && slot in s.index {
        KnownIs(s1, s.index[slot], fetch);
      } else if !blank {
        NewIs(s1, slot, page);
      }
  }

  // ---------------------------------------------------------------- which page gives way

  /** T1 is over its target, or at it on a hit of B2: it is T1 that gives a page. */
  predicate FromT1(x: Lists, target: int, hitB2: bool) {
    x.t1 != [] && (|x.t1| > target || (|x.t1| == target && hitB2))
  }

  /** Pages are no ghosts. */
  ghost predicate Apart(x: Lists) {
    (forall e :: e in x.t1 ==> e !in x.b1) && (forall e :: e in x.t2 ==> e !in x.b2)
  }

  lemma GivenWayIff(x: Lists, target: int, hitB2: bool, e: Entry)
    requires Apart(x)
    ensures var y := GivenWay(x, target, hitB2);
            && (e in x.t1 ==> (e in y.b1 <==> e == Lru(x.t1) && FromT1(x, target, hitB2)))
            && (e in x.t2 ==> (e in y.b2 <==> e == Lru(x.t2) && !FromT1(x, target, hitB2)))
  {
  }

  lemma {:induction false} WithoutOther(l: seq<Entry>, e: Entry, x: Entry)
    requires x != e
    ensures x in Without(l, e) <==> x in l
  {
    if l != [] {
      WithoutOther(l[1..], e, x);
      assert l == [l[0]] + l[1..];
    }
  }

  lemma ListsApart(s: State)
    requires Refs(s)
    ensures Apart(ListsOf(s))
    ensures forall e, w :: e in s.L(w) ==> e in s.recs && s.recs[e].where == w
  {
    hide ListsAgree;
    forall e, w | e in s.L(w) ensures e in s.recs && s.recs[e].where == w {
      TagOf(s, w, e);
    }
    forall e | e in s.L(T1) ensures e !in s.L(B1) {
      TagOf(s, T1, e);
      if e in s.L(B1) { TagOf(s, B1, e); }
    }
    forall e | e in s.L(T2) ensures e !in s.L(B2) {
      TagOf(s, T2, e);
      if e in s.L(B2) { TagOf(s, B2, e); }
    }
  }

  /** The step is one that turns a page into a ghost: a hit on a ghost, or a new page for a cache at capacity
      whose T1 is not full. */
  predicate TakesPage(s: State, op: Op) {
    match Looked(s, op)
    case Some(e) => e in s.recs && (s.recs[e].where == B1 || s.recs[e].where == B2)
    case None => op.Get? && !op.blank && Total(s) >= s.c && s.Len(T1) < s.c
  }

  predicate HitsB2(s: State, op: Op) {
    var found := Looked(s, op);
    found.Some? && found.value in s.recs && s.recs[found.value].where == B2
  }

  /** Exactly which page gives way: a page of T1 becomes a ghost of B1 when it is the least recent and T1
      exceeds the target after the step, or equals it on a hit of B2; a page of T2 becomes a ghost of B2 when
      it is the least recent and T1 gives none. */
  lemma GivesWayIff(s: State, op: Op, e: Entry)
    requires Safe(s) && Legal(s, op) && Step(s, op).Some?
    ensures var r, x := Step(s, op).value, ListsOf(s);
            var fromT1 := FromT1(x, r.target, HitsB2(s, op));
            && (e in s.L(T1) ==> (e in r.L(B1) <==> TakesPage(s, op) && e == Lru(s.L(T1)) && fromT1))
            && (e in s.L(T2) ==> (e in r.L(B2) <==> TakesPage(s, op) && e == Lru(s.L(T2)) && !fromT1))
  {
    hide Refs, Bounds, Steady, Tallied, Step, Lru, GivenWay, FromT1, Retargeted;
    StepFollows(s, op);
    ListsApart(s);
    var r, x := Step(s, op).value, ListsOf(s);
    match Looked(s, op)
    case Some(found) =>
      IndexedLives(s, op.slot);
      HitGivesWay(x, s.recs[found].where, found, r.target, op.fetch, e);
    case None =>
      if op.Get? && !op.blank {
        RoomGivesWay(x, s.c, s.target, e);
      }
  }

  lemma HitGivesWay(x: Lists, w: Where, found: Entry, target: int, fetch: Ret, e: Entry)
    requires Apart(x)
    requires w == T1 ==> found !in x.b1 && found !in x.b2
    requires w == B1 || w == B2 ==> found !in x.t1 && found !in x.t2
    ensures var y, fromT1 := AfterHit(x, w, found, target, fetch), FromT1(x, target, w == B2);
            var ghosts := w == B1 || w == B2;
            && (e in x.t1 ==> (e in y.b1 <==> ghosts && e == Lru(x.t1) && fromT1))
            && (e in x.t2 ==> (e in y.b2 <==> ghosts && e == Lru(x.t2) && !fromT1))
  {
    hide GivenWay, Lru, FromT1, Without;
    GivenWayIff(x, target, w == B2, e);
    if e != found {
      var y := GivenWay(x, target, w == B2);
      WithoutOther(y.b1, found, e);
      WithoutOther(y.b2, found, e);
    }
  }

  lemma RoomGivesWay(x: Lists, c: int, target: int, e: Entry)
    requires Apart(x)
    ensures var y, fromT1 := WithRoom(x, c, target), FromT1(x, target, false);
            var takes := |x.t1| + |x.t2| + |x.b1| + |x.b2| >= c && |x.t1| < c;
            && (e in x.t1 ==> (e in y.b1 <==> takes && e == Lru(x.t1) && fromT1))
            && (e in x.t2 ==> (e in y.b2 <==> takes && e == Lru(x.t2) && !fromT1))
  {
    hide GivenWay, Lru;
    GivenWayIff(x, target, false, e);
    GivenWayIff(x.(b1 := ButLast(x.b1)), target, false, e);
    GivenWayIff(x.(b2 := ButLast(x.b2)), target, false, e);
  }
}
