/** What the cache keeps and what it gives up: recency order, victims and the direction of the target. */
module ArcPolicy {
  import opened Common
  import opened ArcSpec
  import opened ArcProofs
  import opened ArcLists

  /** One step of one list: it loses at most the entry looked up or its least recent entry, and gains at
      most one entry, at the front. The order of the others stays. */
  ghost predicate Evolves(l: seq<Entry>, l': seq<Entry>, looked: Option<Entry>) {
    || Shrunk(l, l', looked)
    || (l' != [] && Shrunk(l, l'[1..], looked))
  }

  ghost predicate Shrunk(l: seq<Entry>, rest: seq<Entry>, looked: Option<Entry>) {
    || rest == l
    || (l != [] && rest == Without(l, Lru(l)))
    || (looked.Some? && rest == Without(l, looked.value))
  }

  ghost predicate AllEvolve(s: State, r: State, looked: Option<Entry>) {
    && Evolves(s.L(T1), r.L(T1), looked) && Evolves(s.L(T2), r.L(T2), looked)
    && Evolves(s.L(B1), r.L(B1), looked) && Evolves(s.L(B2), r.L(B2), looked)
  }

  lemma Pushed(l: seq<Entry>, e: Entry, rest: seq<Entry>, looked: Option<Entry>)
    requires Shrunk(l, rest, looked)
    ensures Evolves(l, rest, looked) && Evolves(l, [e] + rest, looked)
  {
    assert ([e] + rest)[1..] == rest;
  }

  /** What replace does to the lists. */
  ghost predicate ReplaceEffect(s: State, r: State) {
    || (forall w :: r.L(w) == s.L(w))
    || (s.L(T1) != [] && r.L(T1) == Without(s.L(T1), Lru(s.L(T1))) && r.L(B1) == [Lru(s.L(T1))] + s.L(B1)
        && r.L(T2) == s.L(T2) && r.L(B2) == s.L(B2))
    || (s.L(T2) != [] && r.L(T2) == Without(s.L(T2), Lru(s.L(T2))) && r.L(B2) == [Lru(s.L(T2))] + s.L(B2)
        && r.L(T1) == s.L(T1) && r.L(B1) == s.L(B1))
  }

  lemma ReplaceLists(s: State, forB2: bool)
    ensures ReplaceEffect(s, Replace(s, forB2)) && Replace(s, forB2).target == s.target
  {
    hide Move, Without;
    if s.L(T1) != [] { MoveLists(s, T1, B1, Lru(s.L(T1))); }
    if s.L(T2) != [] { MoveLists(s, T2, B2, Lru(s.L(T2))); }
  }

  /** Making room: T1 only shrinks, the others evolve, the target stays. */
  ghost predicate RoomEffect(s: State, r: State) {
    && Shrunk(s.L(T1), r.L(T1), None) && Evolves(s.L(T2), r.L(T2), None)
    && Evolves(s.L(B1), r.L(B1), None) && Evolves(s.L(B2), r.L(B2), None) && r.target == s.target
  }

  lemma EvictThenReplace(s: State, w: Where)
    requires Refs(s) && s.L(w) != [] && (w == B1 || w == B2)
    ensures RoomEffect(s, Replace(Evict(s, w), false))
  {
    hide Refs, Evict, Replace, Without;
    EvictLists(s, w);
    var s1 := Evict(s, w);
    ReplaceLists(s1, false);
    ReplacedRoom(s, s1, Replace(s1, false), w);
  }

  lemma ReplacedRoom(s: State, s1: State, r: State, w: Where)
    requires w == B1 || w == B2
    requires s.L(w) != [] && s1.L(w) == Without(s.L(w), Lru(s.L(w))) && forall v :: v != w ==> s1.L(v) == s.L(v)
    requires s1.target == s.target == r.target && ReplaceEffect(s1, r)
    ensures RoomEffect(s, r)
  {
    hide Without;
    if s1.L(T1) != [] { Pushed(s.L(B1), Lru(s1.L(T1)), s1.L(B1), None); }
    if s1.L(T2) != [] { Pushed(s.L(B2), Lru(s1.L(T2)), s1.L(B2), None); }
  }

  lemma RoomLists(s: State)
    requires Refs(s) && OnNewAdded(s).Some?
    ensures RoomEffect(s, OnNewAdded(s).value)
  {
    hide Refs, Evict, Replace, RoomEffect, ReplaceEffect;
    var s1 := Missing(s);
    StatsRefs(s, s1);
    MissingEffect(s);
    if s1.Len(T1) + s1.Len(B1) >= s1.c {
      if s1.Len(T1) < s1.c {
        EvictThenReplace(s1, B1);
      } else {
        EvictRoom(s1);
      }
    } else if Total(s1) >= s1.c {
      if Total(s1) >= 2 * s1.c {
        EvictThenReplace(s1, B2);
      } else {
        ReplaceLists(s1, false);
        ReplaceRoom(s1, Replace(s1, false));
      }
    }
  }

  lemma MissingEffect(s: State)
    ensures RoomEffect(s, Missing(s))
    ensures forall r :: RoomEffect(Missing(s), r) ==> RoomEffect(s, r)
  {
  }

  lemma EvictRoom(s: State)
    requires Refs(s) && s.L(T1) != []
    ensures RoomEffect(s, Evict(s, T1))
  {
    hide Refs, Evict;
    EvictLists(s, T1);
  }

  lemma ReplaceRoom(s: State, r: State)
    requires ReplaceEffect(s, r) && r.target == s.target
    ensures RoomEffect(s, r)
  {
    hide Without;
    if s.L(T1) != [] { Pushed(s.L(B1), Lru(s.L(T1)), s.L(B1), None); }
    if s.L(T2) != [] { Pushed(s.L(B2), Lru(s.L(T2)), s.L(B2), None); }
  }

  // ---------------------------------------------------------------- lookups

  /** The entry of a new page, or one that is re-adopted, enters T1 at the front; the lists evolve. */
  lemma NewOrder(s: State, slot: int, page: Option<Entry>)
    requires Refs(s) && GetNew(s, slot, page).Some?
    ensures var r := GetNew(s, slot, page).value;
            AllEvolve(s, r, None) && r.target == s.target && (page.Some? ==> r.L(T1) != [] && r.L(T1)[0] == page.value)
  {
    hide Refs, OnNewAdded, ListAdd, Ref, Hand, Shrunk;
    RoomLists(s);
    var s1 := OnNewAdded(s).value;
    if page.Some? {
      var e := page.value;
      var s2 := s1.(index := s1.index[slot := e], recs := s1.recs[e := Rec(slot, NoList, 0)]);
      EnterSteps(s2, e);
      var r := GetNew(s, slot, page).value;
      assert r.L(T1) == [e] + s1.L(T1) && r.L(T2) == s1.L(T2) && r.L(B1) == s1.L(B1) && r.L(B2) == s1.L(B2);
      Pushed(s.L(T1), e, s1.L(T1), None);
    }
  }

  /** The lists after a re-fetched ghost of w moved to T2. */
  lemma GhostOrder(s: State, s1: State, w: Where, e: Entry)
    requires Refs(s) && (w == B1 || w == B2) && e in s.L(w) && ReplaceEffect(s, s1)
    ensures var r := Move(s1, w, T2, e);
            AllEvolve(s, r, Some(e)) && r.L(T2) != [] && r.L(T2)[0] == e && r.target == s1.target
  {
    hide Move, Without, Refs, Shrunk;
    MoveLists(s1, w, T2, e);
    var r := Move(s1, w, T2, e);
    ShrunkWays(s, Some(e));
    var t2 := s1.L(T2);
    Pushed(s.L(T2), e, t2, Some(e));
    var v := if w == B1 then T1 else T2;
    if s.L(v) != [] && s1.L(w) == [Lru(s.L(v))] + s.L(w) {
      LruApart(s, v, w, e);
      WithoutFront(Lru(s.L(v)), s.L(w), e);
      Pushed(s.L(w), Lru(s.L(v)), Without(s.L(w), e), Some(e));
    }
    var u := if w == B1 then T2 else T1;
    var g := if w == B1 then B2 else B1;
    if s.L(u) != [] { Pushed(s.L(g), Lru(s.L(u)), s.L(g), Some(e)); }
  }

  lemma ShrunkWays(s: State, looked: Option<Entry>)
    ensures forall w :: Shrunk(s.L(w), s.L(w), looked)
    ensures forall w :: s.L(w) != [] ==> Shrunk(s.L(w), Without(s.L(w), Lru(s.L(w))), looked)
    ensures looked.Some? ==> forall w :: Shrunk(s.L(w), Without(s.L(w), looked.value), looked)
  {
    hide Without;
  }

  lemma LruApart(s: State, v: Where, w: Where, e: Entry)
    requires Refs(s) && v != w && s.L(v) != [] && e in s.L(w)
    ensures Lru(s.L(v)) != e
  {
    TagOf(s, v, Lru(s.L(v)));
    TagOf(s, w, e);
  }

  lemma WithoutFront(v: Entry, l: seq<Entry>, e: Entry)
    requires v != e
    ensures Without([v] + l, e) == [v] + Without(l, e)
  {
    assert ([v] + l)[1..] == l;
  }

  /** A hit counts for recency: the page ends first on T2, unless a ghost could not be fetched again. */
  ghost predicate HitEffect(s: State, r: State, e: Entry, fetch: Ret)
    requires e in s.recs
  {
    && AllEvolve(s, r, Some(e))
    && (UpdateRet(s.recs[e].where, fetch) == RetOk ==> r.L(T2) != [] && r.L(T2)[0] == e)
    && (s.recs[e].where == B1 ==> r.target > s.target || r.target == s.c)
    && (s.recs[e].where == B2 ==> r.target < s.target || r.target == 0)
    && (s.recs[e].where != B1 && s.recs[e].where != B2 ==> r.target == s.target)
  }

  lemma PageOrder(s: State, e: Entry, fetch: Ret)
    requires Refs(s) && e in s.recs && (s.recs[e].where == T1 || s.recs[e].where == T2) && CanUpdate(s, e)
    ensures HitEffect(s, UpdateCache(s, e, fetch), e, fetch)
  {
    hide Refs, Move, Without, Shrunk;
    ShrunkWays(s, Some(e));
    MoveLists(Hit(s), T1, T2, e);
    Pushed(s.L(T2), e, s.L(T2), Some(e));
    Pushed(s.L(T2), e, Without(s.L(T2), e), Some(e));
  }

  lemma GhostHitOrder(s: State, e: Entry, fetch: Ret)
    requires Refs(s) && 0 <= s.target <= s.c && e in s.recs && (s.recs[e].where == B1 || s.recs[e].where == B2)
    requires CanUpdate(s, e)
    ensures HitEffect(s, UpdateCache(s, e, fetch), e, fetch)
  {
    hide Refs, Move, Without, Shrunk, Replace, ReplaceEffect;
    var w := s.recs[e].where;
    var h := Hit(s);
    var step := Max(1, if w == B1 then s.Len(B2) / s.Len(B1) else s.Len(B1) / s.Len(B2));
    var s0 := h.(target := if w == B1 then Min(s.c, s.target + step) else Max(0, s.target - step));
    StatsRefs(s, s0);
    GhostListed(s, e);
    ReplaceLists(s0, w == B2);
    var s1 := Replace(s0, w == B2);
    GhostOrder(s0, s1, w, e);
    FailedOrder(s0, s1, Some(e));
    assert forall v :: s0.L(v) == s.L(v);
    assert step >= 1;
  }

  lemma FailedOrder(s: State, r: State, looked: Option<Entry>)
    requires ReplaceEffect(s, r)
    ensures AllEvolve(s, r, looked) && AllEvolve(s, Failing(r), looked)
  {
    hide Without, Shrunk;
    ShrunkWays(s, looked);
    if s.L(T1) != [] { Pushed(s.L(B1), Lru(s.L(T1)), s.L(B1), looked); }
    if s.L(T2) != [] { Pushed(s.L(B2), Lru(s.L(T2)), s.L(B2), looked); }
  }

  lemma KnownOrder(s: State, e: Entry, fetch: Ret)
    requires Refs(s) && 0 <= s.target <= s.c && CanUpdate(s, e)
    ensures var r := GetKnown(s, e, fetch);
            if s.recs[e].where == NoList then
              AllEvolve(s, r, Some(e)) && r.L(T1) != [] && r.L(T1)[0] == e && r.target == s.target
            else HitEffect(s, r, e, fetch)
  {
    hide Refs, UpdateCache, Shrunk, Without, Move;
    ShrunkWays(s, Some(e));
    if s.recs[e].where == NoList {
      EnterSteps(Adopting(s), e);
      Pushed(s.L(T1), e, s.L(T1), Some(e));
    } else {
      if s.recs[e].where == T1 || s.recs[e].where == T2 { PageOrder(s, e, fetch); } else { GhostHitOrder(s, e, fetch); }
      HandedOrder(s, UpdateCache(s, e, fetch), e, fetch);
    }
  }

  lemma HandedOrder(s: State, u: State, e: Entry, fetch: Ret)
    requires e in s.recs && HitEffect(s, u, e, fetch)
    ensures HitEffect(s, Hand(Ref(u, e), e), e, fetch)
  {
    hide Evolves;
    assert forall w :: Hand(Ref(u, e), e).L(w) == u.L(w);
  }

  /** In every step from a safe state, each list loses at most the entry looked up or its least recent
      entry, and gains at most one entry, at the front; the order of the others stays. The target moves
      only on a ghost hit: up for B1, down for B2. Exactly what each step leaves is the policy on lists. */
  lemma StepOrder(s: State, op: Op)
    requires Safe(s) && Legal(s, op) && Step(s, op).Some?
    ensures Follows(s, op, Step(s, op).value)
    ensures AllEvolve(s, Step(s, op).value, Looked(s, op))
    ensures Looked(s, op).None? ==> Step(s, op).value.target == s.target
    ensures Looked(s, op).Some? && s.recs[Looked(s, op).value].where != NoList ==>
              HitEffect(s, Step(s, op).value, Looked(s, op).value, op.fetch)
    ensures op.Get? && !op.blank && Looked(s, op).None? && op.page.Some? ==>
              var r := Step(s, op).value; r.L(T1) != [] && r.L(T1)[0] == op.page.value
  {
    hide Refs, Steady, Tallied, GetKnown, GetNew, Unref, Shrunk, Follows;
    StepFollows(s, op);
    ShrunkWays(s, Looked(s, op));
    match op
    case Release(e) =>
      ReleaseRefs(s, e);
    case Get(blank, slot, fetch, page) =>
      var s1 := Counting(s);
      StatsRefs(s, s1);
      assert forall w :: s1.L(w) == s.L(w);
      if !blank && slot in s.index {
        IndexedLives(s1, slot);
        KnownOrder(s1, s.index[slot], fetch);
      } else if !blank {
        NewOrder(s1, slot, page);
      }
  }
}
