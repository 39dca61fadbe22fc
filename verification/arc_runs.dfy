/** The ARC cache over whole runs. */
module ArcRuns {
  import opened Common
  import opened ArcSpec
  import opened ArcProofs
  import opened ArcLists

  /** The textbook ARC invariant holds after every run without re-adoptions, whatever the fetch and
      new-page callbacks return, and no step of such a run misses its victim. */
  lemma ArcInvariant(c: int, ops: seq<Op>)
    requires c >= 1 && LegalRun(Init(c), ops) && Readoptions(Init(c), ops) == 0
    ensures Run(Init(c), ops).Some?
    ensures var s := Run(Init(c), ops).value;
            && s.Len(T1) + s.Len(T2) <= c && s.Len(T1) + s.Len(B1) <= c
            && s.Len(T1) + s.Len(T2) + s.Len(B1) + s.Len(B2) <= 2 * c
            && 0 <= s.target <= c
    ensures var s := Run(Init(c), ops).value;
            !s.stats.failed ==>
              && (Total(s) < c ==> s.L(B1) == [] && s.L(B2) == [])
              && (Total(s) >= c ==> s.Len(T1) + s.Len(T2) == c)
  {
    InitSafe(c);
    RunSafeFrom(Init(c), ops);
  }

  /** With k re-adoptions the bounds are off by at most k, as long as every eviction found a victim. */
  lemma ReadoptionBounds(c: int, ops: seq<Op>)
    requires c >= 1 && LegalRun(Init(c), ops) && Run(Init(c), ops).Some?
    ensures var s, k := Run(Init(c), ops).value, Readoptions(Init(c), ops);
            && s.Len(T1) + s.Len(T2) <= c + k && s.Len(T1) + s.Len(B1) <= c + k
            && Total(s) <= 2 * c + k && 0 <= s.target <= c
            && s.stats.count == s.stats.hits + s.stats.misses + k + s.stats.blanks
  {
    InitSafe(c);
    RunSafeFrom(Init(c), ops);
  }

  /** Reference safety over every run: counts are exact, an entry lives exactly as long as it is listed
      or held, the index holds exactly the live entries, and no entry is on two lists or twice on one. */
  lemma ReferenceSafety(c: int, ops: seq<Op>)
    requires c >= 1 && LegalRun(Init(c), ops) && Run(Init(c), ops).Some?
    ensures var s := Run(Init(c), ops).value;
            && (forall e :: e in s.recs ==>
                  s.recs[e].refs == (if s.recs[e].where == NoList then 0 else 1) + s.handles[e])
            && (forall e :: e in s.recs <==>
                  e in s.handles || e in s.L(T1) || e in s.L(T2) || e in s.L(B1) || e in s.L(B2))
            && (forall k :: k in s.index ==> s.index[k] in s.recs && s.recs[s.index[k]].slot == k)
            && (forall e :: e in s.recs ==> s.recs[e].slot in s.index && s.index[s.recs[e].slot] == e)
            && (forall v, w, e :: e in s.L(v) && e in s.L(w) ==> v == w)
            && (forall w :: Distinct(s.L(w)))
  {
    InitSafe(c);
    RunSafeFrom(Init(c), ops);
    LiveIffListedOrHeld(Run(Init(c), ops).value);
  }

  lemma LiveIffListedOrHeld(s: State)
    requires Refs(s)
    ensures forall e :: e in s.recs <==> e in s.handles || e in s.L(T1) || e in s.L(T2) || e in s.L(B1) || e in s.L(B2)
    ensures forall v, w, e :: e in s.L(v) && e in s.L(w) ==> v == w
    ensures forall w :: Distinct(s.L(w))
  {
    forall e ensures e in s.recs <==> e in s.handles || e in s.L(T1) || e in s.L(T2) || e in s.L(B1) || e in s.L(B2) {
      if e in s.recs && e !in s.handles {
        assert s.recs[e].where != NoList;
      }
    }
  }

  // ---------------------------------------------------------------- a run that fails

  /** A lookup of a key that is in the index. */
  function Known(k: nat): Op { Get(false, k, RetOk, None) }

  /** A lookup of a new key, served by the page with the same number. */
  function Fresh(k: nat): Op { Get(false, k, RetOk, Some(k)) }

  /** A well-formed cache of four pages whose clients keep every handle; entries are named by slot. */
  ghost predicate Hoarding(s: State) {
    && Safe(s) && s.c == 4 && s.target == 0
    && (forall e :: e in s.recs ==> e in s.handles && s.recs[e].slot == e)
  }

  ghost predicate Holds(s: State, t1: seq<Entry>, t2: seq<Entry>, b1: seq<Entry>, b2: seq<Entry>) {
    s.L(T1) == t1 && s.L(T2) == t2 && s.L(B1) == b1 && s.L(B2) == b2
  }

  /** A hit on T1 moves the page to the front of T2. */
  lemma HitT1(s: State, k: Entry)
    requires Hoarding(s) && k in s.L(T1)
    ensures !Readopts(s, Known(k)) && Legal(s, Known(k)) && Step(s, Known(k)).Some?
    ensures var r := Step(s, Known(k)).value;
            && Hoarding(r) && Holds(r, Without(s.L(T1), k), [k] + s.L(T2), s.L(B1), s.L(B2))
            && r.index.Keys == s.index.Keys
  {
    hide Refs, Move, Without, Bounds, Steady, Tallied, ListAdd, ListDel;
    SlotOf(s, k, T1);
    StepSafe(s, Known(k));
    MoveLists(Hit(Counting(s)), T1, T2, k);
    var s1 := Move(Hit(Counting(s)), T1, T2, k);
    RefStep(s1, k);
    assert Step(s, Known(k)).value == Hand(Ref(s1, k), k);
    assert forall w :: Hand(Ref(s1, k), k).L(w) == s1.L(w);
  }

  lemma SlotOf(s: State, k: Entry, w: Where)
    requires Hoarding(s) && k in s.L(w)
    ensures k in s.recs && k in s.handles && s.recs[k].where == w && k in s.index && s.index[k] == k && w != NoList
  {
    assert w in s.lists;
  }

  lemma RefStep(s: State, k: Entry)
    requires k in s.recs
    ensures var r := Hand(Ref(s, k), k);
            && r.lists == s.lists && r.target == s.target && r.c == s.c && r.index == s.index
            && r.recs.Keys == s.recs.Keys
            && (forall e :: e in s.handles ==> e in r.handles)
            && (forall e :: e in s.recs ==> r.recs[e].slot == s.recs[e].slot)
  {
  }

  /** A lookup of a lingering entry puts it at the front of T1 and evicts nothing. */
  lemma HitLingering(s: State, k: Entry)
    requires Hoarding(s) && k in s.recs && s.recs[k].where == NoList
    ensures Readopts(s, Known(k)) && Legal(s, Known(k)) && Step(s, Known(k)).Some?
    ensures var r := Step(s, Known(k)).value;
            Hoarding(r) && Holds(r, [k] + s.L(T1), s.L(T2), s.L(B1), s.L(B2)) && r.index.Keys == s.index.Keys
  {
    assert s.index[k] == k;
    StepSafe(s, Known(k));
    EnterSteps(Adopting(Counting(s)), k);
  }

  /** The state on_new_added leaves, before the page enters. */
  ghost predicate RoomMade(s: State, r: State) {
    && OnNewAdded(Counting(s)) == Some(r)
    && r.target == 0 && r.c == 4 && r.recs.Keys == s.recs.Keys && r.index.Keys == s.index.Keys && r.handles == s.handles
    && (forall e :: e in r.recs ==> r.recs[e].slot == s.recs[e].slot)
  }

  lemma LiveIffIndexed(s: State, k: Entry)
    requires Hoarding(s)
    ensures k in s.recs <==> k in s.index
  {
  }

  lemma ListedLives(s: State, w: Where, e: Entry)
    requires Refs(s) && e in s.L(w)
    ensures e in s.recs
  {
  }

  lemma UnlistedLingers(s: State, k: Entry)
    requires Refs(s) && k in s.recs && k !in s.L(T1) && k !in s.L(T2) && k !in s.L(B1) && k !in s.L(B2)
    ensures s.recs[k].where == NoList
  {
  }

  lemma PageEnters(s: State, s1: State, k: Entry)
    requires Hoarding(s) && k !in s.index && RoomMade(s, s1)
    ensures !Readopts(s, Fresh(k)) && Legal(s, Fresh(k)) && Step(s, Fresh(k)).Some?
    ensures var r := Step(s, Fresh(k)).value;
            Hoarding(r) && Holds(r, [k] + s1.L(T1), s1.L(T2), s1.L(B1), s1.L(B2)) && r.index.Keys == s.index.Keys + {k}
  {
    hide Refs, OnNewAdded, ListAdd, Ref, Hand, Bounds, Steady, Tallied;
    LiveIffIndexed(s, k);
    StepSafe(s, Fresh(k));
    var s2 := s1.(index := s1.index[k := k], recs := s1.recs[k := Rec(k, NoList, 0)]);
    EnterSteps(s2, k);
    assert Step(s, Fresh(k)).value == Entered(s2, k, Rec(k, T1, 2));
  }

  /** Below capacity a new page just enters T1. */
  lemma NewFills(s: State, k: Entry)
    requires Hoarding(s) && k !in s.index && Total(s) < 4
    ensures !Readopts(s, Fresh(k)) && Legal(s, Fresh(k)) && Step(s, Fresh(k)).Some?
    ensures var r := Step(s, Fresh(k)).value;
            Hoarding(r) && Holds(r, [k] + s.L(T1), s.L(T2), s.L(B1), s.L(B2)) && r.index.Keys == s.index.Keys + {k}
  {
    PageEnters(s, Missing(Counting(s)), k);
  }

  /** The LRU page of T1 becomes a ghost. */
  lemma ReplaceT1(s: State)
    requires Refs(s) && s.target == 0 && s.L(T1) != []
    ensures var r, v := Replace(s, false), Lru(s.L(T1));
            && r.L(T1) == s.L(T1)[..s.Len(T1) - 1] && r.L(B1) == [v] + s.L(B1) && r.L(T2) == s.L(T2)
            && r.L(B2) == s.L(B2)
            && r.target == 0 && r.c == s.c && r.recs.Keys == s.recs.Keys && r.index == s.index && r.handles == s.handles
            && (forall e :: e in r.recs ==> r.recs[e].slot == s.recs[e].slot)
  {
    WithoutLast(s.L(T1));
    MoveLists(s, T1, B1, Lru(s.L(T1)));
    hide Refs, Move, Without;
  }

  /** At capacity with little history: the LRU page of T1 turns into a ghost. */
  lemma NewReplaces(s: State, k: Entry)
    requires Hoarding(s) && k !in s.index && s.L(T1) != [] && s.Len(T1) + s.Len(B1) < 4 <= Total(s) < 8
    ensures !Readopts(s, Fresh(k)) && Legal(s, Fresh(k)) && Step(s, Fresh(k)).Some?
    ensures var r, n := Step(s, Fresh(k)).value, s.Len(T1);
            && Hoarding(r) && Holds(r, [k] + s.L(T1)[..n - 1], s.L(T2), [s.L(T1)[n - 1]] + s.L(B1), s.L(B2))
            && r.index.Keys == s.index.Keys + {k}
  {
    hide Refs, Replace;
    var s1 := Missing(Counting(s));
    StatsRefs(s, s1);
    ReplaceT1(s1);
    PageEnters(s, Replace(s1, false), k);
  }

  /** The oldest ghost of B1 is dropped; its client still holds it, so it lingers. */
  lemma EvictB1(s: State)
    requires Refs(s) && s.L(B1) != [] && Lru(s.L(B1)) in s.handles
    ensures var r, v := Evict(s, B1), Lru(s.L(B1));
            && r.L(B1) == s.L(B1)[..s.Len(B1) - 1] && r.L(T1) == s.L(T1) && r.L(T2) == s.L(T2) && r.L(B2) == s.L(B2)
            && r.target == s.target && r.c == s.c && r.recs.Keys == s.recs.Keys && r.index == s.index
            && r.handles == s.handles
            && (forall e :: e in r.recs ==> r.recs[e].slot == s.recs[e].slot)
  {
    var v := Lru(s.L(B1));
    assert v in s.L(B1);
    WithoutLast(s.L(B1));
    EvictRefs(s, B1);
    DelAgrees(s, B1, v);
    assert ListDel(s, B1, v).recs[v].refs == 1 + s.handles[v];
    hide ListsAgree, CountsExact, Without;
  }

  /** A full recency side: the oldest ghost of B1 goes, the LRU page of T1 becomes a ghost. */
  lemma NewEvicts(s: State, k: Entry)
    requires Hoarding(s) && k !in s.index && s.L(T1) != [] && s.L(B1) != [] && s.Len(T1) < 4 <= s.Len(T1) + s.Len(B1)
    ensures !Readopts(s, Fresh(k)) && Legal(s, Fresh(k)) && Step(s, Fresh(k)).Some?
    ensures var r, n, m := Step(s, Fresh(k)).value, s.Len(T1), s.Len(B1);
            && Hoarding(r) && Holds(r, [k] + s.L(T1)[..n - 1], s.L(T2), [s.L(T1)[n - 1]] + s.L(B1)[..m - 1], s.L(B2))
            && r.index.Keys == s.index.Keys + {k}
  {
    hide Refs, Replace, Evict;
    var s1 := Missing(Counting(s));
    StatsRefs(s, s1);
    ListedLives(s, B1, Lru(s.L(B1)));
    EvictB1(s1);
    EvictRefs(s1, B1);
    var s2 := Evict(s1, B1);
    ReplaceT1(s2);
    PageEnters(s, Replace(s2, false), k);
  }

  /** Lookups against a cache of four pages, every handle kept. Key 1 is evicted and looked up again. */
  function FatalRun(): seq<Op> {
    [Fresh(0), Fresh(1), Fresh(2), Known(0), Fresh(3), Fresh(4), Fresh(5), Known(5), Known(4), Known(3), Known(1),
     Fresh(6), Fresh(7), Known(7), Fresh(8)]
  }

  /** The first n steps of the fatal run lead to s, re-adopting k entries. */
  ghost predicate Reaches(n: nat, s: State, k: nat)
    requires n <= 15
  {
    var ops := FatalRun();
    && Run(Init(4), ops) == Run(s, ops[n..]) && LegalRun(Init(4), ops) == LegalRun(s, ops[n..])
    && Readoptions(Init(4), ops) == k + Readoptions(s, ops[n..])
  }

  lemma Advance(n: nat, s: State, k: nat)
    requires n < 15 && Reaches(n, s, k) && Step(s, FatalRun()[n]).Some? && Legal(s, FatalRun()[n])
    ensures Reaches(n + 1, Step(s, FatalRun()[n]).value, if Readopts(s, FatalRun()[n]) then k + 1 else k)
  {
    hide Step, Legal, Readopts;
    var ops := FatalRun();
    assert ops[n..][0] == ops[n] && ops[n..][1..] == ops[n + 1..];
  }

  lemma HoardingInit()
    ensures Hoarding(Init(4)) && Holds(Init(4), [], [], [], []) && Init(4).index.Keys == {}
  {
    hide Safe;
    InitSafe(4);
  }

  lemma FatalTwo() returns (s: State)
    ensures Hoarding(s) && Holds(s, [1, 0], [], [], []) && s.index.Keys == {0, 1} && Reaches(2, s, 0)
  {
    hide Step, Hoarding, Readopts, Legal, Reaches, Init, Without;
    HoardingInit();
    FatalStart();
    s := Init(4);
    NewFills(s, 0); Advance(0, s, 0); s := Step(s, Fresh(0)).value;
    assert Holds(s, [0], [], [], []);
    NewFills(s, 1); Advance(1, s, 0); s := Step(s, Fresh(1)).value;
  }

  lemma FatalFirst() returns (s: State)
    ensures Hoarding(s) && Holds(s, [2, 1, 0], [], [], []) && s.index.Keys == {0, 1, 2} && Reaches(3, s, 0)
  {
    hide Step, Hoarding, Readopts, Legal, Reaches, Init, Without;
    s := FatalTwo();
    NewFills(s, 2); Advance(2, s, 0); s := Step(s, Fresh(2)).value;
  }

  /** The cache fills up with one page used twice. */
  lemma FatalFilling() returns (s: State)
    ensures Hoarding(s) && Holds(s, [3, 2, 1], [0], [], []) && s.index.Keys == {0, 1, 2, 3} && Reaches(5, s, 0)
  {
    hide Step, Hoarding, Readopts, Legal, Reaches, Init, Without;
    s := FatalFirst();
    HitBack(s, 0, [2, 1]); Advance(3, s, 0); s := Step(s, Known(0)).value;
    assert Holds(s, [2, 1], [0], [], []);
    NewFills(s, 3); Advance(4, s, 0); s := Step(s, Fresh(3)).value;
  }

  /** A hit on the least recent page of T1. */
  lemma HitBack(s: State, k: Entry, rest: seq<Entry>)
    requires Hoarding(s) && s.L(T1) == rest + [k]
    ensures !Readopts(s, Known(k)) && Legal(s, Known(k)) && Step(s, Known(k)).Some?
    ensures var r := Step(s, Known(k)).value;
            Hoarding(r) && Holds(r, rest, [k] + s.L(T2), s.L(B1), s.L(B2)) && r.index.Keys == s.index.Keys
  {
    assert Distinct(s.L(T1));
    hide Step, Hoarding, Readopts, Legal, Without;
    WithoutLast(s.L(T1));
    HitT1(s, k);
  }

  lemma FatalStart()
    ensures Reaches(0, Init(4), 0)
  {
    hide Run, LegalRun, Readoptions;
    assert FatalRun()[0..] == FatalRun();
  }

  /** Key 1 is evicted; its client holds it, so it lingers. */
  lemma FatalEviction() returns (s: State)
    ensures Hoarding(s) && Holds(s, [5, 4, 3], [0], [2], []) && s.index.Keys == {0, 1, 2, 3, 4, 5} && Reaches(7, s, 0)
  {
    hide Step, Hoarding, Readopts, Legal, Reaches, Init, Without;
    s := FatalFilling();
    NewReplaces(s, 4); Advance(5, s, 0); s := Step(s, Fresh(4)).value;
    assert Holds(s, [4, 3, 2], [0], [1], []);
    NewEvicts(s, 5); Advance(6, s, 0); s := Step(s, Fresh(5)).value;
  }

  /** The pages of T1 are used again, the lingering key 1 is re-adopted, and two more pages arrive. */
  lemma FatalReadoption() returns (s: State)
    ensures Hoarding(s) && Holds(s, [1], [3, 4, 5, 0], [2], []) && s.index.Keys == {0, 1, 2, 3, 4, 5}
    ensures Reaches(11, s, 1)
  {
    hide Step, Hoarding, Readopts, Legal, Reaches, Init, Without;
    s := FatalHits();
    HitFront(s, 3, []); Advance(9, s, 0); s := Step(s, Known(3)).value;
    assert Holds(s, [], [3, 4, 5, 0], [2], []);
    Lingering(s, 1);
    HitLingering(s, 1); Advance(10, s, 0); s := Step(s, Known(1)).value;
  }

  lemma FatalHits() returns (s: State)
    ensures Hoarding(s) && Holds(s, [3], [4, 5, 0], [2], []) && s.index.Keys == {0, 1, 2, 3, 4, 5} && Reaches(9, s, 0)
  {
    hide Step, Hoarding, Readopts, Legal, Reaches, Init, Without;
    s := FatalEviction();
    HitFront(s, 5, [4, 3]); Advance(7, s, 0); s := Step(s, Known(5)).value;
    assert Holds(s, [4, 3], [5, 0], [2], []);
    HitFront(s, 4, [3]); Advance(8, s, 0); s := Step(s, Known(4)).value;
  }

  /** A hit on the most recent page of T1. */
  lemma HitFront(s: State, k: Entry, rest: seq<Entry>)
    requires Hoarding(s) && s.L(T1) == [k] + rest
    ensures !Readopts(s, Known(k)) && Legal(s, Known(k)) && Step(s, Known(k)).Some?
    ensures var r := Step(s, Known(k)).value;
            Hoarding(r) && Holds(r, rest, [k] + s.L(T2), s.L(B1), s.L(B2)) && r.index.Keys == s.index.Keys
  {
    hide Step, Hoarding, Readopts, Legal;
    HitT1(s, k);
  }

  lemma Lingering(s: State, k: Entry)
    requires Hoarding(s) && k in s.index && k !in s.L(T1) && k !in s.L(T2) && k !in s.L(B1) && k !in s.L(B2)
    ensures k in s.recs && s.recs[k].where == NoList
  {
    LiveIffIndexed(s, k);
    UnlistedLingers(s, k);
  }

  /** One re-adopted entry is enough to break the cache: every step of the run below is legal, and the
      last lookup takes the LRU entry of an empty list. */
  lemma OneReadoptionCrashes()
    ensures LegalRun(Init(4), FatalRun()) && Readoptions(Init(4), FatalRun()) == 1
    ensures Run(Init(4), FatalRun()).None?
  {
    hide Step, Hoarding, Readopts, Legal, Reaches, Init, Without, LegalRun, Readoptions, Run;
    var s := FatalGhosts();
    HitFront(s, 7, []); Advance(13, s, 1); s := Step(s, Known(7)).value;
    FatalEnd(s);
  }

  /** Two more pages push two ghosts into B1. */
  lemma FatalGhosts() returns (s: State)
    ensures Hoarding(s) && Holds(s, [7], [3, 4, 5, 0], [6, 1, 2], []) && 8 !in s.index && Reaches(13, s, 1)
  {
    hide Step, Hoarding, Readopts, Legal, Reaches, Init, Without;
    s := FatalReadoption();
    NewReplaces(s, 6); Advance(11, s, 1); s := Step(s, Fresh(6)).value;
    assert Holds(s, [6], [3, 4, 5, 0], [1, 2], []);
    NewReplaces(s, 7); Advance(12, s, 1); s := Step(s, Fresh(7)).value;
  }

  lemma NoRoom(s: State)
    requires Hoarding(s) && Holds(s, [], [7, 3, 4, 5, 0], [6, 1, 2], []) && 8 !in s.index && 8 !in s.recs
    ensures Step(s, Fresh(8)).None?
  {
    hide Refs, Bounds, Steady, Tallied, Step;
    StepSafe(s, Fresh(8));
  }

  lemma FatalEnd(s: State)
    requires Hoarding(s) && Holds(s, [], [7, 3, 4, 5, 0], [6, 1, 2], []) && Reaches(14, s, 1) && 8 !in s.index
    ensures LegalRun(Init(4), FatalRun()) && Readoptions(Init(4), FatalRun()) == 1
    ensures Run(Init(4), FatalRun()).None?
  {
    hide Hoarding, Evict, Replace, Step, Init, OnNewAdded;
    LiveIffIndexed(s, 8);
    NoRoom(s);
    assert FatalRun()[14..] == [Fresh(8)];
  }
}
