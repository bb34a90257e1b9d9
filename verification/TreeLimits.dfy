/**
  Why the incremental update is claimed for unambiguous vocabularies: as soon as a rendered
  name and one of its ranked candidates are both allowed, there is a canonical tree and a
  batch for which nothing is marked and the patched ranks are not those of a fresh build.
 */
module TreeLimits {
  import opened Collections
  import opened Names
  import opened TreePlan
  import opened TreeCanon
  import opened TreeRebuild
  import opened TreeDirty
  import opened TreeGate
  import opened TreeState
  import opened TreeBuild
  import opened TreeMarks
  import opened TreeChange
  import opened TreeConserve
  import opened Inodes
  import opened VirtualTrees
  import opened TreeRefresh

  // ----- Ranks of one name, filled in order ------------------------------------------------------

  /** After an insertion one more name is taken in its directory. */
  lemma InsertTaken(plan: Plan, t: int, addr: seq<Name>, n: Name)
    requires WellFormed(plan) && addr != [] && AreComponents(addr) && t !in plan.tracks
    ensures Taken(Insert(plan, t, addr), Init(addr), n) <==>
            (Taken(plan, Init(addr), n) || n == SlotName(Last(addr), FirstFree(plan, addr)))
  {
    hide WellFormed, SlotName, FirstFree;
    var k := |addr| - 1;
    var q := AddDirs(plan, addr, k);
    AddDirsTaken(plan, addr, k, n);
    AddDirsWellFormed(plan, addr, k);
    AddDirsMembers(plan, addr, k);
    AddDirsFirstFree(plan, addr, k);
    assert addr[..k + 1] == addr && addr[..k] == Init(addr);
    FileAbsent(plan, t);
    TakenAdd(q, File(t), addr, n);
  }

  lemma TakenAdd(q: Plan, m: Member, addr: seq<Name>, n: Name)
    requires WellFormed(q) && Addable(q, m, addr)
    ensures Taken(Add(q, m, addr), Init(addr), n) <==>
            (Taken(q, Init(addr), n) || n == SlotName(Last(addr), FirstFree(q, addr)))
  {
    hide SlotName, FirstFree, NameOf, SiblingsDistinct, Shaped, Rooted, RootUnreserved;
    AddSame(q, m, addr);
    assert m in Add(q, m, addr).slots;
  }

  lemma FileAbsent(plan: Plan, t: int)
    requires WellFormed(plan) && t !in plan.tracks
    ensures File(t) !in plan.slots
  {
    hide NameOf;
  }

  /** One more file at `home`: the rank it gets, and the names taken afterwards. */
  lemma OneMore(plan: Plan, t: int, home: seq<Name>, name: Name, k: nat)
    requires Valid(plan) && t !in plan.tracks && AreComponents(home) && IsComponent(name) && k >= 1
    requires !Taken(plan, home, SlotName(name, k)) && forall j | 1 <= j < k :: Taken(plan, home, SlotName(name, j))
    ensures var q := InsertPath(plan, t, home + [name]);
            Valid(q) && q.tracks == plan.tracks[t := home + [name]] && File(t) in q.slots && q.slots[File(t)] == k &&
            (forall n :: Taken(q, home, n) <==> Taken(plan, home, n) || n == SlotName(name, k)) &&
            forall m | m in plan.slots :: m in q.slots && q.slots[m] == plan.slots[m]
  {
    hide SlotName, Taken, WellFormed, Insert;
    var addr := home + [name];
    assert Init(addr) == home && Last(addr) == name;
    FirstFreeUnique(plan, addr, k, FirstFree(plan, addr));
    var q := Insert(plan, t, addr);
    InsertValid(plan, t, addr);
    InsertWellFormed(plan, t, addr);
    forall n
      ensures Taken(q, home, n) <==> Taken(plan, home, n) || n == SlotName(name, k)
    {
      InsertTaken(plan, t, addr, n);
    }
    forall m | m in plan.slots || m == File(t)
      ensures m in q.slots && q.slots[m] == if m == File(t) then k else plan.slots[m]
    {
      InsertMembers(plan, t, addr, m);
      InsertSlots(plan, t, addr, m);
      if m == File(t) { assert m !in plan.slots by { FileAbsent(plan, t); } }
    }
  }

  lemma ShortComponent(name: Name)
    requires Short(name)
    ensures IsComponent(name) && Materializes(name)
  {
  }

  /** Different ranks of a short name are different names. */
  lemma RanksApart(r: Name, i: nat, j: nat)
    requires Fits(r) && 1 <= i < j < RANK_LIMIT
    ensures SlotName(r, i) != SlotName(r, j)
  {
    if i >= 2 {
      if SuffixCandidate(r, i) == SuffixCandidate(r, j) { CandidateRankInjective(r, i, j); }
    } else {
      CandidateUntruncated(r, j);
      assert |RankSuffix(j)| > 0;
      assert |SuffixCandidate(r, j)| > |r|;
    }
  }

  function Nums(j: nat): (ids: seq<int>)
    ensures |ids| == j && forall i | 0 <= i < j :: ids[i] == i + 1
  {
    seq(j, i requires 0 <= i < j => i + 1)
  }

  lemma InNums(j: nat)
    ensures forall t :: t in Nums(j) <==> 1 <= t <= j
  {
    forall t | 1 <= t <= j
      ensures t in Nums(j)
    {
      assert Nums(j)[t - 1] == t;
    }
  }

  lemma NumsAscend(j: nat)
    ensures Ascending(Nums(j))
  {
  }

  lemma AllIn(j: nat, tracks: map<int, seq<Name>>)
    requires forall t | 1 <= t <= j :: t in tracks
    ensures Insertable(Nums(j), tracks)
  {
    var ids := Nums(j);
    assert forall i | 0 <= i < |ids| :: ids[i] in tracks;
  }

  predicate Ranked(r: Name, j: nat, n: Name) { exists i: nat :: 1 <= i <= j && n == SlotName(r, i) }

  /** Tracks 1 to `j`, all rendered `r` at `home`, get ranks 1 to `j` where these are free. */
  ghost predicate Fillable(base: Plan, home: seq<Name>, r: Name, tracks: map<int, seq<Name>>, j: nat) {
    Valid(base) && Short(r) && AreComponents(home) && j + 1 < RANK_LIMIT &&
    forall i: nat | 1 <= i <= j ::
      i in tracks && tracks[i] == home + [r] && i !in base.tracks && !Taken(base, home, SlotName(r, i))
  }

  ghost predicate Filled(base: Plan, home: seq<Name>, r: Name, j: nat, q: Plan) {
    Valid(q) && (forall t :: t in q.tracks <==> t in base.tracks || 1 <= t <= j) &&
    (forall m | m in base.slots :: m in q.slots && q.slots[m] == base.slots[m]) &&
    (forall i: nat | 1 <= i <= j :: File(i) in q.slots && q.slots[File(i)] == i && i in q.tracks && q.tracks[i] == home + [r]) &&
    forall n :: Taken(q, home, n) <==> Taken(base, home, n) || Ranked(r, j, n)
  }

  lemma {:induction false} Fill(base: Plan, home: seq<Name>, r: Name, tracks: map<int, seq<Name>>, j: nat)
    requires Fillable(base, home, r, tracks, j)
    ensures Insertable(Nums(j), tracks) && Filled(base, home, r, j, InsertAll(base, Nums(j), tracks))
  {
    hide Taken, SlotName, Valid, InsertPath, Short;
    AllIn(j, tracks);
    if j > 0 {
      Fill(base, home, r, tracks, j - 1);
      assert Nums(j)[..j - 1] == Nums(j - 1);
      FillStep(base, home, r, j, InsertAll(base, Nums(j - 1), tracks));
    }
  }

  lemma FillStep(base: Plan, home: seq<Name>, r: Name, j: nat, q: Plan)
    requires j >= 1 && j + 1 < RANK_LIMIT && Filled(base, home, r, j - 1, q) && Short(r) && AreComponents(home) && j !in base.tracks
    requires !Taken(base, home, SlotName(r, j))
    ensures Filled(base, home, r, j, InsertPath(q, j, home + [r]))
  {
    hide Taken, SlotName, Valid, InsertPath, Fits;
    forall i: nat | 1 <= i < j
      ensures SlotName(r, i) != SlotName(r, j) && Taken(q, home, SlotName(r, i))
    {
      RanksApart(r, i, j);
      assert Ranked(r, j - 1, SlotName(r, i));
    }
    ShortComponent(r);
    OneMore(q, j, home, r, j);
    var q2 := InsertPath(q, j, home + [r]);
    forall n
      ensures Ranked(r, j, n) <==> Ranked(r, j - 1, n) || n == SlotName(r, j)
    {
    }
  }

  // ----- Two plans that differ ----------------------------------------------------------------------

  /** A valid plan with room at `home` for a name, its ranks and one more. */
  ghost predicate Ground(e: Plan, home: seq<Name>, r: Name, k: nat) {
    Valid(e) && Short(r) && Short(SuffixCandidate(r, k)) && k >= 2 && k + 2 < RANK_LIMIT && AreComponents(home) &&
    (forall t | t in e.tracks :: t <= 0) && forall j: nat | 1 <= j <= k + 1 :: !Taken(e, home, SlotName(r, j))
  }

  /** The first `k` tracks are rendered `r` at `home`, the next one as the candidate of rank `k`. */
  predicate Rendering(tracks: map<int, seq<Name>>, home: seq<Name>, r: Name, k: nat) {
    (forall t | 1 <= t <= k :: t in tracks && tracks[t] == home + [r]) &&
    k + 1 in tracks && tracks[k + 1] == home + [SuffixCandidate(r, k)]
  }

  /** The tree before: the last track alone. */
  ghost function Before(e: Plan, home: seq<Name>, r: Name, k: nat): Plan { InsertPath(e, k + 1, home + [SuffixCandidate(r, k)]) }

  lemma BeforeTaken(e: Plan, home: seq<Name>, r: Name, k: nat)
    requires Ground(e, home, r, k)
    ensures var b, c := Before(e, home, r, k), SuffixCandidate(r, k);
            Valid(b) && b.tracks == e.tracks[k + 1 := home + [c]] && File(k + 1) in b.slots && b.slots[File(k + 1)] == 1 &&
            (forall n :: Taken(b, home, n) <==> Taken(e, home, n) || n == c) &&
            forall m | m in e.slots :: m in b.slots && b.slots[m] == e.slots[m]
  {
    hide Taken, Valid, InsertPath, SuffixCandidate, Fits;
    var c := SuffixCandidate(r, k);
    assert SlotName(r, k) == c && SlotName(c, 1) == c;
    ShortComponent(c);
    OneMore(e, k + 1, home, c, 1);
  }

  /** Patched, track `k` finds rank `k` taken and gets the next. */
  lemma PatchedRank(e: Plan, home: seq<Name>, r: Name, k: nat, tracks: map<int, seq<Name>>)
    requires Ground(e, home, r, k) && Rendering(tracks, home, r, k)
    ensures Insertable(Nums(k), tracks)
    ensures var q := InsertAll(Before(e, home, r, k), Nums(k), tracks);
            Valid(q) && k in q.tracks && q.tracks[k] == home + [r] && File(k) in q.slots && q.slots[File(k)] == k + 1
  {
    hide Taken, Valid, InsertPath, SuffixCandidate, Fits, Before, SlotName, Filled;
    var b := Before(e, home, r, k);
    BeforeTaken(e, home, r, k);
    CandidateIs(r, k);
    forall i: nat | 1 <= i <= k - 1
      ensures !Taken(b, home, SlotName(r, i)) && i !in b.tracks
    {
      RanksApart(r, i, k);
    }
    Fill(b, home, r, tracks, k - 1);
    AllIn(k, tracks);
    assert Nums(k)[..k - 1] == Nums(k - 1);
    LastRank(e, home, r, k, InsertAll(b, Nums(k - 1), tracks));
  }

  lemma CandidateIs(r: Name, k: nat)
    requires k >= 2
    ensures SlotName(r, k) == SuffixCandidate(r, k)
  {
  }

  lemma LastRank(e: Plan, home: seq<Name>, r: Name, k: nat, q: Plan)
    requires Ground(e, home, r, k) && Filled(Before(e, home, r, k), home, r, k - 1, q)
    ensures var p := InsertPath(q, k, home + [r]);
            Valid(p) && k in p.tracks && p.tracks[k] == home + [r] && File(k) in p.slots && p.slots[File(k)] == k + 1
  {
    hide Taken, Valid, InsertPath, SuffixCandidate, Fits, Before, SlotName;
    BeforeTaken(e, home, r, k);
    CandidateIs(r, k);
    forall i: nat | 1 <= i < k + 1
      ensures SlotName(r, i) != SlotName(r, k + 1) && Taken(q, home, SlotName(r, i))
    {
      RanksApart(r, i, k + 1);
      assert i < k ==> Ranked(r, k - 1, SlotName(r, i));
    }
    ShortComponent(r);
    OneMore(q, k, home, r, k + 1);
  }

  /** Built in order, track `k` gets rank `k`, and the last track does not move it. */
  lemma FreshRank(e: Plan, home: seq<Name>, r: Name, k: nat, tracks: map<int, seq<Name>>)
    requires Ground(e, home, r, k) && Rendering(tracks, home, r, k)
    ensures Insertable(Nums(k + 1), tracks)
    ensures var q := InsertAll(e, Nums(k + 1), tracks);
            Valid(q) && k in q.tracks && q.tracks[k] == home + [r] && File(k) in q.slots && q.slots[File(k)] == k
  {
    hide Taken, Valid, InsertPath, SuffixCandidate, Fits, SlotName;
    assert Fillable(e, home, r, tracks, k);
    Fill(e, home, r, tracks, k);
    AllIn(k + 1, tracks);
    assert Nums(k + 1)[..k] == Nums(k);
    var q := InsertAll(e, Nums(k), tracks);
    ShortComponent(SuffixCandidate(r, k));
    InsertStays(q, k + 1, home + [SuffixCandidate(r, k)], k);
  }

  lemma InsertStays(q: Plan, t: int, addr: seq<Name>, u: int)
    requires Valid(q) && t !in q.tracks && u in q.tracks && File(u) in q.slots && addr != [] && AreComponents(addr)
    ensures var p := InsertPath(q, t, addr);
            Valid(p) && u in p.tracks && p.tracks[u] == q.tracks[u] && File(u) in p.slots && p.slots[File(u)] == q.slots[File(u)]
  {
    hide Insert, WellFormed;
    InsertMembers(q, t, addr, File(u));
    InsertSlots(q, t, addr, File(u));
    InsertWellFormed(q, t, addr);
    InsertValid(q, t, addr);
  }

  // ----- Ground for every name -----------------------------------------------------------------------

  /** No directory on the way has a name for which a gate is always open. */
  predicate Calm(home: seq<Name>) { (forall i | 0 <= i < |home| :: Plain(home[i])) && (home != [] ==> !Reserved(home[0])) }

  /** Two levels below a reserved name, which the root ranks from 2. */
  predicate Odd(home: seq<Name>, r: Name) { Reserved(r) && home == [r, r] }

  /** The root itself never shows a reserved name: adding one always marks it. */
  predicate Site(home: seq<Name>, r: Name) { Odd(home, r) || (Calm(home) && (home == [] ==> !Reserved(r))) }

  /** Two levels below a reserved name a track is needed that has introduced the first. */
  ghost function Low(home: seq<Name>, r: Name, k: nat): Plan {
    if Odd(home, r) then InsertPath(EMPTY_PLAN, 0, [r, SuffixCandidate(r, k)]) else EMPTY_PLAN
  }

  predicate Collision(home: seq<Name>, r: Name, k: nat) {
    Site(home, r) && Short(r) && Short(SuffixCandidate(r, k)) && k >= 2 && k + 2 < RANK_LIMIT
  }

  /** The vocabulary has the home, the name and the candidate there. */
  ghost predicate Allows(vocab: Vocabulary, home: seq<Name>, r: Name, k: nat) {
    Worded(vocab, home + [r]) && Worded(vocab, home + [SuffixCandidate(r, k)]) &&
    (Odd(home, r) ==> Worded(vocab, [r, SuffixCandidate(r, k)]))
  }

  lemma EmptyTaken()
    ensures Valid(EMPTY_PLAN) && forall dir, n :: Taken(EMPTY_PLAN, dir, n) <==> dir == [] && Reserved(n)
  {
    EmptyPlanValid();
  }

  lemma HomeComponents(home: seq<Name>, r: Name)
    requires Site(home, r) && Short(r)
    ensures AreComponents(home)
  {
    hide Reserved, IsSuffixShaped;
    forall i | 0 <= i < |home|
      ensures IsComponent(home[i])
    {
      ShortComponent(home[i]);
    }
  }

  lemma GroundHolds(home: seq<Name>, r: Name, k: nat)
    requires Collision(home, r, k)
    ensures Ground(Low(home, r, k), home, r, k)
  {
    hide Taken, Valid, Fits, SuffixCandidate, Reserved, Calm;
    EmptyTaken();
    HomeComponents(home, r);
    if Odd(home, r) {
      LowReserved(r, k);
    } else {
      forall j: nat | 1 <= j <= k + 1
        ensures home == [] ==> !Reserved(SlotName(r, j))
      {
        if j >= 2 { RankedUnreserved(r, j); }
      }
    }
  }

  /** Below a reserved name: the one track and its directory, which has rank 2. */
  lemma LowReserved(r: Name, k: nat)
    requires Collision([r, r], r, k) && Reserved(r)
    ensures var e, c := Low([r, r], r, k), SuffixCandidate(r, k);
            Valid(e) && e.tracks == map[0 := [r, c]] && (forall n :: Taken(e, [r], n) <==> n == c) &&
            (forall n :: !Taken(e, [r, r], n)) &&
            (forall m :: m in e.slots <==> m == File(0) || m == Dir([r])) && e.slots[File(0)] == 1 && e.slots[Dir([r])] == 2
  {
    hide Taken, Valid, Fits, SuffixCandidate, Reserved, InsertPath;
    var c := SuffixCandidate(r, k);
    EmptyTaken();
    ShortComponent(r);
    ShortComponent(c);
    assert [r] + [c] == [r, c];
    OneMore(EMPTY_PLAN, 0, [r], c, 1);
    LowMembers(r, c);
    NothingBelow(Low([r, r], r, k), r, c);
  }

  lemma LowMembers(r: Name, c: Name)
    requires Short(r) && Short(c) && Reserved(r)
    ensures var e := InsertPath(EMPTY_PLAN, 0, [r, c]);
            (forall m :: m in e.slots <==> m == File(0) || m == Dir([r])) && e.slots[Dir([r])] == 2
  {
    hide Taken, Fits, SuffixCandidate, Reserved, Insert, WellFormed;
    EmptyTaken();
    ShortComponent(r);
    ShortComponent(c);
    var addr := [r, c];
    forall m
      ensures m in Insert(EMPTY_PLAN, 0, addr).slots <==> m == File(0) || m == Dir([r])
    {
      InsertMembers(EMPTY_PLAN, 0, addr, m);
      if m.Dir? && m.path != [] && m.path < addr { assert m.path == addr[..|m.path|] == [r]; }
      assert [r] == addr[..1];
    }
    InsertSlots(EMPTY_PLAN, 0, addr, Dir([r]));
    RankedUnreserved(r, 2);
    assert SlotName(r, 1) == r && Init([r]) == [] && Last([r]) == r;
    FirstFreeUnique(EMPTY_PLAN, [r], 2, FirstFree(EMPTY_PLAN, [r]));
  }

  lemma NothingBelow(e: Plan, r: Name, c: Name)
    requires e.tracks == map[0 := [r, c]] && forall m :: m in e.slots <==> m == File(0) || m == Dir([r])
    ensures forall n :: !Taken(e, [r, r], n)
  {
    assert Parent(e, File(0)) == [r];
  }

  /** Two directories below a reserved name, each with a file. */
  ghost predicate TwoLevels(b: Plan, r: Name, c: Name, k: nat) {
    b.tracks == map[0 := [r, c], k + 1 := [r, r, c]] && SlotIs(b, File(0), 1) && SlotIs(b, Dir([r]), 2) &&
    SlotIs(b, Dir([r, r]), 1) && SlotIs(b, File(k + 1), 1) &&
    forall m | m in b.slots :: m == File(0) || m == Dir([r]) || m == Dir([r, r]) || m == File(k + 1)
  }

  predicate SlotIs(b: Plan, m: Member, k: nat) { m in b.slots && b.slots[m] == k }

  lemma BeforeReserved(r: Name, k: nat)
    requires Collision([r, r], r, k) && Reserved(r)
    ensures var b := Before(Low([r, r], r, k), [r, r], r, k); Valid(b) && TwoLevels(b, r, SuffixCandidate(r, k), k)
  {
    hide Taken, Valid, Short, SuffixCandidate, Reserved, InsertPath, Low, WellFormed, Before, SlotName, Ground, Collision;
    ReservedStays(r, k);
    ReservedMembers(r, k);
  }

  lemma ReservedStays(r: Name, k: nat)
    requires Collision([r, r], r, k) && Reserved(r)
    ensures var b, c := Before(Low([r, r], r, k), [r, r], r, k), SuffixCandidate(r, k);
            Valid(b) && b.tracks == map[0 := [r, c], k + 1 := [r, r, c]] &&
            SlotIs(b, File(k + 1), 1) && SlotIs(b, File(0), 1) && SlotIs(b, Dir([r]), 2)
  {
    hide Taken, Valid, Short, SuffixCandidate, Reserved, InsertPath, Low, WellFormed, Before, SlotName, Ground, Collision;
    var c, e := SuffixCandidate(r, k), Low([r, r], r, k);
    LowReserved(r, k);
    assert Ground(e, [r, r], r, k) by { GroundHolds([r, r], r, k); }
    BeforeTaken(e, [r, r], r, k);
    TwoTracks([r, c], [r, r, c], k + 1);
    assert [r, r] + [c] == [r, r, c];
  }

  lemma ReservedMembers(r: Name, k: nat)
    requires Collision([r, r], r, k) && Reserved(r)
    ensures var b := Before(Low([r, r], r, k), [r, r], r, k);
            SlotIs(b, Dir([r, r]), 1) &&
            forall m | m in b.slots :: m == File(0) || m == Dir([r]) || m == Dir([r, r]) || m == File(k + 1)
  {
    hide Taken, Valid, Short, SuffixCandidate, Reserved, InsertPath, Low, WellFormed, Before, SlotName, Ground;
    var c, e := SuffixCandidate(r, k), Low([r, r], r, k);
    LowReserved(r, k);
    ValidWellFormed(e);
    BeforeIs(e, r, k);
    CandidateOther(r, k);
    BeforeMembers(e, r, c, k);
  }

  lemma TwoTracks(a: seq<Name>, b: seq<Name>, t: int)
    requires t != 0
    ensures map[0 := a][t := b] == map[0 := a, t := b]
  {
  }

  lemma BeforeIs(e: Plan, r: Name, k: nat)
    ensures Before(e, [r, r], r, k) == InsertPath(e, k + 1, [r, r, SuffixCandidate(r, k)])
  {
    assert [r, r] + [SuffixCandidate(r, k)] == [r, r, SuffixCandidate(r, k)];
  }

  lemma BeforeMembers(e: Plan, r: Name, c: Name, k: nat)
    requires WellFormed(e) && e.tracks == map[0 := [r, c]] && Short(r) && Short(c) && r != c
    requires (forall m :: m in e.slots <==> m == File(0) || m == Dir([r])) && forall n :: Taken(e, [r], n) <==> n == c
    ensures var b := InsertPath(e, k + 1, [r, r, c]);
            SlotIs(b, Dir([r, r]), 1) &&
            forall m | m in b.slots :: m == File(0) || m == Dir([r]) || m == Dir([r, r]) || m == File(k + 1)
  {
    hide Taken, Fits, Insert, WellFormed;
    var addr := [r, r, c];
    var b := Insert(e, k + 1, addr);
    ShortComponent(r);
    ShortComponent(c);
    assert addr[..1] == [r] && addr[..2] == [r, r];
    forall m
      ensures m in b.slots <==> m == File(0) || m == Dir([r]) || m == Dir([r, r]) || m == File(k + 1)
    {
      InsertMembers(e, k + 1, addr, m);
      if m.Dir? && m.path != [] && m.path < addr { assert m.path == addr[..|m.path|]; }
    }
    InsertSlots(e, k + 1, addr, Dir([r, r]));
    CandidateIs1(r);
    assert Init([r, r]) == [r] && Last([r, r]) == r;
    FirstFreeUnique(e, [r, r], 1, FirstFree(e, [r, r]));
  }

  // ----- The tree before is canonical ----------------------------------------------------------------

  /** The directories down to `home`, and one file in it. */
  ghost predicate Straight(b: Plan, home: seq<Name>, c: Name, k: nat) {
    b.tracks == map[k + 1 := home + [c]] && SlotIs(b, File(k + 1), 1) && (forall p | p != [] && p <= home :: SlotIs(b, Dir(p), 1)) &&
    forall m | m in b.slots :: m == File(k + 1) || (m.Dir? && m.path != [] && m.path <= home)
  }

  lemma BeforeStraight(home: seq<Name>, r: Name, k: nat)
    requires Collision(home, r, k) && !Odd(home, r)
    ensures var b := Before(Low(home, r, k), home, r, k); Valid(b) && Straight(b, home, SuffixCandidate(r, k), k)
  {
    hide Taken, Valid, Fits, SuffixCandidate, Reserved, Insert, WellFormed, Calm;
    var c := SuffixCandidate(r, k);
    GroundHolds(home, r, k);
    BeforeTaken(EMPTY_PLAN, home, r, k);
    HomeComponents(home, r);
    ShortComponent(c);
    StraightMembers(home, c, k);
    assert Calm(home);
    CalmRanks(home, c, k);
  }

  lemma StraightMembers(home: seq<Name>, c: Name, k: nat)
    ensures forall m :: m in Insert(EMPTY_PLAN, k + 1, home + [c]).slots <==> m == File(k + 1) || (m.Dir? && m.path != [] && m.path <= home)
  {
    hide Insert, Reserved;
    var addr := home + [c];
    forall m
      ensures m in Insert(EMPTY_PLAN, k + 1, addr).slots <==> m == File(k + 1) || (m.Dir? && m.path != [] && m.path <= home)
    {
      InsertMembers(EMPTY_PLAN, k + 1, addr, m);
      if m.Dir? {
        if m.path < addr { assert m.path == addr[..|m.path|] == home[..|m.path|]; }
        if m.path <= home { assert m.path == home[..|m.path|] == addr[..|m.path|]; }
      }
    }
  }

  lemma CalmRanks(home: seq<Name>, c: Name, k: nat)
    requires Calm(home) && AreComponents(home) && IsComponent(c)
    ensures forall p | p != [] && p <= home :: SlotIs(Insert(EMPTY_PLAN, k + 1, home + [c]), Dir(p), 1)
  {
    hide Insert, Reserved, WellFormed, Taken, Plain, IsComponent;
    var addr := home + [c];
    StraightMembers(home, c, k);
    EmptyTaken();
    forall p | p != [] && p <= home
      ensures SlotIs(Insert(EMPTY_PLAN, k + 1, addr), Dir(p), 1)
    {
      InsertSlots(EMPTY_PLAN, k + 1, addr, Dir(p));
      assert SlotName(Last(p), 1) == Last(p);
      assert Init(p) == [] ==> Last(p) == home[0];
      FirstFreeUnique(EMPTY_PLAN, p, 1, FirstFree(EMPTY_PLAN, p));
    }
  }

  lemma BeforeCanonical(home: seq<Name>, r: Name, k: nat)
    requires Collision(home, r, k)
    ensures Canonical(Before(Low(home, r, k), home, r, k))
  {
    hide Valid, Fits, SuffixCandidate, Reserved, Before, Correct, Low, Calm, Straight;
    var b, c := Before(Low(home, r, k), home, r, k), SuffixCandidate(r, k);
    RanksApart(r, 1, k);
    CandidateIs(r, k);
    assert SlotName(r, 1) == r;
    forall g: seq<Name>
      ensures Correct(b, g)
    {
      if Odd(home, r) {
        BeforeReserved(r, k);
        ReservedGroups(b, r, c, k, g);
      } else {
        BeforeStraight(home, r, k);
        RankedUnreserved(r, k);
        StraightGroups(b, home, c, k, g);
      }
    }
    if Odd(home, r) { BeforeReserved(r, k); } else { BeforeStraight(home, r, k); }
  }

  lemma StraightGroups(b: Plan, home: seq<Name>, c: Name, k: nat, g: seq<Name>)
    requires Straight(b, home, c, k) && Calm(home) && !Reserved(c)
    ensures Correct(b, g)
  {
    hide Correct, Reserved, Plain;
    var t := k + 1;
    assert b.tracks[t] == home + [c];
    if g == home + [c] {
      AloneCorrect(b, g, File(t));
    } else if g != [] && g <= home {
      assert g < home + [c];
      assert Under(b.tracks, Dir(g), t);
      AloneCorrect(b, g, Dir(g));
    } else {
      EmptyGroupCorrect(b, g);
    }
  }

  lemma ReservedGroups(b: Plan, r: Name, c: Name, k: nat, g: seq<Name>)
    requires Reserved(r) && r != c && TwoLevels(b, r, c, k)
    ensures Correct(b, g)
  {
    hide Correct, Reserved;
    assert [r] < b.tracks[0] && [r, r] < b.tracks[k + 1];
    if g == [r] {
      AloneCorrect(b, g, Dir([r]));
    } else if g == [r, r] {
      AloneCorrect(b, g, Dir([r, r]));
    } else if g == [r, c] {
      AloneCorrect(b, g, File(0));
    } else if g == [r, r, c] {
      AloneCorrect(b, g, File(k + 1));
    } else {
      EmptyGroupCorrect(b, g);
    }
  }

  // ----- Nothing is marked -----------------------------------------------------------------------------

  lemma HomeIn(home: seq<Name>, r: Name, k: nat)
    requires Collision(home, r, k)
    ensures var b := Before(Low(home, r, k), home, r, k); WellFormed(b) && DirIn(b, home) && !Taken(b, home, r)
  {
    hide Taken, Valid, Fits, SuffixCandidate, Reserved, Before, Low, Calm;
    GroundHolds(home, r, k);
    BeforeTaken(Low(home, r, k), home, r, k);
    RanksApart(r, 1, k);
    CandidateIs(r, k);
    assert SlotName(r, 1) == r;
    assert !Taken(Low(home, r, k), home, SlotName(r, 1));
    if Odd(home, r) { BeforeReserved(r, k); } else { BeforeStraight(home, r, k); }
    ValidWellFormed(Before(Low(home, r, k), home, r, k));
  }

  /** No ancestor of the home is marked: the gate is shut, or the least id stays. */
  lemma NoFlip(home: seq<Name>, r: Name, k: nat, ix: Index, t: int, d: nat)
    requires Collision(home, r, k) && t >= 1
    ensures !FlipMarked(Before(Low(home, r, k), home, r, k), ix, home, t, d)
  {
    hide Valid, Fits, SuffixCandidate, Reserved, Before, Low, MemberGated, Intro, FlipMark, Calm, Straight;
    var b := Before(Low(home, r, k), home, r, k);
    forall j: nat
      ensures !FlipMark(b, ix, home, t, j, d)
    {
      if Odd(home, r) {
        BeforeReserved(r, k);
        NoFlipBelow(b, r, SuffixCandidate(r, k), k, ix, t, j, d) by { RanksApart(r, 1, k); CandidateIs(r, k); CandidateIs1(r); }
      } else {
        BeforeStraight(home, r, k);
        NoFlipStraight(b, home, SuffixCandidate(r, k), k, ix, t, j, d);
      }
    }
  }

  lemma CandidateOther(r: Name, k: nat)
    requires Short(r) && 2 <= k && k + 2 < RANK_LIMIT
    ensures SuffixCandidate(r, k) != r
  {
    hide SuffixCandidate, Fits;
    RanksApart(r, 1, k);
  }

  lemma CandidateIs1(r: Name)
    ensures SlotName(r, 1) == r
  {
  }

  lemma NoFlipStraight(b: Plan, home: seq<Name>, c: Name, k: nat, ix: Index, t: int, j: nat, d: nat)
    requires Straight(b, home, c, k) && Calm(home)
    ensures !FlipMark(b, ix, home, t, j, d)
  {
    hide Reserved, Plain, MemberGated, Intro, Straight;
    if 1 <= j <= |home| { StraightUngated(b, home, c, k, home[..j]); }
  }

  /** A directory on the way has its own name, and no sibling. */
  lemma StraightUngated(b: Plan, home: seq<Name>, c: Name, k: nat, p: seq<Name>)
    requires Straight(b, home, c, k) && Calm(home) && p != [] && p <= home
    ensures !MemberGated(b, Dir(p))
  {
    hide Reserved, SuffixCandidate, IsSuffixShaped, Fits;
    var n := Last(p);
    assert n == home[|p| - 1] && Plain(n);
    CandidateOther(n, 2);
    OnlyChild(b, home, c, k, p);
    assert NameOf(b, Dir(p)) == n;
    assert !ChildNamed(b, Init(p), SuffixCandidate(n, 2));
  }

  lemma OnlyChild(b: Plan, home: seq<Name>, c: Name, k: nat, p: seq<Name>)
    requires Straight(b, home, c, k) && p != [] && p <= home
    ensures forall m | m in b.slots && Parent(b, m) == Init(p) :: m == Dir(p)
  {
    assert Parent(b, File(k + 1)) == home by { assert Init(home + [c]) == home; }
    forall m | m in b.slots && Parent(b, m) == Init(p)
      ensures m == Dir(p)
    {
      if m.Dir? { assert |m.path| == |p| && m.path == home[..|p|] == p; }
    }
  }

  lemma NoFlipBelow(b: Plan, r: Name, c: Name, k: nat, ix: Index, t: int, j: nat, d: nat)
    requires Reserved(r) && r != c && t >= 1 && TwoLevels(b, r, c, k)
    ensures !FlipMark(b, ix, [r, r], t, j, d)
  {
    hide Fits, SuffixCandidate, Reserved, MemberGated, Intro;
    if j == 1 {
      assert [r, r][..1] == [r] && Under(b.tracks, Dir([r]), 0);
    } else if j == 2 {
      assert [r, r][..2] == [r, r];
      Ungated(b, r, c, k);
    }
  }

  lemma Ungated(b: Plan, r: Name, c: Name, k: nat)
    requires Reserved(r) && r != c && TwoLevels(b, r, c, k)
    ensures !MemberGated(b, Dir([r, r]))
  {
    hide Fits, SuffixCandidate, IsSuffixShaped;
    NotShapedWithoutSpace(r);
    assert Init([r, r]) == [r] && Last([r, r]) == r && Init([r, c]) == [r] && Init([r, r, c]) == [r, r];
    forall j: nat | 2 <= j
      ensures !RankShared(b, [r], r, j)
    {
      SpacedCandidate(r, j);
    }
  }

  lemma SpacedCandidate(name: Name, j: nat)
    requires ' ' !in name
    ensures SuffixCandidate(name, j) != name
  {
    var n, c := |RankedStem(name, j)|, SuffixCandidate(name, j);
    RankSuffixChars(j);
    assert c[n] == RankSuffix(j)[0] == ' ';
    assert c[n] in c;
    assert c != name;
  }

  // ----- The batch ----------------------------------------------------------------------------------------

  /** Every track, with its rendered components. */
  function AllTracks(home: seq<Name>, r: Name, k: nat): map<int, seq<Name>> {
    var c := SuffixCandidate(r, k);
    (if Odd(home, r) then map[0 := [r, c]] else map[]) + (map t | t in Nums(k) :: home + [r]) + map[k + 1 := home + [c]]
  }

  function LowIds(home: seq<Name>, r: Name): seq<int> { if Odd(home, r) then [0] else [] }

  function AllIds(home: seq<Name>, r: Name, k: nat): seq<int> { LowIds(home, r) + Nums(k + 1) }

  function PathsOf(tracks: map<int, seq<Name>>): map<int, string> { map t | t in tracks :: JoinNames(tracks[t]) }

  function EntriesOf(ids: seq<int>, paths: map<int, string>): (entries: seq<Entry>)
    requires forall i | 0 <= i < |ids| :: ids[i] in paths
    ensures |entries| == |ids| && forall i | 0 <= i < |ids| :: entries[i] == (ids[i], paths[ids[i]])
  {
    seq(|ids|, i requires 0 <= i < |ids| => (ids[i], paths[ids[i]]))
  }

  lemma AllTracksAre(home: seq<Name>, r: Name, k: nat)
    ensures var tracks := AllTracks(home, r, k);
            Rendering(tracks, home, r, k) && (Odd(home, r) ==> 0 in tracks && tracks[0] == [r, SuffixCandidate(r, k)]) &&
            (forall t :: t in tracks <==> t in AllIds(home, r, k)) && (0 in tracks <==> Odd(home, r))
  {
    hide Odd, SuffixCandidate;
    InNums(k);
    InNums(k + 1);
  }

  lemma AllIdsAscend(home: seq<Name>, r: Name, k: nat)
    ensures Ascending(AllIds(home, r, k)) && |AllIds(home, r, k)| <= k + 2
  {
  }

  /** A path joined from short names reads as those names. */
  lemma JoinKeys(names: seq<Name>)
    requires names != [] && forall i | 0 <= i < |names| :: Short(names[i])
    ensures PathComponents(JoinNames(names)) == names && TreeKeys(JoinNames(names)) == names
  {
    hide Split, JoinNames, FilterComponents;
    SplitJoin(names);
    FilterIdentity(names);
    assert TreeKeys(JoinNames(names)) == names;
  }

  lemma TracksShort(home: seq<Name>, r: Name, k: nat, t: int)
    requires Collision(home, r, k) && t in AllTracks(home, r, k)
    ensures var addr := AllTracks(home, r, k)[t]; addr != [] && forall i | 0 <= i < |addr| :: Short(addr[i])
  {
    hide Reserved, SuffixCandidate, Short, IsSuffixShaped;
  }

  lemma TracksWorded(vocab: Vocabulary, home: seq<Name>, r: Name, k: nat, t: int)
    requires Allows(vocab, home, r, k) && t in AllTracks(home, r, k)
    ensures Worded(vocab, AllTracks(home, r, k)[t])
  {
    hide Reserved, SuffixCandidate, Worded;
  }

  /** The paths render to the tracks. */
  lemma PathsRender(home: seq<Name>, r: Name, k: nat)
    requires Collision(home, r, k)
    ensures PathTracks(PathsOf(AllTracks(home, r, k))) == AllTracks(home, r, k)
    ensures forall t | t in AllTracks(home, r, k) :: PathComponents(PathsOf(AllTracks(home, r, k))[t]) == AllTracks(home, r, k)[t]
  {
    hide AllTracks, TreeKeys, PathComponents, JoinNames, SuffixCandidate, Fits;
    var tracks := AllTracks(home, r, k);
    forall t | t in tracks
      ensures PathComponents(PathsOf(tracks)[t]) == tracks[t] && TreeKeys(PathsOf(tracks)[t]) == tracks[t]
    {
      TracksShort(home, r, k, t);
      JoinKeys(tracks[t]);
    }
    assert forall t :: t in PathTracks(PathsOf(tracks)) <==> t in tracks;
  }

  /** The batch is a true diff of the tree before, over any vocabulary that has both names. */
  lemma BatchIsDiff(vocab: Vocabulary, home: seq<Name>, r: Name, k: nat)
    requires Collision(home, r, k) && k + 5 < RANK_LIMIT && Allows(vocab, home, r, k)
    ensures IsDiff(vocab, Before(Low(home, r, k), home, r, k), PathsOf(AllTracks(home, r, k)), [], Nums(k), [])
  {
    hide AllTracks, AllIds, TreeKeys, PathComponents, JoinNames, SuffixCandidate, Fits, Before, Low, Odd, Valid;
    var b, tracks := Before(Low(home, r, k), home, r, k), AllTracks(home, r, k);
    var paths := PathsOf(tracks);
    PathsRender(home, r, k);
    AllTracksAre(home, r, k);
    AllIdsAscend(home, r, k);
    AscendingSize(AllIds(home, r, k));
    assert forall t :: t in paths.Keys <==> t in SetOf(AllIds(home, r, k));
    assert paths.Keys == SetOf(AllIds(home, r, k));
    assert |paths| == |paths.Keys|;
    InNums(k);
    BeforeTracks(home, r, k);
    forall t | t in paths
      ensures WordRendered(vocab, paths[t]) && (t !in Nums(k) ==> Untouched(b, paths, t))
    {
      TracksWorded(vocab, home, r, k, t);
      assert TreeKeys(paths[t]) == PathTracks(paths)[t] == tracks[t];
    }
  }

  lemma BeforeTracks(home: seq<Name>, r: Name, k: nat)
    requires Collision(home, r, k)
    ensures var b, tracks := Before(Low(home, r, k), home, r, k), AllTracks(home, r, k);
            (forall t :: t in b.tracks <==> t in tracks && t !in Nums(k)) && forall t | t in b.tracks :: b.tracks[t] == tracks[t]
  {
    hide AllTracks, Before, Low, Reserved, SuffixCandidate, Fits, Valid, Calm;
    AllTracksAre(home, r, k);
    InNums(k);
    InNums(k + 1);
    if Odd(home, r) { BeforeReserved(r, k); } else { BeforeStraight(home, r, k); }
    assert [r, r] + [SuffixCandidate(r, k)] == [r, r, SuffixCandidate(r, k)];
  }

  /** On the tree before, neither walk marks anything for the batch. */
  lemma NothingMarked(home: seq<Name>, r: Name, k: nat, ix: Index)
    requires Collision(home, r, k)
    ensures Unmarked(Before(Low(home, r, k), home, r, k), ix, [], Nums(k), PathsOf(AllTracks(home, r, k)))
  {
    hide AllTracks, Before, Low, Odd, SuffixCandidate, Fits, InsertionMarked, FlipMarked, Taken;
    var b, tracks := Before(Low(home, r, k), home, r, k), AllTracks(home, r, k);
    PathsRender(home, r, k);
    AllTracksAre(home, r, k);
    InNums(k);
    HomeIn(home, r, k);
    forall t, d: nat | t in Nums(k)
      ensures !InsertionMarked(b, ix, t, home + [r], d)
    {
      NoFlip(home, r, k, ix, t, d);
      Unbranched(b, ix, t, home, r, d);
    }
    forall t | t in Nums(k)
      ensures TreeKeys(PathsOf(tracks)[t]) == home + [r]
    {
      assert PathTracks(PathsOf(tracks))[t] == tracks[t];
    }
  }

  lemma Unbranched(b: Plan, ix: Index, t: int, home: seq<Name>, r: Name, d: nat)
    requires WellFormed(b) && DirIn(b, home) && !Taken(b, home, r) && !FlipMarked(b, ix, home, t, d)
    ensures !InsertionMarked(b, ix, t, home + [r], d)
  {
    hide WellFormed, Taken, FlipMarked;
    var keys := home + [r];
    assert keys[..|home|] == home && IsDeepest(b, keys, |home|);
    forall n: nat | IsDeepest(b, keys, n)
      ensures n == |home|
    {
      DeepestUnique(b, keys, n, |home|);
    }
  }

  /** Two ascending sequences of the same elements are one. */
  lemma {:induction false} AscendingUnique(a: seq<int>, b: seq<int>)
    requires Ascending(a) && Ascending(b) && forall t :: t in a <==> t in b
    ensures a == b
    decreases |a|
  {
    if a == [] {
      assert forall i | 0 <= i < |b| :: b[i] in b;
    } else {
      var x := a[|a| - 1];
      assert x in a && x in b;
      var y := b[|b| - 1];
      assert y in b && y in a;
      assert x == y;
      var a1, b1 := a[..|a| - 1], b[..|b| - 1];
      forall t
        ensures t in a1 <==> t in b1
      {
        InPrefix(a, t);
        InPrefix(b, t);
      }
      AscendingUnique(a1, b1);
    }
  }

  lemma InPrefix(a: seq<int>, t: int)
    requires Ascending(a) && a != []
    ensures t in a[..|a| - 1] <==> t in a && t != a[|a| - 1]
  {
    assert a == a[..|a| - 1] + [a[|a| - 1]];
  }

  // ----- What a fresh build gives --------------------------------------------------------------------------

  lemma {:induction false} InsertAllConcat(base: Plan, a: seq<int>, b: seq<int>, tracks: map<int, seq<Name>>)
    requires Insertable(a + b, tracks)
    ensures Insertable(a, tracks) && Insertable(b, tracks)
    ensures InsertAll(base, a + b, tracks) == InsertAll(InsertAll(base, a, tracks), b, tracks)
    decreases |b|
  {
    hide InsertPath;
    var ids := a + b;
    assert forall i | 0 <= i < |a| :: ids[i] == a[i];
    assert forall i | 0 <= i < |b| :: b[i] == ids[|a| + i];
    if b == [] {
      assert ids == a;
    } else {
      var b1 := b[..|b| - 1];
      assert ids[..|ids| - 1] == a + b1;
      InsertAllConcat(base, a, b1, tracks);
    }
  }

  lemma InsertOne(base: Plan, t: int, tracks: map<int, seq<Name>>)
    requires t in tracks
    ensures Insertable([t], tracks) && InsertAll(base, [t], tracks) == InsertPath(base, t, tracks[t])
  {
    hide InsertPath;
    assert [t][..0] == [];
  }

  lemma LowBuilt(home: seq<Name>, r: Name, k: nat)
    ensures Insertable(LowIds(home, r), AllTracks(home, r, k)) && InsertAll(EMPTY_PLAN, LowIds(home, r), AllTracks(home, r, k)) == Low(home, r, k)
  {
    hide InsertPath, AllTracks, Odd, SuffixCandidate;
    AllTracksAre(home, r, k);
    if Odd(home, r) { InsertOne(EMPTY_PLAN, 0, AllTracks(home, r, k)); }
  }

  lemma AllInsertable(home: seq<Name>, r: Name, k: nat, ids: seq<int>)
    requires forall t | t in ids :: t in AllIds(home, r, k)
    ensures Insertable(ids, AllTracks(home, r, k))
  {
    hide AllTracks, Rendering, Odd, SuffixCandidate;
    AllTracksAre(home, r, k);
    AllOf(ids, AllIds(home, r, k), AllTracks(home, r, k));
  }

  lemma AllOf(ids: seq<int>, all: seq<int>, tracks: map<int, seq<Name>>)
    requires (forall t | t in ids :: t in all) && forall t | t in all :: t in tracks
    ensures Insertable(ids, tracks)
  {
    forall i | 0 <= i < |ids|
      ensures ids[i] in tracks
    {
      var t := ids[i];
      assert t in ids;
      assert t in all;
    }
  }

  /** The tree before is itself what a build gives. */
  lemma BeforeBuilt(home: seq<Name>, r: Name, k: nat)
    ensures var ids := LowIds(home, r) + [k + 1];
            Insertable(ids, AllTracks(home, r, k)) && InsertAll(EMPTY_PLAN, ids, AllTracks(home, r, k)) == Before(Low(home, r, k), home, r, k)
  {
    hide InsertPath, AllTracks, Odd, SuffixCandidate, InsertAll;
    InNums(k + 1);
    AllInsertable(home, r, k, LowIds(home, r) + [k + 1]);
    LowBuilt(home, r, k);
    AllTracksAre(home, r, k);
    InsertAllConcat(EMPTY_PLAN, LowIds(home, r), [k + 1], AllTracks(home, r, k));
    InsertOne(Low(home, r, k), k + 1, AllTracks(home, r, k));
  }

  /** A build from scratch gives track `k` the candidate of rank `k` for its name. */
  lemma FreshName(home: seq<Name>, r: Name, k: nat)
    requires Collision(home, r, k)
    ensures Insertable(AllIds(home, r, k), AllTracks(home, r, k))
    ensures var q := InsertAll(EMPTY_PLAN, AllIds(home, r, k), AllTracks(home, r, k));
            Valid(q) && k in q.tracks && File(k) in q.slots && NameOf(q, File(k)) == SlotName(r, k)
  {
    hide InsertPath, AllTracks, Odd, SlotName, InsertAll, Ground, Low, Valid;
    AllInsertable(home, r, k, AllIds(home, r, k));
    AllTracksAre(home, r, k);
    LowBuilt(home, r, k);
    InsertAllConcat(EMPTY_PLAN, LowIds(home, r), Nums(k + 1), AllTracks(home, r, k));
    GroundHolds(home, r, k);
    FreshRank(Low(home, r, k), home, r, k, AllTracks(home, r, k));
  }

  /** Patched without a rebuild, track `k` gets the candidate of the next rank. */
  lemma PatchedName(home: seq<Name>, r: Name, k: nat, q: Plan)
    requires Collision(home, r, k)
    requires InsertedInOrder(Before(Low(home, r, k), home, r, k), Nums(k), PathsOf(AllTracks(home, r, k)), q)
    ensures k in q.tracks && File(k) in q.slots && NameOf(q, File(k)) == SlotName(r, k + 1)
  {
    hide InsertPath, AllTracks, Odd, SlotName, InsertAll, Ground, Low, Before, Insertable, Valid, Rendering, PathsOf, Collision,
         PathTracks, Nums, SuffixCandidate;
    var tracks := AllTracks(home, r, k);
    assert PathTracks(PathsOf(tracks)) == tracks by { PathsRender(home, r, k); }
    assert Rendering(tracks, home, r, k) by { AllTracksAre(home, r, k); }
    GroundHolds(home, r, k);
    PatchedRank(Low(home, r, k), home, r, k, tracks);
    assert Ascending(Nums(k)) by { NumsAscend(k); }
    var ids :| Ascending(ids) && (forall t :: t in ids <==> t in Nums(k)) && Insertable(ids, tracks) &&
               q == InsertAll(Before(Low(home, r, k), home, r, k), ids, tracks);
    AscendingUnique(ids, Nums(k));
  }

  /**
    Tightness: over any vocabulary with a short name and its candidate of rank `k`, there are
    a canonical tree that a build gives and a batch that is a true diff of it, such that
    nothing is marked and inserting the batch does not give the plan of a fresh build.
   */
  lemma CollisionDiverges(vocab: Vocabulary, home: seq<Name>, r: Name, k: nat)
    requires Collision(home, r, k) && k + 5 < RANK_LIMIT && Allows(vocab, home, r, k)
    ensures var before, paths := Before(Low(home, r, k), home, r, k), PathsOf(AllTracks(home, r, k));
            Canonical(before) && IsDiff(vocab, before, paths, [], Nums(k), []) &&
            (forall ix :: Unmarked(before, ix, [], Nums(k), paths)) &&
            Insertable(AllIds(home, r, k), PathTracks(paths)) &&
            forall q | InsertedInOrder(before, Nums(k), paths, q) ::
              k in q.tracks && NameOf(q, File(k)) != NameOf(InsertAll(EMPTY_PLAN, AllIds(home, r, k), PathTracks(paths)), File(k))
  {
    hide AllTracks, Odd, SlotName, InsertAll, Low, Before, Insertable, IsDiff, Canonical, Unmarked, PathTracks, NameOf,
         InsertedInOrder, AllIds, SuffixCandidate, Valid, Nums, PathsOf;
    var before, paths := Before(Low(home, r, k), home, r, k), PathsOf(AllTracks(home, r, k));
    BeforeCanonical(home, r, k);
    BatchIsDiff(vocab, home, r, k);
    forall ix
      ensures Unmarked(before, ix, [], Nums(k), paths)
    {
      NothingMarked(home, r, k, ix);
    }
    NamesDiffer(home, r, k);
  }

  lemma NamesDiffer(home: seq<Name>, r: Name, k: nat)
    requires Collision(home, r, k)
    ensures var before, paths := Before(Low(home, r, k), home, r, k), PathsOf(AllTracks(home, r, k));
            Insertable(AllIds(home, r, k), PathTracks(paths)) &&
            forall q | InsertedInOrder(before, Nums(k), paths, q) ::
              k in q.tracks && NameOf(q, File(k)) != NameOf(InsertAll(EMPTY_PLAN, AllIds(home, r, k), PathTracks(paths)), File(k))
  {
    hide AllTracks, Odd, SlotName, InsertAll, Low, Before, Insertable, PathTracks, NameOf, InsertedInOrder, AllIds,
         SuffixCandidate, Valid, Nums, PathsOf;
    PathsRender(home, r, k);
    FreshName(home, r, k);
    assert SlotName(r, k) != SlotName(r, k + 1) by { RanksApart(r, k, k + 1); }
    forall q | InsertedInOrder(Before(Low(home, r, k), home, r, k), Nums(k), PathsOf(AllTracks(home, r, k)), q)
      ensures k in q.tracks && NameOf(q, File(k)) == SlotName(r, k + 1)
    {
      PatchedName(home, r, k, q);
    }
  }

  // ----- The divergence, on the trees themselves ---------------------------------------------------------------

  /** The name a track's file has in the maps. */
  lemma NameShown(st: TreeMaps, plan: Plan, ix: Index, t: int)
    requires Holds(st, plan, ix) && WellFormed(plan) && t in plan.tracks
    ensures t in st.trackToInode && st.trackToInode[t] in st.nodes && st.nodes[st.trackToInode[t]].name == NameOf(plan, File(t))
  {
    hide Holds, WellFormed, NameOf;
    TrackMeaning(st, plan, ix, t);
    NodeMeaning(st, plan, ix, File(t));
  }

  /** Maps that show another name than the built plan's are not the built maps. */
  lemma NotBuilt(st: TreeMaps, plan: Plan, ix: Index, entries: seq<Entry>, t: int)
    requires Holds(st, plan, ix) && WellFormed(plan) && t in plan.tracks
    requires WellFormed(Built(entries)) && t in Built(entries).tracks && NameOf(plan, File(t)) != NameOf(Built(entries), File(t))
    ensures !HoldsBuilt(st, entries)
  {
    hide Holds, WellFormed, NameOf, Built;
    NameShown(st, plan, ix, t);
    forall jx
      ensures !Holds(st, Built(entries), jx)
    {
      if Holds(st, Built(entries), jx) { NameShown(st, Built(entries), jx, t); }
    }
  }

  /** The entries of the tree before and of the build afterwards, in ascending id order. */
  lemma EntriesBuild(home: seq<Name>, r: Name, k: nat, ids: seq<int>, entries: seq<Entry>)
    requires Collision(home, r, k) && Ascending(ids) && forall t | t in ids :: t in AllIds(home, r, k)
    requires |entries| == |ids| && forall i | 0 <= i < |ids| ::
               ids[i] in PathsOf(AllTracks(home, r, k)) && entries[i] == (ids[i], PathsOf(AllTracks(home, r, k))[ids[i]])
    ensures AscendingIds(entries) && DistinctIds(entries)
    ensures Insertable(ids, AllTracks(home, r, k)) && Built(entries) == InsertAll(EMPTY_PLAN, ids, AllTracks(home, r, k))
  {
    hide AllTracks, AllIds, InsertAll, Built, JoinNames, Odd, Fits, SuffixCandidate, TreeKeys;
    PathsRender(home, r, k);
    AllInsertable(home, r, k, ids);
    assert forall i | 0 <= i < |ids| :: entries[i].0 == ids[i];
    assert EntryIds(entries) == ids;
    assert Listing(entries, PathTracks(PathsOf(AllTracks(home, r, k))));
    BuiltInsertAll(entries, AllTracks(home, r, k));
  }

  lemma EntriesListed(home: seq<Name>, r: Name, k: nat, entries: seq<Entry>)
    requires |entries| == |AllIds(home, r, k)| && AscendingIds(entries) && forall i | 0 <= i < |entries| ::
               AllIds(home, r, k)[i] in PathsOf(AllTracks(home, r, k)) &&
               entries[i] == (AllIds(home, r, k)[i], PathsOf(AllTracks(home, r, k))[AllIds(home, r, k)[i]])
    ensures Lists(entries, PathsOf(AllTracks(home, r, k)))
  {
    hide AllTracks, AllIds, JoinNames, Odd, Fits, SuffixCandidate;
    AllTracksAre(home, r, k);
    var ids := AllIds(home, r, k);
    forall t | t in PathsOf(AllTracks(home, r, k))
      ensures exists i :: 0 <= i < |entries| && entries[i].0 == t
    {
      assert t in ids;
      var i :| 0 <= i < |ids| && ids[i] == t;
      assert entries[i].0 == t;
    }
  }

  lemma BatchFits(home: seq<Name>, r: Name, k: nat)
    requires Collision(home, r, k)
    ensures var b := Before(Low(home, r, k), home, r, k);
            IdsFit(b.tracks) && Distinct(Nums(k)) && forall t | t in Nums(k) :: t !in b.tracks
  {
    hide AllTracks, Before, Low, Odd, Fits, SuffixCandidate;
    BeforeTracks(home, r, k);
    AllTracksAre(home, r, k);
    InNums(k + 1);
    forall t | t in AllTracks(home, r, k)
      ensures t <= MAX_ID
    {
      assert t in LowIds(home, r) || t in Nums(k + 1);
    }
  }

  lemma NothingMoved(before: Plan, paths: map<int, string>, added: seq<int>)
    requires Valid(before)
    ensures [] + MovedOut(before, paths, []) == [] && added + MovedIn(before, paths, []) == added
    ensures RemoveSet(before, SetOf([])) == before
  {
    hide RemoveSet, WellFormed;
    RemoveNone(before);
  }

  method BatchEntries(home: seq<Name>, r: Name, k: nat, paths: map<int, string>) returns (low: seq<Entry>, all: seq<Entry>)
    requires Collision(home, r, k) && paths == PathsOf(AllTracks(home, r, k))
    ensures DistinctIds(low) && Built(low) == Before(Low(home, r, k), home, r, k)
    ensures Lists(all, paths) && Insertable(AllIds(home, r, k), AllTracks(home, r, k))
    ensures Built(all) == InsertAll(EMPTY_PLAN, AllIds(home, r, k), AllTracks(home, r, k))
  {
    hide AllTracks, InsertAll, Before, Low, Odd, Fits, SuffixCandidate, Built, JoinNames, Collision, Lists;
    AllTracksAre(home, r, k);
    AllIdsAscend(home, r, k);
    InNums(k + 1);
    var lowIds, allIds := LowIds(home, r) + [k + 1], AllIds(home, r, k);
    low := EntriesOf(lowIds, paths);
    all := EntriesOf(allIds, paths);
    EntriesBuild(home, r, k, lowIds, low);
    EntriesBuild(home, r, k, allIds, all);
    BeforeBuilt(home, r, k);
    EntriesListed(home, r, k, all);
  }

  /** What the patch leaves and what a build gives differ in one name. */
  lemma DifferentNames(vocab: Vocabulary, home: seq<Name>, r: Name, k: nat, q: Plan, entries: seq<Entry>)
    requires Collision(home, r, k) && k + 5 < RANK_LIMIT && Allows(vocab, home, r, k)
    requires InsertedInOrder(Before(Low(home, r, k), home, r, k), Nums(k), PathsOf(AllTracks(home, r, k)), q)
    requires Insertable(AllIds(home, r, k), AllTracks(home, r, k)) && Built(entries) == InsertAll(EMPTY_PLAN, AllIds(home, r, k), AllTracks(home, r, k))
    ensures k in q.tracks && k in Built(entries).tracks && WellFormed(Built(entries))
    ensures NameOf(q, File(k)) != NameOf(Built(entries), File(k))
  {
    hide AllTracks, InsertAll, Before, Low, Odd, Fits, SuffixCandidate, Built, NameOf, WellFormed, InsertedInOrder, AllIds,
         Unmarked, IsDiff, Insertable;
    CollisionDiverges(vocab, home, r, k);
    PathsRender(home, r, k);
    FreshName(home, r, k);
  }

  /**
    The divergence in full: a tree is built, patched with a batch that is a true diff of it
    over the vocabulary, and the oracle then finds that it is not what a build gives.
   */
  method PatchDiverges(ghost vocab: Vocabulary, home: seq<Name>, r: Name, k: nat)
    returns (ghost before: Plan, paths: map<int, string>, added: seq<int>, patched: VirtualTree, alloc: InodeAllocator, entries: seq<Entry>,
             same: bool)
    requires Collision(home, r, k) && k + 5 < RANK_LIMIT && Allows(vocab, home, r, k)
    ensures Canonical(before) && IsDiff(vocab, before, paths, [], added, []) && Lists(entries, paths)
    ensures patched.Valid(alloc) && !HoldsBuilt(patched.State(), entries) && !same
  {
    hide AllTracks, Odd, SlotName, InsertAll, Low, Before, Insertable, IsDiff, Canonical, Unmarked, PathTracks, NameOf,
         InsertedInOrder, AllIds, Fits, SuffixCandidate, Holds, WellFormed, NoEmptyDirs, Linked, Built, Lists, JoinNames, LowIds,
         RemoveSet, Materialized, Collision, PathsOf, HoldsBuilt, MovedOut, MovedIn, Tame, IdsFit, Carried, AfterBatch;
    paths, added := PathsOf(AllTracks(home, r, k)), Nums(k);
    before := Before(Low(home, r, k), home, r, k);
    var low;
    low, entries := BatchEntries(home, r, k, paths);
    alloc := new InodeAllocator.New();
    patched := VirtualTree.BuildWith(low, alloc);
    BatchFits(home, r, k);
    BatchNamed(vocab, home, r, k, patched.ix);
    NothingMoved(before, paths, added);
    var _, _, _ := patched.ApplyChanges(vocab, paths, [], added, [], alloc);
    DifferentNames(vocab, home, r, k, patched.plan, entries);
    NotBuilt(patched.State(), patched.plan, patched.ix, entries, k);
    same := MatchesFreshBuild(patched, entries, paths, alloc);
  }

  lemma BatchNamed(vocab: Vocabulary, home: seq<Name>, r: Name, k: nat, ix: Index)
    requires Collision(home, r, k) && k + 5 < RANK_LIMIT && Allows(vocab, home, r, k)
    ensures var before, paths := Before(Low(home, r, k), home, r, k), PathsOf(AllTracks(home, r, k));
            Canonical(before) && IsDiff(vocab, before, paths, [], Nums(k), []) && Unmarked(before, ix, [], Nums(k), paths) &&
            forall t | t in Nums(k) :: t in paths
  {
    hide AllTracks, Before, Low, Odd, Fits, SuffixCandidate, Unmarked, Canonical;
    CollisionDiverges(vocab, home, r, k);
    DiffPaths(vocab, Before(Low(home, r, k), home, r, k), PathsOf(AllTracks(home, r, k)), [], Nums(k), []);
  }
}
