/**
  Batches of removals and insertions, subtree rebuilds, and which directories must be
  rebuilt after a batch so that the plan is again the one a fresh build makes.
 */
module TreeRebuild {
  import opened Collections
  import opened Names
  import opened TreePlan
  import opened TreeCanon

  // ----- Removals ---------------------------------------------------------------------

  lemma RemoveSetTame(vocab: Vocabulary, plan: Plan, ids: set<int>)
    requires Tame(vocab, plan)
    ensures Tame(vocab, RemoveSet(plan, ids))
  {
    hide Separate, NameOf;
    RemoveSetNames(plan, ids);
    var q := RemoveSet(plan, ids);
    assert q.tracks.Keys == plan.tracks.Keys - ids;
    SubsetSize(q.tracks.Keys, plan.tracks.Keys);
  }

  /** A removal that takes no introducing id of a group leaves that group as it is. */
  lemma RemoveUnmoved(plan: Plan, ids: set<int>, g: seq<Name>)
    requires Valid(plan) && Correct(plan, g)
    requires forall m | InGroup(plan, g, m) :: Intro(plan.tracks, m) !in ids
    ensures var q := RemoveSet(plan, ids); Correct(q, g) && SameRanks(plan, q, g) && SameIntros(plan, q, g)
  {
    hide NameOf, Intro;
    var q := RemoveSet(plan, ids);
    RemoveSetNames(plan, ids);
    forall m | InGroup(plan, g, m)
      ensures InGroup(q, g, m) && Live(q.tracks, m) && Intro(q.tracks, m) == Intro(plan.tracks, m)
    {
      RemoveKeepsIntro(plan, ids, m);
    }
    CorrectSame(plan, q, g);
  }

  lemma RemoveKeepsIntro(plan: Plan, ids: set<int>, m: Member)
    requires Live(plan.tracks, m) && Intro(plan.tracks, m) !in ids
    ensures var q := RemoveSet(plan, ids);
            Live(q.tracks, m) && Intro(q.tracks, m) == Intro(plan.tracks, m) && Addr(q, m) == Addr(plan, m)
  {
    var a, b := plan.tracks, RemoveSet(plan, ids).tracks;
    var i := Intro(a, m);
    assert Under(a, m, i) && i in b;
    if m.Dir? { assert i in b && m.path < b[i]; }
    assert Under(b, m, i);
    assert Under(b, m, Intro(b, m)) && Under(a, m, Intro(b, m));
  }

  /** A member alone in its group stays alone in it, or leaves it empty. */
  lemma RemoveAlone(plan: Plan, ids: set<int>, g: seq<Name>, m: Member)
    requires Valid(plan) && Alone(plan, g, m)
    ensures var q := RemoveSet(plan, ids); Alone(q, g, m) || forall x :: !InGroup(q, g, x)
  {
    hide NameOf, Base, Valid, Live;
    var q := RemoveSet(plan, ids);
    RemoveSetNames(plan, ids);
    assert InGroup(plan, g, m);
    assert forall x :: InGroup(q, g, x) ==> InGroup(plan, g, x);
    assert m in q.slots ==> InGroup(q, g, m);
  }

  // ----- Batches of insertions -------------------------------------------------------------

  ghost function InsertPath(plan: Plan, t: int, addr: seq<Name>): Plan {
    if addr == [] then plan else Insert(plan, t, addr)
  }

  ghost predicate Insertable(ids: seq<int>, tracks: map<int, seq<Name>>) {
    forall i | 0 <= i < |ids| :: ids[i] in tracks
  }

  ghost function InsertAll(plan: Plan, ids: seq<int>, tracks: map<int, seq<Name>>): Plan
    requires Insertable(ids, tracks)
  {
    if ids == [] then plan
    else
      var t := ids[|ids| - 1];
      InsertPath(InsertAll(plan, ids[..|ids| - 1], tracks), t, tracks[t])
  }

  predicate Ascending(ids: seq<int>) { forall i, j | 0 <= i < j < |ids| :: ids[i] < ids[j] }

  /** The batch: ascending new ids whose paths are over the vocabulary or materialize nothing. */
  ghost predicate Batch(vocab: Vocabulary, plan: Plan, ids: seq<int>, tracks: map<int, seq<Name>>) {
    Insertable(ids, tracks) && Ascending(ids) &&
    (forall i | 0 <= i < |ids| :: ids[i] !in plan.tracks && (tracks[ids[i]] == [] || WordPath(vocab, tracks[ids[i]]))) &&
    |plan.tracks| + |ids| + 3 < RANK_LIMIT
  }

  lemma BatchPrefix(vocab: Vocabulary, plan: Plan, ids: seq<int>, tracks: map<int, seq<Name>>)
    requires Batch(vocab, plan, ids, tracks) && ids != []
    ensures Batch(vocab, plan, ids[..|ids| - 1], tracks)
  {
    hide WordPath;
  }

  lemma {:induction false} InsertAllTracks(plan: Plan, ids: seq<int>, tracks: map<int, seq<Name>>)
    requires Insertable(ids, tracks)
    ensures var q := InsertAll(plan, ids, tracks);
            (forall t :: t in q.tracks <==> t in plan.tracks || (t in ids && tracks[t] != [])) &&
            (forall t | t in q.tracks ::
               q.tracks[t] == if t in ids && tracks[t] != [] then tracks[t] else plan.tracks[t]) &&
            |q.tracks| <= |plan.tracks| + |ids|
  {
    hide FirstFree;
    if ids != [] {
      var init, t := ids[..|ids| - 1], ids[|ids| - 1];
      InsertAllTracks(plan, init, tracks);
      assert ids == init + [t];
      InsertPathTracks(InsertAll(plan, init, tracks), t, tracks[t]);
    }
  }

  lemma {:induction false} AddDirsTracks(plan: Plan, addr: seq<Name>, n: nat)
    requires n <= |addr|
    ensures AddDirs(plan, addr, n).tracks == plan.tracks
  {
    hide FirstFree, IsFirstFree;
    if n > 0 { AddDirsTracks(plan, addr, n - 1); }
  }

  lemma InsertPathTracks(plan: Plan, t: int, addr: seq<Name>)
    ensures InsertPath(plan, t, addr).tracks == if addr == [] then plan.tracks else plan.tracks[t := addr]
  {
    hide FirstFree, IsFirstFree, AddDirs;
    if addr != [] { AddDirsTracks(plan, addr, |addr| - 1); }
  }

  lemma {:induction false} InsertAllValid(vocab: Vocabulary, plan: Plan, ids: seq<int>, tracks: map<int, seq<Name>>)
    requires Valid(plan) && Tame(vocab, plan) && Batch(vocab, plan, ids, tracks)
    ensures Valid(InsertAll(plan, ids, tracks)) && Tame(vocab, InsertAll(plan, ids, tracks))
  {
    hide Insert, WordPath, Valid, Tame;
    if ids != [] {
      BatchPrefix(vocab, plan, ids, tracks);
      var init, t := ids[..|ids| - 1], ids[|ids| - 1];
      InsertAllValid(vocab, plan, init, tracks);
      InsertAllTracks(plan, init, tracks);
      var q := InsertAll(plan, init, tracks);
      assert t !in init;
      if tracks[t] != [] {
        WordComponents(vocab, tracks[t]);
        InsertValidTame(vocab, q, t, tracks[t]);
      }
    }
  }

  lemma InsertValidTame(vocab: Vocabulary, plan: Plan, t: int, addr: seq<Name>)
    requires Valid(plan) && Tame(vocab, plan) && WordPath(vocab, addr) && addr != [] && t !in plan.tracks
    requires |plan.tracks| + 4 < RANK_LIMIT
    ensures Valid(Insert(plan, t, addr)) && Tame(vocab, Insert(plan, t, addr))
  {
    hide Insert, Separate;
    WordComponents(vocab, addr);
    InsertValid(plan, t, addr);
    InsertTame(vocab, plan, t, addr);
  }

  /** One more insertion of a batch, with what the previous ones left. */
  lemma BatchStep(vocab: Vocabulary, plan: Plan, ids: seq<int>, tracks: map<int, seq<Name>>) returns (q: Plan, t: int, addr: seq<Name>)
    requires Valid(plan) && Tame(vocab, plan) && Batch(vocab, plan, ids, tracks) && ids != []
    ensures Batch(vocab, plan, ids[..|ids| - 1], tracks) && q == InsertAll(plan, ids[..|ids| - 1], tracks)
    ensures Valid(q) && Tame(vocab, q) && t == ids[|ids| - 1] && addr == tracks[t] && t !in q.tracks
    ensures forall u | u in q.tracks && u !in plan.tracks :: u < t && u in ids && q.tracks[u] == tracks[u]
    ensures forall u | u in plan.tracks :: u in q.tracks && q.tracks[u] == plan.tracks[u]
    ensures InsertAll(plan, ids, tracks) == InsertPath(q, t, addr)
    ensures addr != [] ==> WordPath(vocab, addr) && AreComponents(addr)
  {
    hide Insert, Valid, Tame, WordPath;
    BatchPrefix(vocab, plan, ids, tracks);
    var init := ids[..|ids| - 1];
    q, t := InsertAll(plan, init, tracks), ids[|ids| - 1];
    addr := tracks[t];
    InsertAllValid(vocab, plan, init, tracks);
    InsertAllTracks(plan, init, tracks);
    assert forall u | u in init :: u in ids && u < t;
    if addr != [] { WordComponents(vocab, addr); }
  }

  /** A group with no track at all is filled in ascending order, hence correctly. */
  lemma {:induction false} AscendingFill(vocab: Vocabulary, plan: Plan, ids: seq<int>, tracks: map<int, seq<Name>>, g: seq<Name>)
    requires Valid(plan) && Tame(vocab, plan) && Batch(vocab, plan, ids, tracks) && g != []
    requires forall u | u in plan.tracks :: !(g <= plan.tracks[u])
    ensures Correct(InsertAll(plan, ids, tracks), g)
    decreases |ids|
  {
    hide Insert, Valid, Tame, WordPath, Correct, Batch;
    if ids == [] {
      NoTracksNoGroup(plan, g);
      EmptyGroupCorrect(plan, g);
    } else {
      var q, t, addr := BatchStep(vocab, plan, ids, tracks);
      AscendingFill(vocab, plan, ids[..|ids| - 1], tracks, g);
      if g <= addr {
        InsertAscending(vocab, q, t, addr, g);
      } else if addr != [] {
        InsertUnmoved(q, t, addr, g);
      }
    }
  }

  lemma NoTracksNoGroup(plan: Plan, g: seq<Name>)
    requires Valid(plan) && forall u | u in plan.tracks :: !(g <= plan.tracks[u])
    ensures forall x :: !InGroup(plan, g, x)
  {
    hide NameOf;
    forall x | x in plan.slots
      ensures Addr(plan, x) != g
    {
      if x.Dir? {
        var t :| t in plan.tracks && x.path < plan.tracks[t];
        assert !(g <= plan.tracks[t]);
      } else {
        assert Live(plan.tracks, x);
      }
    }
  }

  /** Insertions below a directory, each later than its introducing id, keep its group correct. */
  lemma {:induction false} ThroughKept(vocab: Vocabulary, plan: Plan, ids: seq<int>, tracks: map<int, seq<Name>>, g: seq<Name>)
    requires Valid(plan) && Tame(vocab, plan) && Batch(vocab, plan, ids, tracks) && g != [] && Correct(plan, g)
    requires forall i | 0 <= i < |ids| && g <= tracks[ids[i]] ::
               g < tracks[ids[i]] && Dir(g) in plan.slots && Intro(plan.tracks, Dir(g)) < ids[i]
    ensures var q := InsertAll(plan, ids, tracks);
            Correct(q, g) && (Dir(g) in plan.slots ==>
              Dir(g) in q.slots && Intro(q.tracks, Dir(g)) == Intro(plan.tracks, Dir(g)))
    decreases |ids|
  {
    hide Insert, Tame, WordPath, Correct, Batch, Intro, WellFormed;
    if ids != [] {
      var q, t, addr := BatchStep(vocab, plan, ids, tracks);
      ThroughKept(vocab, plan, ids[..|ids| - 1], tracks, g);
      if addr != [] {
        ThroughStep(q, t, addr, g);
      }
    }
  }

  lemma ThroughStep(q: Plan, t: int, addr: seq<Name>, g: seq<Name>)
    requires Valid(q) && g != [] && Correct(q, g) && addr != [] && AreComponents(addr) && t !in q.tracks
    requires g <= addr ==> g < addr && Dir(g) in q.slots && Intro(q.tracks, Dir(g)) < t
    ensures var r := Insert(q, t, addr);
            Correct(r, g) && (Dir(g) in q.slots ==>
              Dir(g) in r.slots && Live(r.tracks, Dir(g)) && Intro(r.tracks, Dir(g)) == Intro(q.tracks, Dir(g)))
  {
    hide Insert, Correct, Intro;
    InsertUnmoved(q, t, addr, g);
    InsertValid(q, t, addr);
    InsertWellFormed(q, t, addr);
    if Dir(g) in q.slots {
      InsertMembers(q, t, addr, Dir(g));
      IntroKept(q.tracks, Dir(g), t, addr);
    }
  }

  /** A directory alone in its group keeps it to itself while tracks are only inserted below it. */
  lemma {:induction false} AloneKept(vocab: Vocabulary, plan: Plan, ids: seq<int>, tracks: map<int, seq<Name>>, g: seq<Name>)
    requires Valid(plan) && Tame(vocab, plan) && Batch(vocab, plan, ids, tracks) && g != [] && Alone(plan, g, Dir(g))
    requires forall i | 0 <= i < |ids| && g <= tracks[ids[i]] :: g < tracks[ids[i]]
    ensures var q := InsertAll(plan, ids, tracks); Alone(q, g, Dir(g)) && Correct(q, g)
    decreases |ids|
  {
    hide Insert, Tame, WordPath, Correct, Batch, WellFormed, Alone;
    if ids == [] {
      AloneLive(plan, g);
    } else {
      var q, t, addr := BatchStep(vocab, plan, ids, tracks);
      AloneKept(vocab, plan, ids[..|ids| - 1], tracks, g);
      if addr != [] {
        if g < addr { InsertBelowSingleton(q, t, addr, g); } else { AloneElsewhere(q, t, addr, g); }
      }
    }
  }

  lemma AloneLive(plan: Plan, g: seq<Name>)
    requires Valid(plan) && Alone(plan, g, Dir(g))
    ensures Correct(plan, g)
  {
    hide Base, WellFormed;
    AloneCorrect(plan, g, Dir(g));
  }

  lemma AloneElsewhere(plan: Plan, t: int, addr: seq<Name>, g: seq<Name>)
    requires Valid(plan) && Alone(plan, g, Dir(g)) && g != [] && !(g <= addr)
    requires addr != [] && AreComponents(addr) && t !in plan.tracks
    ensures Alone(Insert(plan, t, addr), g, Dir(g)) && Correct(Insert(plan, t, addr), g)
  {
    hide Insert, Base, NameOf;
    InsertValid(plan, t, addr);
    forall x
      ensures InGroup(Insert(plan, t, addr), g, x) <==> InGroup(plan, g, x)
    {
      InsertGroup(plan, t, addr, g, x);
    }
    assert InGroup(plan, g, Dir(g));
    InsertGroup(plan, t, addr, g, Dir(g));
    AloneLive(Insert(plan, t, addr), g);
  }

  // ----- Canonical plans are unique ------------------------------------------------------------

  ghost predicate RanksAgreeBelow(a: Plan, b: Plan, g: seq<Name>, k: nat) {
    forall m | InGroup(a, g, m) && InGroup(b, g, m) ::
      (a.slots[m] < k ==> b.slots[m] == a.slots[m]) && (b.slots[m] < k ==> b.slots[m] == a.slots[m])
  }

  /** Two correct rankings of one group cannot first differ at rank `k`. */
  lemma RankForced(a: Plan, b: Plan, g: seq<Name>, m: Member, k: nat)
    requires Valid(a) && Valid(b) && a.tracks == b.tracks && Correct(a, g) && Correct(b, g)
    requires forall x :: InGroup(a, g, x) <==> InGroup(b, g, x)
    requires InGroup(a, g, m) && RanksAgreeBelow(a, b, g, k) && a.slots[m] == k
    ensures b.slots[m] == k
  {
    hide Intro, NameOf, Base, Addr, FilesAreTracks, Shaped, Rooted;
    if b.slots[m] > k {
      RankAtLeastBase(a, g, m);
      assert Occupied(b, g, k);
      var n :| InGroup(b, g, n) && b.slots[n] == k;
      RanksDistinct(a, g, m, n);
      assert a.slots[n] > k;
      NeighboursDiffer(a, g, m, n);
    }
  }

  lemma {:induction false} RanksAgree(a: Plan, b: Plan, g: seq<Name>, k: nat)
    requires Valid(a) && Valid(b) && a.tracks == b.tracks && Correct(a, g) && Correct(b, g)
    requires forall x :: InGroup(a, g, x) <==> InGroup(b, g, x)
    ensures RanksAgreeBelow(a, b, g, k)
  {
    hide Valid, Correct, Addr;
    if k > 0 {
      RanksAgree(a, b, g, k - 1);
      forall m | InGroup(a, g, m) && InGroup(b, g, m)
        ensures a.slots[m] == k - 1 ==> b.slots[m] == k - 1
        ensures b.slots[m] == k - 1 ==> a.slots[m] == k - 1
      {
        if a.slots[m] == k - 1 { RankForced(a, b, g, m, k - 1); }
        if b.slots[m] == k - 1 { RankForced(b, a, g, m, k - 1); }
      }
    }
  }

  lemma SameMembers(a: Plan, b: Plan, m: Member)
    requires Valid(a) && Valid(b) && a.tracks == b.tracks && m in a.slots
    ensures m in b.slots && Addr(a, m) == Addr(b, m)
  {
    hide NameOf;
    ValidMembers(b, m);
  }

  /** The tracks alone determine the canonical plan. */
  lemma CanonicalUnique(a: Plan, b: Plan)
    requires Canonical(a) && Canonical(b) && a.tracks == b.tracks
    ensures a == b
  {
    hide Correct, Valid;
    forall m
      ensures m in a.slots <==> m in b.slots
      ensures m in a.slots && m in b.slots ==> a.slots[m] == b.slots[m]
    {
      if m in a.slots { SameMembers(a, b, m); }
      if m in b.slots { SameMembers(b, a, m); }
      if m in a.slots { CanonicalRank(a, b, m); }
    }
  }

  lemma CanonicalRank(a: Plan, b: Plan, m: Member)
    requires Canonical(a) && Canonical(b) && a.tracks == b.tracks && m in a.slots && m in b.slots
    ensures a.slots[m] == b.slots[m]
  {
    hide Correct, Valid;
    var g := Addr(a, m);
    forall x
      ensures InGroup(a, g, x) <==> InGroup(b, g, x)
    {
      if x in a.slots { SameMembers(a, b, x); }
      if x in b.slots { SameMembers(b, a, x); }
    }
    assert Correct(a, g) && Correct(b, g);
    RanksAgree(a, b, g, a.slots[m] + 1);
    assert InGroup(a, g, m) && InGroup(b, g, m);
  }

  // ----- Subtree rebuilds -------------------------------------------------------------------------

  predicate Inside(plan: Plan, d: Member, m: Member) { d.Dir? && d.path < Addr(plan, m) }

  /** The tracks a rebuild of `d` takes out and puts back, in ascending order. */
  ghost predicate TracksBelow(plan: Plan, d: Member, ids: seq<int>) {
    Ascending(ids) && forall t :: t in ids <==> Under(plan.tracks, d, t)
  }

  ghost function SetOf(ids: seq<int>): set<int> { set t | t in ids }

  ghost function RebuildPlan(plan: Plan, ids: seq<int>, tracks: map<int, seq<Name>>): Plan
    requires Insertable(ids, tracks)
  {
    InsertAll(RemoveSet(plan, SetOf(ids)), ids, tracks)
  }

  /** `tracks` still gives the rebuilt ids the components they had. */
  ghost predicate Rebuildable(vocab: Vocabulary, plan: Plan, d: Member, ids: seq<int>, tracks: map<int, seq<Name>>) {
    Valid(plan) && Tame(vocab, plan) && MemberIn(plan, d) && TracksBelow(plan, d, ids) &&
    forall i | 0 <= i < |ids| ::
      ids[i] in tracks && ids[i] in plan.tracks && tracks[ids[i]] == plan.tracks[ids[i]]
  }

  lemma RemovedTracks(plan: Plan, s: set<int>)
    ensures forall t :: t in RemoveSet(plan, s).tracks <==> t in plan.tracks && t !in s
    ensures forall t | t in RemoveSet(plan, s).tracks :: RemoveSet(plan, s).tracks[t] == plan.tracks[t]
    ensures s <= plan.tracks.Keys ==> |RemoveSet(plan, s).tracks| == |plan.tracks| - |s|
  {
    var r := RemoveSet(plan, s);
    assert r.tracks.Keys == plan.tracks.Keys - s;
    assert s <= plan.tracks.Keys ==> |r.tracks.Keys| == |plan.tracks.Keys| - |s|;
  }

  lemma {:induction false} AscendingSize(ids: seq<int>)
    requires Ascending(ids)
    ensures |SetOf(ids)| == |ids|
  {
    if ids != [] {
      var init, t := ids[..|ids| - 1], ids[|ids| - 1];
      AscendingSize(init);
      assert ids == init + [t];
      assert forall u :: u in SetOf(ids) <==> u in SetOf(init) + {t};
      assert SetOf(ids) == SetOf(init) + {t};
      assert t !in SetOf(init);
    }
  }

  /** `p` lacks exactly the member `n` of group `g` in `b`. */
  ghost predicate Lacks(b: Plan, p: Plan, g: seq<Name>, n: Member) {
    (forall m :: InGroup(p, g, m) <==> InGroup(b, g, m) && m != n) &&
    (forall m | InGroup(p, g, m) :: m in b.slots && p.slots[m] == b.slots[m])
  }

  lemma LackingOccupied(b: Plan, p: Plan, g: seq<Name>, n: Member, j: nat)
    requires Dense(b, g) && InGroup(b, g, n) && Lacks(b, p, g, n) && Base(g) <= j < b.slots[n]
    ensures Occupied(p, g, j)
  {
    hide Base, Addr;
    assert Occupied(b, g, j);
    var m :| InGroup(b, g, m) && b.slots[m] == j;
    assert InGroup(p, g, m);
  }

  lemma LackingFree(b: Plan, p: Plan, g: seq<Name>, n: Member)
    requires WellFormed(b) && InGroup(b, g, n) && Lacks(b, p, g, n)
    ensures !Occupied(p, g, b.slots[n])
  {
    hide WellFormed, Addr;
    forall m | InGroup(p, g, m)
      ensures p.slots[m] != b.slots[n]
    {
      RanksDistinct(b, g, m, n);
    }
  }

  /** Put back into a dense group, a member gets the rank it had. */
  lemma RestoredRank(vocab: Vocabulary, b: Plan, p: Plan, g: seq<Name>, n: Member)
    requires WellFormed(b) && Dense(b, g) && InGroup(b, g, n) && Lacks(b, p, g, n)
    requires WellFormed(p) && Tame(vocab, p) && WordPath(vocab, g) && GroupLive(p, g)
    ensures FirstFree(p, g) == b.slots[n]
  {
    hide Base, Addr, FirstFree, WellFormed, Tame, WordPath, Dense, Lacks, Occupied, GroupLive;
    FirstFreeInGroup(vocab, p, g);
    RankAtLeastBase(b, g, n);
    LackingFree(b, p, g, n);
    forall j | Base(g) <= j < b.slots[n]
      ensures Occupied(p, g, j)
    {
      LackingOccupied(b, p, g, n, j);
    }
  }

  /** Part of the way through a rebuild: what is back, and at which ranks. */
  ghost predicate Restored(vocab: Vocabulary, b: Plan, d: Member, ids: seq<int>, p: Plan, n: nat)
    requires n <= |ids|
  {
    Valid(p) && Tame(vocab, p) &&
    (forall t :: t in p.tracks <==> t in b.tracks && (t !in ids || t in ids[..n])) &&
    (forall t | t in p.tracks :: t in b.tracks && p.tracks[t] == b.tracks[t]) &&
    (forall m | m in p.slots :: m in b.slots && (Inside(b, d, m) || p.slots[m] == b.slots[m])) &&
    (forall g | d.Dir? && d.path < g :: Correct(p, g))
  }

  /** The directories above `d`, and `d` itself, are ranked as a fresh build ranks them. */
  ghost predicate AboveCorrect(b: Plan, d: Member) {
    forall g | g != [] && g <= Addr(b, d) :: Correct(b, g)
  }

  lemma RemovedRestored(vocab: Vocabulary, b: Plan, d: Member, ids: seq<int>, tracks: map<int, seq<Name>>)
    requires Rebuildable(vocab, b, d, ids, tracks)
    ensures Restored(vocab, b, d, ids, RemoveSet(b, SetOf(ids)), 0)
  {
    hide NameOf, WellFormed, Correct, Tame, MemberIn;
    var p := RemoveSet(b, SetOf(ids));
    RemoveSetValid(b, SetOf(ids));
    RemoveSetTame(vocab, b, SetOf(ids));
    forall g | d.Dir? && d.path < g
      ensures Correct(p, g)
    {
      forall u | u in p.tracks
        ensures !(g <= p.tracks[u])
      {
        assert u !in ids;
      }
      NoTracksNoGroup(p, g);
      EmptyGroupCorrect(p, g);
    }
  }

  /** `m`, outside the rebuilt directory, is about to be put back by the insertion of `ids[n]`. */
  ghost predicate Returning(b: Plan, d: Member, ids: seq<int>, p: Plan, n: nat, m: Member) {
    n < |ids| && ids[n] in b.tracks && m !in p.slots && m in b.slots && !Inside(b, d, m) && Addr(b, m) != [] &&
    (m == File(ids[n]) || (m.Dir? && m.path != [] && m.path < b.tracks[ids[n]]))
  }

  /** A returning member is the only one missing from its group. */
  lemma OthersPresent(vocab: Vocabulary, b: Plan, d: Member, ids: seq<int>, p: Plan, n: nat, m: Member, x: Member)
    requires Valid(b) && MemberIn(b, d) && TracksBelow(b, d, ids) && Returning(b, d, ids, p, n, m)
    requires Restored(vocab, b, d, ids, p, n) && InGroup(b, Addr(b, m), x) && x != m
    ensures InGroup(p, Addr(b, m), x)
  {
    hide NameOf, WellFormed, Correct, Tame;
    var g := Addr(b, m);
    assert ids[n] in ids && Under(b.tracks, d, ids[n]);
    assert m.File? ==> d == m;
    ValidFiles(b);
    if x.File? {
      assert x.id in b.tracks && x.id !in ids;
    } else {
      assert Live(b.tracks, x);
      var u :| u in b.tracks && x.path < b.tracks[u];
      assert u in p.tracks && x.path < p.tracks[u];
    }
    ValidMembers(p, x);
  }

  lemma MissingFromGroup(vocab: Vocabulary, b: Plan, d: Member, ids: seq<int>, p: Plan, n: nat, m: Member, x: Member)
    requires Valid(b) && MemberIn(b, d) && TracksBelow(b, d, ids) && Returning(b, d, ids, p, n, m)
    requires Restored(vocab, b, d, ids, p, n)
    ensures InGroup(p, Addr(b, m), x) <==> InGroup(b, Addr(b, m), x) && x != m
  {
    hide NameOf, Valid, Correct, Tame, TracksBelow;
    if InGroup(b, Addr(b, m), x) && x != m {
      OthersPresent(vocab, b, d, ids, p, n, m, x);
    }
    if InGroup(p, Addr(b, m), x) && x.File? {
      PresentFile(p, x.id);
    }
  }

  lemma PresentFile(p: Plan, t: int)
    requires Valid(p) && File(t) in p.slots
    ensures t in p.tracks
  {
  }

  lemma ValidFiles(b: Plan)
    requires Valid(b)
    ensures FilesAreTracks(b)
  {
  }

  /** Outside the rebuilt directory every member comes back at the rank it had. */
  lemma ReturningRank(vocab: Vocabulary, b: Plan, d: Member, ids: seq<int>, p: Plan, n: nat, m: Member)
    requires Valid(b) && Tame(vocab, b) && MemberIn(b, d) && TracksBelow(b, d, ids) && Returning(b, d, ids, p, n, m)
    requires Restored(vocab, b, d, ids, p, n) && Correct(b, Addr(b, m))
    ensures FirstFree(p, Addr(b, m)) == b.slots[m]
  {
    hide NameOf, TracksBelow, WellFormed, FirstFree, WordPath;
    var g := Addr(b, m);
    forall x
      ensures InGroup(p, g, x) <==> InGroup(b, g, x) && x != m
    {
      MissingFromGroup(vocab, b, d, ids, p, n, m, x);
    }
    assert InGroup(b, g, m);
    forall x | InGroup(p, g, x)
      ensures x in b.slots && p.slots[x] == b.slots[x]
    {
      SameGroupOutside(b, d, m, x);
    }
    RestoredRank(vocab, b, p, g, m);
  }

  lemma SameGroupOutside(b: Plan, d: Member, m: Member, x: Member)
    requires Addr(b, m) == Addr(b, x)
    ensures Inside(b, d, m) == Inside(b, d, x)
  {
  }

  /** The state before the `n`-th insertion of a rebuild. */
  ghost predicate Restoring(vocab: Vocabulary, b: Plan, d: Member, ids: seq<int>, tracks: map<int, seq<Name>>, p: Plan, n: nat) {
    n < |ids| && Rebuildable(vocab, b, d, ids, tracks) && AboveCorrect(b, d) && Restored(vocab, b, d, ids, p, n)
  }

  lemma NextPath(vocab: Vocabulary, b: Plan, d: Member, ids: seq<int>, tracks: map<int, seq<Name>>, p: Plan, n: nat)
    requires Restoring(vocab, b, d, ids, tracks, p, n)
    ensures ids[n] in b.tracks && ids[n] !in p.tracks && File(ids[n]) in b.slots && Under(b.tracks, d, ids[n])
    ensures var addr := b.tracks[ids[n]]; addr != [] && WordPath(vocab, addr) && AreComponents(addr)
    ensures tracks[ids[n]] == b.tracks[ids[n]]
  {
    hide Correct, Tame, WordPath, TracksBelow, AboveCorrect, WellFormed;
    NextBelow(b, d, ids, n);
    NotYet(ids, n) by { BelowAscends(b, d, ids); }
    TrackWord(vocab, b, ids[n]);
    WordComponents(vocab, b.tracks[ids[n]]);
    TrackHasFile(b, ids[n]);
  }

  lemma NextBelow(b: Plan, d: Member, ids: seq<int>, n: nat)
    requires TracksBelow(b, d, ids) && n < |ids|
    ensures ids[n] in b.tracks && Under(b.tracks, d, ids[n]) && ids[n] in ids
  {
    assert ids[n] in ids;
  }

  lemma BelowAscends(b: Plan, d: Member, ids: seq<int>)
    requires TracksBelow(b, d, ids)
    ensures Ascending(ids)
  {
  }

  lemma TrackWord(vocab: Vocabulary, b: Plan, t: int)
    requires Tame(vocab, b) && t in b.tracks
    ensures WordPath(vocab, b.tracks[t])
  {
    hide WordPath, Separate;
  }

  lemma TrackHasFile(b: Plan, t: int)
    requires WellFormed(b) && t in b.tracks
    ensures File(t) in b.slots
  {
    hide NameOf;
  }

  lemma NotYet(ids: seq<int>, n: nat)
    requires Ascending(ids) && n < |ids|
    ensures ids[n] !in ids[..n]
  {
    assert forall i | 0 <= i < n :: ids[i] != ids[n];
  }

  /** An insertion of a rebuild only adds members the plan had before it. */
  lemma StepMember(vocab: Vocabulary, b: Plan, d: Member, ids: seq<int>, tracks: map<int, seq<Name>>, p: Plan, n: nat, m: Member)
    requires Restoring(vocab, b, d, ids, tracks, p, n)
    requires ids[n] in b.tracks && m in InsertPath(p, ids[n], b.tracks[ids[n]]).slots
    ensures m in b.slots
    ensures Inside(b, d, m) || InsertPath(p, ids[n], b.tracks[ids[n]]).slots[m] == b.slots[m]
  {
    hide NameOf, Correct, WordPath, Insert, WellFormed, FirstFree, AboveCorrect;
    NextPath(vocab, b, d, ids, tracks, p, n);
    var t, addr := ids[n], b.tracks[ids[n]];
    InsertMembers(p, t, addr, m);
    InsertSlots(p, t, addr, m);
    if m !in p.slots {
      if m.Dir? { assert Live(b.tracks, m); ValidMembers(b, m); }
      InsertedAddr(p, t, addr, m);
      if !Inside(b, d, m) {
        StepAbove(b, d, t, m);
        assert Returning(b, d, ids, p, n, m);
        AboveCorrectAt(b, d, Addr(b, m));
        ReturningRank(vocab, b, d, ids, p, n, m);
      }
    }
  }

  lemma InsertedAddr(p: Plan, t: int, addr: seq<Name>, m: Member)
    requires WellFormed(p) && addr != [] && AreComponents(addr) && t !in p.tracks
    requires m == File(t) || m.Dir?
    ensures Addr(Insert(p, t, addr), m) == if m.Dir? then m.path else addr
  {
    hide Insert, FirstFree, NameOf;
    InsertWellFormed(p, t, addr);
  }

  lemma AboveCorrectAt(b: Plan, d: Member, g: seq<Name>)
    requires AboveCorrect(b, d) && g != [] && g <= Addr(b, d)
    ensures Correct(b, g)
  {
  }

  lemma StepAbove(b: Plan, d: Member, t: int, m: Member)
    requires Under(b.tracks, d, t) && !Inside(b, d, m)
    requires m == File(t) || (m.Dir? && m.path < b.tracks[t])
    ensures Addr(b, m) <= Addr(b, d)
  {
    var addr := b.tracks[t];
    assert Addr(b, m) == addr[..|Addr(b, m)|];
    assert Addr(b, d) == addr[..|Addr(b, d)|];
  }

  lemma StepGroup(vocab: Vocabulary, b: Plan, d: Member, ids: seq<int>, tracks: map<int, seq<Name>>, p: Plan, n: nat, g: seq<Name>)
    requires Restoring(vocab, b, d, ids, tracks, p, n) && d.Dir? && d.path < g && ids[n] in b.tracks
    ensures Correct(InsertPath(p, ids[n], b.tracks[ids[n]]), g)
  {
    hide NameOf, Correct, WordPath, Insert, WellFormed, AboveCorrect;
    NextPath(vocab, b, d, ids, tracks, p, n);
    var t, addr := ids[n], b.tracks[ids[n]];
    assert Correct(p, g);
    if g <= addr {
      forall u | u in p.tracks && g <= p.tracks[u]
        ensures u < t
      {
        assert Under(b.tracks, d, u);
        assert u in ids && u in ids[..n];
      }
      InsertAscending(vocab, p, t, addr, g);
    } else {
      InsertUnmoved(p, t, addr, g);
    }
  }

  lemma SmallerKeys(a: map<int, seq<Name>>, b: map<int, seq<Name>>, t: int)
    requires t in b && t !in a && forall u | u in a :: u in b
    ensures |a| < |b|
  {
    assert forall u :: u in a.Keys <==> u in a.Keys * (b.Keys - {t});
    assert a.Keys == a.Keys * (b.Keys - {t});
    SubsetSize(a.Keys, b.Keys - {t});
  }

  lemma StepTracks(vocab: Vocabulary, b: Plan, d: Member, ids: seq<int>, tracks: map<int, seq<Name>>, p: Plan, n: nat)
    requires Restoring(vocab, b, d, ids, tracks, p, n) && ids[n] in b.tracks
    ensures var q := InsertPath(p, ids[n], b.tracks[ids[n]]);
            Valid(q) && Tame(vocab, q) &&
            (forall t :: t in q.tracks <==> t in b.tracks && (t !in ids || t in ids[..n + 1])) &&
            (forall t | t in q.tracks :: t in b.tracks && q.tracks[t] == b.tracks[t])
  {
    hide NameOf, Correct, WordPath, Insert, AboveCorrect, Valid, Tame, TracksBelow;
    TameBound(vocab, b);
    NextPath(vocab, b, d, ids, tracks, p, n);
    var t, addr := ids[n], b.tracks[ids[n]];
    SmallerKeys(p.tracks, b.tracks, t);
    InsertValidTame(vocab, p, t, addr);
    InsertPathTracks(p, t, addr);
    assert ids[..n + 1] == ids[..n] + [t];
  }

  lemma RestoreStep(vocab: Vocabulary, b: Plan, d: Member, ids: seq<int>, tracks: map<int, seq<Name>>, p: Plan, n: nat)
    requires Restoring(vocab, b, d, ids, tracks, p, n)
    ensures ids[n] in b.tracks && Restored(vocab, b, d, ids, InsertPath(p, ids[n], b.tracks[ids[n]]), n + 1)
  {
    hide NameOf, Correct, InsertPath, Restoring, Valid, Tame, AboveCorrect, Rebuildable;
    assert n < |ids| && Restored(vocab, b, d, ids, p, n) by { RestoringParts(vocab, b, d, ids, tracks, p, n); }
    NextPath(vocab, b, d, ids, tracks, p, n);
    var q := InsertPath(p, ids[n], b.tracks[ids[n]]);
    StepTracks(vocab, b, d, ids, tracks, p, n);
    forall m | m in q.slots
      ensures m in b.slots && (Inside(b, d, m) || q.slots[m] == b.slots[m])
    {
      StepMember(vocab, b, d, ids, tracks, p, n, m);
    }
    forall g | d.Dir? && d.path < g
      ensures Correct(q, g)
    {
      StepGroup(vocab, b, d, ids, tracks, p, n, g);
    }
  }

  lemma RestoringParts(vocab: Vocabulary, b: Plan, d: Member, ids: seq<int>, tracks: map<int, seq<Name>>, p: Plan, n: nat)
    requires Restoring(vocab, b, d, ids, tracks, p, n)
    ensures n < |ids| && Restored(vocab, b, d, ids, p, n)
  {
  }

  lemma {:induction false} RestoreRun(vocab: Vocabulary, b: Plan, d: Member, ids: seq<int>, tracks: map<int, seq<Name>>, n: nat)
    requires Rebuildable(vocab, b, d, ids, tracks) && AboveCorrect(b, d) && n <= |ids|
    ensures Restored(vocab, b, d, ids, InsertAll(RemoveSet(b, SetOf(ids)), ids[..n], tracks), n)
  {
    hide NameOf, Correct, InsertPath, Restored, AboveCorrect, Valid, Tame, TracksBelow;
    var r := RemoveSet(b, SetOf(ids));
    if n == 0 {
      RemovedRestored(vocab, b, d, ids, tracks);
    } else {
      RestoreRun(vocab, b, d, ids, tracks, n - 1);
      var p := InsertAll(r, ids[..n - 1], tracks);
      assert ids[..n][..n - 1] == ids[..n - 1];
      RestoreStep(vocab, b, d, ids, tracks, p, n - 1);
    }
  }

  /** A rebuild puts every rank outside `d` back, and leaves every group inside `d` as a fresh build ranks it. */
  lemma RebuildRestores(vocab: Vocabulary, b: Plan, d: Member, ids: seq<int>, tracks: map<int, seq<Name>>)
    requires Rebuildable(vocab, b, d, ids, tracks) && AboveCorrect(b, d)
    ensures var q := RebuildPlan(b, ids, tracks);
            Valid(q) && Tame(vocab, q) && q.tracks == b.tracks && q.slots.Keys == b.slots.Keys &&
            (forall m | m in b.slots && !Inside(b, d, m) :: q.slots[m] == b.slots[m]) &&
            (forall g | d.Dir? && d.path < g :: Correct(q, g))
  {
    hide NameOf, Correct, InsertAll, AboveCorrect, Valid, Tame;
    RestoreRun(vocab, b, d, ids, tracks, |ids|);
    assert ids[..|ids|] == ids;
    var q := RebuildPlan(b, ids, tracks);
    assert forall t :: t in q.tracks.Keys <==> t in b.tracks.Keys;
    assert forall t :: t in q.tracks ==> t in b.tracks && q.tracks[t] == b.tracks[t];
    forall m | m in b.slots
      ensures m in q.slots
    {
      SameMembers(b, q, m);
    }
  }

  /** Groups outside the rebuilt directory are as correct as they were. */
  lemma RebuildElsewhere(b: Plan, d: Member, q: Plan, g: seq<Name>)
    requires q.tracks == b.tracks && q.slots.Keys == b.slots.Keys
    requires forall m | m in b.slots && !Inside(b, d, m) :: q.slots[m] == b.slots[m]
    requires Correct(b, g) && !(d.Dir? && d.path < g)
    ensures Correct(q, g)
  {
    hide Intro;
    CorrectSame(b, q, g);
  }
}
