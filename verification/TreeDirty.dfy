/**
  The dirty set of `apply_changes`: which directories the walks mark on the old plan,
  and why every group the batch leaves out of order lies in a marked directory.
 */
module TreeDirty {
  import opened Names
  import opened TreePlan
  import opened TreeCanon
  import opened TreeRebuild

  /** `deepest_existing_ancestor`: the first `n` components exist as directories, the next does not. */
  ghost predicate IsDeepest(plan: Plan, addr: seq<Name>, n: nat) {
    n < |addr| && DirIn(plan, addr[..n]) && (n + 1 < |addr| ==> Dir(addr[..n + 1]) !in plan.slots)
  }

  /** Removal-side marks: the parent of every member that loses its introducing id, unless it is alone. */
  ghost predicate RemovalMarks(plan: Plan, removed: set<int>, marks: set<seq<Name>>) {
    forall m | m in plan.slots && Live(plan.tracks, m) && Intro(plan.tracks, m) in removed &&
               !Alone(plan, Addr(plan, m), m) ::
      Parent(plan, m) in marks
  }

  /** Add-side marks for one path: where it branches off onto a taken name, and where it lowers a minimum. */
  ghost predicate InsertionMarks(plan: Plan, t: int, addr: seq<Name>, marks: set<seq<Name>>) {
    forall n: nat | IsDeepest(plan, addr, n) ::
      (Taken(plan, addr[..n], addr[n]) ==> addr[..n] in marks) &&
      forall g | g != [] && g <= addr[..n] && Dir(g) in plan.slots && Live(plan.tracks, Dir(g)) &&
                 t < Intro(plan.tracks, Dir(g)) && !Alone(plan, g, Dir(g)) ::
        Init(g) in marks
  }

  /** A batch on a canonical plan: removals first, then ascending insertions. */
  ghost predicate Change(vocab: Vocabulary, a: Plan, removed: set<int>, ids: seq<int>, tracks: map<int, seq<Name>>, marks: set<seq<Name>>) {
    Canonical(a) && Tame(vocab, a) && Batch(vocab, RemoveSet(a, removed), ids, tracks) &&
    RemovalMarks(a, removed, marks) &&
    forall i | 0 <= i < |ids| && tracks[ids[i]] != [] :: InsertionMarks(a, ids[i], tracks[ids[i]], marks)
  }

  lemma ChangeParts(vocab: Vocabulary, a: Plan, removed: set<int>, ids: seq<int>, tracks: map<int, seq<Name>>, marks: set<seq<Name>>)
    requires Change(vocab, a, removed, ids, tracks, marks)
    ensures var r := RemoveSet(a, removed);
            Valid(a) && Tame(vocab, a) && Valid(r) && Tame(vocab, r) && Batch(vocab, r, ids, tracks)
  {
    hide Correct, Batch;
    RemoveSetValid(a, removed);
    RemoveSetTame(vocab, a, removed);
  }

  /** The deepest existing directory of an inserted path lies at or below any surviving one. */
  lemma DeepestBelow(a: Plan, addr: seq<Name>, p: seq<Name>, n: nat)
    requires WellFormed(a) && DirIn(a, p) && p < addr && IsDeepest(a, addr, n)
    ensures |p| <= n && p <= addr[..n]
  {
    hide NameOf;
    assert p == addr[..|p|];
    forall k | 1 <= k <= |p|
      ensures Dir(addr[..k]) in a.slots
    {
      DirAtPrefix(a, p, k);
      assert p[..k] == addr[..k];
    }
    assert n >= |p| ==> addr[..n][..|p|] == p;
  }

  lemma {:induction false} DeepestExists(a: Plan, addr: seq<Name>, k: nat) returns (n: nat)
    requires addr != [] && k < |addr| && DirIn(a, addr[..k])
    ensures IsDeepest(a, addr, n)
    decreases |addr| - k
  {
    if k + 1 < |addr| && Dir(addr[..k + 1]) in a.slots {
      n := DeepestExists(a, addr, k + 1);
    } else {
      n := k;
    }
  }

  /** A non-empty correct group holds its base name, so a path branching off onto it is marked. */
  lemma BaseTaken(vocab: Vocabulary, a: Plan, g: seq<Name>, m: Member)
    requires WellFormed(a) && Tame(vocab, a) && Correct(a, g) && InGroup(a, g, m)
    ensures Taken(a, Init(g), Last(g))
  {
    hide Taken, NameOf, Separate, Intro, WellFormed;
    RankAtLeastBase(a, g, m);
    BaseRange(g);
    if Base(g) == 1 {
      assert Occupied(a, g, 1) by {
        if a.slots[m] != 1 { assert Base(g) <= 1 < a.slots[m]; }
      }
    }
    GroupTaken(vocab, a, g, 1);
  }

  lemma ValidWellFormed(a: Plan)
    requires Valid(a)
    ensures WellFormed(a)
  {
  }

  lemma MarkedBranch(a: Plan, t: int, addr: seq<Name>, marks: set<seq<Name>>, n: nat)
    requires InsertionMarks(a, t, addr, marks) && IsDeepest(a, addr, n) && Taken(a, addr[..n], addr[n])
    ensures addr[..n] in marks
  {
    hide Taken, Intro, Alone;
  }

  /** A path through a populated, unmarked group branches off below that group. */
  lemma BranchesBelow(vocab: Vocabulary, a: Plan, t: int, addr: seq<Name>, marks: set<seq<Name>>, g: seq<Name>, m: Member) returns (n: nat)
    requires Valid(a) && Tame(vocab, a) && Correct(a, g) && InGroup(a, g, m) && g != [] && g <= addr
    requires InsertionMarks(a, t, addr, marks) && Init(g) !in marks && DirIn(a, Init(g))
    ensures IsDeepest(a, addr, n) && g <= addr[..n]
  {
    hide Taken, NameOf, InsertionMarks, Valid, Correct, Tame, InGroup;
    assert addr[..0] == [];
    n := DeepestExists(a, addr, 0);
    var p := Init(g);
    assert g == p + [Last(g)] && p < addr && addr[..|p|] == p && addr[|p|] == Last(g);
    DeepestBelow(a, addr, p, n) by { ValidWellFormed(a); }
    BaseTaken(vocab, a, g, m) by { ValidWellFormed(a); }
    if n == |p| { MarkedBranch(a, t, addr, marks, n); }
    assert g == addr[..|p| + 1];
  }

  /** Insertions through a populated, unmarked group only descend into its directory. */
  lemma InsertedThrough(vocab: Vocabulary, a: Plan, t: int, addr: seq<Name>, marks: set<seq<Name>>, g: seq<Name>, m: Member)
    requires Valid(a) && Tame(vocab, a) && Correct(a, g) && InGroup(a, g, m) && g != [] && g <= addr
    requires InsertionMarks(a, t, addr, marks) && Init(g) !in marks && DirIn(a, Init(g))
    ensures g < addr && Dir(g) in a.slots
    ensures !Alone(a, g, Dir(g)) ==> Live(a.tracks, Dir(g)) && Intro(a.tracks, Dir(g)) <= t
  {
    hide Taken, NameOf, Intro, WellFormed, Alone, Correct, Tame;
    var n := BranchesBelow(vocab, a, t, addr, marks, g, m);
    assert g == addr[..n][..|g|];
    DirAtPrefix(a, addr[..n], |g|);
  }

  lemma DirAtPrefix(a: Plan, q: seq<Name>, k: nat)
    requires WellFormed(a) && DirIn(a, q) && 1 <= k <= |q|
    ensures Dir(q[..k]) in a.slots
  {
    hide NameOf;
    if k < |q| { AncestorsPresent(a, Dir(q), k); } else { assert q[..k] == q; }
  }

  lemma TrackParent(r: Plan, u: int, g: seq<Name>)
    requires Valid(r) && u in r.tracks && g <= r.tracks[u] && g != []
    ensures DirIn(r, Init(g))
  {
    hide Valid, NameOf;
    var p := Init(g);
    if p != [] {
      assert g == p + [Last(g)];
      assert p < r.tracks[u];
      assert Live(r.tracks, Dir(p));
      ValidMembers(r, Dir(p));
    }
  }

  /** A group whose directory the removals took away holds only inserted tracks. */
  lemma GoneFilled(vocab: Vocabulary, r: Plan, ids: seq<int>, tracks: map<int, seq<Name>>, g: seq<Name>)
    requires Valid(r) && Tame(vocab, r) && Batch(vocab, r, ids, tracks) && g != [] && !DirIn(r, Init(g))
    ensures Correct(InsertAll(r, ids, tracks), g)
  {
    hide Valid, Tame, Correct, Batch, InsertAll;
    forall u | u in r.tracks
      ensures g <= r.tracks[u] ==> DirIn(r, Init(g))
    {
      if g <= r.tracks[u] { TrackParent(r, u, g); }
    }
    AscendingFill(vocab, r, ids, tracks, g);
  }

  lemma TrackGroup(a: Plan, u: int, g: seq<Name>)
    requires Valid(a) && u in a.tracks && g <= a.tracks[u] && g != []
    ensures InGroup(a, g, if g == a.tracks[u] then File(u) else Dir(g))
  {
    hide NameOf;
    assert File(u) in a.slots;
    if g < a.tracks[u] {
      assert Live(a.tracks, Dir(g));
      ValidMembers(a, Dir(g));
    }
  }

  lemma EmptyGroupNoTracks(a: Plan, g: seq<Name>)
    requires Valid(a) && g != [] && forall m :: !InGroup(a, g, m)
    ensures forall u | u in a.tracks :: !(g <= a.tracks[u])
  {
    hide Valid;
    forall u | u in a.tracks && g <= a.tracks[u]
      ensures exists m :: InGroup(a, g, m)
    {
      TrackGroup(a, u, g);
    }
  }

  lemma FewerTracks(a: Plan, removed: set<int>, g: seq<Name>)
    requires forall u | u in a.tracks :: !(g <= a.tracks[u])
    ensures forall u | u in RemoveSet(a, removed).tracks :: !(g <= RemoveSet(a, removed).tracks[u])
  {
    RemovedTracks(a, removed);
  }

  /** An unmarked populated group whose members are not alone keeps its order through the batch. */
  lemma CrowdedKept(vocab: Vocabulary, a: Plan, removed: set<int>, ids: seq<int>, tracks: map<int, seq<Name>>, marks: set<seq<Name>>,
                    g: seq<Name>, m: Member)
    requires Change(vocab, a, removed, ids, tracks, marks) && g != [] && InGroup(a, g, m) && Init(g) !in marks
    requires DirIn(a, Init(g)) && forall x :: !Alone(a, g, x)
    ensures Correct(InsertAll(RemoveSet(a, removed), ids, tracks), g)
  {
    hide Tame, WordPath, Alone, Intro, WellFormed, InsertAll, Correct, RemovalMarks, InsertionMarks, RemoveSet;
    var r := RemoveSet(a, removed);
    ChangeParts(vocab, a, removed, ids, tracks, marks);
    forall x | InGroup(a, g, x)
      ensures Intro(a.tracks, x) !in removed
    {
      KeptIntro(a, removed, marks, g, x);
    }
    assert Correct(a, g);
    RemoveUnmoved(a, removed, g);
    forall i | 0 <= i < |ids| && g <= tracks[ids[i]]
      ensures g < tracks[ids[i]] && Dir(g) in r.slots && Intro(r.tracks, Dir(g)) < ids[i]
    {
      CrowdedInsert(vocab, a, removed, ids, tracks, marks, g, m, i);
    }
    ThroughKept(vocab, r, ids, tracks, g);
  }

  lemma KeptIntro(a: Plan, removed: set<int>, marks: set<seq<Name>>, g: seq<Name>, x: Member)
    requires Valid(a) && RemovalMarks(a, removed, marks) && InGroup(a, g, x) && Init(g) !in marks
    requires !Alone(a, g, x)
    ensures Live(a.tracks, x) && Intro(a.tracks, x) !in removed
  {
    hide Alone, Intro, NameOf, WellFormed;
  }

  lemma CrowdedInsert(vocab: Vocabulary, a: Plan, removed: set<int>, ids: seq<int>, tracks: map<int, seq<Name>>, marks: set<seq<Name>>,
                      g: seq<Name>, m: Member, i: nat)
    requires Change(vocab, a, removed, ids, tracks, marks) && g != [] && InGroup(a, g, m) && Init(g) !in marks
    requires DirIn(a, Init(g)) && (forall x :: !Alone(a, g, x)) && i < |ids| && g <= tracks[ids[i]]
    ensures g < tracks[ids[i]]
    ensures var r := RemoveSet(a, removed);
            Dir(g) in r.slots && Live(r.tracks, Dir(g)) && Intro(r.tracks, Dir(g)) < ids[i]
  {
    hide Tame, Alone, Intro, WellFormed, Correct, RemovalMarks, InsertionMarks, WordPath;
    var t, d := ids[i], Dir(g);
    ChangeParts(vocab, a, removed, ids, tracks, marks);
    assert Correct(a, g);
    InsertedThrough(vocab, a, t, tracks[t], marks, g, m);
    KeptIntro(a, removed, marks, g, d);
    RemoveKeepsIntro(a, removed, d);
    assert Under(a.tracks, d, Intro(a.tracks, d));
    assert t !in RemoveSet(a, removed).tracks;
    RemovedTracks(a, removed);
  }

  /** An unmarked group whose one member is alone keeps it, loses it, or is filled afresh. */
  lemma AloneChange(vocab: Vocabulary, a: Plan, removed: set<int>, ids: seq<int>, tracks: map<int, seq<Name>>, marks: set<seq<Name>>,
                    g: seq<Name>, m: Member)
    requires Change(vocab, a, removed, ids, tracks, marks) && g != [] && Alone(a, g, m) && Init(g) !in marks
    requires DirIn(a, Init(g))
    ensures Correct(InsertAll(RemoveSet(a, removed), ids, tracks), g)
  {
    hide Tame, WordPath, Intro, Valid, InsertAll, Correct, RemovalMarks, InsertionMarks, RemoveSet;
    var r := RemoveSet(a, removed);
    ChangeParts(vocab, a, removed, ids, tracks, marks);
    assert InGroup(a, g, m) && Correct(a, g);
    forall i | 0 <= i < |ids| && g <= tracks[ids[i]]
      ensures g < tracks[ids[i]] && m == Dir(g)
    {
      InsertedThrough(vocab, a, ids[i], tracks[ids[i]], marks, g, m);
      assert InGroup(a, g, Dir(g));
    }
    RemoveAlone(a, removed, g, m);
    if Alone(r, g, m) {
      AloneCorrectIn(r, g, m);
      if m == Dir(g) { AloneKept(vocab, r, ids, tracks, g); } else { ThroughKept(vocab, r, ids, tracks, g); }
    } else {
      EmptyGroupNoTracks(r, g);
      AscendingFill(vocab, r, ids, tracks, g);
    }
  }

  lemma AloneCorrectIn(r: Plan, g: seq<Name>, m: Member)
    requires Valid(r) && Alone(r, g, m)
    ensures Correct(r, g)
  {
    hide WellFormed, Base;
    AloneCorrect(r, g, m);
  }

  /**
    Soundness of the dirty set: after the batch every group is ranked as in a fresh
    build, except in marked directories that survived the removals.
   */
  lemma DirtySound(vocab: Vocabulary, a: Plan, removed: set<int>, ids: seq<int>, tracks: map<int, seq<Name>>, marks: set<seq<Name>>,
                   g: seq<Name>)
    requires Change(vocab, a, removed, ids, tracks, marks) && g != []
    ensures var r := RemoveSet(a, removed);
            Correct(InsertAll(r, ids, tracks), g) || (Init(g) in marks && DirIn(r, Init(g)))
  {
    hide Change, Tame, Batch, Alone, Valid, InsertAll, Correct, InGroup;
    var r := RemoveSet(a, removed);
    ChangeParts(vocab, a, removed, ids, tracks, marks);
    if !DirIn(r, Init(g)) {
      GoneFilled(vocab, r, ids, tracks, g);
    } else if Init(g) !in marks {
      if m :| InGroup(a, g, m) {
        if x :| Alone(a, g, x) {
          AloneChange(vocab, a, removed, ids, tracks, marks, g, x);
        } else {
          CrowdedKept(vocab, a, removed, ids, tracks, marks, g, m);
        }
      } else {
        EmptyGroupNoTracks(a, g);
        FewerTracks(a, removed, g);
        AscendingFill(vocab, r, ids, tracks, g);
      }
    }
  }
}
