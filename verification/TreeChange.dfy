/**
  One refresh of the tree as an operation on plans: which changed tracks move, what the
  batch leaves, and why the dirty inodes cover every group it leaves out of order.
 */
module TreeChange {
  import opened Collections
  import opened Names
  import opened TreePlan
  import opened TreeCanon
  import opened TreeRebuild
  import opened TreeDirty
  import opened TreeGate
  import opened TreeState
  import opened TreeBuild
  import opened TreeRepair

  /** The track's file already has exactly its new rendered path. */
  ghost predicate Stable(plan: Plan, newPaths: map<int, string>, t: int) {
    t in plan.tracks && t in newPaths && PathOf(plan, File(t)) == newPaths[t]
  }

  /** The changed tracks to take out of the tree, in order. */
  ghost function MovedOut(plan: Plan, newPaths: map<int, string>, changed: seq<int>): seq<int> {
    if changed == [] then []
    else
      var t := changed[|changed| - 1];
      MovedOut(plan, newPaths, changed[..|changed| - 1]) +
      if t in plan.tracks && !Stable(plan, newPaths, t) then [t] else []
  }

  /** The changed tracks to insert, in order. */
  ghost function MovedIn(plan: Plan, newPaths: map<int, string>, changed: seq<int>): seq<int> {
    if changed == [] then []
    else
      var t := changed[|changed| - 1];
      MovedIn(plan, newPaths, changed[..|changed| - 1]) + if !Stable(plan, newPaths, t) then [t] else []
  }

  lemma {:induction false} Moved(plan: Plan, newPaths: map<int, string>, changed: seq<int>)
    requires Distinct(changed)
    ensures forall t :: t in MovedOut(plan, newPaths, changed) <==> t in changed && t in plan.tracks && !Stable(plan, newPaths, t)
    ensures forall t :: t in MovedIn(plan, newPaths, changed) <==> t in changed && !Stable(plan, newPaths, t)
    ensures Distinct(MovedIn(plan, newPaths, changed))
  {
    hide PathOf;
    if changed != [] {
      var init, t := changed[..|changed| - 1], changed[|changed| - 1];
      assert changed == init + [t];
      Moved(plan, newPaths, init);
      assert t !in init;
    }
  }

  lemma WordUnranked(names: iset<Name>, name: Name, rendered: Name, k: nat)
    requires Unambiguous(names) && name in names && rendered in names && k < RANK_LIMIT && name == SlotName(rendered, k)
    ensures name == rendered
  {
    hide SuffixCandidate;
  }

  /** A rendered name is only ever the name of a member of rank 1. */
  lemma WordNameUnranked(vocab: Vocabulary, plan: Plan, m: Member)
    requires Tame(vocab, plan) && m in plan.slots && NameOf(plan, m) in vocab(Init(Addr(plan, m)))
    ensures NameOf(plan, m) == Rendered(plan, m)
  {
    hide SuffixCandidate, IsSuffixShaped;
    LastWord(vocab, Addr(plan, m));
    WordUnranked(vocab(Init(Addr(plan, m))), NameOf(plan, m), Rendered(plan, m), plan.slots[m]);
  }

  lemma {:induction false} WordNamesUnranked(vocab: Vocabulary, plan: Plan, p: seq<Name>)
    requires WellFormed(plan) && Tame(vocab, plan) && DirIn(plan, p)
    requires Worded(vocab, DirNames(plan, p))
    ensures DirNames(plan, p) == p
    decreases |p|
  {
    hide Separate, NameOf, Tame, SiblingsDistinct, RootUnreserved, FilesAreTracks;
    if p != [] {
      assert Parent(plan, Dir(p)) == Init(p);
      var init := DirNames(plan, Init(p));
      PrefixWorded(vocab, DirNames(plan, p), init);
      WordNamesUnranked(vocab, plan, Init(p));
      assert NameOf(plan, Dir(p)) == DirNames(plan, p)[|init|] && DirNames(plan, p)[..|init|] == init;
      WordNameUnranked(vocab, plan, Dir(p));
      assert p == Init(p) + [Last(p)];
    }
  }

  /** A path over the vocabulary that a file already has is the path it rendered. */
  lemma StablePath(vocab: Vocabulary, plan: Plan, newPaths: map<int, string>, t: int)
    requires WellFormed(plan) && Tame(vocab, plan) && Stable(plan, newPaths, t) && WordRendered(vocab, newPaths[t])
    ensures TreeKeys(newPaths[t]) == plan.tracks[t]
  {
    hide Separate, NameOf, Tame, SiblingsDistinct, RootUnreserved, PathComponents, PathOf, Shaped, TreeKeys;
    var m, names := File(t), NamePath(plan, File(t));
    assert m in plan.slots && Addr(plan, m) == plan.tracks[t];
    TameBound(vocab, plan);
    PathParts(vocab, plan, m);
    WordKeys(vocab, newPaths[t]);
    ParentIn(plan, m);
    var init := DirNames(plan, Parent(plan, m));
    PrefixWorded(vocab, names, init);
    WordNamesUnranked(vocab, plan, Parent(plan, m));
    assert NameOf(plan, m) == names[|init|] && names[..|init|] == init;
    WordNameUnranked(vocab, plan, m);
    assert plan.tracks[t] == Init(plan.tracks[t]) + [Last(plan.tracks[t])] by { NonemptyTrack(plan, t); }
  }

  lemma NonemptyTrack(plan: Plan, t: int)
    requires WellFormed(plan) && t in plan.tracks
    ensures plan.tracks[t] != []
  {
    hide NameOf;
    FileLeaf(plan, t);
  }

  /**
    `changed`, `added` and `removed` describe how the tracks of `plan` become those of
    `newPaths`, and every new path is over the vocabulary.
   */
  ghost predicate IsDiff(vocab: Vocabulary, plan: Plan, newPaths: map<int, string>, changed: seq<int>, added: seq<int>, removed: seq<int>) {
    (forall t | t in newPaths :: WordRendered(vocab, newPaths[t])) && |newPaths| + 3 < RANK_LIMIT &&
    (forall t | t in changed || t in added :: t in newPaths) &&
    (forall t | t in removed :: t !in newPaths) &&
    (forall t | t in plan.tracks :: t in newPaths || t in removed) &&
    (forall t | t in newPaths && t !in changed && t !in added :: Untouched(plan, newPaths, t))
  }

  ghost predicate Untouched(plan: Plan, newPaths: map<int, string>, t: int)
    requires t in newPaths
  {
    if t in plan.tracks then TreeKeys(newPaths[t]) == plan.tracks[t] else TreeKeys(newPaths[t]) == []
  }

  /** The batch `apply_changes` performs between marking and rebuilding. */
  ghost predicate Refresh(vocab: Vocabulary, plan: Plan, newPaths: map<int, string>, changed: seq<int>, added: seq<int>, removed: seq<int>,
                          gone: set<int>, ids: seq<int>) {
    Canonical(plan) && Tame(vocab, plan) && IsDiff(vocab, plan, newPaths, changed, added, removed) &&
    Distinct(changed) && (forall t | t in added :: t !in plan.tracks && t !in changed) && Ascending(ids) &&
    (forall t :: t in gone <==> t in removed || (t in changed && t in plan.tracks && !Stable(plan, newPaths, t))) &&
    (forall t :: t in ids <==> t in added || (t in changed && !Stable(plan, newPaths, t)))
  }

  lemma DiffPaths(vocab: Vocabulary, plan: Plan, newPaths: map<int, string>, changed: seq<int>, added: seq<int>, removed: seq<int>)
    requires IsDiff(vocab, plan, newPaths, changed, added, removed)
    ensures forall t | t in changed || t in added :: t in newPaths
  {
    hide WordRendered, TreeKeys;
  }

  /** The sequences `apply_changes` makes are such a batch. */
  lemma RefreshFrom(vocab: Vocabulary, plan: Plan, newPaths: map<int, string>, changed: seq<int>, added: seq<int>, removed: seq<int>, ids: seq<int>)
    requires Canonical(plan) && Tame(vocab, plan) && IsDiff(vocab, plan, newPaths, changed, added, removed)
    requires Distinct(changed) && (forall t | t in added :: t !in plan.tracks && t !in changed) && Ascending(ids)
    requires forall t :: t in ids <==> t in added + MovedIn(plan, newPaths, changed)
    ensures Refresh(vocab, plan, newPaths, changed, added, removed, SetOf(removed + MovedOut(plan, newPaths, changed)), ids)
  {
    hide Canonical, Tame, IsDiff, Stable, MovedOut, MovedIn;
    Moved(plan, newPaths, changed);
  }

  /** A track of the tree that the batch does not take out keeps its path. */
  lemma KeptTrack(vocab: Vocabulary, plan: Plan, newPaths: map<int, string>, changed: seq<int>, added: seq<int>, removed: seq<int>,
                  gone: set<int>, ids: seq<int>, t: int)
    requires Refresh(vocab, plan, newPaths, changed, added, removed, gone, ids) && t in plan.tracks && t !in gone
    ensures t in newPaths && TreeKeys(newPaths[t]) == plan.tracks[t] && plan.tracks[t] != [] && t !in ids
  {
    hide Correct, Tame, TreeKeys, PathOf, WordRendered, WellFormed;
    NonemptyTrack(plan, t);
    if t in changed { StablePath(vocab, plan, newPaths, t); } else { assert Untouched(plan, newPaths, t); }
  }

  lemma NewTrack(vocab: Vocabulary, plan: Plan, newPaths: map<int, string>, changed: seq<int>, added: seq<int>, removed: seq<int>,
                 gone: set<int>, ids: seq<int>, t: int)
    requires Refresh(vocab, plan, newPaths, changed, added, removed, gone, ids) && t in newPaths && TreeKeys(newPaths[t]) != []
    ensures t in ids || (t in plan.tracks && t !in gone)
  {
    hide Correct, Tame, TreeKeys, PathOf, WordRendered, WellFormed;
    if t !in changed && t !in added { assert Untouched(plan, newPaths, t); }
  }

  /** The batch leaves exactly the tracks a fresh build from the new paths has. */
  lemma RefreshedTracks(vocab: Vocabulary, plan: Plan, newPaths: map<int, string>, changed: seq<int>, added: seq<int>, removed: seq<int>,
                        gone: set<int>, ids: seq<int>)
    requires Refresh(vocab, plan, newPaths, changed, added, removed, gone, ids)
    ensures Insertable(ids, PathTracks(newPaths))
    ensures InsertAll(RemoveSet(plan, gone), ids, PathTracks(newPaths)).tracks == Materialized(PathTracks(newPaths))
  {
    hide Correct, Tame, TreeKeys, PathOf, WordRendered, WellFormed, Canonical, RemoveSet, InsertAll, Refresh;
    RefreshIds(vocab, plan, newPaths, changed, added, removed, gone, ids);
    var tracks, r := PathTracks(newPaths), RemoveSet(plan, gone);
    RemovedTracks(plan, gone);
    InsertAllTracks(r, ids, tracks);
    var a, b := InsertAll(r, ids, tracks).tracks, Materialized(tracks);
    forall t
      ensures t in a <==> t in b
      ensures t in a && t in b ==> a[t] == b[t]
    {
      assert t in a <==> t in r.tracks || (t in ids && tracks[t] != []);
      if t in r.tracks { KeptTrack(vocab, plan, newPaths, changed, added, removed, gone, ids, t); }
      if t in b { NewTrack(vocab, plan, newPaths, changed, added, removed, gone, ids, t); }
    }
    assert forall t :: t in a.Keys <==> t in b.Keys;
    assert a.Keys == b.Keys;
    assert forall t :: t in a ==> t in b && a[t] == b[t];
  }

  lemma RefreshIds(vocab: Vocabulary, plan: Plan, newPaths: map<int, string>, changed: seq<int>, added: seq<int>, removed: seq<int>,
                   gone: set<int>, ids: seq<int>)
    requires Refresh(vocab, plan, newPaths, changed, added, removed, gone, ids)
    ensures forall t | t in ids :: t in newPaths && WordRendered(vocab, newPaths[t]) && (t in plan.tracks ==> t in gone)
    ensures Ascending(ids) && |newPaths| + 3 < RANK_LIMIT && Canonical(plan) && Tame(vocab, plan)
    ensures Insertable(ids, PathTracks(newPaths))
  {
    hide Correct, Tame, TreeKeys, PathOf, WordRendered, WellFormed;
    assert forall i | 0 <= i < |ids| :: ids[i] in ids;
  }

  /** What stays and what comes are together no more than the new paths. */
  lemma RefreshSize(vocab: Vocabulary, plan: Plan, newPaths: map<int, string>, changed: seq<int>, added: seq<int>, removed: seq<int>,
                    gone: set<int>, ids: seq<int>)
    requires Refresh(vocab, plan, newPaths, changed, added, removed, gone, ids)
    ensures |RemoveSet(plan, gone).tracks| + |ids| <= |newPaths|
  {
    hide Correct, Tame, TreeKeys, PathOf, WordRendered, WellFormed, Refresh, RemoveSet, Canonical;
    RefreshIds(vocab, plan, newPaths, changed, added, removed, gone, ids);
    var r := RemoveSet(plan, gone);
    RemovedTracks(plan, gone);
    AscendingSize(ids);
    forall t | t in r.tracks.Keys
      ensures t in newPaths.Keys && t !in SetOf(ids)
    {
      KeptTrack(vocab, plan, newPaths, changed, added, removed, gone, ids, t);
    }
    DisjointSize(r.tracks.Keys, SetOf(ids), newPaths.Keys);
  }

  lemma DisjointSize(a: set<int>, b: set<int>, c: set<int>)
    requires (forall t | t in a :: t in c && t !in b) && forall t | t in b :: t in c
    ensures |a| + |b| <= |c|
  {
    assert forall t :: t !in a * b;
    assert a * b == {};
    assert |a + b| == |a| + |b|;
    assert forall t :: t in a + b ==> t in c;
    SubsetSize(a + b, c);
  }

  lemma RefreshBatch(vocab: Vocabulary, plan: Plan, newPaths: map<int, string>, changed: seq<int>, added: seq<int>, removed: seq<int>,
                     gone: set<int>, ids: seq<int>)
    requires Refresh(vocab, plan, newPaths, changed, added, removed, gone, ids)
    ensures Batch(vocab, RemoveSet(plan, gone), ids, PathTracks(newPaths))
  {
    hide Correct, Tame, TreeKeys, PathOf, WordRendered, WellFormed, Refresh, RemoveSet, Canonical, WordPath, Separate;
    RefreshIds(vocab, plan, newPaths, changed, added, removed, gone, ids);
    TameBound(vocab, plan);
    RefreshSize(vocab, plan, newPaths, changed, added, removed, gone, ids);
    RemovedTracks(plan, gone);
    forall i | 0 <= i < |ids|
      ensures ids[i] !in RemoveSet(plan, gone).tracks
      ensures var addr := PathTracks(newPaths)[ids[i]]; addr == [] || WordPath(vocab, addr)
    {
      assert ids[i] in ids;
      WordKeys(vocab, newPaths[ids[i]]);
    }
  }

  /** Everything the walks mark is in `dirty`. */
  ghost predicate WalksDone(plan: Plan, ix: Index, newPaths: map<int, string>, gone: set<int>, ids: seq<int>, dirty: set<nat>) {
    (forall t, d: nat | t in gone && RemovalMarked(plan, ix, t, d) :: d in dirty) &&
    (forall t, d: nat | t in ids && t in newPaths && InsertionMarked(plan, ix, t, TreeKeys(newPaths[t]), d) :: d in dirty)
  }

  lemma RefreshChange(vocab: Vocabulary, plan: Plan, ix: Index, newPaths: map<int, string>, changed: seq<int>, added: seq<int>, removed: seq<int>,
                      gone: set<int>, ids: seq<int>, dirty: set<nat>)
    requires Refresh(vocab, plan, newPaths, changed, added, removed, gone, ids) && Indexed(plan, ix)
    requires WalksDone(plan, ix, newPaths, gone, ids, dirty)
    ensures Change(vocab, plan, gone, ids, PathTracks(newPaths), Marks(plan, ix, dirty))
  {
    hide Correct, Tame, TreeKeys, PathOf, WordRendered, WellFormed, Refresh, RemoveSet, WordPath, Batch, Marks, NameOf,
         RemovalMarked, InsertionMarked, InsertionMarks, RemovalMarks;
    RefreshIds(vocab, plan, newPaths, changed, added, removed, gone, ids);
    RefreshBatch(vocab, plan, newPaths, changed, added, removed, gone, ids);
    WalksCoverRemovals(vocab, plan, ix, gone, dirty);
    forall i | 0 <= i < |ids|
      ensures InsertionMarks(plan, ids[i], PathTracks(newPaths)[ids[i]], Marks(plan, ix, dirty))
    {
      assert ids[i] in ids;
      WalkCoversInsertion(vocab, plan, ix, ids[i], TreeKeys(newPaths[ids[i]]), dirty);
    }
  }

  // ----- From the old inodes to the new ones ---------------------------------------------------

  lemma {:induction false} InsertAllKeeps(vocab: Vocabulary, r: Plan, ids: seq<int>, tracks: map<int, seq<Name>>, m: Member)
    requires Valid(r) && Tame(vocab, r) && Batch(vocab, r, ids, tracks) && m in r.slots
    ensures var q := InsertAll(r, ids, tracks); m in q.slots && q.slots[m] == r.slots[m]
  {
    hide Insert, WordPath, Valid, Tame, Batch;
    if ids != [] {
      var q, t, addr := BatchStep(vocab, r, ids, tracks);
      InsertAllKeeps(vocab, r, ids[..|ids| - 1], tracks, m);
      if addr != [] { InsertKeeps(q, t, addr, m); }
    }
  }

  lemma InsertKeeps(q: Plan, t: int, addr: seq<Name>, m: Member)
    requires Valid(q) && addr != [] && AreComponents(addr) && t !in q.tracks && m in q.slots
    ensures m in Insert(q, t, addr).slots && Insert(q, t, addr).slots[m] == q.slots[m]
  {
    hide Insert;
    InsertMembers(q, t, addr, m);
    InsertSlots(q, t, addr, m);
  }

  lemma {:induction false} PrefixesSurvive(vocab: Vocabulary, a: Plan, gone: set<int>, ids: seq<int>, tracks: map<int, seq<Name>>, p: seq<Name>, x: Member)
    requires Valid(a) && Tame(vocab, a) && Batch(vocab, RemoveSet(a, gone), ids, tracks) && DirIn(RemoveSet(a, gone), p)
    requires x.Dir? && x in a.slots && x.path <= p
    ensures var q := InsertAll(RemoveSet(a, gone), ids, tracks); x in q.slots && q.slots[x] == a.slots[x]
  {
    hide NameOf, InsertAll, Batch, Tame, WellFormed;
    var r := RemoveSet(a, gone);
    RemoveSetValid(a, gone);
    RemoveSetTame(vocab, a, gone);
    ShapedPath(a, x);
    DirAtPrefix(r, p, |x.path|);
    assert p[..|x.path|] == x.path;
    InsertAllKeeps(vocab, r, ids, tracks, x);
  }

  lemma ShapedPath(a: Plan, x: Member)
    requires WellFormed(a) && x in a.slots && x.Dir?
    ensures x.path != []
  {
    hide NameOf;
  }

  lemma SurvivorPath(vocab: Vocabulary, a: Plan, gone: set<int>, ids: seq<int>, tracks: map<int, seq<Name>>, p: seq<Name>)
    requires Valid(a) && Tame(vocab, a) && Batch(vocab, RemoveSet(a, gone), ids, tracks) && DirIn(RemoveSet(a, gone), p)
    ensures var q := InsertAll(RemoveSet(a, gone), ids, tracks);
            DirIn(a, p) && DirIn(q, p) && PathOf(a, Dir(p)) == PathOf(q, Dir(p))
  {
    hide NameOf, InsertAll, WordPath, Tame, WellFormed, PathOf;
    var q := InsertAll(RemoveSet(a, gone), ids, tracks);
    assert DirIn(a, p);
    forall x: Member | x.Dir? && x in a.slots && x.path <= p
      ensures x in q.slots && q.slots[x] == a.slots[x]
    {
      PrefixesSurvive(vocab, a, gone, ids, tracks, p, x);
    }
    PathFrame(a, q, Dir(p));
  }

  /** After the batch every group out of order lies at or below a dirty inode. */
  lemma BatchDirtied(vocab: Vocabulary, paths: map<string, nat>, more: map<string, nat>, a: Plan, ix: Index, q: Plan, jx: Index, gone: set<int>,
                     ids: seq<int>, tracks: map<int, seq<Name>>, dirty: set<nat>)
    requires Change(vocab, a, gone, ids, tracks, Marks(a, ix, dirty)) && q == InsertAll(RemoveSet(a, gone), ids, tracks)
    requires Indexed(a, ix) && Linked(paths, a, ix) && Indexed(q, jx) && Linked(more, q, jx)
    requires forall p | p in paths :: p in more && more[p] == paths[p]
    ensures AllDirtied(q, jx, dirty)
  {
    hide NameOf, InsertAll, Change, RemoveSet, Correct, Linked, Indexed, Marks;
    forall g | g != [] && !Correct(q, g)
      ensures Dirtied(q, jx, dirty, g)
    {
      DirtySound(vocab, a, gone, ids, tracks, Marks(a, ix, dirty), g);
      MarkedDirtied(vocab, paths, more, a, ix, q, jx, gone, ids, tracks, dirty, g);
    }
  }

  lemma MarkedDirtied(vocab: Vocabulary, paths: map<string, nat>, more: map<string, nat>, a: Plan, ix: Index, q: Plan, jx: Index, gone: set<int>,
                      ids: seq<int>, tracks: map<int, seq<Name>>, dirty: set<nat>, g: seq<Name>)
    requires Change(vocab, a, gone, ids, tracks, Marks(a, ix, dirty)) && q == InsertAll(RemoveSet(a, gone), ids, tracks)
    requires Indexed(a, ix) && Linked(paths, a, ix) && Indexed(q, jx) && Linked(more, q, jx)
    requires forall p | p in paths :: p in more && more[p] == paths[p]
    requires g != [] && Init(g) in Marks(a, ix, dirty) && DirIn(RemoveSet(a, gone), Init(g))
    ensures Dirtied(q, jx, dirty, g)
  {
    hide NameOf, InsertAll, Change, RemoveSet, Correct, PathOf, Tame, Valid, Batch;
    var p := Init(g);
    ChangeParts(vocab, a, gone, ids, tracks, Marks(a, ix, dirty));
    SurvivorPath(vocab, a, gone, ids, tracks, p);
    assert g[..|g| - 1] == p;
    assert MemberIn(q, Dir(p)) && MemberIn(a, Dir(p));
    assert DirtyAt(q, jx, dirty, g, |g| - 1);
  }

  /** After removals and insertions, the rebuild phase has what it needs, and the tracks are the new ones. */
  lemma Refreshed(vocab: Vocabulary, paths: map<string, nat>, more: map<string, nat>, a: Plan, ix: Index, q: Plan, jx: Index,
                  newPaths: map<int, string>, changed: seq<int>, added: seq<int>, removed: seq<int>, gone: set<int>,
                  ids: seq<int>, dirty: set<nat>)
    requires Refresh(vocab, a, newPaths, changed, added, removed, gone, ids)
    requires Insertable(ids, PathTracks(newPaths)) && q == InsertAll(RemoveSet(a, gone), ids, PathTracks(newPaths))
    requires Indexed(a, ix) && Linked(paths, a, ix) && Indexed(q, jx) && Linked(more, q, jx)
    requires forall p | p in paths :: p in more && more[p] == paths[p]
    requires WalksDone(a, ix, newPaths, gone, ids, dirty)
    ensures Repairable(vocab, q, jx, dirty, newPaths) && q.tracks == Materialized(PathTracks(newPaths))
  {
    hide NameOf, InsertAll, RemoveSet, Correct, Linked, Indexed, Marks, Refresh, WalksDone, TreeKeys, Tame, WellFormed,
         NoEmptyDirs, Change, AllDirtied, Batch;
    var tracks := PathTracks(newPaths);
    RefreshIds(vocab, a, newPaths, changed, added, removed, gone, ids);
    RefreshBatch(vocab, a, newPaths, changed, added, removed, gone, ids);
    RefreshChange(vocab, a, ix, newPaths, changed, added, removed, gone, ids, dirty);
    RefreshedTracks(vocab, a, newPaths, changed, added, removed, gone, ids);
    ChangeParts(vocab, a, gone, ids, tracks, Marks(a, ix, dirty));
    InsertAllValid(vocab, RemoveSet(a, gone), ids, tracks);
    BatchDirtied(vocab, paths, more, a, ix, q, jx, gone, ids, tracks, dirty);
    assert Agreeing(q.tracks, newPaths);
  }
}
