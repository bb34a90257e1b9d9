/**
  The rebuild phase of `apply_changes`: dirty directories, shallow first, each rebuilt
  unless one above it already was, leave every group as a fresh build ranks it.
 */
module TreeRepair {
  import opened Names
  import opened TreePlan
  import opened TreeCanon
  import opened TreeRebuild
  import opened TreeState
  import opened TreeBuild

  // ----- Inodes, paths and depths ---------------------------------------------------------

  /** Every inode was issued for one path. */
  ghost predicate Keyed(paths: map<string, nat>, issued: map<nat, string>) {
    forall p | p in paths :: paths[p] in issued && issued[paths[p]] == p
  }

  lemma {:induction false} DirNamesMaterialize(vocab: Vocabulary, plan: Plan, p: seq<Name>)
    requires WellFormed(plan) && Tame(vocab, plan) && DirIn(plan, p)
    ensures forall i | 0 <= i < |DirNames(plan, p)| :: Materializes(DirNames(plan, p)[i])
    decreases |p|
  {
    hide IsSuffixShaped, SuffixCandidate;
    if p != [] {
      assert Parent(plan, Dir(p)) == Init(p);
      DirNamesMaterialize(vocab, plan, Init(p));
      NameMaterializes(vocab, plan, Dir(p));
    }
  }

  lemma NameMaterializes(vocab: Vocabulary, plan: Plan, m: Member)
    requires Tame(vocab, plan) && m in plan.slots
    ensures Materializes(NameOf(plan, m))
  {
    hide IsSuffixShaped, SuffixCandidate;
    LastWord(vocab, Addr(plan, m));
    if plan.slots[m] >= 2 { RankedMaterializes(Rendered(plan, m), plan.slots[m]); }
  }

  /** The paths of such a plan split back into the names along them. */
  lemma PathParts(vocab: Vocabulary, plan: Plan, m: Member)
    requires WellFormed(plan) && Tame(vocab, plan) && MemberIn(plan, m)
    ensures PathComponents(PathOf(plan, m)) == NamePath(plan, m) && |NamePath(plan, m)| == |Addr(plan, m)|
  {
    hide NameOf, WellFormed, Tame;
    NamePathComponents(plan, m);
    if m != ROOT_DIR {
      DirNamesMaterialize(vocab, plan, Parent(plan, m)) by { ParentIn(plan, m); }
      NameMaterializes(vocab, plan, m);
      SplitJoin(NamePath(plan, m));
      FilterIdentity(NamePath(plan, m));
    } else {
      EmptyPathParts();
    }
  }

  lemma EmptyPathParts()
    ensures PathComponents("") == []
  {
    assert [""][..0] == [];
    assert Split("") == [""];
    assert FilterComponents([""]) == FilterComponents([]);
  }

  lemma ParentIn(plan: Plan, m: Member)
    requires WellFormed(plan) && m in plan.slots
    ensures DirIn(plan, Parent(plan, m))
  {
    hide NameOf;
  }

  function Depth(issued: map<nat, string>, d: nat): nat {
    if d in issued then |PathComponents(issued[d])| else 0
  }

  /** The depth of a node shows in the path its inode was issued for. */
  lemma DepthShown(vocab: Vocabulary, paths: map<string, nat>, issued: map<nat, string>, plan: Plan, ix: Index, d: nat)
    requires WellFormed(plan) && Tame(vocab, plan) && Indexed(plan, ix) && Linked(paths, plan, ix) && Keyed(paths, issued)
    requires d in ix.at
    ensures d in issued && Depth(issued, d) == |Addr(plan, ix.at[d])| && issued[d] == PathOf(plan, ix.at[d])
  {
    hide NameOf, WellFormed, Tame, PathOf, PathComponents;
    PathParts(vocab, plan, ix.at[d]);
  }

  // ----- Coverage by dirty directories -------------------------------------------------------

  /** A dirty directory lies at or above the directory of group `g`. */
  ghost predicate Dirtied(plan: Plan, ix: Index, dirty: set<nat>, g: seq<Name>) {
    exists k: nat :: DirtyAt(plan, ix, dirty, g, k)
  }

  ghost predicate DirtyAt(plan: Plan, ix: Index, dirty: set<nat>, g: seq<Name>, k: nat) {
    k < |g| && DirIn(plan, g[..k]) && InoOf(ix, Dir(g[..k])) in dirty
  }

  ghost predicate AllDirtied(plan: Plan, ix: Index, dirty: set<nat>) {
    forall g | g != [] && !Correct(plan, g) :: Dirtied(plan, ix, dirty, g)
  }

  /** Every group strictly below the directory `e` is correct. */
  ghost predicate Settled(plan: Plan, ix: Index, e: nat) {
    e in ix.at && ix.at[e].Dir? ==> forall g | ix.at[e].path < g :: Correct(plan, g)
  }

  function Rest(live: seq<nat>, i: nat): (s: set<nat>)
    requires i <= |live|
    ensures forall d :: d in s <==> exists j :: i <= j < |live| && live[j] == d
  {
    set j | i <= j < |live| :: live[j]
  }

  predicate ShallowFirst(issued: map<nat, string>, live: seq<nat>) {
    forall i, j | 0 <= i < j < |live| :: Depth(issued, live[i]) <= Depth(issued, live[j])
  }

  /** The rendered paths still give every track the components it has. */
  ghost predicate Agreeing(tracks: map<int, seq<Name>>, newPaths: map<int, string>) {
    forall t | t in tracks :: t in newPaths && TreeKeys(newPaths[t]) == tracks[t]
  }

  /** Before the `i`-th dirty directory: what is out of order is still to come, what is done is settled. */
  ghost predicate Repairing(vocab: Vocabulary, plan: Plan, ix: Index, issued: map<nat, string>, live: seq<nat>, i: nat, done: set<nat>) {
    i <= |live| && Valid(plan) && Tame(vocab, plan) && ShallowFirst(issued, live) &&
    AllDirtied(plan, ix, Rest(live, i)) &&
    (forall e | e in done :: Settled(plan, ix, e) && exists j :: 0 <= j < i && live[j] == e)
  }

  lemma RepairingParts(vocab: Vocabulary, plan: Plan, ix: Index, issued: map<nat, string>, live: seq<nat>, i: nat, done: set<nat>)
    requires Repairing(vocab, plan, ix, issued, live, i, done)
    ensures i <= |live| && Valid(plan) && Tame(vocab, plan) && ShallowFirst(issued, live) && WellFormed(plan)
    ensures AllDirtied(plan, ix, Rest(live, i))
  {
  }

  /** The maps at hand: plan, index and allocator agree. */
  ghost predicate Tied(paths: map<string, nat>, issued: map<nat, string>, plan: Plan, ix: Index) {
    WellFormed(plan) && Indexed(plan, ix) && Linked(paths, plan, ix) && Keyed(paths, issued)
  }

  lemma RestSplit(live: seq<nat>, i: nat, d: nat)
    requires i < |live| && d in Rest(live, i)
    ensures d == live[i] || d in Rest(live, i + 1)
  {
    var j :| i <= j < |live| && live[j] == d;
    assert j == i || i + 1 <= j;
  }

  lemma RestDeeper(issued: map<nat, string>, live: seq<nat>, i: nat, d: nat)
    requires i < |live| && d in Rest(live, i) && ShallowFirst(issued, live)
    ensures Depth(issued, live[i]) <= Depth(issued, d)
  {
    hide Depth;
    var j :| i <= j < |live| && live[j] == d;
  }

  /** A dirty directory that is gone, or below a rebuilt one, may be skipped. */
  lemma SkipStep(vocab: Vocabulary, paths: map<string, nat>, issued: map<nat, string>, plan: Plan, ix: Index, live: seq<nat>, i: nat, done: set<nat>)
    requires Repairing(vocab, plan, ix, issued, live, i, done) && i < |live| && Tied(paths, issued, plan, ix)
    requires live[i] !in ix.at || live[i] in done ||
             exists k: nat :: k < |Addr(plan, ix.at[live[i]])| && InoOf(ix, Dir(Addr(plan, ix.at[live[i]])[..k])) in done
    ensures Repairing(vocab, plan, ix, issued, live, i + 1, done)
  {
    hide Correct, NameOf, Tame, WellFormed, Linked, Keyed, Depth;
    forall g | g != [] && !Correct(plan, g)
      ensures Dirtied(plan, ix, Rest(live, i + 1), g)
    {
      assert Dirtied(plan, ix, Rest(live, i), g);
      var k: nat :| DirtyAt(plan, ix, Rest(live, i), g, k);
      var d := InoOf(ix, Dir(g[..k]));
      assert d in ix.at && ix.at[d] == Dir(g[..k]) by { assert MemberIn(plan, Dir(g[..k])); }
      if d == live[i] { SettledAbove(plan, ix, done, g, k); }
      RestSplit(live, i, d);
      assert DirtyAt(plan, ix, Rest(live, i + 1), g, k);
    }
    forall e | e in done
      ensures exists j :: 0 <= j < i + 1 && live[j] == e
    {
      var j :| 0 <= j < i && live[j] == e;
    }
  }

  lemma SettledAbove(plan: Plan, ix: Index, done: set<nat>, g: seq<Name>, k: nat)
    requires Valid(plan) && Indexed(plan, ix) && k < |g| && DirIn(plan, g[..k])
    requires forall e | e in done :: Settled(plan, ix, e)
    requires var d := InoOf(ix, Dir(g[..k]));
             d in done || exists j: nat :: j < k && InoOf(ix, Dir(g[..k][..j])) in done
    ensures Correct(plan, g)
  {
    hide Correct, NameOf, SiblingsDistinct, RootUnreserved, FilesAreTracks;
    var d := InoOf(ix, Dir(g[..k]));
    assert MemberIn(plan, Dir(g[..k]));
    if d in done {
      assert Settled(plan, ix, d) && g[..k] < g;
    } else {
      var j: nat :| j < k && InoOf(ix, Dir(g[..k][..j])) in done;
      if j > 0 { AncestorsPresent(plan, Dir(g[..k]), j); }
      assert MemberIn(plan, Dir(g[..k][..j]));
      var e := InoOf(ix, Dir(g[..k][..j]));
      assert Settled(plan, ix, e) && g[..k][..j] < g;
    }
  }

  // ----- One rebuild ------------------------------------------------------------------------

  /** Before a rebuild of `live[i]`, everything above it is in order. */
  lemma AboveInOrder(vocab: Vocabulary, paths: map<string, nat>, issued: map<nat, string>, plan: Plan, ix: Index, live: seq<nat>, i: nat, done: set<nat>)
    requires Repairing(vocab, plan, ix, issued, live, i, done) && i < |live| && Tied(paths, issued, plan, ix) && live[i] in ix.at
    ensures AboveCorrect(plan, ix.at[live[i]])
  {
    hide Correct, NameOf, Tame, WellFormed, Linked, Keyed, Depth, Addr, Repairing, Indexed, ShallowFirst;
    var m := ix.at[live[i]];
    RepairingParts(vocab, plan, ix, issued, live, i, done);
    DepthShown(vocab, paths, issued, plan, ix, live[i]);
    forall g | g != [] && g <= Addr(plan, m)
      ensures Correct(plan, g)
    {
      if !Correct(plan, g) {
        assert Dirtied(plan, ix, Rest(live, i), g);
        var k: nat :| DirtyAt(plan, ix, Rest(live, i), g, k);
        var d := InoOf(ix, Dir(g[..k]));
        IndexedDir(plan, ix, g[..k]);
        DepthShown(vocab, paths, issued, plan, ix, d);
        RestDeeper(issued, live, i, d);
        DirAddr(plan, g[..k]);
      }
    }
  }

  lemma IndexedDir(plan: Plan, ix: Index, p: seq<Name>)
    requires Indexed(plan, ix) && DirIn(plan, p)
    ensures var d := InoOf(ix, Dir(p)); d in ix.at && ix.at[d] == Dir(p)
  {
    hide NameOf;
    assert MemberIn(plan, Dir(p));
  }

  lemma DirAddr(plan: Plan, p: seq<Name>)
    ensures Addr(plan, Dir(p)) == p
  {
  }

  /** What a rebuild of `d` leaves: the same members, the same ranks outside `d`. */
  ghost predicate Rebuilt(b: Plan, d: Member, q: Plan) {
    Valid(b) && Valid(q) && q.tracks == b.tracks && q.slots.Keys == b.slots.Keys &&
    (forall m | m in b.slots && !Inside(b, d, m) :: q.slots[m] == b.slots[m]) &&
    (forall g | d.Dir? && d.path < g :: Correct(q, g))
  }

  /** A member outside the rebuilt directory keeps its path. */
  lemma SamePath(b: Plan, d: Member, q: Plan, m: Member)
    requires Rebuilt(b, d, q) && MemberIn(b, m) && !Inside(b, d, m)
    ensures PathOf(b, m) == PathOf(q, m) && MemberIn(q, m) && Addr(b, m) == Addr(q, m)
  {
    hide NameOf, Correct, PathOf, NamePath, WellFormed, NoEmptyDirs;
    forall x: Member | x.Dir? && x in b.slots && x.path <= Parent(b, m)
      ensures x in q.slots && b.slots[x] == q.slots[x]
    {
      assert x in q.slots.Keys;
      assert x.path <= Addr(b, m);
    }
    assert m != ROOT_DIR ==> m in q.slots.Keys;
    PathFrame(b, q, m);
  }

  /** Hence it keeps its inode. */
  lemma SameInode(paths: map<string, nat>, more: map<string, nat>, b: Plan, ix: Index, d: Member, q: Plan, jx: Index, m: Member)
    requires Rebuilt(b, d, q) && MemberIn(b, m) && !Inside(b, d, m)
    requires Indexed(b, ix) && Linked(paths, b, ix) && Indexed(q, jx) && Linked(more, q, jx)
    requires forall p | p in paths :: p in more && more[p] == paths[p]
    ensures InoOf(ix, m) == InoOf(jx, m) && InoOf(ix, m) in ix.at && ix.at[InoOf(ix, m)] == m
  {
    hide NameOf, Correct, PathOf, WellFormed, NoEmptyDirs, Rebuilt;
    SamePath(b, d, q, m);
  }

  /** The rebuild of the `i`-th dirty directory, with the maps before and after. */
  ghost predicate Step(vocab: Vocabulary, paths: map<string, nat>, more: map<string, nat>, issued: map<nat, string>, issued2: map<nat, string>,
                       b: Plan, ix: Index, q: Plan, jx: Index, live: seq<nat>, i: nat, done: set<nat>) {
    Repairing(vocab, b, ix, issued, live, i, done) && i < |live| && Tied(paths, issued, b, ix) && Tied(more, issued2, q, jx) &&
    live[i] in ix.at && Tame(vocab, q) && Rebuilt(b, ix.at[live[i]], q) &&
    (forall p | p in paths :: p in more && more[p] == paths[p]) &&
    (forall d | d in issued :: d in issued2 && issued2[d] == issued[d]) &&
    (forall j | 0 <= j < |live| :: live[j] in issued)
  }

  /** A directory no deeper than the rebuilt one stays where it was. */
  lemma ShallowSame(vocab: Vocabulary, paths: map<string, nat>, more: map<string, nat>, issued: map<nat, string>, issued2: map<nat, string>,
                    b: Plan, ix: Index, q: Plan, jx: Index, live: seq<nat>, i: nat, done: set<nat>, e: nat)
    requires Step(vocab, paths, more, issued, issued2, b, ix, q, jx, live, i, done)
    requires e in jx.at && e in issued && Depth(issued, e) <= Depth(issued, live[i])
    ensures e in ix.at && ix.at[e] == jx.at[e] && !Inside(b, ix.at[live[i]], jx.at[e])
  {
    hide NameOf, Correct, PathOf, NoEmptyDirs, Tame, PathComponents, AllDirtied, Settled, ShallowFirst;
    var m := jx.at[e];
    DepthShown(vocab, more, issued2, q, jx, e);
    DepthShown(vocab, paths, issued, b, ix, live[i]);
    assert m in jx.ino && MemberIn(q, m);
    assert m != ROOT_DIR ==> m in q.slots.Keys && m in b.slots;
    assert Addr(b, m) == Addr(q, m);
    SameInode(paths, more, b, ix, ix.at[live[i]], q, jx, m);
  }

  lemma StillSettled(vocab: Vocabulary, paths: map<string, nat>, more: map<string, nat>, issued: map<nat, string>, issued2: map<nat, string>,
                     b: Plan, ix: Index, q: Plan, jx: Index, live: seq<nat>, i: nat, done: set<nat>, e: nat)
    requires Step(vocab, paths, more, issued, issued2, b, ix, q, jx, live, i, done)
    requires e in issued && Depth(issued, e) <= Depth(issued, live[i]) && (e == live[i] || Settled(b, ix, e))
    ensures Settled(q, jx, e)
  {
    hide NameOf, Correct, Tame, Depth, AllDirtied, ShallowFirst, Tied, Valid, Repairing;
    if e in jx.at && jx.at[e].Dir? {
      ShallowSame(vocab, paths, more, issued, issued2, b, ix, q, jx, live, i, done, e);
      forall g | jx.at[e].path < g
        ensures Correct(q, g)
      {
        var d := ix.at[live[i]];
        if !(d.Dir? && d.path < g) {
          assert e != live[i];
          RebuildElsewhere(b, d, q, g);
        }
      }
    }
  }

  lemma OutsideAbove(plan: Plan, d: Member, g: seq<Name>, k: nat)
    requires k < |g| && !(d.Dir? && d.path < g)
    ensures !Inside(plan, d, Dir(g[..k]))
  {
  }

  lemma StillDirtied(vocab: Vocabulary, paths: map<string, nat>, more: map<string, nat>, issued: map<nat, string>, issued2: map<nat, string>,
                     b: Plan, ix: Index, q: Plan, jx: Index, live: seq<nat>, i: nat, done: set<nat>, g: seq<Name>)
    requires Step(vocab, paths, more, issued, issued2, b, ix, q, jx, live, i, done)
    requires g != [] && !Correct(q, g)
    ensures Dirtied(q, jx, Rest(live, i + 1), g)
  {
    hide NameOf, Correct, Tame, Depth, ShallowFirst, Settled, Keyed, Linked, Indexed, WellFormed, NoEmptyDirs;
    var d := ix.at[live[i]];
    if Correct(b, g) { RebuildElsewhere(b, d, q, g); }
    assert Dirtied(b, ix, Rest(live, i), g);
    var k: nat :| DirtyAt(b, ix, Rest(live, i), g, k);
    var x := Dir(g[..k]);
    assert MemberIn(b, x) && Addr(b, x) == g[..k];
    OutsideAbove(b, d, g, k);
    SameInode(paths, more, b, ix, d, q, jx, x);
    assert InoOf(ix, x) != live[i];
    RestSplit(live, i, InoOf(ix, x));
    assert x in b.slots ==> x in q.slots.Keys;
    assert DirtyAt(q, jx, Rest(live, i + 1), g, k);
  }

  lemma RebuildStep(vocab: Vocabulary, paths: map<string, nat>, more: map<string, nat>, issued: map<nat, string>, issued2: map<nat, string>,
                    b: Plan, ix: Index, q: Plan, jx: Index, live: seq<nat>, i: nat, done: set<nat>)
    requires Step(vocab, paths, more, issued, issued2, b, ix, q, jx, live, i, done)
    ensures Repairing(vocab, q, jx, issued2, live, i + 1, done + {live[i]})
  {
    hide NameOf, Correct, Tame, Settled, Tied, WellFormed, NoEmptyDirs, Dirtied;
    forall g | g != [] && !Correct(q, g)
      ensures Dirtied(q, jx, Rest(live, i + 1), g)
    {
      StillDirtied(vocab, paths, more, issued, issued2, b, ix, q, jx, live, i, done, g);
    }
    forall e | e in done + {live[i]}
      ensures Settled(q, jx, e) && exists j :: 0 <= j < i + 1 && live[j] == e
    {
      if e != live[i] {
        var j :| 0 <= j < i && live[j] == e;
        assert Depth(issued, live[j]) <= Depth(issued, live[i]);
      }
      StillSettled(vocab, paths, more, issued, issued2, b, ix, q, jx, live, i, done, e);
    }
    forall j | 0 <= j < |live|
      ensures Depth(issued2, live[j]) == Depth(issued, live[j])
    {
    }
  }

  lemma NoneLeft(plan: Plan, ix: Index, live: seq<nat>, g: seq<Name>)
    ensures !Dirtied(plan, ix, Rest(live, |live|), g)
  {
  }

  /** Where the new paths agree with the tracks, a rebuild finds every path and leaves what `Rebuilt` says. */
  lemma RebuildAgreeing(vocab: Vocabulary, b: Plan, d: Member, ids: seq<int>, newPaths: map<int, string>)
    requires Valid(b) && Tame(vocab, b) && MemberIn(b, d) && TracksBelow(b, d, ids) && Agreeing(b.tracks, newPaths) && AboveCorrect(b, d)
    ensures Insertable(ids, PathTracks(newPaths))
    ensures var q := RebuildPlan(b, ids, PathTracks(newPaths)); Rebuilt(b, d, q) && Tame(vocab, q)
  {
    hide NameOf, Correct, InsertAll, Tame, WellFormed, NoEmptyDirs, AboveCorrect, TreeKeys;
    var tracks := PathTracks(newPaths);
    forall i | 0 <= i < |ids|
      ensures ids[i] in tracks && ids[i] in b.tracks && tracks[ids[i]] == b.tracks[ids[i]]
    {
      assert ids[i] in ids;
    }
    RebuildRestores(vocab, b, d, ids, tracks);
  }

  /** A rebuild of the next dirty directory, from `b` to `q`, finds every path and keeps the phase on course. */
  lemma RebuildDone(vocab: Vocabulary, paths: map<string, nat>, more: map<string, nat>, issued: map<nat, string>, issued2: map<nat, string>,
                    b: Plan, ix: Index, q: Plan, jx: Index, live: seq<nat>, i: nat, done: set<nat>, ids: seq<int>,
                    newPaths: map<int, string>)
    requires Repairing(vocab, b, ix, issued, live, i, done) && i < |live| && live[i] in ix.at
    requires Tied(paths, issued, b, ix) && Tied(more, issued2, q, jx) && forall j | 0 <= j < |live| :: live[j] in issued
    requires forall p | p in paths :: p in more && more[p] == paths[p]
    requires forall d | d in issued :: d in issued2 && issued2[d] == issued[d]
    requires Agreeing(b.tracks, newPaths) && TracksBelow(b, ix.at[live[i]], ids)
    requires Insertable(ids, PathTracks(newPaths)) ==> q == RebuildPlan(b, ids, PathTracks(newPaths))
    ensures Insertable(ids, PathTracks(newPaths)) && q.tracks == b.tracks
    ensures Repairing(vocab, q, jx, issued2, live, i + 1, done + {live[i]})
  {
    hide NameOf, Correct, Tame, WellFormed, NoEmptyDirs, Repairing, Agreeing, TracksBelow, AboveCorrect, InsertAll, Linked, Keyed;
    var d := ix.at[live[i]];
    assert MemberIn(b, d);
    RepairingParts(vocab, b, ix, issued, live, i, done);
    AboveInOrder(vocab, paths, issued, b, ix, live, i, done);
    RebuildAgreeing(vocab, b, d, ids, newPaths);
    RebuildStep(vocab, paths, more, issued, issued2, b, ix, q, jx, live, i, done);
  }

  /** What the rebuild phase starts from. */
  ghost predicate Repairable(vocab: Vocabulary, plan: Plan, ix: Index, dirty: set<nat>, newPaths: map<int, string>) {
    Valid(plan) && Tame(vocab, plan) && Agreeing(plan.tracks, newPaths) && AllDirtied(plan, ix, dirty)
  }

  lemma RepairStarts(vocab: Vocabulary, plan: Plan, ix: Index, issued: map<nat, string>, dirty: set<nat>, newPaths: map<int, string>, live: seq<nat>)
    requires Repairable(vocab, plan, ix, dirty, newPaths) && Indexed(plan, ix) && ShallowFirst(issued, live)
    requires forall d | d in dirty && d in ix.at :: d in live
    ensures Repairing(vocab, plan, ix, issued, live, 0, {})
  {
    hide NameOf, Correct, Tame, Valid, Indexed;
    forall g | g != [] && !Correct(plan, g)
      ensures Dirtied(plan, ix, Rest(live, 0), g)
    {
      var k: nat :| DirtyAt(plan, ix, dirty, g, k);
      IndexedDir(plan, ix, g[..k]);
      assert DirtyAt(plan, ix, Rest(live, 0), g, k);
    }
  }

  /** With no dirty directory left, the plan is canonical. */
  lemma Repaired(vocab: Vocabulary, plan: Plan, ix: Index, issued: map<nat, string>, live: seq<nat>, done: set<nat>)
    requires Repairing(vocab, plan, ix, issued, live, |live|, done)
    ensures Canonical(plan)
  {
    hide NameOf, Correct, Tame, WellFormed, NoEmptyDirs, Settled;
    forall g: seq<Name>
      ensures Correct(plan, g)
    {
      NoneLeft(plan, ix, live, g);
      if g == [] { RootGroup(plan); }
    }
  }
}
