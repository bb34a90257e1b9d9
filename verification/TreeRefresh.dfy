/**
  The refresh cycle around the tree: apply an incremental change, check it against a fresh
  build, fall back to a full build when it fails, prune the allocator.
 */
module TreeRefresh {
  import opened Collections
  import opened Names
  import opened TreePlan
  import opened TreeCanon
  import opened TreeRebuild
  import opened TreeState
  import opened TreeBuild
  import opened TreeChange
  import opened TreeConserve
  import opened TreeMarks
  import opened Inodes
  import opened VirtualTrees

  /** The entries are the rendered paths, in ascending id order. */
  ghost predicate Lists(entries: seq<Entry>, newPaths: map<int, string>) {
    AscendingIds(entries) && (forall i | 0 <= i < |entries| :: entries[i].0 in newPaths && newPaths[entries[i].0] == entries[i].1) &&
    forall t | t in newPaths :: exists i :: 0 <= i < |entries| && entries[i].0 == t
  }

  ghost predicate WordPaths(vocab: Vocabulary, newPaths: map<int, string>) {
    Separate(vocab) && (forall t | t in newPaths :: WordRendered(vocab, newPaths[t])) && |newPaths| + 3 < RANK_LIMIT
  }

  lemma ListedIds(entries: seq<Entry>, newPaths: map<int, string>)
    requires Lists(entries, newPaths)
    ensures Listing(entries, PathTracks(newPaths)) && forall t | t in PathTracks(newPaths) :: t in EntryIds(entries)
    ensures DistinctIds(entries) && |entries| <= |newPaths|
  {
    hide TreeKeys;
    var ids := EntryIds(entries);
    AscendingSize(ids);
    assert forall i | 0 <= i < |ids| :: ids[i] == entries[i].0;
    forall t | t in newPaths
      ensures t in ids
    {
      var i :| 0 <= i < |entries| && entries[i].0 == t;
      assert ids[i] == t;
    }
    assert forall t | t in SetOf(ids) :: t in newPaths.Keys;
    SubsetSize(SetOf(ids), newPaths.Keys);
  }

  /** A fresh build from paths over an unambiguous vocabulary is the canonical plan of those paths. */
  lemma FreshBuild(vocab: Vocabulary, entries: seq<Entry>, newPaths: map<int, string>)
    requires Lists(entries, newPaths) && WordPaths(vocab, newPaths)
    ensures Canonical(Built(entries)) && Tame(vocab, Built(entries))
    ensures Built(entries).tracks == Materialized(PathTracks(newPaths))
  {
    hide TreeKeys, Built, WordRendered, Canonical, Tame;
    ListedIds(entries, newPaths);
    forall i | 0 <= i < |entries|
      ensures WordRendered(vocab, entries[i].1)
    {
      var t := entries[i].0;
      assert t in newPaths && newPaths[t] == entries[i].1;
      assert WordRendered(vocab, newPaths[t]);
    }
    BuiltCanonical(vocab, entries, PathTracks(newPaths));
    BuiltTracks(entries, PathTracks(newPaths));
  }

  /** The maps are those of the tree that a build from `entries` gives. */
  ghost predicate HoldsBuilt(st: TreeMaps, entries: seq<Entry>) { exists ix :: Holds(st, Built(entries), ix) }

  /** The one canonical tree of such paths is the one built from scratch. */
  lemma CanonicalIsBuilt(vocab: Vocabulary, plan: Plan, entries: seq<Entry>, newPaths: map<int, string>)
    requires Lists(entries, newPaths) && WordPaths(vocab, newPaths)
    requires Canonical(plan) && plan.tracks == Materialized(PathTracks(newPaths))
    ensures plan == Built(entries)
  {
    hide Canonical, Built, Materialized, PathTracks, Lists, WordPaths;
    FreshBuild(vocab, entries, newPaths);
    CanonicalUnique(plan, Built(entries));
  }

  lemma PatchedIsBuilt(vocab: Vocabulary, before: Plan, newPaths: map<int, string>, changed: seq<int>, added: seq<int>, removed: seq<int>,
                       entries: seq<Entry>, plan: Plan)
    requires Tame(vocab, before) && IsDiff(vocab, before, newPaths, changed, added, removed) && Lists(entries, newPaths)
    requires Canonical(plan) && plan.tracks == Materialized(PathTracks(newPaths))
    ensures plan == Built(entries)
  {
    hide Canonical, Built, Materialized, PathTracks, Lists, Tame, WordRendered, Untouched, Separate;
    TameBound(vocab, before);
    CanonicalIsBuilt(vocab, plan, entries, newPaths);
  }

  /** The oracle: a fresh build with a copy of the allocator gives the very same maps. */
  method MatchesFreshBuild(tree: VirtualTree, entries: seq<Entry>, ghost newPaths: map<int, string>, alloc: InodeAllocator)
    returns (same: bool)
    requires tree.Valid(alloc) && Lists(entries, newPaths)
    ensures tree.plan == Built(entries) ==> same
    ensures same ==> HoldsBuilt(tree.State(), entries)
  {
    hide Holds, WellFormed, NoEmptyDirs, Linked, Built, Lists;
    ListedIds(entries, newPaths);
    var copy := new InodeAllocator.Clone(alloc);
    var reference := VirtualTree.BuildWith(entries, copy);
    if tree.plan == Built(entries) {
      LinkedGrows(alloc.paths, copy.paths, tree.plan, tree.ix);
      HeldUnique(copy.paths, tree.State(), reference.State(), tree.plan, tree.ix, reference.ix);
    }
    same := tree.Equiv(reference);
    assert same ==> Holds(tree.State(), Built(entries), reference.ix);
  }

  /** A prune keeps the links of every live member. */
  lemma PrunedLinks(before: map<string, nat>, after: map<string, nat>, st: TreeMaps, plan: Plan, ix: Index)
    requires Holds(st, plan, ix) && Linked(before, plan, ix)
    requires forall p | p in after :: p in before && after[p] == before[p]
    requires forall p | p in before && before[p] in st.nodes :: p in after
    ensures Linked(after, plan, ix)
  {
    hide NameOf, PathOf, ChildrenSound, ChildrenComplete, RenderedSound, RenderedComplete, TracksOk;
  }

  /**
    One refresh.  Started on a canonical tree with a true diff, both over an unambiguous vocabulary, the
    incremental path succeeds, its oracle holds, and the published tree is the one a build
    from scratch gives, again canonical; the allocator ends no more than twice its size.
   */
  method Refresh(ghost vocab: Vocabulary, tree: VirtualTree, newPaths: map<int, string>, changed: seq<int>, added: seq<int>, removed: seq<int>,
                 entries: seq<Entry>, alloc: InodeAllocator)
    returns (published: VirtualTree, ghost incremental: bool, ghost matches: bool)
    requires tree.Valid(alloc) && IdsFit(tree.plan.tracks) && Distinct(changed) && Distinct(added)
    requires (forall t | t in added :: t !in tree.plan.tracks && t !in changed) && Lists(entries, newPaths)
    modifies tree, alloc
    ensures published.Valid(alloc) && |alloc.paths| <= 2 * |published.nodes|
    ensures Grows(old(alloc.issued), alloc.issued)
    ensures forall p | p in old(alloc.paths) && p in alloc.paths :: alloc.paths[p] == old(alloc.paths)[p]
    ensures forall p | p in old(alloc.paths) && old(alloc.paths)[p] in published.nodes :: p in alloc.paths
    ensures !incremental ==> published.plan == Built(entries)
    ensures matches ==> incremental && HoldsBuilt(published.State(), entries)
    ensures old(Canonical(tree.plan) && Tame(vocab, tree.plan) && IsDiff(vocab, tree.plan, newPaths, changed, added, removed)) ==>
              matches && published.plan == Built(entries) && Canonical(published.plan) && Tame(vocab, published.plan)
  {
    hide Holds, WellFormed, NoEmptyDirs, Linked, Canonical, Built, Lists, Materialized, PathTracks, Tame, WordRendered,
         Untouched, IdsFit, IsDiff, Distinct, Separate, HoldsBuilt, Carried, AfterBatch, Unmarked, InsertedInOrder, TreeKeys;
    ListedIds(entries, newPaths);
    ghost var before := tree.plan;
    var applied, _, _ := tree.ApplyChanges(vocab, newPaths, changed, added, removed, alloc);
    if applied.Ok? {
      ghost var good := old(Canonical(tree.plan) && Tame(vocab, tree.plan) && IsDiff(vocab, tree.plan, newPaths, changed, added, removed));
      if good { PatchedIsBuilt(vocab, before, newPaths, changed, added, removed, entries, tree.plan); }
      var same := MatchesFreshBuild(tree, entries, newPaths, alloc);
      published, incremental, matches := tree, true, same;
    } else {
      published := VirtualTree.BuildWith(entries, alloc);
      incremental, matches := false, false;
    }
    label built:
    RootListed(published.State(), published.plan, published.ix);
    alloc.PruneRetired(published.nodes);
    PrunedLinks(old@built(alloc.paths), alloc.paths, published.State(), published.plan, published.ix);
  }

  lemma RootListed(st: TreeMaps, plan: Plan, ix: Index)
    requires Holds(st, plan, ix)
    ensures ROOT in st.nodes
  {
    hide NameOf, ChildrenSound, ChildrenComplete, RenderedSound, RenderedComplete, TracksOk;
    assert MemberIn(plan, ROOT_DIR);
  }
}
