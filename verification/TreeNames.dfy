/**
  How long the names of the tree are: rendered names always fit a directory entry, and a shown
  name does exactly when its rank leaves its extension room.
 */
module TreeNames {
  import opened Names
  import opened NameFacts
  import opened TreePlan
  import opened TreeRebuild
  import opened TreeBuild
  import opened TreeConserve
  import opened TreeState

  predicate NamesFit(names: seq<Name>) { forall i | 0 <= i < |names| :: Bytes(names[i]) <= 255 }

  /** Every rendered component has at most 255 bytes. */
  predicate Fitting(tracks: map<int, seq<Name>>) { forall t | t in tracks :: NamesFit(tracks[t]) }

  lemma KeysFit(path: string)
    ensures NamesFit(TreeKeys(path))
  {
    hide TreeKeys, PathComponents, Bytes;
    forall i | 0 <= i < |TreeKeys(path)|
      ensures Bytes(TreeKeys(path)[i]) <= 255
    {
      TreeKeysFit(path, i);
    }
  }

  /** Inserting a rendered path keeps it so. */
  lemma InsertFits(plan: Plan, t: int, path: string)
    requires Fitting(plan.tracks)
    ensures Fitting(InsertPath(plan, t, TreeKeys(path)).tracks)
  {
    hide TreeKeys, InsertPath, NamesFit;
    InsertPathTracks(plan, t, TreeKeys(path));
    KeysFit(path);
  }

  lemma {:induction false} BuiltFits(entries: seq<Entry>)
    ensures Fitting(Built(entries).tracks)
  {
    hide TreeKeys, InsertPath;
    if entries != [] {
      BuiltFits(entries[..|entries| - 1]);
      InsertFits(Built(entries[..|entries| - 1]), entries[|entries| - 1].0, entries[|entries| - 1].1);
    }
  }

  /** So does a patch, whatever the names: its batch, and then its rebuilds. */
  lemma PatchFits(tracks: map<int, seq<Name>>, gone: set<int>, ins: seq<int>, newPaths: map<int, string>, after: map<int, seq<Name>>)
    requires Fitting(tracks) && Carried(AfterBatch(tracks, gone, ins, newPaths), after, newPaths)
    ensures Fitting(after)
  {
    hide TreeKeys, NamesFit;
    var batch := AfterBatch(tracks, gone, ins, newPaths);
    forall t | t in after
      ensures NamesFit(after[t])
    {
      if t in newPaths { KeysFit(newPaths[t]); }
      assert t in batch && (batch[t] == after[t] || t in newPaths);
    }
  }

  /** A member's rendered name fits; its shown name does exactly when it has rank 1 or its rank leaves the extension room. */
  lemma MemberNameFits(plan: Plan, m: Member)
    requires Valid(plan) && Fitting(plan.tracks) && m in plan.slots
    ensures Bytes(Rendered(plan, m)) <= 255
    ensures Bytes(NameOf(plan, m)) <= 255 <==>
            plan.slots[m] == 1 || Bytes(RankSuffix(plan.slots[m])) + Bytes(ExtPart(Rendered(plan, m))) <= 255
  {
    hide Bytes, SuffixCandidate, RankSuffix, ExtPart, SiblingsDistinct, RootUnreserved, Rooted;
    CandidateFits(Rendered(plan, m), plan.slots[m]);
    assert Live(plan.tracks, m);
    match m {
      case File(t) => assert Last(plan.tracks[t]) == plan.tracks[t][|plan.tracks[t]| - 1];
      case Dir(p) =>
        var t :| t in plan.tracks && p < plan.tracks[t];
        assert Last(p) == plan.tracks[t][|p| - 1];
    }
  }

  /** In the maps: which nodes a directory listing can show. */
  lemma NodeNameFits(st: TreeMaps, plan: Plan, ix: Index, i: nat)
    requires Holds(st, plan, ix) && Valid(plan) && Fitting(plan.tracks) && i in st.nodes && i != ROOT
    ensures i in ix.at && ix.at[i] in plan.slots
    ensures var node, rank := st.nodes[i], plan.slots[ix.at[i]];
            Bytes(node.rendered) <= 255 &&
            (Bytes(node.name) <= 255 <==> rank == 1 || Bytes(RankSuffix(rank)) + Bytes(ExtPart(node.rendered)) <= 255)
  {
    hide NameOf, Bytes, RankSuffix, ExtPart, SiblingsDistinct, RootUnreserved, Rooted, Shaped, FilesAreTracks, ChildrenSound,
         ChildrenComplete, RenderedSound, RenderedComplete, TracksOk;
    MemberNameFits(plan, ix.at[i]);
  }

  function Xs(n: nat): (s: string)
    ensures |s| == n && forall i | 0 <= i < n :: s[i] == 'x'
  {
    seq(n, i => 'x')
  }

  lemma LongExtension(x: string)
    requires |x| == 252 && forall i | 0 <= i < |x| :: x[i] == 'x'
    ensures var name := "a." + x; Bytes(TruncateComponent(name, true)) == 254 && Bytes(SuffixCandidate(name, 2)) > 255
  {
    var name := "a." + x;
    hide TruncateBytes, Digits, RankedStem, SplitSuffixParts, Bytes, SuffixCandidate;
    BytesAscii(name);
    assert name == "a" + "." + x;
    SplitSuffixExactly(name, "a", x);
    BytesAscii("." + x);
    DecimalDigits(2);
    DecimalBytes(2);
    CandidateFits(name, 2);
  }

  /** The condition does fail: a name of 254 bytes that is nearly all extension, the second time it is rendered. */
  lemma OverlongCandidate()
    ensures var name := "a." + Xs(252); Bytes(TruncateComponent(name, true)) == 254 && Bytes(SuffixCandidate(name, 2)) > 255
  {
    LongExtension(Xs(252));
  }
}
