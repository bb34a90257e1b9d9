/**
  Fresh builds as plans: what a build from a list of rendered paths gives, and when that
  is the canonical plan of its tracks.
 */
module TreeBuild {
  import opened Names
  import opened TreePlan
  import opened TreeCanon
  import opened TreeRebuild

  type Entry = (int, string)

  predicate DistinctIds(entries: seq<Entry>) { forall i, j | 0 <= i < j < |entries| :: entries[i].0 != entries[j].0 }

  predicate AscendingIds(entries: seq<Entry>) { forall i, j | 0 <= i < j < |entries| :: entries[i].0 < entries[j].0 }

  /** The plan `build_with` makes: every entry inserted in order. */
  ghost function Built(entries: seq<Entry>): Plan {
    if entries == [] then EMPTY_PLAN
    else
      var e := entries[|entries| - 1];
      InsertPath(Built(entries[..|entries| - 1]), e.0, TreeKeys(e.1))
  }

  /** A rendered path whose components are all in the vocabulary. */
  ghost predicate WordRendered(vocab: Vocabulary, path: string) { Worded(vocab, PathComponents(path)) }

  lemma WordKeys(vocab: Vocabulary, path: string)
    requires Separate(vocab) && WordRendered(vocab, path)
    ensures TreeKeys(path) == PathComponents(path) && (TreeKeys(path) == [] || WordPath(vocab, TreeKeys(path)))
  {
    hide PathComponents, IsSuffixShaped;
    var cs := PathComponents(path);
    assert forall i | 0 <= i < |cs| :: cs[i] in vocab(cs[..i]) && Unambiguous(vocab(cs[..i])) && TreeKeys(path)[i] == cs[i];
  }

  /** The tree keys of every rendered path that materializes anything. */
  function PathTracks(paths: map<int, string>): map<int, seq<Name>> {
    map t | t in paths :: TreeKeys(paths[t])
  }

  function Materialized(tracks: map<int, seq<Name>>): map<int, seq<Name>> {
    map t | t in tracks && tracks[t] != [] :: tracks[t]
  }

  function EntryIds(entries: seq<Entry>): (ids: seq<int>)
    ensures |ids| == |entries| && forall i | 0 <= i < |ids| :: ids[i] == entries[i].0
  {
    seq(|entries|, i requires 0 <= i < |entries| => entries[i].0)
  }

  ghost predicate Listing(entries: seq<Entry>, tracks: map<int, seq<Name>>) {
    forall i | 0 <= i < |entries| :: entries[i].0 in tracks && tracks[entries[i].0] == TreeKeys(entries[i].1)
  }

  lemma {:induction false} BuiltInsertAll(entries: seq<Entry>, tracks: map<int, seq<Name>>)
    requires Listing(entries, tracks)
    ensures Insertable(EntryIds(entries), tracks) && Built(entries) == InsertAll(EMPTY_PLAN, EntryIds(entries), tracks)
  {
    hide Insert, TreeKeys;
    if entries != [] {
      var init := entries[..|entries| - 1];
      BuiltInsertAll(init, tracks);
      assert EntryIds(entries)[..|entries| - 1] == EntryIds(init);
    }
  }

  lemma {:induction false} BuiltIds(entries: seq<Entry>, t: int)
    requires t in Built(entries).tracks
    ensures exists i :: 0 <= i < |entries| && entries[i].0 == t
  {
    hide Insert, TreeKeys;
    if entries != [] {
      var init, e := entries[..|entries| - 1], entries[|entries| - 1];
      InsertPathTracks(Built(init), e.0, TreeKeys(e.1));
      if t != e.0 {
        BuiltIds(init, t);
        var i :| 0 <= i < |init| && init[i].0 == t;
        assert entries[i].0 == t;
      }
    }
  }

  lemma BuiltBatch(vocab: Vocabulary, entries: seq<Entry>, tracks: map<int, seq<Name>>)
    requires AscendingIds(entries) && Listing(entries, tracks) && |entries| + 3 < RANK_LIMIT && Separate(vocab)
    requires forall i | 0 <= i < |entries| :: WordRendered(vocab, entries[i].1)
    ensures Batch(vocab, EMPTY_PLAN, EntryIds(entries), tracks)
  {
    hide TreeKeys, WordRendered, WordPath, Separate;
    var ids := EntryIds(entries);
    forall i | 0 <= i < |ids|
      ensures ids[i] in tracks && (tracks[ids[i]] == [] || WordPath(vocab, tracks[ids[i]]))
    {
      WordKeys(vocab, entries[i].1);
    }
  }

  /** A build in ascending id order from paths over an unambiguous vocabulary is canonical. */
  lemma BuiltCanonical(vocab: Vocabulary, entries: seq<Entry>, tracks: map<int, seq<Name>>)
    requires AscendingIds(entries) && Listing(entries, tracks) && |entries| + 3 < RANK_LIMIT && Separate(vocab)
    requires forall i | 0 <= i < |entries| :: WordRendered(vocab, entries[i].1)
    ensures Canonical(Built(entries)) && Tame(vocab, Built(entries))
  {
    hide Insert, WordRendered, Correct, Valid, InsertAll, Built, Separate, Batch, Listing, Tame, Insertable;
    var ids := EntryIds(entries);
    BuiltInsertAll(entries, tracks);
    EmptyPlanValid();
    EmptyTame(vocab);
    BuiltBatch(vocab, entries, tracks);
    InsertAllValid(vocab, EMPTY_PLAN, ids, tracks);
    forall g: seq<Name>
      ensures Correct(Built(entries), g)
    {
      if g == [] { RootGroup(Built(entries)); } else { AscendingFill(vocab, EMPTY_PLAN, ids, tracks, g); }
    }
  }

  lemma EmptyTame(vocab: Vocabulary)
    requires Separate(vocab)
    ensures Tame(vocab, EMPTY_PLAN)
  {
    hide Separate, WordPath;
  }

  lemma RootGroup(plan: Plan)
    requires Valid(plan)
    ensures Correct(plan, [])
  {
    hide NameOf, Correct, SiblingsDistinct, RootUnreserved, Rooted, FilesAreTracks;
    EmptyGroupCorrect(plan, []);
  }

  lemma BuiltTracks(entries: seq<Entry>, tracks: map<int, seq<Name>>)
    requires Listing(entries, tracks) && forall t | t in tracks :: t in EntryIds(entries)
    ensures Built(entries).tracks == Materialized(tracks)
  {
    hide Insert, TreeKeys, InsertAll, Built;
    var a, b := Built(entries).tracks, Materialized(tracks);
    BuiltInsertAll(entries, tracks);
    InsertAllTracks(EMPTY_PLAN, EntryIds(entries), tracks);
    assert forall t :: t in a.Keys <==> t in b.Keys;
    assert a.Keys == b.Keys;
    assert forall t :: t in a ==> t in b && a[t] == b[t];
  }
}
