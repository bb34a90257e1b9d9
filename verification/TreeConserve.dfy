/**
  What an incremental update does to the tracks whatever their names: none is lost, none
  appears from nowhere, and each ends at its old place or at its new rendered path.
 */
module TreeConserve {
  import opened Names
  import opened TreePlan
  import opened TreeRebuild
  import opened TreeBuild
  import opened TreeCanon

  /** The batch on the tracks: `gone` out, then every id of `ins` whose path names something in. */
  function AfterBatch(tracks: map<int, seq<Name>>, gone: set<int>, ins: seq<int>, newPaths: map<int, string>): map<int, seq<Name>> {
    (tracks - gone) + map t | t in ins && t in newPaths && TreeKeys(newPaths[t]) != [] :: TreeKeys(newPaths[t])
  }

  /** From `before` to `after` tracks may only move to their new paths, or go when that path names nothing. */
  ghost predicate Carried(before: map<int, seq<Name>>, after: map<int, seq<Name>>, newPaths: map<int, string>) {
    (forall t | t in after :: t in before && (after[t] == before[t] || (t in newPaths && after[t] == TreeKeys(newPaths[t])))) &&
    forall t | t in before :: t in after || (t in newPaths && TreeKeys(newPaths[t]) == [])
  }

  lemma CarriedSelf(a: map<int, seq<Name>>, newPaths: map<int, string>)
    ensures Carried(a, a, newPaths)
  {
  }

  lemma CarriedTrans(a: map<int, seq<Name>>, b: map<int, seq<Name>>, c: map<int, seq<Name>>, newPaths: map<int, string>)
    requires Carried(a, b, newPaths) && Carried(b, c, newPaths)
    ensures Carried(a, c, newPaths)
  {
    hide TreeKeys;
  }

  /** One rebuild, of the member shown at `path`: the tracks below it out, and back in ascending order. */
  ghost predicate RebuiltAt(a: Plan, b: Plan, tracks: map<int, seq<Name>>, path: string, d: Member, ids: seq<int>) {
    MemberIn(a, d) && PathOf(a, d) == path && TracksBelow(a, d, ids) && Insertable(ids, tracks) && b == RebuildPlan(a, ids, tracks)
  }

  ghost predicate RebuiltOnce(a: Plan, b: Plan, tracks: map<int, seq<Name>>, path: string) {
    exists d, ids :: RebuiltAt(a, b, tracks, path, d, ids)
  }

  /** The plans one goes through by rebuilding the members shown at the paths of the trail, one after another. */
  ghost predicate Rebuilds(plans: seq<Plan>, tracks: map<int, seq<Name>>, trail: seq<string>) {
    |plans| == |trail| + 1 && forall i | 0 <= i < |trail| :: RebuiltOnce(plans[i], plans[i + 1], tracks, trail[i])
  }

  predicate FromTo(plans: seq<Plan>, a: Plan, b: Plan) { plans != [] && plans[0] == a && plans[|plans| - 1] == b }

  lemma NoRebuilds(a: Plan, tracks: map<int, seq<Name>>)
    ensures Rebuilds([a], tracks, [])
  {
  }

  lemma RebuildsOn(plans: seq<Plan>, b: Plan, tracks: map<int, seq<Name>>, trail: seq<string>, path: string)
    requires Rebuilds(plans, tracks, trail) && RebuiltOnce(plans[|plans| - 1], b, tracks, path)
    ensures Rebuilds(plans + [b], tracks, trail + [path])
  {
    hide RebuiltOnce;
    var more, on := plans + [b], trail + [path];
    forall i | 0 <= i < |on|
      ensures RebuiltOnce(more[i], more[i + 1], tracks, on[i])
    {
      if i < |trail| { assert more[i] == plans[i] && more[i + 1] == plans[i + 1] && on[i] == trail[i]; }
    }
  }

  /** Taking tracks out and putting them back at their new paths carries every track. */
  lemma RebuildCarries(plan: Plan, d: Member, ids: seq<int>, newPaths: map<int, string>)
    requires TracksBelow(plan, d, ids) && Insertable(ids, PathTracks(newPaths))
    ensures Carried(plan.tracks, RebuildPlan(plan, ids, PathTracks(newPaths)).tracks, newPaths)
  {
    hide TreeKeys, InsertAll, RemoveSet;
    RemovedTracks(plan, SetOf(ids));
    InsertAllTracks(RemoveSet(plan, SetOf(ids)), ids, PathTracks(newPaths));
    assert forall t | t in ids :: Under(plan.tracks, d, t);
    assert forall t | t in ids :: t in PathTracks(newPaths);
  }

  lemma AfterBatchAt(tracks: map<int, seq<Name>>, gone: set<int>, ins: seq<int>, newPaths: map<int, string>, t: int)
    ensures var b, moved := AfterBatch(tracks, gone, ins, newPaths), t in ins && t in newPaths && TreeKeys(newPaths[t]) != [];
            (t in b <==> moved || (t in tracks && t !in gone)) && (t in b ==> b[t] == if moved then TreeKeys(newPaths[t]) else tracks[t])
  {
    hide TreeKeys;
  }

  lemma SameMap<K, V>(a: map<K, V>, b: map<K, V>)
    requires forall k :: k in a <==> k in b
    requires forall k | k in a && k in b :: a[k] == b[k]
    ensures a == b
  {
  }

  /** The whole batch, as an operation on the tracks. */
  lemma BatchTracks(plan: Plan, gone: set<int>, ids: seq<int>, ins: seq<int>, newPaths: map<int, string>)
    requires Insertable(ids, PathTracks(newPaths)) && forall t :: t in ids <==> t in ins
    ensures InsertAll(RemoveSet(plan, gone), ids, PathTracks(newPaths)).tracks == AfterBatch(plan.tracks, gone, ins, newPaths)
  {
    hide TreeKeys, InsertAll, RemoveSet, AfterBatch;
    RemovedTracks(plan, gone);
    InsertAllTracks(RemoveSet(plan, gone), ids, PathTracks(newPaths));
    var a, b := InsertAll(RemoveSet(plan, gone), ids, PathTracks(newPaths)).tracks, AfterBatch(plan.tracks, gone, ins, newPaths);
    assert forall t | t in ids :: t in PathTracks(newPaths);
    forall t
      ensures t in a <==> t in b
      ensures t in a && t in b ==> a[t] == b[t]
    {
      AfterBatchAt(plan.tracks, gone, ins, newPaths, t);
    }
    SameMap(a, b);
  }
}
