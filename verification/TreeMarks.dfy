/**
  The marks a removal makes after the fact: where it prunes a chain of directories, the gate
  on the directory that lost the chain decides.
 */
module TreeMarks {
  import opened Names
  import opened TreePlan
  import opened TreeRebuild
  import opened TreeGate
  import opened TreeState
  import opened TreeBuild

  /** Removing `ids[i]`, after those before it, prunes up to depth `k`, and the gate there marks `d`. */
  ghost predicate PruneMark(before: Plan, ix: Index, ids: seq<int>, i: nat, k: nat, d: nat) {
    i < |ids| &&
    var p, q := RemoveSet(before, SetOf(ids[..i])), RemoveSet(before, SetOf(ids[..i + 1]));
    ids[i] in p.tracks &&
    var addr := p.tracks[ids[i]];
    PrunedTo(q, addr, k) && GateOpen(q, addr[..k], NameOf(p, Dir(addr[..k + 1])), addr[k]) && d == InoOf(ix, Dir(addr[..k]))
  }

  /** The directories of `addr` are gone below depth `k`, and there is one to be gone. */
  ghost predicate PrunedTo(q: Plan, addr: seq<Name>, k: nat) {
    k + 1 < |addr| && DirIn(q, addr[..k]) && Dir(addr[..k + 1]) !in q.slots
  }

  ghost predicate PruneMarkedBefore(before: Plan, ix: Index, ids: seq<int>, n: nat, d: nat) {
    exists i: nat, k: nat :: i < n && PruneMark(before, ix, ids, i, k, d)
  }

  ghost predicate PruneMarked(before: Plan, ix: Index, ids: seq<int>, d: nat) { PruneMarkedBefore(before, ix, ids, |ids|, d) }

  lemma PrunedOnce(q: Plan, addr: seq<Name>, j: nat, k: nat)
    requires WellFormed(q) && PrunedTo(q, addr, j) && PrunedTo(q, addr, k)
    ensures j == k
  {
    hide NameOf, WellFormed;
    if j < k { PrunedNotBelow(q, addr, j, k); }
    if k < j { PrunedNotBelow(q, addr, k, j); }
  }

  lemma PrunedNotBelow(q: Plan, addr: seq<Name>, j: nat, k: nat)
    requires WellFormed(q) && PrunedTo(q, addr, k)
    ensures j < k ==> Dir(addr[..j + 1]) in q.slots
  {
    hide NameOf, WellFormed;
    if j < k {
      var d := Dir(addr[..k]);
      assert Addr(q, d) == addr[..k] && d in q.slots;
      if j + 1 < k { AncestorsPresent(q, d, j + 1); }
      assert addr[..k][..j + 1] == addr[..j + 1];
    }
  }

  /** With the parent still there nothing was pruned. */
  lemma NotPruned(q: Plan, addr: seq<Name>)
    requires WellFormed(q) && addr != [] && DirIn(q, addr[..|addr| - 1])
    ensures forall j: nat :: !PrunedTo(q, addr, j)
  {
    hide NameOf, WellFormed;
    forall j: nat
      ensures !PrunedTo(q, addr, j)
    {
      if j + 1 < |addr| {
        var d := Dir(addr[..|addr| - 1]);
        assert Addr(q, d) == d.path && d in q.slots;
        if j + 1 < |addr| - 1 { AncestorsPresent(q, d, j + 1); }
        assert addr[..|addr| - 1][..j + 1] == addr[..j + 1];
      }
    }
  }

  /** What one more removal adds to the marks. */
  lemma PruneStep(before: Plan, ix: Index, ids: seq<int>, i: nat, k: nat, pruned: bool, gated: bool, survivor: nat)
    requires i < |ids|
    requires var p, q := RemoveSet(before, SetOf(ids[..i])), RemoveSet(before, SetOf(ids[..i + 1]));
             WellFormed(q) && (pruned ==> ids[i] in p.tracks) && (gated ==> pruned) &&
             (ids[i] in p.tracks ==>
                var addr := p.tracks[ids[i]];
                (pruned <==> exists j: nat :: PrunedTo(q, addr, j)) &&
                (pruned ==>
                   PrunedTo(q, addr, k) && survivor == InoOf(ix, Dir(addr[..k])) &&
                   (gated <==> GateOpen(q, addr[..k], NameOf(p, Dir(addr[..k + 1])), addr[k]))))
    ensures forall d: nat :: PruneMarkedBefore(before, ix, ids, i + 1, d) <==>
                             PruneMarkedBefore(before, ix, ids, i, d) || (gated && d == survivor)
  {
    hide RemoveSet, WellFormed, GateOpen, PrunedTo, NameOf;
    var q := RemoveSet(before, SetOf(ids[..i + 1]));
    forall d: nat
      ensures PruneMarkedBefore(before, ix, ids, i + 1, d) <==>
              PruneMarkedBefore(before, ix, ids, i, d) || (gated && d == survivor)
    {
      PruneStepAt(before, ix, ids, i, k, pruned, gated, survivor, d);
      if j: nat, l: nat :| j < i + 1 && PruneMark(before, ix, ids, j, l, d) {
        assert j < i || PruneMark(before, ix, ids, i, l, d);
      }
      if gated && d == survivor { assert PruneMark(before, ix, ids, i, k, d); }
    }
  }

  lemma PruneStepAt(before: Plan, ix: Index, ids: seq<int>, i: nat, k: nat, pruned: bool, gated: bool, survivor: nat, d: nat)
    requires i < |ids|
    requires var p, q := RemoveSet(before, SetOf(ids[..i])), RemoveSet(before, SetOf(ids[..i + 1]));
             WellFormed(q) && (pruned ==> ids[i] in p.tracks) && (gated ==> pruned) &&
             (ids[i] in p.tracks ==>
                var addr := p.tracks[ids[i]];
                (pruned <==> exists j: nat :: PrunedTo(q, addr, j)) &&
                (pruned ==>
                   PrunedTo(q, addr, k) && survivor == InoOf(ix, Dir(addr[..k])) &&
                   (gated <==> GateOpen(q, addr[..k], NameOf(p, Dir(addr[..k + 1])), addr[k]))))
    ensures (exists l: nat :: PruneMark(before, ix, ids, i, l, d)) <==> gated && d == survivor
  {
    hide RemoveSet, WellFormed, GateOpen, PrunedTo, NameOf;
    var p, q := RemoveSet(before, SetOf(ids[..i])), RemoveSet(before, SetOf(ids[..i + 1]));
    if l: nat :| PruneMark(before, ix, ids, i, l, d) {
      PrunedOnce(q, p.tracks[ids[i]], l, k);
    }
    if gated && d == survivor { assert PruneMark(before, ix, ids, i, k, d); }
  }

  /** A directory that outlives the removals keeps its inode, as it keeps its path. */
  lemma RemovedInode(paths: map<string, nat>, before: Plan, ix: Index, ids: set<int>, jx: Index, p: seq<Name>)
    requires Indexed(before, ix) && Linked(paths, before, ix) && WellFormed(before)
    requires var q := RemoveSet(before, ids); Indexed(q, jx) && Linked(paths, q, jx) && DirIn(q, p) && WellFormed(q)
    ensures InoOf(ix, Dir(p)) == InoOf(jx, Dir(p))
  {
    hide NameOf, WellFormed, PathOf;
    var q := RemoveSet(before, ids);
    RemoveSetNames(before, ids);
    PathFrame(q, before, Dir(p));
    assert MemberIn(q, Dir(p)) && MemberIn(before, Dir(p));
    assert Dir(p) in ix.ino && Dir(p) in jx.ino;
  }

  /** After pruning down to depth `k` the next directory of the chain is gone. */
  lemma PrunedGone(before: Plan, t: int, q: Plan, k: nat)
    requires Pruning(before, t, k, q)
    ensures k + 1 < |before.tracks[t]| ==> Dir(before.tracks[t][..k + 1]) !in q.slots
  {
    hide NameOf, Live, WellFormed;
    if k + 1 < |before.tracks[t]| { assert PrunedDir(before.tracks[t], k, Dir(before.tracks[t][..k + 1])); }
  }

  /** Neither walk marks anything for the batch, nor does a removal. */
  ghost predicate Unmarked(plan: Plan, ix: Index, outs: seq<int>, ins: seq<int>, newPaths: map<int, string>) {
    forall d: nat ::
      !PruneMarked(plan, ix, outs, d) && (forall t | t in outs :: !RemovalMarked(plan, ix, t, d)) &&
      forall t | t in ins && t in newPaths :: !InsertionMarked(plan, ix, t, TreeKeys(newPaths[t]), d)
  }

  /** What the walks mark before the batch and the gates after its removals. */
  ghost predicate MarkedBy(plan: Plan, ix: Index, outs: seq<int>, ins: seq<int>, newPaths: map<int, string>, d: nat) {
    PruneMarked(plan, ix, outs, d) || (exists t :: t in outs && RemovalMarked(plan, ix, t, d)) ||
    exists t :: t in ins && t in newPaths && InsertionMarked(plan, ix, t, TreeKeys(newPaths[t]), d)
  }

  /** `q` is `base` with the tracks `ins` inserted in ascending order. */
  ghost predicate InsertedInOrder(base: Plan, ins: seq<int>, newPaths: map<int, string>, q: Plan) {
    exists ids :: Ascending(ids) && (forall t :: t in ids <==> t in ins) && Insertable(ids, PathTracks(newPaths)) &&
                  q == InsertAll(base, ids, PathTracks(newPaths))
  }

  lemma InOrder(base: Plan, ins: seq<int>, ids: seq<int>, newPaths: map<int, string>, q: Plan)
    requires Ascending(ids) && (forall t :: t in ids <==> t in ins) && Insertable(ids, PathTracks(newPaths))
    requires q == InsertAll(base, ids, PathTracks(newPaths))
    ensures InsertedInOrder(base, ins, newPaths, q)
  {
    hide InsertAll, Insertable, PathTracks;
  }

  lemma NothingDirty(plan: Plan, ix: Index, outs: seq<int>, ins: seq<int>, newPaths: map<int, string>, marked: set<nat>, dirty: set<nat>)
    requires forall t | t in ins :: t in newPaths
    requires forall d: nat :: d in marked <==>
               (exists t :: t in outs && RemovalMarked(plan, ix, t, d)) ||
               (exists t :: t in ins && InsertionMarked(plan, ix, t, TreeKeys(newPaths[t]), d))
    requires forall d: nat :: d in dirty <==> d in marked || PruneMarked(plan, ix, outs, d)
    ensures Unmarked(plan, ix, outs, ins, newPaths) ==> dirty == {}
  {
    hide RemovalMarked, InsertionMarked, PruneMarked, TreeKeys;
    if Unmarked(plan, ix, outs, ins, newPaths) {
      forall d: nat
        ensures d !in dirty
      {
        assert !PruneMarked(plan, ix, outs, d);
      }
    }
  }
}
