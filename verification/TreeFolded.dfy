/**
  A build for a case-insensitive mount, as an operation on values: names are compared folded,
  a directory is known by the folded rendered names that lead to it, and what is shown is the
  casing that came first.
 */
module TreeFolded {
  import opened Outcomes
  import opened Names
  import opened TreePlan
  import opened TreeBuild

  type Fold = Name -> Name

  /** Different ranks of one name stay different when folded. */
  ghost predicate KeepsRanks(fold: Fold) {
    forall name, j: nat, k: nat | 2 <= j < k :: fold(SuffixCandidate(name, j)) != fold(SuffixCandidate(name, k))
  }

  datatype Key = DirKey(path: seq<Name>) | FileKey(id: int)

  /** Where a member is, what it was rendered as, and the name it got. */
  datatype Shown = Shown(parent: seq<Name>, rendered: Name, name: Name)

  /** `index` leads from a directory and a folded name to the child. */
  datatype FoldedTree = FoldedTree(shown: map<Key, Shown>, index: map<(seq<Name>, Name), Key>)

  /** The folded name is reserved at the root or in the index. */
  predicate FoldTaken(fold: Fold, t: FoldedTree, dir: seq<Name>, name: Name) {
    (dir == [] && Reserved(fold(name))) || (dir, fold(name)) in t.index
  }

  /** `lookup` on a case-insensitive mount. */
  function Lookup(fold: Fold, t: FoldedTree, dir: seq<Name>, name: Name): Option<Key> {
    if (dir, fold(name)) in t.index then Some(t.index[(dir, fold(name))]) else None
  }

  ghost predicate IsFree(fold: Fold, t: FoldedTree, dir: seq<Name>, rendered: Name, k: nat) {
    k >= 1 && !FoldTaken(fold, t, dir, SlotName(rendered, k)) && forall j | 1 <= j < k :: FoldTaken(fold, t, dir, SlotName(rendered, j))
  }

  function TakenFolds(t: FoldedTree): set<Name> { (set e | e in t.index :: e.1) + {METRICS_DIR_NAME, SPOTLIGHT_MARKER_NAME} }

  /** Candidates differ when folded, so one of them is free. */
  lemma {:induction false} FreeCandidate(fold: Fold, rendered: Name, folds: set<Name>, from: nat) returns (k: nat)
    requires KeepsRanks(fold) && from >= 2
    ensures from <= k <= from + |folds| && fold(SuffixCandidate(rendered, k)) !in folds
    decreases |folds|
  {
    hide SuffixCandidate;
    k := from;
    var f := fold(SuffixCandidate(rendered, from));
    if f in folds {
      var rest := folds - {f};
      k := FreeCandidate(fold, rendered, rest, from + 1);
      assert fold(SuffixCandidate(rendered, k)) != f;
    }
  }

  lemma {:induction false} LeastFree(fold: Fold, t: FoldedTree, dir: seq<Name>, rendered: Name, bound: nat) returns (k: nat)
    requires bound >= 1 && !FoldTaken(fold, t, dir, SlotName(rendered, bound))
    ensures IsFree(fold, t, dir, rendered, k)
  {
    hide FoldTaken, SlotName;
    if j: nat :| 1 <= j < bound && !FoldTaken(fold, t, dir, SlotName(rendered, j)) {
      k := LeastFree(fold, t, dir, rendered, j);
    } else {
      k := bound;
    }
  }

  lemma NotTaken(fold: Fold, t: FoldedTree, dir: seq<Name>, name: Name)
    requires fold(name) !in TakenFolds(t)
    ensures !FoldTaken(fold, t, dir, name)
  {
    assert forall e | e in t.index :: e.1 in TakenFolds(t);
  }

  /** `disambiguate`: the least rank whose folded name is free. */
  ghost function FreeRank(fold: Fold, t: FoldedTree, dir: seq<Name>, rendered: Name): (k: nat)
    requires KeepsRanks(fold)
    ensures IsFree(fold, t, dir, rendered, k)
  {
    FreeRankExists(fold, t, dir, rendered);
    var k :| IsFree(fold, t, dir, rendered, k);
    k
  }

  lemma FreeRankExists(fold: Fold, t: FoldedTree, dir: seq<Name>, rendered: Name)
    requires KeepsRanks(fold)
    ensures exists k :: IsFree(fold, t, dir, rendered, k)
  {
    hide SuffixCandidate, FoldTaken;
    var bound := FreeCandidate(fold, rendered, TakenFolds(t), 2);
    NotTaken(fold, t, dir, SlotName(rendered, bound));
    var k := LeastFree(fold, t, dir, rendered, bound);
  }

  ghost function Entered(fold: Fold, t: FoldedTree, m: Key, dir: seq<Name>, rendered: Name): FoldedTree
    requires KeepsRanks(fold)
  {
    var name := SlotName(rendered, FreeRank(fold, t, dir, rendered));
    FoldedTree(t.shown[m := Shown(dir, rendered, name)], t.index[(dir, fold(name)) := m])
  }

  function FoldAll(fold: Fold, names: seq<Name>): (r: seq<Name>)
    ensures |r| == |names| && forall i | 0 <= i < |r| :: r[i] == fold(names[i])
  {
    seq(|names|, i requires 0 <= i < |names| => fold(names[i]))
  }

  /** `ensure_dir` along the first `n` rendered components: a directory of the same folded components is merged with. */
  ghost function EnsuredDirs(fold: Fold, t: FoldedTree, keys: seq<Name>, n: nat): FoldedTree
    requires KeepsRanks(fold) && n <= |keys|
  {
    if n == 0 then t
    else
      var q, path := EnsuredDirs(fold, t, keys, n - 1), FoldAll(fold, keys[..n]);
      if DirKey(path) in q.shown then q else Entered(fold, q, DirKey(path), FoldAll(fold, keys[..n - 1]), keys[n - 1])
  }

  /** `insert_file`. */
  ghost function Inserted(fold: Fold, t: FoldedTree, id: int, keys: seq<Name>): FoldedTree
    requires KeepsRanks(fold)
  {
    if keys == [] then t
    else
      var n := |keys| - 1;
      Entered(fold, EnsuredDirs(fold, t, keys, n), FileKey(id), FoldAll(fold, keys[..n]), keys[n])
  }

  /** `build_with_ci` on a case-insensitive mount. */
  ghost function FoldedBuild(fold: Fold, entries: seq<Entry>): FoldedTree
    requires KeepsRanks(fold)
  {
    if entries == [] then FoldedTree(map[], map[])
    else
      var e := entries[|entries| - 1];
      Inserted(fold, FoldedBuild(fold, entries[..|entries| - 1]), e.0, TreeKeys(e.1))
  }

  // ----- What every build keeps ---------------------------------------------------------------------

  function Spot(fold: Fold, s: Shown): (seq<Name>, Name) { (s.parent, fold(s.name)) }

  /** The index has every child under its folded name, and nothing else. */
  ghost predicate IndexExact(fold: Fold, t: FoldedTree) {
    (forall m | m in t.shown :: Spot(fold, t.shown[m]) in t.index && t.index[Spot(fold, t.shown[m])] == m) &&
    forall e | e in t.index :: t.index[e] in t.shown && Spot(fold, t.shown[t.index[e]]) == e
  }

  /** No two siblings compare equal. */
  ghost predicate SiblingsApart(fold: Fold, t: FoldedTree) {
    forall a, b | a in t.shown && b in t.shown && a != b && t.shown[a].parent == t.shown[b].parent ::
      fold(t.shown[a].name) != fold(t.shown[b].name)
  }

  /** Every member hangs in a directory that is there, a directory's key is its folded path, and names are components. */
  ghost predicate WellPlaced(fold: Fold, t: FoldedTree) {
    forall m | m in t.shown :: var s := t.shown[m];
      (s.parent == [] || DirKey(s.parent) in t.shown) && (m.DirKey? ==> m.path == s.parent + [fold(s.rendered)]) && IsComponent(s.name)
  }

  /** The root holds no reserved name. */
  ghost predicate RootSpared(fold: Fold, t: FoldedTree) {
    forall m | m in t.shown && t.shown[m].parent == [] :: !Reserved(fold(t.shown[m].name))
  }

  ghost predicate FileBelow(t: FoldedTree, path: seq<Name>, id: int) { FileKey(id) in t.shown && path <= t.shown[FileKey(id)].parent }

  /** Every directory has a file below it. */
  ghost predicate Populated(t: FoldedTree) {
    forall m | m in t.shown && m.DirKey? :: exists id :: FileBelow(t, m.path, id)
  }

  ghost predicate Sound(fold: Fold, t: FoldedTree) { IndexExact(fold, t) && WellPlaced(fold, t) && RootSpared(fold, t) }

  ghost predicate Consistent(fold: Fold, t: FoldedTree) { Sound(fold, t) && Populated(t) }

  lemma EnteredSound(fold: Fold, t: FoldedTree, m: Key, dir: seq<Name>, rendered: Name)
    requires KeepsRanks(fold) && Sound(fold, t) && m !in t.shown && (dir == [] || DirKey(dir) in t.shown) && IsComponent(rendered)
    requires m.DirKey? ==> m.path == dir + [fold(rendered)]
    ensures Sound(fold, Entered(fold, t, m, dir, rendered))
  {
    hide SlotName, Reserved, IsComponent, IndexExact, WellPlaced, RootSpared, Entered;
    EnteredIndexed(fold, t, m, dir, rendered);
    EnteredPlaced(fold, t, m, dir, rendered);
    EnteredSpared(fold, t, m, dir, rendered);
  }

  lemma EnteredIndexed(fold: Fold, t: FoldedTree, m: Key, dir: seq<Name>, rendered: Name)
    requires KeepsRanks(fold) && IndexExact(fold, t) && m !in t.shown
    ensures IndexExact(fold, Entered(fold, t, m, dir, rendered))
  {
    hide SlotName, KeepsRanks, Reserved;
    var q := Entered(fold, t, m, dir, rendered);
    var e := Spot(fold, q.shown[m]);
    assert e !in t.index;
    forall x | x in q.shown
      ensures Spot(fold, q.shown[x]) in q.index && q.index[Spot(fold, q.shown[x])] == x
    {
      if x != m { assert Spot(fold, t.shown[x]) in t.index; }
    }
    forall f | f in q.index
      ensures q.index[f] in q.shown && Spot(fold, q.shown[q.index[f]]) == f
    {
      if f != e { assert f in t.index && t.index[f] in t.shown; }
    }
  }

  lemma EnteredPlaced(fold: Fold, t: FoldedTree, m: Key, dir: seq<Name>, rendered: Name)
    requires KeepsRanks(fold) && WellPlaced(fold, t) && m !in t.shown && (dir == [] || DirKey(dir) in t.shown) && IsComponent(rendered)
    requires m.DirKey? ==> m.path == dir + [fold(rendered)]
    ensures WellPlaced(fold, Entered(fold, t, m, dir, rendered))
  {
    hide SlotName, IsComponent, IsFree, KeepsRanks;
    SlotNameComponent(rendered, FreeRank(fold, t, dir, rendered));
  }

  lemma EnteredSpared(fold: Fold, t: FoldedTree, m: Key, dir: seq<Name>, rendered: Name)
    requires KeepsRanks(fold) && RootSpared(fold, t)
    ensures RootSpared(fold, Entered(fold, t, m, dir, rendered))
  {
    hide SlotName, KeepsRanks, Reserved;
  }

  lemma {:induction false} EnsuredSound(fold: Fold, t: FoldedTree, keys: seq<Name>, n: nat)
    requires KeepsRanks(fold) && Sound(fold, t) && n <= |keys| && AreComponents(keys)
    ensures var q := EnsuredDirs(fold, t, keys, n);
            Sound(fold, q) && (n > 0 ==> DirKey(FoldAll(fold, keys[..n])) in q.shown) && Extends(t, q) &&
            forall m | m in q.shown && m !in t.shown :: m.DirKey? && m.path <= FoldAll(fold, keys[..n])
  {
    hide Entered, Sound, IsComponent;
    if n > 0 {
      EnsuredSound(fold, t, keys, n - 1);
      var q, path, dir := EnsuredDirs(fold, t, keys, n - 1), FoldAll(fold, keys[..n]), FoldAll(fold, keys[..n - 1]);
      assert path == dir + [fold(keys[n - 1])];
      assert n == 1 ==> dir == [];
      if DirKey(path) !in q.shown {
        EnteredSound(fold, q, DirKey(path), dir, keys[n - 1]);
        EnteredAdds(fold, q, DirKey(path), dir, keys[n - 1]);
      }
    }
  }

  /** What is shown in `t` is shown in `q` just so. */
  ghost predicate Extends(t: FoldedTree, q: FoldedTree) { forall m | m in t.shown :: m in q.shown && q.shown[m] == t.shown[m] }

  lemma EnteredAdds(fold: Fold, t: FoldedTree, m: Key, dir: seq<Name>, rendered: Name)
    requires KeepsRanks(fold) && m !in t.shown
    ensures var q := Entered(fold, t, m, dir, rendered);
            m in q.shown && q.shown[m].parent == dir && q.shown[m].rendered == rendered &&
            Extends(t, q) && forall x | x in q.shown :: x == m || x in t.shown
  {
    hide SlotName, IsFree;
  }

  /** One more track: consistent still, the file in the directory of its folded components, nothing else moved. */
  lemma InsertedConsistent(fold: Fold, t: FoldedTree, id: int, keys: seq<Name>)
    requires KeepsRanks(fold) && Consistent(fold, t) && FileKey(id) !in t.shown && AreComponents(keys)
    ensures var q := Inserted(fold, t, id, keys);
            Consistent(fold, q) && Extends(t, q) &&
            (forall u :: FileKey(u) in q.shown <==> FileKey(u) in t.shown || (u == id && keys != [])) &&
            (keys != [] ==>
               q.shown[FileKey(id)].parent == FoldAll(fold, keys[..|keys| - 1]) && q.shown[FileKey(id)].rendered == keys[|keys| - 1])
  {
    hide Entered, Sound, IsComponent;
    if keys != [] {
      var n := |keys| - 1;
      var dir, q1 := FoldAll(fold, keys[..n]), EnsuredDirs(fold, t, keys, n);
      EnsuredSound(fold, t, keys, n);
      EnteredSound(fold, q1, FileKey(id), dir, keys[n]);
      EnteredAdds(fold, q1, FileKey(id), dir, keys[n]);
      InsertedPopulated(t, Inserted(fold, t, id, keys), id, dir);
    }
  }

  lemma InsertedPopulated(t: FoldedTree, q: FoldedTree, id: int, dir: seq<Name>)
    requires Populated(t) && Extends(t, q)
    requires FileKey(id) in q.shown && q.shown[FileKey(id)].parent == dir
    requires forall m | m in q.shown && m !in t.shown && m.DirKey? :: m.path <= dir
    ensures Populated(q)
  {
    forall m | m in q.shown && m.DirKey?
      ensures exists u :: FileBelow(q, m.path, u)
    {
      if m in t.shown {
        var u :| FileBelow(t, m.path, u);
        assert FileBelow(q, m.path, u);
      } else {
        assert FileBelow(q, m.path, id);
      }
    }
  }

  /**
    After any build with distinct ids: the index is exact, no two siblings compare equal, every member hangs in a directory
    that is there, none is empty, the root is spared, and exactly the tracks whose path names
    something have a file, in the directory of their folded components.
   */
  lemma {:induction false} FoldedConsistent(fold: Fold, entries: seq<Entry>)
    requires KeepsRanks(fold) && DistinctIds(entries)
    ensures var t := FoldedBuild(fold, entries);
            Consistent(fold, t) && SiblingsApart(fold, t) &&
            (forall u | FileKey(u) in t.shown :: exists i :: 0 <= i < |entries| && entries[i].0 == u) &&
            forall i | 0 <= i < |entries| :: Placed(fold, t, entries[i])
  {
    hide Consistent, Inserted, TreeKeys, AreComponents, SiblingsApart;
    if entries == [] {
      NothingThere(fold);
      ConsistentApart(fold, FoldedBuild(fold, entries));
    } else {
      var n := |entries| - 1;
      var init, e := entries[..n], entries[n];
      FoldedConsistent(fold, init);
      var t := FoldedBuild(fold, init);
      assert forall i | 0 <= i < n :: init[i] == entries[i];
      TreeKeysComponents(e.1);
      InsertedConsistent(fold, t, e.0, TreeKeys(e.1));
      ConsistentApart(fold, FoldedBuild(fold, entries));
      forall u | FileKey(u) in FoldedBuild(fold, entries).shown
        ensures exists i :: 0 <= i < |entries| && entries[i].0 == u
      {
        if FileKey(u) in t.shown {
          var i :| 0 <= i < n && init[i].0 == u;
          assert entries[i].0 == u;
        } else {
          assert entries[n].0 == u;
        }
      }
      forall i | 0 <= i < |entries|
        ensures Placed(fold, FoldedBuild(fold, entries), entries[i])
      {
        if i < n { assert Placed(fold, t, init[i]); }
      }
    }
  }

  lemma ConsistentApart(fold: Fold, t: FoldedTree)
    requires Consistent(fold, t)
    ensures SiblingsApart(fold, t)
  {
    ApartByIndex(fold, t);
  }

  lemma NothingThere(fold: Fold)
    ensures Consistent(fold, FoldedTree(map[], map[]))
  {
  }

  ghost predicate Placed(fold: Fold, t: FoldedTree, e: Entry) {
    var keys := TreeKeys(e.1);
    (FileKey(e.0) in t.shown <==> keys != []) &&
    (keys != [] && FileKey(e.0) in t.shown ==>
       t.shown[FileKey(e.0)].parent == FoldAll(fold, keys[..|keys| - 1]) && t.shown[FileKey(e.0)].rendered == keys[|keys| - 1])
  }

  // ----- Lookups ------------------------------------------------------------------------------------------

  /** A lookup in any casing returns the one child that compares equal, exactly when there is one. */
  lemma LookupFinds(fold: Fold, t: FoldedTree, dir: seq<Name>, name: Name)
    requires Consistent(fold, t)
    ensures SiblingsApart(fold, t)
    ensures forall m :: Lookup(fold, t, dir, name) == Some(m) <==>
                        m in t.shown && t.shown[m].parent == dir && fold(t.shown[m].name) == fold(name)
  {
    forall m | m in t.shown && t.shown[m].parent == dir && fold(t.shown[m].name) == fold(name)
      ensures Lookup(fold, t, dir, name) == Some(m)
    {
      assert Spot(fold, t.shown[m]) == (dir, fold(name));
    }
    if (dir, fold(name)) in t.index { assert Spot(fold, t.shown[t.index[(dir, fold(name))]]) == (dir, fold(name)); }
    ApartByIndex(fold, t);
  }

  lemma ApartByIndex(fold: Fold, t: FoldedTree)
    requires IndexExact(fold, t)
    ensures SiblingsApart(fold, t)
  {
    forall a, b | a in t.shown && b in t.shown && a != b && t.shown[a].parent == t.shown[b].parent
      ensures fold(t.shown[a].name) != fold(t.shown[b].name)
    {
      assert t.index[Spot(fold, t.shown[a])] == a && t.index[Spot(fold, t.shown[b])] == b;
    }
  }

  // ----- Inode keys ------------------------------------------------------------------------------------------

  /** Folding works component by component. */
  ghost predicate KeepsParts(fold: Fold) {
    (forall c | IsComponent(c) :: IsComponent(fold(c))) &&
    forall a, c | a != "" && IsComponent(c) :: fold(a + "/" + c) == fold(a) + "/" + fold(c)
  }

  /** The names shown from the root down to a member. */
  ghost function DisplayPath(fold: Fold, t: FoldedTree, m: Key): (p: seq<Name>)
    requires WellPlaced(fold, t) && m in t.shown
    ensures p != [] && AreComponents(p)
    decreases |t.shown[m].parent|
  {
    var s := t.shown[m];
    if s.parent == [] then [s.name]
    else
      var d := DirKey(s.parent);
      assert d.path == t.shown[d].parent + [fold(t.shown[d].rendered)];
      DisplayPath(fold, t, d) + [s.name]
  }

  /** The path a member's inode is interned under: its own, folded. */
  ghost function InodeKey(fold: Fold, t: FoldedTree, m: Key): string
    requires WellPlaced(fold, t) && m in t.shown
  {
    fold(JoinNames(DisplayPath(fold, t, m)))
  }

  lemma {:induction false} FoldedJoin(fold: Fold, names: seq<Name>)
    requires KeepsParts(fold) && names != [] && AreComponents(names)
    ensures fold(JoinNames(names)) == JoinNames(FoldAll(fold, names)) && AreComponents(FoldAll(fold, names))
  {
    var n := |names| - 1;
    assert FoldAll(fold, names)[..n] == FoldAll(fold, names[..n]);
    if n > 0 {
      FoldedJoin(fold, names[..n]);
      JoinNonempty(names[..n]);
      JoinNonempty(FoldAll(fold, names[..n]));
    } else {
      assert names[..n] == [] && FoldAll(fold, names)[..n] == [];
    }
  }

  /** Two members whose shown paths compare equal are one. */
  lemma {:induction false} DisplayApart(fold: Fold, t: FoldedTree, a: Key, b: Key)
    requires Sound(fold, t) && a in t.shown && b in t.shown
    requires FoldAll(fold, DisplayPath(fold, t, a)) == FoldAll(fold, DisplayPath(fold, t, b))
    ensures a == b
    decreases |t.shown[a].parent|
  {
    hide IsComponent, RootSpared, AreComponents;
    ApartByIndex(fold, t);
    var p, q := DisplayPath(fold, t, a), DisplayPath(fold, t, b);
    var n := |p| - 1;
    assert FoldAll(fold, p)[n] == FoldAll(fold, q)[n];
    if t.shown[a].parent != [] && t.shown[b].parent != [] {
      var c, d := DirKey(t.shown[a].parent), DirKey(t.shown[b].parent);
      assert c.path == t.shown[c].parent + [fold(t.shown[c].rendered)];
      assert p[..n] == DisplayPath(fold, t, c) && q[..n] == DisplayPath(fold, t, d);
      assert FoldAll(fold, p[..n]) == FoldAll(fold, p)[..n] == FoldAll(fold, q)[..n] == FoldAll(fold, q[..n]);
      DisplayApart(fold, t, c, d);
    }
  }

  /**
    Different members have different inode keys; and a key depends on the folded names alone,
    so a directory shown in another casing leaves the keys below it as they were.
   */
  lemma KeysApart(fold: Fold, t: FoldedTree, a: Key, u: FoldedTree, b: Key)
    requires KeepsParts(fold) && Sound(fold, t) && a in t.shown && Sound(fold, u) && b in u.shown
    ensures InodeKey(fold, t, a) == InodeKey(fold, u, b) <==> FoldAll(fold, DisplayPath(fold, t, a)) == FoldAll(fold, DisplayPath(fold, u, b))
    ensures t == u && InodeKey(fold, t, a) == InodeKey(fold, u, b) ==> a == b
  {
    hide IndexExact, WellPlaced, RootSpared;
    var p, q := DisplayPath(fold, t, a), DisplayPath(fold, u, b);
    FoldedJoin(fold, p);
    FoldedJoin(fold, q);
    if InodeKey(fold, t, a) == InodeKey(fold, u, b) {
      JoinInjective(FoldAll(fold, p), FoldAll(fold, q));
      if t == u { DisplayApart(fold, t, a, b); }
    }
  }
}
