/**
  What a valid tree means for its maps alone, with no mention of plans: the entries of every
  map agree with the nodes, every node hangs below the root, and the root is unspoiled.
 */
module TreeFacts {
  import opened Names
  import opened TreePlan
  import opened TreeState
  import opened VirtualTrees

  ghost predicate Sane(st: TreeMaps, plan: Plan, ix: Index) { Holds(st, plan, ix) && WellFormed(plan) }

  /** `c` is the child of `dir` called `n`. */
  predicate ChildIs(st: TreeMaps, dir: nat, n: Name, c: nat) { dir in st.children && n in st.children[dir] && st.children[dir][n] == c }

  predicate RenderedChildIs(st: TreeMaps, dir: nat, r: Name, n: Name, c: nat) {
    dir in st.renderedChildren && r in st.renderedChildren[dir] && n in st.renderedChildren[dir][r] && st.renderedChildren[dir][r][n] == c
  }

  /** The child maps and the nodes' own records say the same. */
  lemma ChildrenAreNodes(st: TreeMaps, plan: Plan, ix: Index, dir: nat, n: Name, c: nat)
    requires Sane(st, plan, ix)
    ensures ChildIs(st, dir, n, c) <==> c in st.nodes && c != ROOT && st.nodes[c].parent == dir && st.nodes[c].name == n
  {
    hide NameOf, RenderedSound, RenderedComplete, TracksOk, Rooted, FilesAreTracks, RootUnreserved, Shaped;
    if ChildIs(st, dir, n, c) {
      assert ListedAs(plan, ix, dir, n, c);
      assert ix.at[c] in ix.ino && ix.at[c] in plan.slots;
      SameParent(plan, ix, dir, ix.at[c]);
    }
    if c in st.nodes && c != ROOT && st.nodes[c].parent == dir && st.nodes[c].name == n {
      var m := ix.at[c];
      assert m in ix.ino && m in plan.slots;
      assert KidListed(st, plan, ix, m);
    }
  }

  lemma SameParent(plan: Plan, ix: Index, dir: nat, m: Member)
    requires Indexed(plan, ix) && dir in ix.at && ix.at[dir] == Dir(Parent(plan, m))
    ensures InoOf(ix, Dir(Parent(plan, m))) == dir
  {
    hide NameOf;
  }

  /** So do the maps by rendered name. */
  lemma RenderedAreNodes(st: TreeMaps, plan: Plan, ix: Index, dir: nat, r: Name, n: Name, c: nat)
    requires Sane(st, plan, ix)
    ensures RenderedChildIs(st, dir, r, n, c) <==> ChildIs(st, dir, n, c) && c in st.nodes && st.nodes[c].rendered == r
  {
    hide NameOf, TracksOk, Rooted, FilesAreTracks, RootUnreserved, Shaped, ChildrenSound, ChildrenComplete, SiblingsDistinct;
    ChildrenAreNodes(st, plan, ix, dir, n, c);
    if RenderedChildIs(st, dir, r, n, c) {
      assert GroupListedAs(plan, ix, dir, r, n, c);
      assert ix.at[c] in ix.ino && ix.at[c] in plan.slots;
      SameParent(plan, ix, dir, ix.at[c]);
    }
    if c in st.nodes && c != ROOT && st.nodes[c].parent == dir && st.nodes[c].name == n && st.nodes[c].rendered == r {
      var m := ix.at[c];
      assert m in ix.ino && m in plan.slots;
      assert RenderedListed(st, plan, ix, m);
    }
  }

  /** Exactly the directories have child maps. */
  lemma DirectoriesHaveMaps(st: TreeMaps, plan: Plan, ix: Index, dir: nat)
    requires Sane(st, plan, ix)
    ensures dir in st.children <==> dir in st.nodes && st.nodes[dir].kind == DirNode
    ensures dir in st.renderedChildren <==> dir in st.nodes && st.nodes[dir].kind == DirNode
    ensures ROOT in st.children
  {
    hide NameOf, RenderedComplete, TracksOk, Rooted, FilesAreTracks, RootUnreserved, Shaped, ChildrenComplete, SiblingsDistinct;
    assert ROOT_DIR in ix.ino;
  }

  /** The track map and the file nodes say the same. */
  lemma TracksAreFiles(st: TreeMaps, plan: Plan, ix: Index, t: int, c: nat)
    requires Sane(st, plan, ix)
    ensures t in st.trackToInode && st.trackToInode[t] == c <==> c in st.nodes && st.nodes[c].kind == FileNode(t)
  {
    hide NameOf, RenderedComplete, RenderedSound, Rooted, RootUnreserved, Shaped, ChildrenComplete, ChildrenSound, SiblingsDistinct;
    if t in st.trackToInode { assert MemberIn(plan, File(t)); }
    if c in st.nodes && st.nodes[c].kind == FileNode(t) { assert ix.at[c] in ix.ino && ix.at[c] == File(t); }
  }

  /** `k` steps up from `i` lead to the root, through directories. */
  predicate Climbs(st: TreeMaps, i: nat, k: nat)
    decreases k
  {
    i == ROOT || (k > 0 && i in st.nodes && st.nodes[i].parent in st.nodes && st.nodes[st.nodes[i].parent].kind == DirNode &&
                  Climbs(st, st.nodes[i].parent, k - 1))
  }

  /** Every node is reachable from the root, as deep as its path is long. */
  lemma {:induction false} EveryNodeClimbs(st: TreeMaps, plan: Plan, ix: Index, i: nat)
    requires Sane(st, plan, ix) && i in ix.at
    ensures Climbs(st, i, |Addr(plan, ix.at[i])|)
    decreases |Addr(plan, ix.at[i])|
  {
    hide Holds, WellFormed, NameOf;
    KindMeaning(st, plan, ix, i);
    if i != ROOT {
      MemberParent(st, plan, ix, i);
      KindMeaning(st, plan, ix, st.nodes[i].parent);
      EveryNodeClimbs(st, plan, ix, st.nodes[i].parent);
    }
  }

  /** No directory below the root is empty, and the root holds no reserved name. */
  lemma NothingEmptyNothingReserved(st: TreeMaps, plan: Plan, ix: Index, dir: nat)
    requires Sane(st, plan, ix) && NoEmptyDirs(plan)
    ensures dir in st.children && dir != ROOT ==> st.children[dir] != map[]
    ensures ROOT in st.children && ".musefs-metrics" !in st.children[ROOT] && ".metadata_never_index" !in st.children[ROOT]
  {
    hide NameOf, RenderedComplete, RenderedSound, TracksOk, NodesOk, ChildrenComplete, SiblingsDistinct, Live;
    assert ROOT_DIR in ix.ino;
    forall n | n in st.children[ROOT]
      ensures !Reserved(n)
    {
      assert ListedAs(plan, ix, ROOT, n, st.children[ROOT][n]);
    }
    if dir in st.children && dir != ROOT { PopulatedDir(st, plan, ix, dir); }
  }

  /** A name is taken in a directory by a child that has it, and in the root by two reserved names besides. */
  lemma TakenExactly(st: TreeMaps, plan: Plan, ix: Index, dir: nat, name: Name)
    requires Sane(st, plan, ix) && dir in ix.at && ix.at[dir].Dir?
    ensures Taken(plan, ix.at[dir].path, name) <==>
            (dir == ROOT && (name == ".musefs-metrics" || name == ".metadata_never_index")) || (dir in st.children && name in st.children[dir])
  {
    hide Holds, WellFormed, NameOf, ChildNamed;
    var p := ix.at[dir].path;
    RootAt(st, plan, ix, dir, p);
    KidsMeaning(st, plan, ix, dir, p, name);
  }

  lemma PopulatedDir(st: TreeMaps, plan: Plan, ix: Index, dir: nat)
    requires Sane(st, plan, ix) && NoEmptyDirs(plan) && dir in st.children && dir != ROOT
    ensures st.children[dir] != map[]
  {
    hide NameOf, RenderedComplete, RenderedSound, TracksOk, NodesOk, ChildrenComplete, SiblingsDistinct, RootUnreserved;
    var d := ix.at[dir];
    assert d in ix.ino && d in plan.slots;
    EmptyMeaning(st, plan, ix, dir, d.path);
    var t :| t in plan.tracks && d.path < plan.tracks[t];
    ChildOnPath(plan, d.path, t);
  }

  lemma ChildOnPath(plan: Plan, p: seq<Name>, t: int)
    requires WellFormed(plan) && t in plan.tracks && p < plan.tracks[t]
    ensures exists x :: x in plan.slots && Parent(plan, x) == p
  {
    hide NameOf, SiblingsDistinct, RootUnreserved, Shaped;
    var addr, n := plan.tracks[t], |p| + 1;
    assert File(t) in plan.slots && Addr(plan, File(t)) == addr;
    if n == |addr| {
      assert Parent(plan, File(t)) == p;
    } else {
      AncestorsPresent(plan, File(t), n);
      assert Parent(plan, Dir(addr[..n])) == p;
    }
  }
}
