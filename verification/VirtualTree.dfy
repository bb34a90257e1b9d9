/**
  The virtual tree of `musefs-core/src/tree.rs` on its own maps.  The ghost `plan` says
  what the maps hold; every method is proved against the operation on plans it performs.
 */
module VirtualTrees {
  import opened Outcomes
  import opened Collections
  import opened Names
  import opened TreePlan
  import opened TreeCanon
  import opened TreeRebuild
  import opened TreeDirty
  import opened TreeGate
  import opened TreeMarks
  import opened TreeBuild
  import opened TreeRepair
  import opened TreeChange
  import opened TreeConserve
  import opened TreeState
  import opened Inodes
  import opened TreeWalk

  // ----- Facts about the maps used by the methods --------------------------------------

  /** A name is a key of a directory's child map exactly when a member of that name is there. */
  lemma KidsMeaning(st: TreeMaps, plan: Plan, ix: Index, dir: nat, p: seq<Name>, name: Name)
    requires Holds(st, plan, ix) && dir in ix.at && ix.at[dir] == Dir(p)
    ensures dir in st.children && (name in st.children[dir] <==> ChildNamed(plan, p, name))
  {
    hide NameOf, NodesOk, RenderedSound, RenderedComplete, TracksOk;
    if name in st.children[dir] {
      var c := st.children[dir][name];
      assert ListedAs(plan, ix, dir, name, c);
      assert ix.at[c] in plan.slots && Parent(plan, ix.at[c]) == p && NameOf(plan, ix.at[c]) == name;
    }
    if ChildNamed(plan, p, name) {
      var m :| m in plan.slots && Parent(plan, m) == p && NameOf(plan, m) == name;
      assert KidListed(st, plan, ix, m);
    }
  }

  lemma RootAt(st: TreeMaps, plan: Plan, ix: Index, dir: nat, p: seq<Name>)
    requires Holds(st, plan, ix) && dir in ix.at && ix.at[dir] == Dir(p)
    ensures (dir == ROOT <==> p == []) && DirIn(plan, p) && dir in st.nodes && dir in st.children && dir in st.renderedChildren
    ensures InoOf(ix, Dir(p)) == dir
    ensures p != [] ==> st.nodes[dir].name == NameOf(plan, Dir(p)) && st.nodes[dir].kind == DirNode
  {
    hide NameOf, RenderedComplete, TracksOk, ChildrenComplete;
  }

  /** Members rendered `r` in a directory are exactly those of the group's map. */
  lemma GroupMeaning(st: TreeMaps, plan: Plan, ix: Index, dir: nat, p: seq<Name>, r: Name)
    requires Holds(st, plan, ix) && dir in ix.at && ix.at[dir] == Dir(p)
    requires Dir(p + [r]) in plan.slots
    ensures dir in st.renderedChildren && r in st.renderedChildren[dir]
    ensures exists n :: n in st.renderedChildren[dir][r] && st.renderedChildren[dir][r][n] in st.nodes &&
                        st.nodes[st.renderedChildren[dir][r][n]].kind == DirNode
  {
    hide NameOf, ChildrenSound, ChildrenComplete, TracksOk, RenderedSound;
    var m := Dir(p + [r]);
    assert Init(p + [r]) == p;
    assert RenderedListed(st, plan, ix, m);
    var n := NameOf(plan, m);
    assert n in st.renderedChildren[dir][r] && st.renderedChildren[dir][r][n] in st.nodes;
  }

  lemma ListedAddr(plan: Plan, ix: Index, dir: nat, p: seq<Name>, r: Name, n: Name, c: nat)
    requires Indexed(plan, ix) && Shaped(plan) && dir in ix.at && ix.at[dir] == Dir(p)
    requires GroupListedAs(plan, ix, dir, r, n, c)
    ensures c in ix.at && ix.at[c] in plan.slots && Addr(plan, ix.at[c]) == p + [r]
  {
    hide NameOf;
    var a := Addr(plan, ix.at[c]);
    assert a == Init(a) + [Last(a)];
  }

  /** A directory found in the group of `r` is the one rendered `r`. */
  lemma GroupDirectory(st: TreeMaps, plan: Plan, ix: Index, dir: nat, p: seq<Name>, r: Name, n: Name)
    requires Holds(st, plan, ix) && WellFormed(plan) && dir in ix.at && ix.at[dir] == Dir(p)
    requires dir in st.renderedChildren && r in st.renderedChildren[dir] && n in st.renderedChildren[dir][r]
    requires var c := st.renderedChildren[dir][r][n]; c in st.nodes && st.nodes[c].kind == DirNode
    ensures var c := st.renderedChildren[dir][r][n]; c in ix.at && ix.at[c] == Dir(p + [r]) && Dir(p + [r]) in plan.slots
  {
    hide NameOf, ChildrenSound, ChildrenComplete, TracksOk, RenderedComplete, Rooted, FilesAreTracks, SiblingsDistinct,
         RootUnreserved, GroupListedAs, Indexed, Shaped;
    var c := st.renderedChildren[dir][r][n];
    assert GroupListedAs(plan, ix, dir, r, n, c);
    ListedAddr(plan, ix, dir, p, r, n, c);
  }

  /** A member's path is its parent's path joined with its own name. */
  lemma JoinStep(plan: Plan, m: Member)
    requires m != ROOT_DIR
    ensures PathOf(plan, m) == JoinPath(JoinNames(DirNames(plan, Parent(plan, m))), NameOf(plan, m))
    ensures m.Dir? ==> PathOf(plan, m) == JoinNames(DirNames(plan, m.path))
  {
    hide NameOf, JoinPath;
    var names := NamePath(plan, m);
    assert names[..|names| - 1] == DirNames(plan, Parent(plan, m));
  }

  /** The path a new child will have, in terms of the plan before it is added. */
  lemma NewChildPath(plan: Plan, m: Member, addr: seq<Name>)
    requires WellFormed(plan) && Addable(plan, m, addr) && m != ROOT_DIR
    ensures PathOf(Add(plan, m, addr), m) ==
            JoinPath(JoinNames(DirNames(plan, Init(addr))), SlotName(Last(addr), FirstFree(plan, addr)))
  {
    hide NameOf, FirstFree, JoinPath, SlotName, WellFormed;
    var q := Add(plan, m, addr);
    ValidParts(plan);
    AddSame(plan, m, addr);
    JoinStep(q, m);
    DirNamesFrame(plan, q, Init(addr));
  }

  lemma NewChildInode(st: TreeMaps, paths: map<string, nat>, plan: Plan, ix: Index, m: Member, addr: seq<Name>,
                      issued: map<nat, string>)
    requires Holds(st, plan, ix) && WellFormed(plan) && Addable(plan, m, addr) && m != ROOT_DIR
    requires Linked(paths, plan, ix) && PathOf(Add(plan, m, addr), m) in paths
    requires forall p | p in paths :: paths[p] in issued && issued[paths[p]] == p
    ensures Attaching(st, plan, ix, m, addr, paths[PathOf(Add(plan, m, addr), m)])
    ensures Indexed(plan, ix)
  {
    hide NameOf, FirstFree, PathOf, WellFormed, Linked, Add, ChildrenSound, ChildrenComplete, RenderedSound, RenderedComplete, NodesOk, TracksOk;
    FreshInode(paths, plan, ix, m, addr);
  }

  lemma NodeMeaning(st: TreeMaps, plan: Plan, ix: Index, m: Member)
    requires Holds(st, plan, ix) && m in plan.slots
    ensures m in ix.ino && ix.ino[m] in ix.at && ix.at[ix.ino[m]] == m && ix.ino[m] in st.nodes
    ensures m != ROOT_DIR ==>
              st.nodes[ix.ino[m]] == Node(InoOf(ix, Dir(Parent(plan, m))), NameOf(plan, m), Rendered(plan, m), KindOf(m))
  {
    hide NameOf, ChildrenSound, ChildrenComplete, RenderedSound, RenderedComplete, TracksOk;
  }

  /** A directory's child map is empty exactly when no member has it as parent. */
  lemma EmptyMeaning(st: TreeMaps, plan: Plan, ix: Index, dir: nat, p: seq<Name>)
    requires Holds(st, plan, ix) && dir in ix.at && ix.at[dir] == Dir(p)
    ensures dir in st.children && (st.children[dir] == map[] <==> !exists x :: x in plan.slots && Parent(plan, x) == p)
  {
    hide NameOf, Holds;
    KidsMeaning(st, plan, ix, dir, p, "");
    forall x | x in plan.slots && Parent(plan, x) == p
      ensures NameOf(plan, x) in st.children[dir]
    {
      KidsMeaning(st, plan, ix, dir, p, NameOf(plan, x));
    }
    if st.children[dir] != map[] {
      var n :| n in st.children[dir];
      KidsMeaning(st, plan, ix, dir, p, n);
    }
  }

  lemma TrackMeaning(st: TreeMaps, plan: Plan, ix: Index, t: int)
    requires Holds(st, plan, ix) && WellFormed(plan)
    ensures t in st.trackToInode <==> t in plan.tracks
    ensures t in plan.tracks ==> File(t) in plan.slots && st.trackToInode[t] == InoOf(ix, File(t))
  {
    hide NameOf, ChildrenSound, ChildrenComplete, RenderedSound, RenderedComplete, NodesOk;
  }

  lemma HeldIndexed(st: TreeMaps, plan: Plan, ix: Index)
    requires Holds(st, plan, ix)
    ensures Indexed(plan, ix)
  {
  }

  lemma PrunedNode(st: TreeMaps, plan: Plan, ix: Index, before: Plan, t: int, k: nat)
    requires Holds(st, plan, ix) && Pruning(before, t, k, plan) && t in before.tracks && 1 <= k < |before.tracks[t]|
    requires WellFormed(plan) && Leaf(plan, Dir(before.tracks[t][..k]))
    ensures var addr := before.tracks[t];
            var d := Dir(addr[..k]);
            d in ix.ino && ix.ino[d] in st.nodes &&
            var node := st.nodes[ix.ino[d]];
            node.name == NameOf(before, d) && node.rendered == addr[k - 1] &&
            node.parent in ix.at && ix.at[node.parent] == Dir(addr[..k - 1]) && node.parent != ix.ino[d]
  {
    hide Holds, SlotName, Live, Valid, WellFormed;
    var addr := before.tracks[t];
    NodeMeaning(st, plan, ix, Dir(addr[..k]));
    DetachListed(st, plan, ix, Dir(addr[..k]));
    assert Init(addr[..k]) == addr[..k - 1];
  }

  lemma RemoveNothing(plan: Plan, t: int)
    requires Valid(plan) && t !in plan.tracks
    ensures RemoveSet(plan, {t}) == plan
  {
    hide NameOf, WellFormed;
    assert plan.tracks - {t} == plan.tracks;
  }

  /** An entry of a child map names a member with that directory as parent. */
  lemma ChildMeaning(st: TreeMaps, plan: Plan, ix: Index, dir: nat, p: seq<Name>, n: Name)
    requires Holds(st, plan, ix) && dir in ix.at && ix.at[dir] == Dir(p) && dir in st.children && n in st.children[dir]
    ensures var c := st.children[dir][n];
            c in ix.at && ix.at[c] in plan.slots && ix.at[c] != ROOT_DIR &&
            Parent(plan, ix.at[c]) == p && NameOf(plan, ix.at[c]) == n
  {
    hide NameOf, NodesOk, RenderedSound, RenderedComplete, TracksOk, ChildrenComplete;
    assert ListedAs(plan, ix, dir, n, st.children[dir][n]);
  }

  lemma KindMeaning(st: TreeMaps, plan: Plan, ix: Index, i: nat)
    requires Holds(st, plan, ix) && i in ix.at
    ensures i in st.nodes && st.nodes[i].kind == KindOf(ix.at[i]) && MemberIn(plan, ix.at[i]) && InoOf(ix, ix.at[i]) == i
    ensures i == ROOT <==> ix.at[i] == ROOT_DIR
  {
    hide NameOf, ChildrenSound, ChildrenComplete, RenderedSound, RenderedComplete, TracksOk;
  }

  /** Why an incremental update gives up: a track to re-insert has no rendered path. */
  datatype RebuildError = MissingRenderedPath(trackId: int)

  /** Track ids are `i64`s. */
  const MAX_ID: int := 0x7fff_ffff_ffff_ffff

  predicate IdsFit(tracks: map<int, seq<Name>>) { forall t | t in tracks :: t <= MAX_ID }

  /** What a mutation of the tree leaves alone: inodes once issued, and the inode of every path that has one. */
  twostate predicate Extends(alloc: InodeAllocator)
    reads alloc
  {
    Grows(old(alloc.issued), alloc.issued) &&
    (forall p | p in old(alloc.paths) :: p in alloc.paths && alloc.paths[p] == old(alloc.paths)[p])
  }

  class VirtualTree {
    var nodes: map<nat, Node>
    var children: map<nat, Kids>
    var renderedChildren: map<nat, map<Name, Kids>>
    var trackToInode: map<int, nat>
    ghost var plan: Plan
    ghost var ix: Index

    function State(): TreeMaps
      reads this
    {
      TreeMaps(nodes, children, renderedChildren, trackToInode)
    }

    /** The maps hold a well-formed plan whose inodes are the allocator's. */
    ghost predicate Consistent(alloc: InodeAllocator)
      reads this, alloc
    {
      alloc.Valid() && WellFormed(plan) && Holds(State(), plan, ix) && Linked(alloc.paths, plan, ix)
    }

    /** Consistent, and no directory but the root is empty. */
    ghost predicate Valid(alloc: InodeAllocator)
      reads this, alloc
    {
      Consistent(alloc) && NoEmptyDirs(plan)
    }

    ghost predicate IsDir(dir: nat, p: seq<Name>)
      reads this
    {
      dir in ix.at && ix.at[dir] == Dir(p)
    }

    /** `equiv`: the same nodes, children, rendered index and track map. */
    predicate Equiv(other: VirtualTree)
      reads this, other
    {
      State() == other.State()
    }

    predicate NameTaken(dir: nat, name: Name)
      reads this
    {
      (dir == ROOT && Reserved(name)) || (dir in children && name in children[dir])
    }

    lemma NameTakenMeaning(dir: nat, p: seq<Name>, name: Name)
      requires Holds(State(), plan, ix) && IsDir(dir, p)
      ensures NameTaken(dir, name) <==> Taken(plan, p, name)
    {
      hide Holds, NameOf, ChildNamed;
      RootAt(State(), plan, ix, dir, p);
      KidsMeaning(State(), plan, ix, dir, p, name);
    }

    /** The name itself if it is free in `dir`, else its first free rank. */
    method Disambiguate(dir: nat, name: Name, ghost p: seq<Name>) returns (unique: Name)
      requires Holds(State(), plan, ix) && IsDir(dir, p)
      ensures unique == SlotName(name, FirstFree(plan, p + [name]))
    {
      hide Holds, Taken, SuffixCandidate;
      ghost var addr := p + [name];
      assert Init(addr) == p && Last(addr) == name;
      NameTakenMeaning(dir, p, name);
      if !NameTaken(dir, name) {
        FirstFreeUnique(plan, addr, 1, FirstFree(plan, addr));
        return name;
      }
      var k := 2;
      NameTakenMeaning(dir, p, SuffixCandidate(name, k));
      while NameTaken(dir, SuffixCandidate(name, k))
        invariant 2 <= k <= FirstFree(plan, addr)
        invariant NameTaken(dir, SuffixCandidate(name, k)) <==> Taken(plan, p, SlotName(name, k))
        invariant forall j | 1 <= j < k :: Taken(plan, p, SlotName(name, j))
        decreases FirstFree(plan, addr) - k
      {
        k := k + 1;
        NameTakenMeaning(dir, p, SuffixCandidate(name, k));
      }
      FirstFreeUnique(plan, addr, k, FirstFree(plan, addr));
      return SuffixCandidate(name, k);
    }

    /** The directory child of `dir` that rendered `rendered`, if there is one. */
    method DirChildNamed(dir: nat, rendered: Name, ghost p: seq<Name>) returns (child: Option<nat>)
      requires WellFormed(plan) && Holds(State(), plan, ix) && IsDir(dir, p)
      ensures child.Some? <==> Dir(p + [rendered]) in plan.slots
      ensures child.Some? ==> IsDir(child.value, p + [rendered])
    {
      hide Holds, WellFormed;
      RootAt(State(), plan, ix, dir, p);
      ghost var st, pl, jx := State(), plan, ix;
      if Dir(p + [rendered]) in pl.slots {
        GroupMeaning(st, pl, jx, dir, p, rendered);
      }
      if rendered !in renderedChildren[dir] {
        return None;
      }
      var group := renderedChildren[dir][rendered];
      if n :| n in group && group[n] in nodes && nodes[group[n]].kind == DirNode {
        GroupDirectory(st, pl, jx, dir, p, rendered, n);
        return Some(group[n]);
      }
      return None;
    }

    /** Enter a new child of `parent` in every map. */
    method EnterChild(parent: nat, name: Name, rendered: Name, inode: nat, kind: NodeKind, ghost m: Member, ghost addr: seq<Name>)
      requires Attaching(State(), plan, ix, m, addr, inode) && kind == KindOf(m)
      requires parent == InoOf(ix, Dir(Init(addr))) && rendered == Last(addr)
      requires name == SlotName(rendered, FirstFree(plan, addr))
      modifies this
      ensures plan == Add(old(plan), m, addr) && ix == Entered(old(ix), m, inode)
      ensures Holds(State(), plan, ix) && WellFormed(plan)
    {
      hide Attaching, Holds, WellFormed, Add, FirstFree, Attach, SlotName, Entered, InoOf, KindOf, Last, Init;
      AttachHolds(State(), plan, ix, m, addr, inode);
      ParentListed(State(), plan, ix, m, addr, inode);
      var after := Attach(State(), parent, name, rendered, inode, kind);
      nodes, children, renderedChildren, trackToInode :=
        after.nodes, after.children, after.renderedChildren, after.trackToInode;
      assert State() == after;
      plan := Add(plan, m, addr);
      ix := Entered(ix, m, inode);
    }

    /** A new child of `parent`, under the first free rank of its rendered name and the inode of its path. */
    method NewChild(parent: nat, parentPath: string, rendered: Name, kind: NodeKind, alloc: InodeAllocator,
                    ghost m: Member, ghost p: seq<Name>)
      returns (inode: nat, path: string)
      requires Consistent(alloc) && IsDir(parent, p) && parentPath == JoinNames(DirNames(plan, p))
      requires Addable(plan, m, p + [rendered]) && kind == KindOf(m) && m != ROOT_DIR
      modifies this, alloc
      ensures Consistent(alloc) && Extends(alloc)
      ensures plan == Add(old(plan), m, p + [rendered]) && inode in ix.at && ix.at[inode] == m && path == PathOf(plan, m)
    {
      hide Holds, WellFormed, Add, FirstFree, JoinNames, Linked, NameOf, PathOf, JoinPath, Addable, Attaching;
      ghost var addr := p + [rendered];
      assert Init(addr) == p && Last(addr) == rendered;
      RootAt(State(), plan, ix, parent, p);
      var unique := Disambiguate(parent, rendered, p);
      path := JoinPath(parentPath, unique);
      NewChildPath(plan, m, addr);
      inode := alloc.Intern(path);
      LinkedGrows(old(alloc.paths), alloc.paths, plan, ix);
      NewChildInode(State(), alloc.paths, plan, ix, m, addr, alloc.issued);
      LinkedAdd(alloc.paths, plan, ix, m, addr, inode);
      EnterChild(parent, unique, rendered, inode, kind, m, addr);
    }

    /** Find or make the directory rendered `name` in `parent`. */
    method EnsureDir(parent: nat, parentPath: string, name: string, alloc: InodeAllocator, ghost p: seq<Name>)
      returns (dir: nat, dirPath: string)
      requires Consistent(alloc) && IsDir(parent, p) && parentPath == JoinNames(DirNames(plan, p)) && IsComponent(name)
      requires AreComponents(p)
      modifies this, alloc
      ensures Consistent(alloc) && Extends(alloc)
      ensures var addr := p + [TruncateComponent(name, false)];
              plan == (if Dir(addr) in old(plan.slots) then old(plan) else Add(old(plan), Dir(addr), addr)) &&
              IsDir(dir, addr) && dirPath == JoinNames(DirNames(plan, addr))
    {
      hide Holds, WellFormed, Add, FirstFree, JoinNames, TruncateComponent, Linked, NameOf;
      var key := TruncateComponent(name, false);
      TruncatedComponent(name, false);
      ghost var addr := p + [key];
      assert Init(addr) == p && Last(addr) == key;
      RootAt(State(), plan, ix, parent, p);
      var existing := DirChildNamed(parent, key, p);
      if existing.Some? {
        dir := existing.value;
        RootAt(State(), plan, ix, dir, addr);
        JoinStep(plan, Dir(addr));
        return dir, JoinPath(parentPath, nodes[dir].name);
      }
      dir, dirPath := NewChild(parent, parentPath, key, DirNode, alloc, Dir(addr), p);
      NamePathDir(plan, addr);
    }

    /** Insert the file of `trackId` at its rendered path; a path with no components inserts nothing. */
    method InsertFile(trackId: int, path: string, alloc: InodeAllocator)
      requires Valid(alloc) && trackId !in plan.tracks
      modifies this, alloc
      ensures Valid(alloc) && Extends(alloc)
      ensures plan == InsertPath(old(plan), trackId, TreeKeys(path))
    {
      hide Holds, WellFormed, Add, FirstFree, JoinNames, TruncateComponent, Linked, NameOf, PathComponents, DirNames, NoEmptyDirs,
           IsDir;
      var comps := PathComponents(path);
      if comps == [] {
        return;
      }
      ghost var keys, before := TreeKeys(path), plan;
      TreeKeysComponents(path);
      InsertValid(before, trackId, keys);
      var dir, dirPath, i := ROOT, "", 0;
      RootIsDir();
      while i < |comps| - 1
        invariant 0 <= i < |comps| && Consistent(alloc) && Extends(alloc)
        invariant plan == AddDirs(before, keys, i)
        invariant IsDir(dir, keys[..i]) && dirPath == JoinNames(DirNames(plan, keys[..i]))
      {
        assert keys[i] == TruncateComponent(comps[i], false);
        assert keys[..i] + [keys[i]] == keys[..i + 1];
        dir, dirPath := EnsureDir(dir, dirPath, comps[i], alloc, keys[..i]);
        i := i + 1;
      }
      AddDirsTracks(before, keys, i);
      InsertLeaf(trackId, dir, dirPath, TruncateComponent(comps[i], true), alloc, keys[..i]);
      assert keys[..i] + [keys[i]] == keys;
    }

    lemma RootIsDir()
      requires Holds(State(), plan, ix)
      ensures IsDir(ROOT, []) && JoinNames(DirNames(plan, [])) == ""
    {
      hide NameOf, NodesOk, ChildrenSound, ChildrenComplete, RenderedSound, RenderedComplete, TracksOk;
    }

    /** The file node itself, under an existing directory. */
    method InsertLeaf(trackId: int, dir: nat, dirPath: string, rawName: Name, alloc: InodeAllocator, ghost p: seq<Name>)
      requires Consistent(alloc) && trackId !in plan.tracks && AreComponents(p) && IsComponent(rawName)
      requires IsDir(dir, p) && dirPath == JoinNames(DirNames(plan, p))
      modifies this, alloc
      ensures Consistent(alloc) && Extends(alloc)
      ensures plan == Add(old(plan), File(trackId), p + [rawName])
    {
      hide Holds, WellFormed, Add, FirstFree, JoinNames, Linked, NameOf;
      ghost var addr := p + [rawName];
      assert Init(addr) == p && Last(addr) == rawName;
      RootAt(State(), plan, ix, dir, p);
      ValidParts(plan);
      var inode, full := NewChild(dir, dirPath, rawName, FileNode(trackId), alloc, File(trackId), p);
    }

    /** A tree with only the root. */
    constructor Empty(alloc: InodeAllocator)
      requires alloc.Valid()
      ensures Valid(alloc) && plan == EMPTY_PLAN
    {
      nodes := map[ROOT := Node(ROOT, "", "", DirNode)];
      children := map[ROOT := map[]];
      renderedChildren := map[ROOT := map[]];
      trackToInode := map[];
      plan := EMPTY_PLAN;
      ix := Index(map[ROOT_DIR := ROOT], map[ROOT := ROOT_DIR]);
      new;
      EmptyHolds();
    }

    lemma EmptyHolds()
      requires State() == TreeMaps(map[ROOT := Node(ROOT, "", "", DirNode)], map[ROOT := map[]], map[ROOT := map[]], map[])
      requires plan == EMPTY_PLAN && ix == Index(map[ROOT_DIR := ROOT], map[ROOT := ROOT_DIR])
      ensures Holds(State(), plan, ix) && NamePath(plan, ROOT_DIR) == []
    {
    }

    /** Take a childless member out of every map. */
    method RemoveChild(inode: nat, alloc: InodeAllocator, ghost m: Member)
      requires Consistent(alloc) && Leaf(plan, m) && inode == InoOf(ix, m)
      modifies this
      ensures Consistent(alloc) && plan == Drop(old(plan), m) && ix == Left(old(ix), m)
    {
      hide Holds, WellFormed, Linked, Detach, NameOf, Indexed;
      NodeMeaning(State(), plan, ix, m);
      DetachHolds(State(), plan, ix, m);
      DetachListed(State(), plan, ix, m);
      HeldIndexed(State(), plan, ix);
      LinkedDrop(alloc.paths, plan, ix, m);
      var node := nodes[inode];
      var after := Detach(State(), node.parent, node.name, node.rendered, inode, node.kind);
      nodes, children, renderedChildren, trackToInode :=
        after.nodes, after.children, after.renderedChildren, after.trackToInode;
      assert State() == after;
      ix := Left(ix, m);
      plan := Drop(plan, m);
    }

    /** Remove emptied directories upward; say where that stopped and what the survivor lost. */
    method PruneEmptyDirsUpward(start: nat, alloc: InodeAllocator, ghost before: Plan, ghost t: int)
      returns (survivor: nat, pruned: Option<(Name, Name)>, ghost k: nat)
      requires Consistent(alloc) && t in before.tracks && before.tracks[t] != []
      requires Pruning(before, t, |before.tracks[t]| - 1, plan)
      requires IsDir(start, before.tracks[t][..|before.tracks[t]| - 1])
      modifies this
      ensures Consistent(alloc) && plan == RemoveSet(before, {t})
      ensures k < |before.tracks[t]| && IsDir(survivor, before.tracks[t][..k])
      ensures pruned.Some? <==> k + 1 < |before.tracks[t]|
      ensures pruned.Some? ==> pruned.value == (NameOf(before, Dir(before.tracks[t][..k + 1])), before.tracks[t][k])
      ensures pruned.Some? ==> Dir(before.tracks[t][..k + 1]) !in plan.slots
    {
      hide Holds, WellFormed, Linked, NameOf, Pruning, Leaf, Drop, Live;
      ghost var addr := before.tracks[t];
      survivor, pruned, k := start, None, |addr| - 1;
      RootAt(State(), plan, ix, survivor, addr[..k]);
      PruneGuard(before, t, k, addr);
      while survivor != ROOT && (survivor !in children || children[survivor] == map[])
        invariant Consistent(alloc) && k < |addr| && Pruning(before, t, k, plan) && IsDir(survivor, addr[..k])
        invariant (survivor == ROOT <==> k == 0) && survivor == InoOf(ix, Dir(addr[..k]))
        invariant survivor in children && survivor in nodes
        invariant 1 <= k ==> (children[survivor] == map[] <==> !Live(plan.tracks, Dir(addr[..k])))
        invariant pruned.Some? <==> k + 1 < |addr|
        invariant pruned.Some? ==> pruned.value == (NameOf(before, Dir(addr[..k + 1])), addr[k])
        decreases k
      {
        PruningStep(before, t, k, plan);
        ghost var d := Dir(addr[..k]);
        PrunedNode(State(), plan, ix, before, t, k);
        var node := nodes[survivor];
        RemoveChild(survivor, alloc, d);
        survivor, pruned, k := node.parent, Some((node.name, node.rendered)), k - 1;
        RootAt(State(), plan, ix, survivor, addr[..k]);
        PruneGuard(before, t, k, addr);
      }
      PruningEnds(before, t, k, plan);
      PrunedGone(before, t, plan, k);
    }

    lemma PruneGuard(before: Plan, t: int, k: nat, addr: seq<Name>)
      requires Holds(State(), plan, ix) && Pruning(before, t, k, plan) && t in before.tracks && addr == before.tracks[t]
      requires k < |addr|
      ensures forall dir | IsDir(dir, addr[..k]) && 1 <= k ::
                dir in children && (children[dir] == map[] <==> !Live(plan.tracks, Dir(addr[..k])))
    {
      hide Holds, Pruning, Live;
      forall dir | IsDir(dir, addr[..k]) && 1 <= k
        ensures dir in children && (children[dir] == map[] <==> !Live(plan.tracks, Dir(addr[..k])))
      {
        EmptyMeaning(State(), plan, ix, dir, addr[..k]);
        PruningKids(before, t, k, plan);
      }
    }

    /** Remove a track's file and the directories it leaves empty. */
    method RemoveTrack(trackId: int, alloc: InodeAllocator)
      returns (removed: Option<(nat, Option<(Name, Name)>)>, ghost k: nat)
      requires Valid(alloc)
      modifies this
      ensures Valid(alloc) && plan == RemoveSet(old(plan), {trackId})
      ensures removed.Some? <==> trackId in old(plan).tracks
      ensures removed.Some? ==>
                var addr := old(plan).tracks[trackId];
                k < |addr| && IsDir(removed.value.0, addr[..k]) && (removed.value.1.Some? <==> k + 1 < |addr|) &&
                (removed.value.1.Some? ==>
                   Dir(addr[..k + 1]) !in plan.slots && removed.value.1.value == (NameOf(old(plan), Dir(addr[..k + 1])), addr[k]))
    {
      hide Holds, WellFormed, Linked, NameOf, Pruning, Live;
      k := 0;
      TrackMeaning(State(), plan, ix, trackId);
      if trackId !in trackToInode {
        RemoveNothing(plan, trackId);
        return None, 0;
      }
      ghost var before, addr := plan, plan.tracks[trackId];
      PruningStarts(plan, trackId);
      FileLeaf(plan, trackId);
      var inode := trackToInode[trackId];
      NodeMeaning(State(), plan, ix, File(trackId));
      DetachListed(State(), plan, ix, File(trackId));
      var parent := nodes[inode].parent;
      RemoveChild(inode, alloc, File(trackId));
      var survivor, pruned;
      survivor, pruned, k := PruneEmptyDirsUpward(parent, alloc, before, trackId);
      RemoveSetValid(before, {trackId});
      return Some((survivor, pruned)), k;
    }

    /** The inodes of a directory's children. */
    method ChildInodes(dir: nat, ghost p: seq<Name>) returns (kids: seq<nat>, ghost ms: seq<Member>)
      requires WellFormed(plan) && Holds(State(), plan, ix) && IsDir(dir, p)
      ensures |kids| == |ms| && forall j | 0 <= j < |kids| :: kids[j] in ix.at && ix.at[kids[j]] == ms[j]
      ensures ChildrenOf(plan, Dir(p), ms)
    {
      hide Holds, NameOf, WellFormed, Parent;
      RootAt(State(), plan, ix, dir, p);
      ghost var st := State();
      var entries := children[dir];
      var todo := entries.Keys;
      kids, ms := [], [];
      forall m | m in plan.slots && Parent(plan, m) == p
        ensures NameOf(plan, m) in entries
      {
        KidsMeaning(st, plan, ix, dir, p, NameOf(plan, m));
      }
      while todo != {}
        invariant todo <= entries.Keys && |kids| == |ms|
        invariant forall j | 0 <= j < |kids| :: kids[j] in ix.at && ix.at[kids[j]] == ms[j]
        invariant KidsBut(plan, p, ms, todo)
        decreases |todo|
      {
        var n :| n in todo;
        ChildMeaning(st, plan, ix, dir, p, n);
        ghost var x := ix.at[entries[n]];
        KidAdded(plan, p, ms, todo, n, x);
        kids, ms, todo := kids + [entries[n]], ms + [x], todo - {n};
      }
    }

    /** The ids of every file at or below `start`, each once. */
    method FilesBelow(start: nat) returns (ids: seq<int>)
      requires WellFormed(plan) && Holds(State(), plan, ix) && start in ix.at
      ensures Distinct(ids) && forall t :: t in ids <==> Under(plan.tracks, ix.at[start], t)
    {
      hide Holds, NameOf, WellFormed, Covers, Pending, Under, Apart, ChildrenOf;
      ghost var st, top := State(), ix.at[start];
      var stack := [start];
      ghost var ms := [top];
      ids := [];
      KindMeaning(st, plan, ix, start);
      StartPending(plan, top);
      while stack != []
        invariant |stack| == |ms| && forall j | 0 <= j < |stack| :: stack[j] in ix.at && ix.at[stack[j]] == ms[j]
        invariant Listed(plan, ms) && Apart(plan, ms) && Distinct(ids)
        invariant forall t :: t in ids <==> Under(plan.tracks, top, t) && File(t) !in Pending(plan, ms)
        invariant forall t :: File(t) in Pending(plan, ms) ==> Under(plan.tracks, top, t)
        decreases |Pending(plan, ms)|
      {
        var n := stack[|stack| - 1];
        ghost var rest, m := ms[..|ms| - 1], ms[|ms| - 1];
        assert ms == rest + [m];
        stack := stack[..|stack| - 1];
        KindMeaning(st, plan, ix, n);
        ghost var kidMembers := [];
        match nodes[n].kind {
          case FileNode(t) =>
            NoChildren(plan, m);
            PopPending(plan, rest, m, kidMembers);
            assert t !in ids;
            ids := ids + [t];
          case DirNode =>
            var kids;
            kids, kidMembers := ChildInodes(n, m.path);
            stack := stack + kids;
        }
        PopPending(plan, rest, m, kidMembers);
        PopApart(plan, rest, m, kidMembers);
        ms := rest + kidMembers;
      }
      NothingPending(plan);
    }

    /** The least track id under a node; `MAX_ID` under a directory without files. */
    method IntroducingId(inode: nat) returns (least: int)
      requires WellFormed(plan) && Holds(State(), plan, ix) && inode in ix.at && IdsFit(plan.tracks)
      ensures var m := ix.at[inode];
              (forall t | Under(plan.tracks, m, t) :: least <= t) &&
              (Under(plan.tracks, m, least) || (least == MAX_ID && forall t :: !Under(plan.tracks, m, t)))
    {
      hide Holds, NameOf, WellFormed;
      KindMeaning(State(), plan, ix, inode);
      if nodes[inode].kind.FileNode? {
        FileUnder(State(), plan, ix, inode);
        return nodes[inode].kind.trackId;
      }
      var ids := FilesBelow(inode);
      least := MAX_ID;
      var i := 0;
      while i < |ids|
        invariant 0 <= i <= |ids| && least <= MAX_ID
        invariant forall j | 0 <= j < i :: least <= ids[j]
        invariant least in ids || least == MAX_ID
      {
        if ids[i] < least { least := ids[i]; }
        i := i + 1;
      }
      forall t | Under(plan.tracks, ix.at[inode], t)
        ensures least in ids && least <= t
      {
        assert t in ids;
      }
    }

    /** `build_with` for a case-sensitive mount: every entry inserted into an empty tree. */
    static method BuildWith(entries: seq<Entry>, alloc: InodeAllocator) returns (tree: VirtualTree)
      requires alloc.Valid() && DistinctIds(entries)
      modifies alloc
      ensures fresh(tree) && tree.Valid(alloc) && Extends(alloc)
      ensures tree.plan == Built(entries)
    {
      hide InsertPath, TreeKeys, Holds, WellFormed, Linked, NoEmptyDirs;
      tree := new VirtualTree.Empty(alloc);
      var i := 0;
      assert entries[..0] == [];
      while i < |entries|
        invariant 0 <= i <= |entries| && fresh(tree) && tree.Valid(alloc) && Extends(alloc)
        invariant tree.plan == Built(entries[..i])
      {
        if entries[i].0 in tree.plan.tracks { BuiltIds(entries[..i], entries[i].0); }
        assert entries[..i + 1][..i] == entries[..i];
        tree.InsertFile(entries[i].0, entries[i].1, alloc);
        i := i + 1;
      }
      assert entries[..i] == entries;
    }

    /** `path_of`: the disambiguated path from the root to a node. */
    method PathOfInode(inode: nat) returns (path: string)
      requires WellFormed(plan) && Holds(State(), plan, ix) && inode in ix.at
      ensures path == PathOf(plan, ix.at[inode])
    {
      hide Holds, WellFormed, NameOf, JoinNames, NamePath;
      var parts: seq<Name>, cur := [], inode;
      ghost var m, full := ix.at[inode], NamePath(plan, ix.at[inode]);
      KindMeaning(State(), plan, ix, inode);
      while cur != ROOT
        invariant cur in ix.at && m == ix.at[cur] && (cur == ROOT <==> m == ROOT_DIR)
        invariant full == NamePath(plan, m) + parts
        decreases |Addr(plan, m)|
      {
        MemberParent(State(), plan, ix, cur);
        Regrouped(NamePath(plan, Dir(Parent(plan, m))), nodes[cur].name, parts);
        parts, cur := [nodes[cur].name] + parts, nodes[cur].parent;
        m := ix.at[cur];
        KindMeaning(State(), plan, ix, cur);
      }
      NamePathDir(plan, []);
      assert full == parts;
      return JoinNames(parts);
    }

    /** Is `node`, or a directory above it, in `inodes`? */
    method AncestorIn(node: nat, inodes: set<nat>) returns (r: bool)
      requires WellFormed(plan) && Holds(State(), plan, ix) && node in ix.at
      ensures r <==> (node in inodes ||
                      exists k: nat :: k < |Addr(plan, ix.at[node])| && InoOf(ix, Dir(Addr(plan, ix.at[node])[..k])) in inodes)
    {
      hide Holds, WellFormed, NameOf;
      var cur := node;
      ghost var addr, m := Addr(plan, ix.at[node]), ix.at[node];
      ghost var n: nat := |addr|;
      assert addr[..n] == addr;
      KindMeaning(State(), plan, ix, node);
      while cur !in inodes
        invariant cur in ix.at && m == ix.at[cur] && (cur == ROOT <==> m == ROOT_DIR)
        invariant n <= |addr| && Addr(plan, m) == addr[..n] && (n < |addr| ==> m == Dir(addr[..n])) && InoOf(ix, m) == cur
        invariant n == |addr| ==> cur == node
        invariant n < |addr| ==> node !in inodes
        invariant forall k: nat | n < k < |addr| :: InoOf(ix, Dir(addr[..k])) !in inodes
        decreases n
      {
        if cur == ROOT {
          return false;
        }
        MemberParent(State(), plan, ix, cur);
        cur := nodes[cur].parent;
        m := ix.at[cur];
        n := n - 1;
        KindMeaning(State(), plan, ix, cur);
      }
      return true;
    }

    /** The deepest existing directory along a rendered path, and how many components lead there. */
    method DeepestExistingAncestor(path: string) returns (dir: nat, consumed: nat)
      requires WellFormed(plan) && Holds(State(), plan, ix)
      ensures consumed <= |TreeKeys(path)| && IsDir(dir, TreeKeys(path)[..consumed])
      ensures TreeKeys(path) != [] ==> IsDeepest(plan, TreeKeys(path), consumed)
    {
      hide Holds, WellFormed, NameOf, PathComponents, TruncateComponent;
      var comps := PathComponents(path);
      ghost var keys := TreeKeys(path);
      dir, consumed := ROOT, 0;
      RootIsDir();
      while consumed + 1 < |comps|
        invariant consumed <= |keys| && IsDir(dir, keys[..consumed]) && DirIn(plan, keys[..consumed])
        invariant keys != [] ==> consumed < |keys|
      {
        assert keys[..consumed] + [keys[consumed]] == keys[..consumed + 1];
        var child := DirChildNamed(dir, TruncateComponent(comps[consumed], false), keys[..consumed]);
        if child.None? {
          return;
        }
        dir, consumed := child.value, consumed + 1;
      }
    }

    /** Could touching the child `name` of `dir`, rendered `rendered`, rename a sibling? */
    method CollisionGate(dir: nat, name: Name, rendered: Name, ghost p: seq<Name>) returns (open: bool)
      requires WellFormed(plan) && Holds(State(), plan, ix) && IsDir(dir, p)
      ensures open <==> GateOpen(plan, p, name, rendered)
    {
      hide Holds, WellFormed, NameOf, SuffixCandidate, IsSuffixShaped, GateOpen, RankShared, RanksTaken, ChildNamed, TakenNames;
      GateUnshared(plan, p, name, rendered);
      if name != rendered || IsSuffixShaped(name) {
        return true;
      }
      RootAt(State(), plan, ix, dir, p);
      ghost var bound := FreeRankExists(rendered, TakenNames(plan, p), 2);
      var kids, k := children[dir], 2;
      while true
        invariant 2 <= k <= bound && RanksTaken(plan, p, rendered, k)
        invariant forall j | 2 <= j < k :: !RankShared(plan, p, rendered, j)
        decreases bound - k
      {
        KidsMeaning(State(), plan, ix, dir, p, SuffixCandidate(rendered, k));
        GateStep(plan, p, name, rendered, k);
        if SuffixCandidate(rendered, k) !in kids {
          return false;
        }
        RankHolder(dir, p, rendered, k);
        if nodes[kids[SuffixCandidate(rendered, k)]].rendered == rendered {
          return true;
        }
        k := k + 1;
      }
    }

    lemma RankHolder(dir: nat, p: seq<Name>, rendered: Name, k: nat)
      requires WellFormed(plan) && Holds(State(), plan, ix) && IsDir(dir, p) && dir in children
      requires SuffixCandidate(rendered, k) in children[dir]
      ensures var c := children[dir][SuffixCandidate(rendered, k)];
              c in nodes && (nodes[c].rendered == rendered <==> RankShared(plan, p, rendered, k))
    {
      hide Holds, WellFormed, NameOf, SuffixCandidate;
      var name := SuffixCandidate(rendered, k);
      ChildMeaning(State(), plan, ix, dir, p, name);
      var c := children[dir][name];
      var m := ix.at[c];
      KindMeaning(State(), plan, ix, c);
      MemberParent(State(), plan, ix, c);
      forall x | x in plan.slots && Parent(plan, x) == p && NameOf(plan, x) == name
        ensures x == m
      {
        if x != m { SiblingNamed(plan, x, m); }
      }
    }

    /** Mark the parents, up from a removed leaf, of gated members it introduced. */
    method DirtyRemovedAncestors(leaf: nat, id: int, dirty: set<nat>) returns (marked: set<nat>)
      requires WellFormed(plan) && Holds(State(), plan, ix) && NoEmptyDirs(plan) && IdsFit(plan.tracks)
      requires id in plan.tracks && leaf == InoOf(ix, File(id))
      ensures forall d: nat :: d in marked <==> d in dirty || RemovalMarked(plan, ix, id, d)
    {
      hide Holds, WellFormed, NameOf, GateOpen, RemovalMark, NoEmptyDirs, Intro, Live, RemovalMarkedBelow;
      ghost var addr := plan.tracks[id];
      ghost var k: nat := |addr|;
      var child := leaf;
      marked := dirty;
      LeafAt(State(), plan, ix, id);
      NoMarkBelowLeaf(plan, ix, id);
      while child != ROOT
        invariant k <= |addr| && child in ix.at && (child == ROOT <==> k == 0)
        invariant k > 0 ==> ix.at[child] == OnPath(addr, id, k)
        invariant forall d: nat :: d in marked <==> d in dirty || RemovalMarkedBelow(plan, ix, id, k, d)
        decreases k
      {
        OnPathMember(plan, id, k);
        MemberParent(State(), plan, ix, child);
        RemovalLevel(plan, ix, id, k);
        var node := nodes[child];
        var gated := CollisionGate(node.parent, node.name, node.rendered, addr[..k - 1]);
        if gated {
          var least := IntroducingId(child);
          LeastIsIntro(plan, ix.at[child], least);
          if least == id {
            marked := marked + {node.parent};
          } else {
            return;
          }
        }
        child, k := node.parent, k - 1;
        KindMeaning(State(), plan, ix, child);
      }
    }

    /** Mark the parents, up from `d`, of gated directories whose least id the added track lowers. */
    method DirtyMinFlipAncestors(d: nat, id: int, dirty: set<nat>, ghost p: seq<Name>) returns (marked: set<nat>)
      requires WellFormed(plan) && Holds(State(), plan, ix) && NoEmptyDirs(plan) && IdsFit(plan.tracks) && IsDir(d, p)
      ensures forall x: nat :: x in marked <==> x in dirty || FlipMarked(plan, ix, p, id, x)
    {
      hide Holds, WellFormed, NameOf, GateOpen, FlipMark, NoEmptyDirs, Intro, Live, FlipMarkedBelow;
      ghost var k: nat := |p|;
      var child := d;
      marked := dirty;
      RootAt(State(), plan, ix, d, p);
      NoFlipBelow(plan, ix, p, id);
      assert p[..k] == p;
      while child != ROOT
        invariant k <= |p| && IsDir(child, p[..k]) && (child == ROOT <==> k == 0)
        invariant forall x: nat :: x in marked <==> x in dirty || FlipMarkedBelow(plan, ix, p, id, k, x)
        decreases k
      {
        assert p[..k] != [] && Init(p[..k]) == p[..k - 1];
        MemberParent(State(), plan, ix, child);
        FlipLevel(plan, ix, p, id, k);
        var node := nodes[child];
        var gated := CollisionGate(node.parent, node.name, node.rendered, p[..k - 1]);
        if gated {
          var least := IntroducingId(child);
          LeastIsIntro(plan, ix.at[child], least);
          if id < least {
            marked := marked + {node.parent};
          } else {
            return;
          }
        }
        child, k := node.parent, k - 1;
        KindMeaning(State(), plan, ix, child);
      }
    }

    /** Insert the given tracks in order, each at its path in `newPaths`; stop at the first without one. */
    method InsertIds(ids: seq<int>, newPaths: map<int, string>, alloc: InodeAllocator) returns (r: Result<(), RebuildError>)
      requires Valid(alloc) && Distinct(ids) && forall t | t in ids :: t !in plan.tracks
      modifies this, alloc
      ensures Valid(alloc) && Extends(alloc)
      ensures r.Ok? <==> Insertable(ids, PathTracks(newPaths))
      ensures r.Ok? ==> plan == InsertAll(old(plan), ids, PathTracks(newPaths))
      ensures r.Err? ==> FirstMissing(ids, newPaths, r.error.trackId)
    {
      hide Holds, WellFormed, Linked, NoEmptyDirs, InsertPath, TreeKeys;
      var i := 0;
      ghost var before, tracks := plan, PathTracks(newPaths);
      while i < |ids|
        invariant 0 <= i <= |ids| && Valid(alloc) && Extends(alloc)
        invariant forall j | 0 <= j < i :: ids[j] in newPaths
        invariant Insertable(ids[..i], tracks) && plan == InsertAll(before, ids[..i], tracks)
      {
        if ids[i] !in newPaths {
          return Err(MissingRenderedPath(ids[i]));
        }
        StillAbsent(before, ids, i, tracks);
        assert ids[..i + 1][..i] == ids[..i];
        InsertFile(ids[i], newPaths[ids[i]], alloc);
        i := i + 1;
      }
      assert ids[..i] == ids;
      return Ok(());
    }

    /** Take every track under `dir` out and put it back in ascending order. */
    method RebuildSubtree(dir: nat, newPaths: map<int, string>, alloc: InodeAllocator)
      returns (r: Result<(), RebuildError>, ghost ids: seq<int>)
      requires Valid(alloc) && dir in ix.at
      modifies this, alloc
      ensures Valid(alloc) && Extends(alloc)
      ensures TracksBelow(old(plan), old(ix).at[dir], ids)
      ensures r.Ok? <==> Insertable(ids, PathTracks(newPaths))
      ensures r.Ok? ==> plan == RebuildPlan(old(plan), ids, PathTracks(newPaths))
      ensures r.Err? ==> FirstMissing(ids, newPaths, r.error.trackId)
    {
      hide Holds, WellFormed, Linked, NoEmptyDirs, TreeKeys, Under, RemoveSet;
      ghost var before := plan;
      var found := FilesBelow(dir);
      var i := 0;
      RemoveNone(plan);
      assert found[..0] == [];
      while i < |found|
        invariant 0 <= i <= |found| && Valid(alloc) && plan == RemoveSet(before, SetOf(found[..i]))
        invariant alloc.paths == old(alloc.paths) && alloc.issued == old(alloc.issued)
      {
        RemoveOneMore(before, found, i);
        var removed, _ := RemoveTrack(found[i], alloc);
        i := i + 1;
      }
      assert found[..i] == found;
      var sorted := SortIds(found);
      SameSet(found, sorted);
      RemovedTracks(before, SetOf(sorted));
      r := InsertIds(sorted, newPaths, alloc);
      ids := sorted;
    }

    /** Live dirty inodes, shallow first by the number of components of their paths. */
    method SortShallowFirst(dirty: set<nat>, ghost alloc: InodeAllocator) returns (live: seq<nat>)
      requires Consistent(alloc)
      ensures ShallowFirst(alloc.issued, live) && |live| <= |dirty|
      ensures forall d :: d in live <==> d in dirty && d in ix.at
      ensures forall j | 0 <= j < |live| :: live[j] in alloc.issued
    {
      hide Holds, WellFormed, Linked, PathOf, NameOf, PathComponents;
      var pairs: seq<(nat, nat)>, todo := [], dirty;
      TiedNow(alloc);
      while todo != {}
        invariant ByKey(pairs) && todo <= dirty && |pairs| + |todo| <= |dirty|
        invariant forall x | x in pairs :: x.1 in alloc.issued && x.0 == Depth(alloc.issued, x.1) && x.1 in dirty && x.1 in ix.at
        invariant forall d | d in dirty && d in ix.at :: d in todo || (Depth(alloc.issued, d), d) in pairs
        decreases |todo|
      {
        var d :| d in todo;
        todo := todo - {d};
        IndexedNode(State(), plan, ix, d);
        if d in nodes {
          var path := PathOfInode(d);
          IssuedPath(alloc.paths, alloc.issued, plan, ix, d);
          pairs := InsertByKey(pairs, (|PathComponents(path)|, d));
        }
      }
      live := seq(|pairs|, i requires 0 <= i < |pairs| => pairs[i].1);
      assert forall i | 0 <= i < |live| :: pairs[i] in pairs && live[i] == pairs[i].1;
    }

    lemma TiedNow(alloc: InodeAllocator)
      requires Consistent(alloc)
      ensures Tied(alloc.paths, alloc.issued, plan, ix)
    {
      hide WellFormed, Linked, Indexed, NodesOk, ChildrenSound, ChildrenComplete, RenderedSound, RenderedComplete, TracksOk;
    }

    /** Rebuild a dirty directory unless it is gone or below one rebuilt already. */
    method RebuildLive(ghost vocab: Vocabulary, d: nat, done: set<nat>, newPaths: map<int, string>, alloc: InodeAllocator,
                       ghost good: bool, ghost live: seq<nat>, ghost i: nat)
      returns (r: Result<bool, RebuildError>)
      requires Valid(alloc) && i < |live| && d == live[i] && forall j | 0 <= j < |live| :: live[j] in alloc.issued
      requires good ==> Repairing(vocab, plan, ix, alloc.issued, live, i, done) && Agreeing(plan.tracks, newPaths)
      modifies this, alloc
      ensures Valid(alloc) && Extends(alloc)
      ensures r.Ok? ==> Carried(old(plan).tracks, plan.tracks, newPaths)
      ensures r.Ok? ==> if r.value then RebuiltOnce(old(plan), plan, PathTracks(newPaths), old(alloc.issued)[d]) else plan == old(plan)
      ensures good ==>
                r.Ok? && plan.tracks == old(plan).tracks &&
                Repairing(vocab, plan, ix, alloc.issued, live, i + 1, if r.value then done + {d} else done)
    {
      hide Holds, WellFormed, Linked, PathOf, NameOf, Repairing, Canonical, Tame, NoEmptyDirs, Agreeing, TracksBelow, RebuildPlan,
           Insertable, TreeKeys, PathTracks;
      IndexedNode(State(), plan, ix, d);
      TiedNow(alloc);
      if d !in nodes {
        if good { SkipStep(vocab, alloc.paths, alloc.issued, plan, ix, live, i, done); }
        return Ok(false);
      }
      var covered := AncestorIn(d, done);
      if covered {
        if good { SkipStep(vocab, alloc.paths, alloc.issued, plan, ix, live, i, done); }
        return Ok(false);
      }
      ghost var b, jx, paths, issued := plan, ix, alloc.paths, alloc.issued;
      IssuedPath(paths, issued, b, jx, d);
      var rebuilt, ids := RebuildSubtree(d, newPaths, alloc);
      TiedNow(alloc);
      if good {
        RebuildDone(vocab, paths, alloc.paths, issued, alloc.issued, b, jx, plan, ix, live, i, done, ids, newPaths);
      }
      if rebuilt.Err? {
        return Err(rebuilt.error);
      }
      RebuildCarries(b, jx.at[d], ids, newPaths);
      assert RebuiltAt(b, plan, PathTracks(newPaths), issued[d], jx.at[d], ids);
      return Ok(true);
    }

    /** Rebuild the dirty directories that still exist, skipping those below a rebuilt one. */
    method RebuildDirty(ghost vocab: Vocabulary, dirty: set<nat>, newPaths: map<int, string>, alloc: InodeAllocator)
      returns (r: Result<nat, RebuildError>, ghost plans: seq<Plan>, ghost trail: seq<string>)
      requires Valid(alloc)
      modifies this, alloc
      ensures Valid(alloc) && Extends(alloc)
      ensures r.Ok? ==> r.value <= |dirty| && Carried(old(plan).tracks, plan.tracks, newPaths)
      ensures r.Ok? ==> r.value == |trail| && FromTo(plans, old(plan), plan) && Rebuilds(plans, PathTracks(newPaths), trail)
      ensures forall p | p in trail :: exists d :: d in dirty && d in alloc.issued && alloc.issued[d] == p
      ensures dirty == {} ==> r == Ok(0) && plan == old(plan)
      ensures Repairable(vocab, old(plan), old(ix), dirty, newPaths) ==>
                r.Ok? && Canonical(plan) && Tame(vocab, plan) && plan.tracks == old(plan).tracks
    {
      hide Holds, WellFormed, Linked, PathOf, NameOf, Repairable, Repairing, Canonical, Tame, NoEmptyDirs, Agreeing, TracksBelow,
           RebuildPlan, Insertable, TreeKeys, PathTracks, Rebuilds, RebuiltOnce, Carried;
      var live := SortShallowFirst(dirty, alloc);
      var done: set<nat>, rebuilds, i := {}, 0, 0;
      plans, trail := [plan], [];
      NoRebuilds(plan, PathTracks(newPaths));
      CarriedSelf(plan.tracks, newPaths);
      ghost var good, tracks := Repairable(vocab, plan, ix, dirty, newPaths), plan.tracks;
      if good { AgreeingFrom(vocab, plan, ix, dirty, newPaths, plan); }
      if good { RepairStarts(vocab, plan, ix, alloc.issued, dirty, newPaths, live) by { HeldIndexed(State(), plan, ix); } }
      while i < |live|
        invariant i <= |live| && Valid(alloc) && Extends(alloc) && rebuilds <= i && Carried(old(plan).tracks, plan.tracks, newPaths)
        invariant i == 0 ==> plan == old(plan)
        invariant forall p | p in trail :: exists d :: d in dirty && d in alloc.issued && alloc.issued[d] == p
        invariant rebuilds == |trail| && FromTo(plans, old(plan), plan) && Rebuilds(plans, PathTracks(newPaths), trail)
        invariant forall j | 0 <= j < |live| :: live[j] in alloc.issued
        invariant good ==> Repairing(vocab, plan, ix, alloc.issued, live, i, done) && plan.tracks == old(plan).tracks
        invariant tracks == plan.tracks && (good ==> Agreeing(plan.tracks, newPaths))
      {
        ghost var issued := alloc.issued;
        var rebuilt := RebuildLive(vocab, live[i], done, newPaths, alloc, good, live, i);
        if rebuilt.Err? {
          return Err(rebuilt.error), plans, trail;
        }
        CarriedTrans(old(plan).tracks, tracks, plan.tracks, newPaths);
        tracks := plan.tracks;
        if rebuilt.value {
          rebuilds, done := rebuilds + 1, done + {live[i]};
          RebuildsOn(plans, plan, PathTracks(newPaths), trail, issued[live[i]]);
          plans, trail := plans + [plan], trail + [issued[live[i]]];
        }
        i := i + 1;
      }
      if good {
        Repaired(vocab, plan, ix, alloc.issued, live, done);
        RepairingParts(vocab, plan, ix, alloc.issued, live, i, done);
      }
      return Ok(rebuilds), plans, trail;
    }

    /** Which changed tracks leave their place, and which are to be inserted. */
    method Partition(newPaths: map<int, string>, changed: seq<int>)
      returns (r: Result<(seq<int>, seq<int>), RebuildError>)
      requires WellFormed(plan) && Holds(State(), plan, ix)
      ensures r.Ok? <==> forall t | t in changed :: t in newPaths
      ensures r.Ok? ==> r.value == (MovedOut(plan, newPaths, changed), MovedIn(plan, newPaths, changed))
      ensures r.Err? ==> FirstMissing(changed, newPaths, r.error.trackId)
    {
      hide Holds, WellFormed, PathOf;
      var movedOut: seq<int>, movedIn: seq<int>, i := [], [], 0;
      while i < |changed|
        invariant i <= |changed| && forall j | 0 <= j < i :: changed[j] in newPaths
        invariant movedOut == MovedOut(plan, newPaths, changed[..i]) && movedIn == MovedIn(plan, newPaths, changed[..i])
      {
        var id := changed[i];
        if id !in newPaths {
          return Err(MissingRenderedPath(id));
        }
        assert changed[..i + 1][..i] == changed[..i];
        TrackMeaning(State(), plan, ix, id);
        if id in trackToInode {
          LeafAt(State(), plan, ix, id);
          var path := PathOfInode(trackToInode[id]);
          if path != newPaths[id] {
            movedOut, movedIn := movedOut + [id], movedIn + [id];
          }
        } else {
          movedIn := movedIn + [id];
        }
        i := i + 1;
      }
      assert changed[..i] == changed;
      return Ok((movedOut, movedIn));
    }

    /** The removal side of the dirty set, on the old tree. */
    method MarkRemoved(ids: seq<int>) returns (marked: set<nat>)
      requires WellFormed(plan) && Holds(State(), plan, ix) && NoEmptyDirs(plan) && IdsFit(plan.tracks)
      ensures forall d: nat :: d in marked <==> exists t :: t in ids && RemovalMarked(plan, ix, t, d)
    {
      hide Holds, WellFormed, RemovalMarked, NoEmptyDirs, IdsFit;
      marked := {};
      var i := 0;
      while i < |ids|
        invariant i <= |ids|
        invariant forall d: nat :: d in marked <==> exists j :: 0 <= j < i && RemovalMarked(plan, ix, ids[j], d)
      {
        TrackMeaning(State(), plan, ix, ids[i]);
        ghost var before := marked;
        if ids[i] in trackToInode {
          marked := DirtyRemovedAncestors(trackToInode[ids[i]], ids[i], marked);
        } else {
          NoMarksWithoutTrack(plan, ix, ids[i]);
        }
        i := i + 1;
      }
    }

    /** What one added path marks: where it branches off onto a taken name, and the minima it lowers. */
    method MarkAdded(id: int, path: string, dirty: set<nat>) returns (marked: set<nat>)
      requires WellFormed(plan) && Holds(State(), plan, ix) && NoEmptyDirs(plan) && IdsFit(plan.tracks)
      ensures forall d: nat :: d in marked <==> d in dirty || InsertionMarked(plan, ix, id, TreeKeys(path), d)
    {
      hide Holds, WellFormed, NoEmptyDirs, IdsFit, Taken, FlipMarked, PathComponents, TruncateComponent;
      var comps := PathComponents(path);
      ghost var keys := TreeKeys(path);
      var d, consumed := DeepestExistingAncestor(path);
      RootAt(State(), plan, ix, d, keys[..consumed]);
      marked := dirty;
      if consumed < |comps| {
        var key := TruncateComponent(comps[consumed], consumed + 1 == |comps|);
        NameTakenMeaning(d, keys[..consumed], key);
        if NameTaken(d, key) {
          marked := marked + {d};
        }
      }
      marked := DirtyMinFlipAncestors(d, id, marked, keys[..consumed]);
      InsertionMarkedAt(plan, ix, id, keys, consumed, d);
    }

    /** The addition side of the dirty set, on the old tree. */
    method MarkAdditions(ids: seq<int>, newPaths: map<int, string>, dirty: set<nat>) returns (r: Result<set<nat>, RebuildError>)
      requires WellFormed(plan) && Holds(State(), plan, ix) && NoEmptyDirs(plan) && IdsFit(plan.tracks)
      ensures r.Ok? <==> forall t | t in ids :: t in newPaths
      ensures r.Ok? ==> forall d: nat :: d in r.value <==>
                d in dirty || exists t :: t in ids && InsertionMarked(plan, ix, t, TreeKeys(newPaths[t]), d)
      ensures r.Err? ==> FirstMissing(ids, newPaths, r.error.trackId)
    {
      hide Holds, WellFormed, NoEmptyDirs, IdsFit, InsertionMarked, TreeKeys;
      var marked, i := dirty, 0;
      while i < |ids|
        invariant i <= |ids| && forall j | 0 <= j < i :: ids[j] in newPaths
        invariant forall d: nat :: d in marked <==>
                    d in dirty || exists j :: 0 <= j < i && InsertionMarked(plan, ix, ids[j], TreeKeys(newPaths[ids[j]]), d)
      {
        if ids[i] !in newPaths {
          return Err(MissingRenderedPath(ids[i]));
        }
        marked := MarkAdded(ids[i], newPaths[ids[i]], marked);
        i := i + 1;
      }
      return Ok(marked);
    }

    /** Take the tracks out; a pruned chain dirties the directory that lost it when the gate says so. */
    method RemoveTracks(ids: seq<int>, dirty: set<nat>, alloc: InodeAllocator) returns (marked: set<nat>)
      requires Valid(alloc)
      modifies this
      ensures Valid(alloc) && plan == RemoveSet(old(plan), SetOf(ids))
      ensures forall d: nat :: d in marked <==> d in dirty || PruneMarked(old(plan), old(ix), ids, d)
    {
      hide Holds, WellFormed, NoEmptyDirs, Linked, RemoveSet, PruneMarkedBefore, Indexed;
      marked := dirty;
      ghost var before, jx := plan, ix;
      var i := 0;
      RemoveNone(plan);
      HeldIndexed(State(), plan, ix);
      assert ids[..0] == [];
      NoneMarked(before, jx, ids);
      while i < |ids|
        invariant i <= |ids| && Valid(alloc) && plan == RemoveSet(before, SetOf(ids[..i]))
        invariant forall d: nat :: d in marked <==> d in dirty || PruneMarkedBefore(before, jx, ids, i, d)
      {
        RemoveOneMore(before, ids, i);
        var survivor, gated := RemoveGated(ids[i], alloc, before, jx, ids, i);
        if gated { marked := marked + {survivor}; }
        i := i + 1;
      }
      assert ids[..i] == ids;
    }

    /** One removal and its gate. */
    method RemoveGated(id: int, alloc: InodeAllocator, ghost before: Plan, ghost jx: Index, ghost ids: seq<int>, ghost i: nat)
      returns (survivor: nat, gated: bool)
      requires Valid(alloc) && i < |ids| && id == ids[i] && plan == RemoveSet(before, SetOf(ids[..i])) && WellFormed(before)
      requires RemoveSet(plan, {id}) == RemoveSet(before, SetOf(ids[..i + 1]))
      requires Indexed(before, jx) && Linked(alloc.paths, before, jx)
      modifies this
      ensures Valid(alloc) && plan == RemoveSet(old(plan), {id})
      ensures forall d: nat :: PruneMarkedBefore(before, jx, ids, i + 1, d) <==>
                               PruneMarkedBefore(before, jx, ids, i, d) || (gated && d == survivor)
    {
      hide Holds, WellFormed, NoEmptyDirs, Linked, RemoveSet, GateOpen, PruneMarkedBefore, Indexed;
      ghost var addr := if id in plan.tracks then plan.tracks[id] else [];
      survivor, gated := 0, false;
      var removed, k := RemoveTrack(id, alloc);
      if removed.Some? {
        HeldIndexed(State(), plan, ix);
        if removed.value.1.Some? {
          var lost;
          survivor, lost := removed.value.0, removed.value.1.value;
          gated := CollisionGate(survivor, lost.0, lost.1, addr[..k]);
          RootAt(State(), plan, ix, survivor, addr[..k]);
          RemovedInode(alloc.paths, before, jx, SetOf(ids[..i + 1]), ix, addr[..k]);
          assert PrunedTo(plan, addr, k);
        } else {
          RootAt(State(), plan, ix, removed.value.0, addr[..k]);
          NotPruned(plan, addr);
        }
      }
      PruneStep(before, jx, ids, i, k, removed.Some? && removed.value.1.Some?, gated, survivor);
    }

    /** The dirty set: both sides of the batch, on the old tree. */
    method MarkDirty(outs: seq<int>, ins: seq<int>, newPaths: map<int, string>) returns (r: Result<set<nat>, RebuildError>)
      requires WellFormed(plan) && Holds(State(), plan, ix) && NoEmptyDirs(plan) && IdsFit(plan.tracks)
      ensures r.Ok? <==> forall t | t in ins :: t in newPaths
      ensures r.Ok? ==> forall d: nat :: d in r.value <==>
                (exists t :: t in outs && RemovalMarked(plan, ix, t, d)) ||
                (exists t :: t in ins && InsertionMarked(plan, ix, t, TreeKeys(newPaths[t]), d))
      ensures r.Err? ==> FirstMissing(ins, newPaths, r.error.trackId)
    {
      hide Holds, WellFormed, NoEmptyDirs, IdsFit, RemovalMarked, InsertionMarked, TreeKeys;
      var marked := MarkRemoved(outs);
      r := MarkAdditions(ins, newPaths, marked);
    }

    /** Removals, then insertions in ascending id order. */
    method RemoveAndInsert(outs: seq<int>, ins: seq<int>, dirty: set<nat>, newPaths: map<int, string>, alloc: InodeAllocator)
      returns (more: set<nat>, ghost ids: seq<int>)
      requires Valid(alloc) && Distinct(ins) && forall t | t in ins && t in plan.tracks :: t in outs
      requires forall t | t in ins :: t in newPaths
      modifies this, alloc
      ensures Valid(alloc) && Extends(alloc)
      ensures forall d: nat :: d in more <==> d in dirty || PruneMarked(old(plan), old(ix), outs, d)
      ensures Ascending(ids) && (forall t :: t in ids <==> t in ins) && Insertable(ids, PathTracks(newPaths))
      ensures plan == InsertAll(RemoveSet(old(plan), SetOf(outs)), ids, PathTracks(newPaths))
    {
      hide Holds, WellFormed, NoEmptyDirs, Linked, RemoveSet, InsertAll, PathTracks, Insertable, PruneMarked;
      ghost var before := plan;
      more := RemoveTracks(outs, dirty, alloc);
      var sorted := SortIds(ins);
      RemovedTracks(before, SetOf(outs));
      InsertablePaths(sorted, newPaths);
      var inserted := InsertIds(sorted, newPaths, alloc);
      assert inserted.Ok?;
      ids := sorted;
    }

    /** Mark on the old tree, then remove and insert: what the batch leaves, and what is to be rebuilt. */
    method MoveBatch(ghost vocab: Vocabulary, outs: seq<int>, ins: seq<int>, newPaths: map<int, string>, alloc: InodeAllocator,
                     ghost changed: seq<int>, ghost added: seq<int>, ghost removed: seq<int>)
      returns (r: Result<set<nat>, RebuildError>)
      requires Valid(alloc) && IdsFit(plan.tracks) && Distinct(ins) && forall t | t in ins && t in plan.tracks :: t in outs
      requires outs == removed + MovedOut(plan, newPaths, changed) && ins == added + MovedIn(plan, newPaths, changed)
      requires Distinct(changed) && forall t | t in added :: t !in plan.tracks && t !in changed
      modifies this, alloc
      ensures Valid(alloc) && Extends(alloc)
      ensures r.Ok? <==> forall t | t in ins :: t in newPaths
      ensures r.Err? ==> State() == old(State()) && plan == old(plan)
      ensures r.Ok? ==> InsertedInOrder(RemoveSet(old(plan), SetOf(outs)), ins, newPaths, plan)
      ensures r.Ok? ==> plan.tracks == AfterBatch(old(plan).tracks, SetOf(outs), ins, newPaths)
      ensures r.Ok? ==> forall d: nat :: d in r.value <==> MarkedBy(old(plan), old(ix), outs, ins, newPaths, d)
      ensures r.Ok? && Unmarked(old(plan), old(ix), outs, ins, newPaths) ==> r.value == {}
      ensures r.Ok? && old(Canonical(plan) && Tame(vocab, plan) && IsDiff(vocab, plan, newPaths, changed, added, removed)) ==>
                Repairable(vocab, plan, ix, r.value, newPaths) && plan.tracks == Materialized(PathTracks(newPaths))
    {
      hide Holds, WellFormed, NoEmptyDirs, Linked, RemoveSet, IdsFit, Canonical, Tame, IsDiff, Repairable, InsertAll, Materialized,
           PathTracks, RemovalMarked, InsertionMarked, TreeKeys, MovedOut, MovedIn, Insertable, Refresh, AfterBatch, PruneMarked,
           Unmarked, InsertedInOrder, WalksDone, MarkedBy;
      ghost var before, jx, paths := plan, ix, alloc.paths;
      ghost var good := Canonical(plan) && Tame(vocab, plan) && IsDiff(vocab, plan, newPaths, changed, added, removed);
      var marked := MarkDirty(outs, ins, newPaths);
      if marked.Err? {
        return Err(marked.error);
      }
      TiedNow(alloc);
      var dirty, ids := RemoveAndInsert(outs, ins, marked.value, newPaths, alloc);
      NothingDirty(before, jx, outs, ins, newPaths, marked.value, dirty);
      DirtyMarked(before, jx, outs, ins, newPaths, marked.value, dirty);
      InOrder(RemoveSet(before, SetOf(outs)), ins, ids, newPaths, plan);
      BatchTracks(before, SetOf(outs), ids, ins, newPaths);
      if good {
        TiedNow(alloc);
        WalksCovered(before, jx, outs, ins, ids, newPaths, marked.value, dirty);
        RefreshFrom(vocab, before, newPaths, changed, added, removed, ids);
        Refreshed(vocab, paths, alloc.paths, before, jx, plan, ix, newPaths, changed, added, removed, SetOf(outs), ids, dirty);
      }
      return Ok(dirty);
    }

    /**
      Patch the tree in place.  Whatever the names, a successful patch loses no track and
      leaves each at its old place or at its new path, and where nothing is marked nothing is
      rebuilt.  For a diff over an unambiguous vocabulary on a canonical tree over it, the
      patch never fails and leaves the canonical plan of the new paths.
     */
    method ApplyChanges(ghost vocab: Vocabulary, newPaths: map<int, string>, changed: seq<int>, added: seq<int>, removed: seq<int>,
                        alloc: InodeAllocator)
      returns (r: Result<nat, RebuildError>, ghost plans: seq<Plan>, ghost trail: seq<string>)
      requires Valid(alloc) && IdsFit(plan.tracks) && Distinct(changed) && Distinct(added)
      requires forall t | t in added :: t !in plan.tracks && t !in changed
      modifies this, alloc
      ensures Valid(alloc) && Extends(alloc)
      ensures (exists t :: (t in changed || t in added) && t !in newPaths) ==>
                r.Err? && State() == old(State()) && plan == old(plan)
      ensures r.Ok? ==>
                Carried(AfterBatch(old(plan).tracks, SetOf(removed + MovedOut(old(plan), newPaths, changed)),
                                   added + MovedIn(old(plan), newPaths, changed), newPaths),
                        plan.tracks, newPaths)
      ensures r.Ok? ==>
                plans != [] &&
                InsertedInOrder(RemoveSet(old(plan), SetOf(removed + MovedOut(old(plan), newPaths, changed))),
                                added + MovedIn(old(plan), newPaths, changed), newPaths, plans[0]) &&
                (forall p | p in trail ::
                   exists d :: d in alloc.issued && alloc.issued[d] == p &&
                               MarkedBy(old(plan), old(ix), removed + MovedOut(old(plan), newPaths, changed),
                                        added + MovedIn(old(plan), newPaths, changed), newPaths, d)) &&
                r.value == |trail| && FromTo(plans, plans[0], plan) && Rebuilds(plans, PathTracks(newPaths), trail)
      ensures (forall t | t in changed || t in added :: t in newPaths) &&
              Unmarked(old(plan), old(ix), removed + MovedOut(old(plan), newPaths, changed),
                       added + MovedIn(old(plan), newPaths, changed), newPaths) ==>
                r == Ok(0) &&
                InsertedInOrder(RemoveSet(old(plan), SetOf(removed + MovedOut(old(plan), newPaths, changed))),
                                added + MovedIn(old(plan), newPaths, changed), newPaths, plan)
      ensures old(Canonical(plan) && Tame(vocab, plan) && IsDiff(vocab, plan, newPaths, changed, added, removed)) ==>
                r.Ok? && Canonical(plan) && Tame(vocab, plan) && plan.tracks == Materialized(PathTracks(newPaths))
    {
      hide Holds, WellFormed, NoEmptyDirs, Linked, RemoveSet, IdsFit, Canonical, Tame, IsDiff, Repairable, InsertAll,
           Materialized, PathTracks, Stable, RemovalMarked, InsertionMarked, TreeKeys, MovedOut, MovedIn, Insertable, Refresh, Carried,
           AfterBatch, PruneMarked, Unmarked, InsertedInOrder, WalksDone, Rebuilds, MarkedBy;
      ghost var good := Canonical(plan) && Tame(vocab, plan) && IsDiff(vocab, plan, newPaths, changed, added, removed);
      if good { DiffPaths(vocab, plan, newPaths, changed, added, removed); }
      Moved(plan, newPaths, changed);
      plans, trail := [], [];
      var parts := Partition(newPaths, changed);
      if parts.Err? {
        return Err(parts.error), plans, trail;
      }
      var outs, ins := removed + parts.value.0, added + parts.value.1;
      Together(added, parts.value.1);
      var dirty := MoveBatch(vocab, outs, ins, newPaths, alloc, changed, added, removed);
      if dirty.Err? {
        return Err(dirty.error), plans, trail;
      }
      r, plans, trail := RebuildDirty(vocab, dirty.value, newPaths, alloc);
    }
  }

  /** The children of `p` but for those whose names are still to come. */
  ghost predicate KidsBut(plan: Plan, p: seq<Name>, ms: seq<Member>, todo: set<Name>) {
    (forall j | 0 <= j < |ms| :: ms[j] in plan.slots && Parent(plan, ms[j]) == p && NameOf(plan, ms[j]) !in todo) &&
    (forall i, j | 0 <= i < j < |ms| :: ms[i] != ms[j]) &&
    forall m | m in plan.slots && Parent(plan, m) == p :: NameOf(plan, m) in todo || m in ms
  }

  lemma KidAdded(plan: Plan, p: seq<Name>, ms: seq<Member>, todo: set<Name>, n: Name, x: Member)
    requires WellFormed(plan) && KidsBut(plan, p, ms, todo) && n in todo
    requires x in plan.slots && Parent(plan, x) == p && NameOf(plan, x) == n
    ensures KidsBut(plan, p, ms + [x], todo - {n})
  {
    hide NameOf, WellFormed, Parent;
    forall m | m in plan.slots && Parent(plan, m) == p && NameOf(plan, m) == n
      ensures m == x
    {
      if m != x { SiblingNamed(plan, m, x); }
    }
  }

  /** A node's record: its parent's inode, its names, and its path in terms of its parent's. */
  lemma MemberParent(st: TreeMaps, plan: Plan, ix: Index, i: nat)
    requires Holds(st, plan, ix) && WellFormed(plan) && i in ix.at && ix.at[i] != ROOT_DIR
    ensures var m := ix.at[i];
            m in plan.slots && i in st.nodes && Addr(plan, m) != [] && AreComponents(Addr(plan, m)) &&
            st.nodes[i].name == NameOf(plan, m) && st.nodes[i].rendered == Rendered(plan, m) &&
            var p := st.nodes[i].parent;
            p in ix.at && ix.at[p] == Dir(Parent(plan, m)) && p == InoOf(ix, Dir(Parent(plan, m))) &&
            NamePath(plan, m) == NamePath(plan, Dir(Parent(plan, m))) + [NameOf(plan, m)]
  {
    hide NameOf, ChildrenSound, ChildrenComplete, RenderedSound, RenderedComplete, TracksOk;
    NamePathDir(plan, Parent(plan, ix.at[i]));
  }

  /** The dirty set has everything the walks mark. */
  lemma WalksCovered(plan: Plan, ix: Index, outs: seq<int>, ins: seq<int>, ids: seq<int>, newPaths: map<int, string>,
                     marked: set<nat>, dirty: set<nat>)
    requires (forall t :: t in ids <==> t in ins) && forall t | t in ins :: t in newPaths
    requires forall d: nat :: d in marked <==>
               (exists t :: t in outs && RemovalMarked(plan, ix, t, d)) ||
               (exists t :: t in ins && InsertionMarked(plan, ix, t, TreeKeys(newPaths[t]), d))
    requires forall d: nat :: d in dirty <==> d in marked || PruneMarked(plan, ix, outs, d)
    ensures WalksDone(plan, ix, newPaths, SetOf(outs), ids, dirty)
  {
    hide RemovalMarked, InsertionMarked, PruneMarked, TreeKeys;
  }

  /** It has nothing else. */
  lemma DirtyMarked(plan: Plan, ix: Index, outs: seq<int>, ins: seq<int>, newPaths: map<int, string>, marked: set<nat>, dirty: set<nat>)
    requires forall t | t in ins :: t in newPaths
    requires forall d: nat :: d in marked <==>
               (exists t :: t in outs && RemovalMarked(plan, ix, t, d)) ||
               (exists t :: t in ins && InsertionMarked(plan, ix, t, TreeKeys(newPaths[t]), d))
    requires forall d: nat :: d in dirty <==> d in marked || PruneMarked(plan, ix, outs, d)
    ensures forall d: nat :: d in dirty <==> MarkedBy(plan, ix, outs, ins, newPaths, d)
  {
    hide RemovalMarked, InsertionMarked, PruneMarked, TreeKeys;
  }

  lemma Regrouped(a: seq<Name>, x: Name, b: seq<Name>)
    ensures (a + [x]) + b == a + ([x] + b)
  {
  }

  lemma LeafAt(st: TreeMaps, plan: Plan, ix: Index, t: int)
    requires Holds(st, plan, ix) && WellFormed(plan) && t in plan.tracks
    ensures var i := InoOf(ix, File(t)); i in ix.at && ix.at[i] == File(t) && i != ROOT
    ensures plan.tracks[t] != []
  {
    hide NameOf, ChildrenSound, ChildrenComplete, RenderedSound, RenderedComplete, TracksOk, NodesOk;
    FileLeaf(plan, t);
  }

  lemma LeastIsIntro(plan: Plan, m: Member, least: int)
    requires m in plan.slots && NoEmptyDirs(plan)
    requires forall t | Under(plan.tracks, m, t) :: least <= t
    requires Under(plan.tracks, m, least) || forall t :: !Under(plan.tracks, m, t)
    ensures Live(plan.tracks, m) && least == Intro(plan.tracks, m)
  {
    hide Under;
    assert Live(plan.tracks, m);
    assert Under(plan.tracks, m, Intro(plan.tracks, m));
  }

  lemma NoMarkBelowLeaf(plan: Plan, ix: Index, t: int)
    requires t in plan.tracks
    ensures forall d: nat :: !RemovalMarkedBelow(plan, ix, t, |plan.tracks[t]|, d)
  {
    hide MemberGated, IsIntro;
  }

  lemma NoFlipBelow(plan: Plan, ix: Index, p: seq<Name>, t: int)
    ensures forall d: nat :: !FlipMarkedBelow(plan, ix, p, t, |p|, d)
  {
    hide MemberGated, Intro, Live;
  }

  /** The first of `ids` without a rendered path. */
  predicate FirstMissing(ids: seq<int>, newPaths: map<int, string>, t: int) {
    exists i :: 0 <= i < |ids| && ids[i] == t && t !in newPaths && forall j | 0 <= j < i :: ids[j] in newPaths
  }

  lemma StillAbsent(before: Plan, ids: seq<int>, i: nat, tracks: map<int, seq<Name>>)
    requires i < |ids| && Distinct(ids) && ids[i] !in before.tracks && Insertable(ids[..i], tracks)
    ensures ids[i] !in InsertAll(before, ids[..i], tracks).tracks
  {
    hide InsertAll;
    InsertAllTracks(before, ids[..i], tracks);
    assert forall j | 0 <= j < i :: ids[j] != ids[i];
    var init, t := ids[..i], ids[i];
    var q := InsertAll(before, init, tracks);
    assert t in q.tracks ==> t in before.tracks || t in init;
    assert t !in init;
  }

  lemma RemoveNone(plan: Plan)
    requires Valid(plan)
    ensures RemoveSet(plan, SetOf([])) == plan
  {
    hide NameOf, WellFormed;
    assert plan.tracks - SetOf([]) == plan.tracks;
  }

  lemma NoneMarked(before: Plan, ix: Index, ids: seq<int>)
    ensures forall d: nat :: !PruneMarkedBefore(before, ix, ids, 0, d)
  {
  }

  lemma RemoveOneMore(plan: Plan, ids: seq<int>, i: nat)
    requires i < |ids|
    ensures RemoveSet(RemoveSet(plan, SetOf(ids[..i])), {ids[i]}) == RemoveSet(plan, SetOf(ids[..i + 1]))
  {
    hide RemoveSet;
    RemoveSetCompose(plan, SetOf(ids[..i]), {ids[i]});
    assert ids[..i + 1] == ids[..i] + [ids[i]];
    assert forall t :: t in SetOf(ids[..i + 1]) <==> t in SetOf(ids[..i]) + {ids[i]};
    assert SetOf(ids[..i + 1]) == SetOf(ids[..i]) + {ids[i]};
  }

  lemma SameSet(a: seq<int>, b: seq<int>)
    requires forall t :: t in a <==> t in b
    ensures SetOf(a) == SetOf(b)
  {
    assert forall t :: t in SetOf(a) <==> t in SetOf(b);
  }

  lemma IndexedNode(st: TreeMaps, plan: Plan, ix: Index, d: nat)
    requires Holds(st, plan, ix)
    ensures d in st.nodes <==> d in ix.at
  {
    hide NameOf, ChildrenSound, ChildrenComplete, RenderedSound, RenderedComplete, TracksOk;
  }

  lemma AgreeingFrom(vocab: Vocabulary, plan: Plan, ix: Index, dirty: set<nat>, newPaths: map<int, string>, b: Plan)
    requires Repairable(vocab, plan, ix, dirty, newPaths) && b.tracks == plan.tracks
    ensures Agreeing(b.tracks, newPaths)
  {
    hide TreeKeys;
  }

  lemma IssuedPath(paths: map<string, nat>, issued: map<nat, string>, plan: Plan, ix: Index, d: nat)
    requires Indexed(plan, ix) && Linked(paths, plan, ix) && Keyed(paths, issued) && d in ix.at
    ensures d in issued && issued[d] == PathOf(plan, ix.at[d])
  {
    hide PathOf, NameOf;
  }

  lemma NoMarksWithoutTrack(plan: Plan, ix: Index, t: int)
    requires t !in plan.tracks
    ensures forall d: nat :: !RemovalMarked(plan, ix, t, d)
  {
    hide MemberGated, IsIntro;
  }

  lemma InsertionMarkedAt(plan: Plan, ix: Index, t: int, keys: seq<Name>, n: nat, d: nat)
    requires WellFormed(plan) && n <= |keys| && d == InoOf(ix, Dir(keys[..n])) && (keys != [] ==> IsDeepest(plan, keys, n))
    ensures forall x: nat :: InsertionMarked(plan, ix, t, keys, x) <==>
              ((n < |keys| && Taken(plan, keys[..n], keys[n]) && x == d) || FlipMarked(plan, ix, keys[..n], t, x))
  {
    hide WellFormed, Taken, FlipMarked;
    if keys == [] {
      NoFlipBelow(plan, ix, keys[..n], t);
      assert forall x: nat :: !FlipMarked(plan, ix, [], t, x) by { FlipUnfold(plan, ix, t); }
    } else {
      forall k: nat | IsDeepest(plan, keys, k)
        ensures k == n
      {
        DeepestUnique(plan, keys, k, n);
      }
    }
  }

  lemma FlipUnfold(plan: Plan, ix: Index, t: int)
    ensures forall x: nat :: !FlipMarked(plan, ix, [], t, x)
  {
    hide MemberGated, Intro, Live;
  }

  lemma InsertablePaths(ids: seq<int>, newPaths: map<int, string>)
    ensures Insertable(ids, PathTracks(newPaths)) <==> forall t | t in ids :: t in newPaths
  {
    hide TreeKeys;
    assert forall i | 0 <= i < |ids| :: ids[i] in ids;
    assert forall t | t in ids :: exists i :: 0 <= i < |ids| && ids[i] == t;
    assert forall i | 0 <= i < |ids| :: ids[i] in PathTracks(newPaths) <==> ids[i] in newPaths;
  }

  lemma Together(a: seq<int>, b: seq<int>)
    requires Distinct(a) && Distinct(b) && forall t | t in a :: t !in b
    ensures Distinct(a + b)
  {
    forall i, j | 0 <= i < j < |a + b|
      ensures (a + b)[i] != (a + b)[j]
    {
      if i < |a| <= j { assert a[i] in a && b[j - |a|] in b; }
    }
  }

  lemma StartPending(plan: Plan, top: Member)
    requires WellFormed(plan) && MemberIn(plan, top)
    ensures Listed(plan, [top]) && Apart(plan, [top])
    ensures forall t :: File(t) in Pending(plan, [top]) <==> Under(plan.tracks, top, t)
  {
    hide WellFormed, Covers, Pending, Under;
    forall t
      ensures File(t) in Pending(plan, [top]) <==> Under(plan.tracks, top, t)
    {
      PendingAll(plan, top, t);
    }
  }

  lemma NoChildren(plan: Plan, m: Member)
    requires m.File?
    ensures ChildrenOf(plan, m, [])
  {
  }

  lemma NothingPending(plan: Plan)
    ensures Pending(plan, []) == {}
  {
  }

  lemma FileUnder(st: TreeMaps, plan: Plan, ix: Index, i: nat)
    requires Holds(st, plan, ix) && WellFormed(plan) && i in ix.at && ix.at[i].File?
    ensures forall t :: Under(plan.tracks, ix.at[i], t) <==> t == ix.at[i].id
  {
    hide NameOf;
  }
}
