/**
  The maps of the virtual tree and what it means for them to hold a plan: every map
  entry stands for a member of the plan, and every member has all its entries.
 */
module TreeState {
  import opened Names
  import opened TreePlan

  datatype NodeKind = DirNode | FileNode(trackId: int)

  datatype Node = Node(parent: nat, name: Name, rendered: Name, kind: NodeKind)

  type Kids = map<Name, nat>

  datatype TreeMaps = TreeMaps(
    nodes: map<nat, Node>,
    children: map<nat, Kids>,
    renderedChildren: map<nat, map<Name, Kids>>,
    trackToInode: map<int, nat>)

  const ROOT: nat := 1

  /** Members and inodes, both ways; the root directory included. */
  datatype Index = Index(ino: map<Member, nat>, at: map<nat, Member>)

  function InoOf(ix: Index, m: Member): nat { if m in ix.ino then ix.ino[m] else 0 }

  function KindOf(m: Member): NodeKind {
    match m
    case Dir(_) => DirNode
    case File(t) => FileNode(t)
  }

  ghost function NodeFor(plan: Plan, ix: Index, m: Member): Node {
    if m == ROOT_DIR then Node(ROOT, "", "", DirNode)
    else Node(InoOf(ix, Dir(Parent(plan, m))), NameOf(plan, m), Rendered(plan, m), KindOf(m))
  }

  ghost predicate Indexed(plan: Plan, ix: Index) {
    (forall m :: m in ix.ino <==> MemberIn(plan, m)) &&
    (forall m | m in ix.ino :: ix.ino[m] in ix.at && ix.at[ix.ino[m]] == m) &&
    (forall i | i in ix.at :: ix.at[i] in ix.ino && ix.ino[ix.at[i]] == i) &&
    ix.ino[ROOT_DIR] == ROOT
  }

  ghost predicate NodesOk(st: TreeMaps, plan: Plan, ix: Index) {
    forall i :: (i in st.nodes <==> i in ix.at) && (i in ix.at ==> st.nodes[i] == NodeFor(plan, ix, ix.at[i]))
  }

  /** `c`, listed in directory `i` under `name`, is a member of that name below that directory. */
  ghost predicate ListedAs(plan: Plan, ix: Index, i: nat, name: Name, c: nat) {
    c in ix.at && i in ix.at && ix.at[c] != ROOT_DIR && ix.at[i] == Dir(Parent(plan, ix.at[c])) &&
    NameOf(plan, ix.at[c]) == name
  }

  ghost predicate KidListed(st: TreeMaps, plan: Plan, ix: Index, m: Member) {
    var i := InoOf(ix, Dir(Parent(plan, m)));
    i in st.children && NameOf(plan, m) in st.children[i] && st.children[i][NameOf(plan, m)] == InoOf(ix, m)
  }

  ghost predicate RenderedListed(st: TreeMaps, plan: Plan, ix: Index, m: Member) {
    var i, r, n := InoOf(ix, Dir(Parent(plan, m))), Rendered(plan, m), NameOf(plan, m);
    i in st.renderedChildren && r in st.renderedChildren[i] && n in st.renderedChildren[i][r] &&
    st.renderedChildren[i][r][n] == InoOf(ix, m)
  }

  ghost predicate GroupListedAs(plan: Plan, ix: Index, i: nat, rendered: Name, name: Name, c: nat) {
    ListedAs(plan, ix, i, name, c) && Rendered(plan, ix.at[c]) == rendered
  }

  ghost predicate ChildrenSound(st: TreeMaps, plan: Plan, ix: Index) {
    (forall i :: i in st.children <==> i in ix.at && ix.at[i].Dir?) &&
    forall i, n | i in st.children && n in st.children[i] :: ListedAs(plan, ix, i, n, st.children[i][n])
  }

  ghost predicate ChildrenComplete(st: TreeMaps, plan: Plan, ix: Index) {
    forall m | m in plan.slots :: KidListed(st, plan, ix, m)
  }

  ghost predicate RenderedSound(st: TreeMaps, plan: Plan, ix: Index) {
    (forall i :: i in st.renderedChildren <==> i in ix.at && ix.at[i].Dir?) &&
    (forall i, r | i in st.renderedChildren && r in st.renderedChildren[i] :: st.renderedChildren[i][r] != map[]) &&
    forall i, r, n | i in st.renderedChildren && r in st.renderedChildren[i] && n in st.renderedChildren[i][r] ::
      GroupListedAs(plan, ix, i, r, n, st.renderedChildren[i][r][n])
  }

  ghost predicate RenderedComplete(st: TreeMaps, plan: Plan, ix: Index) {
    forall m | m in plan.slots :: RenderedListed(st, plan, ix, m)
  }

  ghost predicate TracksOk(st: TreeMaps, plan: Plan, ix: Index) {
    forall t :: (t in st.trackToInode <==> t in plan.tracks) &&
                (t in st.trackToInode ==> st.trackToInode[t] == InoOf(ix, File(t)))
  }

  /** The maps hold exactly `plan`, under the inodes of `ix`. */
  ghost predicate Holds(st: TreeMaps, plan: Plan, ix: Index) {
    Indexed(plan, ix) && NodesOk(st, plan, ix) && ChildrenSound(st, plan, ix) && ChildrenComplete(st, plan, ix) &&
    RenderedSound(st, plan, ix) && RenderedComplete(st, plan, ix) && TracksOk(st, plan, ix)
  }

  /** Every member's inode is the one the allocator keeps for its path. */
  ghost predicate Linked(paths: map<string, nat>, plan: Plan, ix: Index) {
    forall m | m in ix.ino :: PathOf(plan, m) in paths && paths[PathOf(plan, m)] == ix.ino[m]
  }

  // ----- Attaching a child ---------------------------------------------------------------

  function WithKid(kids: Kids, name: Name, i: nat): Kids { kids[name := i] }

  function WithRendered(groups: map<Name, Kids>, rendered: Name, name: Name, i: nat): map<Name, Kids> {
    groups[rendered := (if rendered in groups then groups[rendered] else map[])[name := i]]
  }

  /** The maps after a new child `i` of `parent` is entered everywhere. */
  function Attach(st: TreeMaps, parent: nat, name: Name, rendered: Name, i: nat, kind: NodeKind): TreeMaps
    requires parent in st.children && parent in st.renderedChildren
  {
    var node := Node(parent, name, rendered, kind);
    var kids := WithKid(st.children[parent], name, i);
    var groups := WithRendered(st.renderedChildren[parent], rendered, name, i);
    match kind
    case DirNode =>
      TreeMaps(st.nodes[i := node], st.children[i := map[]][parent := kids],
               st.renderedChildren[i := map[]][parent := groups], st.trackToInode)
    case FileNode(t) =>
      TreeMaps(st.nodes[i := node], st.children[parent := kids],
               st.renderedChildren[parent := groups], st.trackToInode[t := i])
  }

  function Entered(ix: Index, m: Member, i: nat): Index { Index(ix.ino[m := i], ix.at[i := m]) }

  /** Attaching `m` under `addr` at inode `i`, as plan, index and maps see it. */
  ghost predicate Attaching(st: TreeMaps, plan: Plan, ix: Index, m: Member, addr: seq<Name>, i: nat) {
    Holds(st, plan, ix) && WellFormed(plan) && Addable(plan, m, addr) && i !in ix.at && m != ROOT_DIR
  }

  lemma ParentListed(st: TreeMaps, plan: Plan, ix: Index, m: Member, addr: seq<Name>, i: nat)
    requires Attaching(st, plan, ix, m, addr, i)
    ensures var p := InoOf(ix, Dir(Init(addr)));
            p in ix.at && ix.at[p] == Dir(Init(addr)) && p in st.children && p in st.renderedChildren && p != i
  {
    hide NameOf, WellFormed;
  }

  ghost function Attached(st: TreeMaps, plan: Plan, ix: Index, m: Member, addr: seq<Name>, i: nat): TreeMaps
    requires Attaching(st, plan, ix, m, addr, i)
  {
    ParentListed(st, plan, ix, m, addr, i);
    Attach(st, InoOf(ix, Dir(Init(addr))), SlotName(Last(addr), FirstFree(plan, addr)), Last(addr), i, KindOf(m))
  }

  lemma AttachIndexed(st: TreeMaps, plan: Plan, ix: Index, m: Member, addr: seq<Name>, i: nat)
    requires Attaching(st, plan, ix, m, addr, i)
    ensures Indexed(Add(plan, m, addr), Entered(ix, m, i))
  {
    hide NameOf, WellFormed, FirstFree, SlotName, ChildrenSound, ChildrenComplete, RenderedSound, RenderedComplete, TracksOk, NodesOk;
    assert m !in ix.ino;
  }

  /** What the members of the old plan look like in the new one. */
  lemma AttachSame(st: TreeMaps, plan: Plan, ix: Index, m: Member, addr: seq<Name>, i: nat)
    requires Attaching(st, plan, ix, m, addr, i)
    ensures var q, jx := Add(plan, m, addr), Entered(ix, m, i);
            (forall x | x in plan.slots :: x != m && Parent(q, x) == Parent(plan, x) && Rendered(q, x) == Rendered(plan, x) &&
               NameOf(q, x) == NameOf(plan, x) && InoOf(jx, x) == InoOf(ix, x) &&
               InoOf(jx, Dir(Parent(plan, x))) == InoOf(ix, Dir(Parent(plan, x)))) &&
            Parent(q, m) == Init(addr) && Rendered(q, m) == Last(addr) &&
            NameOf(q, m) == SlotName(Last(addr), FirstFree(plan, addr)) &&
            InoOf(jx, Dir(Init(addr))) == InoOf(ix, Dir(Init(addr))) && InoOf(jx, m) == i
  {
    hide NameOf, FirstFree, SlotName, ChildrenSound, ChildrenComplete, RenderedSound, RenderedComplete, TracksOk, NodesOk,
         AreComponents, SiblingsDistinct, RootUnreserved, Shaped, Add;
    AddSame(plan, m, addr);
    assert m !in ix.ino;
  }

  lemma AttachNodes(st: TreeMaps, plan: Plan, ix: Index, m: Member, addr: seq<Name>, i: nat)
    requires Attaching(st, plan, ix, m, addr, i)
    ensures NodesOk(Attached(st, plan, ix, m, addr, i), Add(plan, m, addr), Entered(ix, m, i))
  {
    hide NameOf, FirstFree, SlotName, ChildrenSound, ChildrenComplete, RenderedSound, RenderedComplete, TracksOk, WellFormed, Add;
    AttachSame(st, plan, ix, m, addr, i);
    ParentListed(st, plan, ix, m, addr, i);
    var new_, q, jx := Attached(st, plan, ix, m, addr, i), Add(plan, m, addr), Entered(ix, m, i);
    forall j
      ensures j in new_.nodes <==> j in jx.at
      ensures j in jx.at ==> new_.nodes[j] == NodeFor(q, jx, jx.at[j])
    {
    }
  }

  /** The child map after attaching: one new entry, and an empty map for a new directory. */
  lemma AttachedKids(st: TreeMaps, plan: Plan, ix: Index, m: Member, addr: seq<Name>, i: nat)
    requires Attaching(st, plan, ix, m, addr, i)
    ensures var new_, p := Attached(st, plan, ix, m, addr, i), InoOf(ix, Dir(Init(addr)));
            p in st.children && i !in st.children &&
            (forall j :: j in new_.children <==> j in st.children || (j == i && m.Dir?)) &&
            new_.children[p] == st.children[p][SlotName(Last(addr), FirstFree(plan, addr)) := i] &&
            (forall j | j in st.children && j != p :: new_.children[j] == st.children[j]) &&
            (m.Dir? ==> new_.children[i] == map[])
  {
    hide NameOf, FirstFree, SlotName, NodesOk, ChildrenComplete, RenderedSound, RenderedComplete, TracksOk, WellFormed;
    ParentListed(st, plan, ix, m, addr, i);
  }

  lemma AttachedRendered(st: TreeMaps, plan: Plan, ix: Index, m: Member, addr: seq<Name>, i: nat)
    requires Attaching(st, plan, ix, m, addr, i)
    ensures var new_, p := Attached(st, plan, ix, m, addr, i), InoOf(ix, Dir(Init(addr)));
            p in st.renderedChildren && i !in st.renderedChildren &&
            (forall j :: j in new_.renderedChildren <==> j in st.renderedChildren || (j == i && m.Dir?)) &&
            new_.renderedChildren[p] ==
              WithRendered(st.renderedChildren[p], Last(addr), SlotName(Last(addr), FirstFree(plan, addr)), i) &&
            (forall j | j in st.renderedChildren && j != p :: new_.renderedChildren[j] == st.renderedChildren[j]) &&
            (m.Dir? ==> new_.renderedChildren[i] == map[])
  {
    hide NameOf, FirstFree, SlotName, NodesOk, ChildrenComplete, ChildrenSound, RenderedComplete, TracksOk, WellFormed, WithRendered;
    ParentListed(st, plan, ix, m, addr, i);
  }

  lemma OldListed(st: TreeMaps, plan: Plan, ix: Index, m: Member, addr: seq<Name>, i: nat, j: nat, n: Name, c: nat)
    requires Attaching(st, plan, ix, m, addr, i) && ListedAs(plan, ix, j, n, c)
    ensures var q, jx := Add(plan, m, addr), Entered(ix, m, i);
            c != i && ListedAs(q, jx, j, n, c) && Rendered(q, jx.at[c]) == Rendered(plan, ix.at[c])
  {
    hide NameOf, FirstFree, SlotName, NodesOk, ChildrenSound, ChildrenComplete, RenderedSound, RenderedComplete, TracksOk,
         WellFormed, Add, Rendered, Parent;
    AttachSame(st, plan, ix, m, addr, i);
  }

  lemma NewListed(st: TreeMaps, plan: Plan, ix: Index, m: Member, addr: seq<Name>, i: nat)
    requires Attaching(st, plan, ix, m, addr, i)
    ensures var q, jx := Add(plan, m, addr), Entered(ix, m, i);
            ListedAs(q, jx, InoOf(ix, Dir(Init(addr))), SlotName(Last(addr), FirstFree(plan, addr)), i) &&
            Rendered(q, jx.at[i]) == Last(addr)
  {
    hide NameOf, FirstFree, SlotName, NodesOk, ChildrenSound, ChildrenComplete, RenderedSound, RenderedComplete, TracksOk,
         WellFormed, Add, Rendered, Parent;
    AttachSame(st, plan, ix, m, addr, i);
    ParentListed(st, plan, ix, m, addr, i);
  }

  /** Old listings stay listings, and the new entry is one. */
  lemma ListedKept(st: TreeMaps, plan: Plan, ix: Index, m: Member, addr: seq<Name>, i: nat, j: nat, n: Name, c: nat)
    requires Attaching(st, plan, ix, m, addr, i)
    requires ListedAs(plan, ix, j, n, c) ||
             (j == InoOf(ix, Dir(Init(addr))) && n == SlotName(Last(addr), FirstFree(plan, addr)) && c == i)
    ensures var q, jx := Add(plan, m, addr), Entered(ix, m, i);
            ListedAs(q, jx, j, n, c) && (c == i ==> Rendered(q, jx.at[c]) == Last(addr)) &&
            (c != i ==> c in ix.at && Rendered(q, jx.at[c]) == Rendered(plan, ix.at[c]))
  {
    hide FirstFree, SlotName, Attaching, Add, Rendered, Parent, Entered, InoOf, NameOf;
    NewListed(st, plan, ix, m, addr, i);
    if ListedAs(plan, ix, j, n, c) { OldListed(st, plan, ix, m, addr, i, j, n, c); }
  }

  lemma AttachChildrenSound(st: TreeMaps, plan: Plan, ix: Index, m: Member, addr: seq<Name>, i: nat)
    requires Attaching(st, plan, ix, m, addr, i)
    ensures ChildrenSound(Attached(st, plan, ix, m, addr, i), Add(plan, m, addr), Entered(ix, m, i))
  {
    hide NameOf, FirstFree, SlotName, Attached, NodesOk, ChildrenComplete, RenderedSound, RenderedComplete, TracksOk, WellFormed, Add, ListedAs;
    AttachedKids(st, plan, ix, m, addr, i);
    ParentListed(st, plan, ix, m, addr, i);
    var new_, q, jx := Attached(st, plan, ix, m, addr, i), Add(plan, m, addr), Entered(ix, m, i);
    forall j, n | j in new_.children && n in new_.children[j]
      ensures ListedAs(q, jx, j, n, new_.children[j][n])
    {
      ListedKept(st, plan, ix, m, addr, i, j, n, new_.children[j][n]);
    }
  }

  /** A new child does not shadow an old one. */
  lemma AttachDistinct(plan: Plan, m: Member, addr: seq<Name>, x: Member)
    requires WellFormed(plan) && Addable(plan, m, addr) && x in plan.slots && Parent(plan, x) == Init(addr)
    ensures NameOf(plan, x) != SlotName(Last(addr), FirstFree(plan, addr))
  {
    hide SlotName, FirstFree;
    assert ChildNamed(plan, Init(addr), NameOf(plan, x));
  }

  lemma SameDirectory(plan: Plan, ix: Index, p: seq<Name>, q: seq<Name>)
    requires Indexed(plan, ix) && DirIn(plan, p) && DirIn(plan, q) && InoOf(ix, Dir(p)) == InoOf(ix, Dir(q))
    ensures p == q
  {
    hide NameOf;
  }

  /** The new entry lands on no key of an old member. */
  lemma AttachApart(st: TreeMaps, plan: Plan, ix: Index, m: Member, addr: seq<Name>, i: nat, x: Member)
    requires Attaching(st, plan, ix, m, addr, i) && x in plan.slots
    ensures InoOf(ix, Dir(Parent(plan, x))) == InoOf(ix, Dir(Init(addr))) ==>
              NameOf(plan, x) != SlotName(Last(addr), FirstFree(plan, addr))
  {
    hide NameOf, FirstFree, SlotName, NodesOk, ChildrenSound, ChildrenComplete, RenderedSound, RenderedComplete, TracksOk, Shaped,
         SiblingsDistinct, FilesAreTracks, RootUnreserved;
    if InoOf(ix, Dir(Parent(plan, x))) == InoOf(ix, Dir(Init(addr))) {
      SameDirectory(plan, ix, Parent(plan, x), Init(addr));
      AttachDistinct(plan, m, addr, x);
    }
  }

  lemma KidStaysListed(st: TreeMaps, plan: Plan, ix: Index, m: Member, addr: seq<Name>, i: nat, x: Member)
    requires Attaching(st, plan, ix, m, addr, i) && (x in plan.slots || x == m)
    ensures KidListed(Attached(st, plan, ix, m, addr, i), Add(plan, m, addr), Entered(ix, m, i), x)
  {
    hide NameOf, FirstFree, SlotName, Attached, NodesOk, ChildrenSound, RenderedSound, RenderedComplete, TracksOk, WellFormed, Add,
         Entered, Parent, Rendered, Indexed;
    AttachSame(st, plan, ix, m, addr, i);
    AttachedKids(st, plan, ix, m, addr, i);
    if x != m {
      assert KidListed(st, plan, ix, x);
      AttachApart(st, plan, ix, m, addr, i, x);
    }
  }

  lemma RenderedStaysListed(st: TreeMaps, plan: Plan, ix: Index, m: Member, addr: seq<Name>, i: nat, x: Member)
    requires Attaching(st, plan, ix, m, addr, i) && (x in plan.slots || x == m)
    ensures RenderedListed(Attached(st, plan, ix, m, addr, i), Add(plan, m, addr), Entered(ix, m, i), x)
  {
    hide NameOf, FirstFree, SlotName, Attached, NodesOk, ChildrenSound, RenderedSound, ChildrenComplete, TracksOk, WellFormed, Add,
         Entered, Parent, Rendered, Indexed;
    AttachSame(st, plan, ix, m, addr, i);
    AttachedRendered(st, plan, ix, m, addr, i);
    if x != m {
      assert RenderedListed(st, plan, ix, x);
      AttachApart(st, plan, ix, m, addr, i, x);
    }
  }

  lemma AttachComplete(st: TreeMaps, plan: Plan, ix: Index, m: Member, addr: seq<Name>, i: nat)
    requires Attaching(st, plan, ix, m, addr, i)
    ensures ChildrenComplete(Attached(st, plan, ix, m, addr, i), Add(plan, m, addr), Entered(ix, m, i))
    ensures RenderedComplete(Attached(st, plan, ix, m, addr, i), Add(plan, m, addr), Entered(ix, m, i))
  {
    hide NameOf, FirstFree, SlotName, Attached, Attaching, Addr, Entered;
    var new_, q, jx := Attached(st, plan, ix, m, addr, i), Add(plan, m, addr), Entered(ix, m, i);
    forall x | x in q.slots
      ensures KidListed(new_, q, jx, x) && RenderedListed(new_, q, jx, x)
    {
      KidStaysListed(st, plan, ix, m, addr, i, x);
      RenderedStaysListed(st, plan, ix, m, addr, i, x);
    }
  }

  lemma AttachRenderedSound(st: TreeMaps, plan: Plan, ix: Index, m: Member, addr: seq<Name>, i: nat)
    requires Attaching(st, plan, ix, m, addr, i)
    ensures RenderedSound(Attached(st, plan, ix, m, addr, i), Add(plan, m, addr), Entered(ix, m, i))
  {
    hide NameOf, FirstFree, SlotName, Attached, NodesOk, ChildrenComplete, ChildrenSound, RenderedComplete, TracksOk,
         WellFormed, Add, GroupListedAs, WithRendered;
    AttachedRendered(st, plan, ix, m, addr, i);
    ParentListed(st, plan, ix, m, addr, i);
    var new_, q, jx := Attached(st, plan, ix, m, addr, i), Add(plan, m, addr), Entered(ix, m, i);
    forall j, r | j in new_.renderedChildren && r in new_.renderedChildren[j]
      ensures new_.renderedChildren[j][r] != map[]
    {
      RenderedStaysNonempty(st, plan, ix, m, addr, i, j, r);
    }
    forall j, r, n | j in new_.renderedChildren && r in new_.renderedChildren[j] && n in new_.renderedChildren[j][r]
      ensures GroupListedAs(q, jx, j, r, n, new_.renderedChildren[j][r][n])
    {
      RenderedStaysSound(st, plan, ix, m, addr, i, j, r, n);
    }
  }

  lemma RenderedStaysNonempty(st: TreeMaps, plan: Plan, ix: Index, m: Member, addr: seq<Name>, i: nat, j: nat, r: Name)
    requires Attaching(st, plan, ix, m, addr, i)
    requires var new_ := Attached(st, plan, ix, m, addr, i); j in new_.renderedChildren && r in new_.renderedChildren[j]
    ensures Attached(st, plan, ix, m, addr, i).renderedChildren[j][r] != map[]
  {
    hide NameOf, FirstFree, SlotName, Attached, NodesOk, ChildrenComplete, ChildrenSound, RenderedComplete, TracksOk,
         WellFormed, Add, GroupListedAs, Entered;
    AttachedRendered(st, plan, ix, m, addr, i);
    var group := Attached(st, plan, ix, m, addr, i).renderedChildren[j][r];
    var name := SlotName(Last(addr), FirstFree(plan, addr));
    assert j == InoOf(ix, Dir(Init(addr))) && r == Last(addr) ==> name in group;
  }

  lemma RenderedStaysSound(st: TreeMaps, plan: Plan, ix: Index, m: Member, addr: seq<Name>, i: nat, j: nat, r: Name, n: Name)
    requires Attaching(st, plan, ix, m, addr, i)
    requires var new_ := Attached(st, plan, ix, m, addr, i);
             j in new_.renderedChildren && r in new_.renderedChildren[j] && n in new_.renderedChildren[j][r]
    ensures GroupListedAs(Add(plan, m, addr), Entered(ix, m, i), j, r, n,
                          Attached(st, plan, ix, m, addr, i).renderedChildren[j][r][n])
  {
    hide NameOf, FirstFree, SlotName, Attached, NodesOk, ChildrenComplete, ChildrenSound, RenderedComplete, TracksOk,
         WellFormed, Add, Rendered, Entered;
    AttachedRendered(st, plan, ix, m, addr, i);
    ListedKept(st, plan, ix, m, addr, i, j, n, Attached(st, plan, ix, m, addr, i).renderedChildren[j][r][n]);
  }

  lemma AttachTracks(st: TreeMaps, plan: Plan, ix: Index, m: Member, addr: seq<Name>, i: nat)
    requires Attaching(st, plan, ix, m, addr, i)
    ensures TracksOk(Attached(st, plan, ix, m, addr, i), Add(plan, m, addr), Entered(ix, m, i))
  {
    hide NameOf, FirstFree, SlotName, NodesOk, ChildrenSound, RenderedSound, ChildrenComplete, RenderedComplete, WellFormed;
    ParentListed(st, plan, ix, m, addr, i);
  }

  /** Entering a new child in every map gives the maps of the extended plan. */
  lemma AttachHolds(st: TreeMaps, plan: Plan, ix: Index, m: Member, addr: seq<Name>, i: nat)
    requires Attaching(st, plan, ix, m, addr, i)
    ensures Holds(Attached(st, plan, ix, m, addr, i), Add(plan, m, addr), Entered(ix, m, i))
    ensures WellFormed(Add(plan, m, addr))
  {
    hide Attached, Add, Entered, Indexed, NodesOk, ChildrenSound, ChildrenComplete, RenderedSound, RenderedComplete, TracksOk, WellFormed;
    AttachIndexed(st, plan, ix, m, addr, i);
    AttachNodes(st, plan, ix, m, addr, i);
    AttachChildrenSound(st, plan, ix, m, addr, i);
    AttachComplete(st, plan, ix, m, addr, i);
    AttachRenderedSound(st, plan, ix, m, addr, i);
    AttachTracks(st, plan, ix, m, addr, i);
    AddWellFormed(plan, m, addr);
  }

  // ----- Detaching a childless member ------------------------------------------------------

  function WithoutRendered(groups: map<Name, Kids>, rendered: Name, name: Name): map<Name, Kids> {
    if rendered !in groups then groups
    else
      var rest := groups[rendered] - {name};
      if rest == map[] then groups - {rendered} else groups[rendered := rest]
  }

  /** The maps after child `i` of `parent` is taken out of all of them. */
  function Detach(st: TreeMaps, parent: nat, name: Name, rendered: Name, i: nat, kind: NodeKind): TreeMaps
    requires parent in st.children && parent in st.renderedChildren
  {
    var kids := st.children[parent] - {name};
    var groups := WithoutRendered(st.renderedChildren[parent], rendered, name);
    match kind
    case DirNode =>
      TreeMaps(st.nodes - {i}, (st.children - {i})[parent := kids], (st.renderedChildren - {i})[parent := groups],
               st.trackToInode)
    case FileNode(t) =>
      TreeMaps(st.nodes - {i}, st.children[parent := kids], st.renderedChildren[parent := groups],
               st.trackToInode - {t})
  }

  function Left(ix: Index, m: Member): Index { Index(ix.ino - {m}, ix.at - {InoOf(ix, m)}) }

  ghost predicate Detaching(st: TreeMaps, plan: Plan, ix: Index, m: Member) {
    Holds(st, plan, ix) && WellFormed(plan) && Leaf(plan, m)
  }

  lemma DetachListed(st: TreeMaps, plan: Plan, ix: Index, m: Member)
    requires Detaching(st, plan, ix, m)
    ensures var p := InoOf(ix, Dir(Parent(plan, m)));
            p in ix.at && ix.at[p] == Dir(Parent(plan, m)) && p in st.children && p in st.renderedChildren
    ensures m in ix.ino && m != ROOT_DIR && ix.ino[m] in ix.at && ix.at[ix.ino[m]] == m
    ensures InoOf(ix, Dir(Parent(plan, m))) != ix.ino[m]
  {
    hide NameOf, NodesOk, ChildrenComplete, RenderedComplete, TracksOk;
  }

  ghost function Detached(st: TreeMaps, plan: Plan, ix: Index, m: Member): TreeMaps
    requires Detaching(st, plan, ix, m)
  {
    DetachListed(st, plan, ix, m);
    Detach(st, InoOf(ix, Dir(Parent(plan, m))), NameOf(plan, m), Rendered(plan, m), InoOf(ix, m), KindOf(m))
  }

  lemma DetachIndexed(st: TreeMaps, plan: Plan, ix: Index, m: Member)
    requires Detaching(st, plan, ix, m)
    ensures Indexed(Drop(plan, m), Left(ix, m))
  {
    hide NameOf, NodesOk, ChildrenSound, ChildrenComplete, RenderedSound, RenderedComplete, TracksOk, WellFormed;
    DropSame(plan, m);
    DetachListed(st, plan, ix, m);
  }

  lemma DetachSame(st: TreeMaps, plan: Plan, ix: Index, m: Member, x: Member)
    requires Detaching(st, plan, ix, m) && x in plan.slots && x != m
    ensures var q, jx := Drop(plan, m), Left(ix, m);
            x in q.slots && Parent(q, x) == Parent(plan, x) && Rendered(q, x) == Rendered(plan, x) &&
            NameOf(q, x) == NameOf(plan, x) && InoOf(jx, x) == InoOf(ix, x) && InoOf(ix, x) != InoOf(ix, m) &&
            Dir(Parent(plan, x)) != m &&
            InoOf(jx, Dir(Parent(plan, x))) == InoOf(ix, Dir(Parent(plan, x)))
  {
    hide NameOf, NodesOk, ChildrenSound, ChildrenComplete, RenderedSound, RenderedComplete, TracksOk, WellFormed;
    DropSame(plan, m);
  }

  lemma DetachNodes(st: TreeMaps, plan: Plan, ix: Index, m: Member)
    requires Detaching(st, plan, ix, m)
    ensures NodesOk(Detached(st, plan, ix, m), Drop(plan, m), Left(ix, m))
  {
    hide NameOf, ChildrenSound, ChildrenComplete, RenderedSound, RenderedComplete, TracksOk, Drop, WellFormed, Rendered, Parent;
    DetachListed(st, plan, ix, m);
    var new_, q, jx := Detached(st, plan, ix, m), Drop(plan, m), Left(ix, m);
    forall j
      ensures j in new_.nodes <==> j in jx.at
      ensures j in jx.at ==> new_.nodes[j] == NodeFor(q, jx, jx.at[j])
    {
      if j in jx.at && jx.at[j] != ROOT_DIR { DetachSame(st, plan, ix, m, jx.at[j]); }
    }
  }

  /** The child map after detaching: one entry less, and no map for a directory that went. */
  lemma DetachedKids(st: TreeMaps, plan: Plan, ix: Index, m: Member)
    requires Detaching(st, plan, ix, m)
    ensures var new_, p := Detached(st, plan, ix, m), InoOf(ix, Dir(Parent(plan, m)));
            p in st.children &&
            (forall j :: j in new_.children <==> j in st.children && j != InoOf(ix, m)) &&
            new_.children[p] == st.children[p] - {NameOf(plan, m)} &&
            (forall j | j in new_.children && j != p :: new_.children[j] == st.children[j])
  {
    hide NameOf, NodesOk, ChildrenComplete, RenderedSound, RenderedComplete, TracksOk, WellFormed, WithoutRendered;
    DetachListed(st, plan, ix, m);
  }

  lemma DetachedRendered(st: TreeMaps, plan: Plan, ix: Index, m: Member)
    requires Detaching(st, plan, ix, m)
    ensures var new_, p := Detached(st, plan, ix, m), InoOf(ix, Dir(Parent(plan, m)));
            p in st.renderedChildren &&
            (forall j :: j in new_.renderedChildren <==> j in st.renderedChildren && j != InoOf(ix, m)) &&
            new_.renderedChildren[p] == WithoutRendered(st.renderedChildren[p], Rendered(plan, m), NameOf(plan, m)) &&
            (forall j | j in new_.renderedChildren && j != p :: new_.renderedChildren[j] == st.renderedChildren[j])
  {
    hide NameOf, NodesOk, ChildrenComplete, ChildrenSound, RenderedComplete, TracksOk, WellFormed, WithoutRendered;
    DetachListed(st, plan, ix, m);
  }

  /** A listing left after detaching was one before, of another member. */
  lemma ListedLeft(st: TreeMaps, plan: Plan, ix: Index, m: Member, j: nat, n: Name, c: nat)
    requires Detaching(st, plan, ix, m) && ListedAs(plan, ix, j, n, c)
    requires !(j == InoOf(ix, Dir(Parent(plan, m))) && n == NameOf(plan, m))
    ensures var q, jx := Drop(plan, m), Left(ix, m);
            ListedAs(q, jx, j, n, c) && Rendered(q, jx.at[c]) == Rendered(plan, ix.at[c])
  {
    hide NameOf, NodesOk, ChildrenSound, ChildrenComplete, RenderedSound, RenderedComplete, TracksOk, WellFormed, Drop;
    DetachListed(st, plan, ix, m);
    assert ix.at[c] != m;
    DetachSame(st, plan, ix, m, ix.at[c]);
  }

  lemma DetachChildrenSound(st: TreeMaps, plan: Plan, ix: Index, m: Member)
    requires Detaching(st, plan, ix, m)
    ensures ChildrenSound(Detached(st, plan, ix, m), Drop(plan, m), Left(ix, m))
  {
    hide NameOf, Detached, NodesOk, ChildrenComplete, RenderedSound, RenderedComplete, TracksOk, WellFormed, Drop, ListedAs, Leaf;
    DetachedKids(st, plan, ix, m);
    DetachListed(st, plan, ix, m);
    var new_, q, jx := Detached(st, plan, ix, m), Drop(plan, m), Left(ix, m);
    forall j, n | j in new_.children && n in new_.children[j]
      ensures ListedAs(q, jx, j, n, new_.children[j][n])
    {
      ListedLeft(st, plan, ix, m, j, n, new_.children[j][n]);
    }
  }

  /** What is still grouped after detaching was grouped before, and is not the detached entry. */
  lemma RenderedBefore(st: TreeMaps, plan: Plan, ix: Index, m: Member, j: nat, r: Name, n: Name)
    requires Detaching(st, plan, ix, m)
    requires var new_ := Detached(st, plan, ix, m);
             j in new_.renderedChildren && r in new_.renderedChildren[j] && n in new_.renderedChildren[j][r]
    ensures j in st.renderedChildren && r in st.renderedChildren[j] && n in st.renderedChildren[j][r]
    ensures Detached(st, plan, ix, m).renderedChildren[j][r][n] == st.renderedChildren[j][r][n]
    ensures !(j == InoOf(ix, Dir(Parent(plan, m))) && r == Rendered(plan, m) && n == NameOf(plan, m))
  {
    hide NameOf, Detached, NodesOk, ChildrenComplete, ChildrenSound, RenderedComplete, RenderedSound, TracksOk, WellFormed,
         Leaf, Left, Rendered, Indexed;
    DetachedRendered(st, plan, ix, m);
  }

  lemma RenderedLeft(st: TreeMaps, plan: Plan, ix: Index, m: Member, j: nat, r: Name, n: Name)
    requires Detaching(st, plan, ix, m)
    requires var new_ := Detached(st, plan, ix, m);
             j in new_.renderedChildren && r in new_.renderedChildren[j] && n in new_.renderedChildren[j][r]
    ensures GroupListedAs(Drop(plan, m), Left(ix, m), j, r, n, Detached(st, plan, ix, m).renderedChildren[j][r][n])
  {
    hide NameOf, Detached, NodesOk, ChildrenComplete, ChildrenSound, RenderedComplete, TracksOk, WellFormed, Drop, Left,
         ListedAs, Rendered, Indexed;
    RenderedBefore(st, plan, ix, m, j, r, n);
    var c := st.renderedChildren[j][r][n];
    assert GroupListedAs(plan, ix, j, r, n, c);
    if j == InoOf(ix, Dir(Parent(plan, m))) && n == NameOf(plan, m) {
      OnlyOneNamed(plan, ix, m, j, n, c);
    } else {
      ListedLeft(st, plan, ix, m, j, n, c);
    }
  }

  /** A listing under the detached member's name is the detached member's own. */
  lemma OnlyOneNamed(plan: Plan, ix: Index, m: Member, j: nat, n: Name, c: nat)
    requires Indexed(plan, ix) && WellFormed(plan) && m in plan.slots && ListedAs(plan, ix, j, n, c)
    requires j == InoOf(ix, Dir(Parent(plan, m))) && n == NameOf(plan, m)
    ensures ix.at[c] == m
  {
    hide NameOf, Shaped, FilesAreTracks, RootUnreserved;
  }

  lemma RenderedLeftNonempty(st: TreeMaps, plan: Plan, ix: Index, m: Member, j: nat, r: Name)
    requires Detaching(st, plan, ix, m)
    requires var new_ := Detached(st, plan, ix, m); j in new_.renderedChildren && r in new_.renderedChildren[j]
    ensures Detached(st, plan, ix, m).renderedChildren[j][r] != map[]
  {
    hide NameOf, Detached, NodesOk, ChildrenComplete, ChildrenSound, RenderedComplete, TracksOk, WellFormed, Leaf, Left,
         Rendered, Indexed, GroupListedAs;
    DetachedRendered(st, plan, ix, m);
  }

  lemma DetachRenderedSound(st: TreeMaps, plan: Plan, ix: Index, m: Member)
    requires Detaching(st, plan, ix, m)
    ensures RenderedSound(Detached(st, plan, ix, m), Drop(plan, m), Left(ix, m))
  {
    hide NameOf, Detached, NodesOk, ChildrenComplete, ChildrenSound, RenderedComplete, TracksOk, WellFormed, Drop, Leaf,
         GroupListedAs, WithoutRendered;
    DetachedRendered(st, plan, ix, m);
    DetachListed(st, plan, ix, m);
    var new_, q, jx := Detached(st, plan, ix, m), Drop(plan, m), Left(ix, m);
    forall j, r | j in new_.renderedChildren && r in new_.renderedChildren[j]
      ensures new_.renderedChildren[j][r] != map[]
    {
      RenderedLeftNonempty(st, plan, ix, m, j, r);
    }
    forall j, r, n | j in new_.renderedChildren && r in new_.renderedChildren[j] && n in new_.renderedChildren[j][r]
      ensures GroupListedAs(q, jx, j, r, n, new_.renderedChildren[j][r][n])
    {
      RenderedLeft(st, plan, ix, m, j, r, n);
    }
  }

  /** Siblings of the detached member have other names. */
  lemma SiblingNamed(plan: Plan, m: Member, x: Member)
    requires WellFormed(plan) && m in plan.slots && x in plan.slots && x != m && Parent(plan, x) == Parent(plan, m)
    ensures NameOf(plan, x) != NameOf(plan, m)
  {
    hide NameOf, Shaped, Rooted, FilesAreTracks, RootUnreserved;
  }

  /** The removed entry was no other member's. */
  lemma DetachApart(st: TreeMaps, plan: Plan, ix: Index, m: Member, x: Member)
    requires Detaching(st, plan, ix, m) && x in plan.slots && x != m
    ensures InoOf(ix, Dir(Parent(plan, x))) == InoOf(ix, Dir(Parent(plan, m))) ==> NameOf(plan, x) != NameOf(plan, m)
    ensures InoOf(ix, Dir(Parent(plan, x))) != InoOf(ix, m)
  {
    hide NameOf, NodesOk, ChildrenSound, ChildrenComplete, RenderedSound, RenderedComplete, TracksOk, Shaped,
         SiblingsDistinct, FilesAreTracks, RootUnreserved;
    NotTheLeaf(st, plan, ix, m, x);
    if InoOf(ix, Dir(Parent(plan, x))) == InoOf(ix, Dir(Parent(plan, m))) {
      SameDirectory(plan, ix, Parent(plan, x), Parent(plan, m));
      SiblingNamed(plan, m, x);
    }
  }

  lemma KidLeftListed(st: TreeMaps, plan: Plan, ix: Index, m: Member, x: Member)
    requires Detaching(st, plan, ix, m) && x in plan.slots && x != m
    ensures KidListed(Detached(st, plan, ix, m), Drop(plan, m), Left(ix, m), x)
  {
    hide NameOf, Detached, NodesOk, ChildrenSound, RenderedSound, RenderedComplete, TracksOk, WellFormed, Drop, Left, Leaf,
         Parent, Rendered, Indexed;
    DetachSame(st, plan, ix, m, x);
    DetachedKids(st, plan, ix, m);
    assert KidListed(st, plan, ix, x);
    DetachApart(st, plan, ix, m, x);
  }

  lemma NotTheLeaf(st: TreeMaps, plan: Plan, ix: Index, m: Member, x: Member)
    requires Detaching(st, plan, ix, m) && x in plan.slots
    ensures InoOf(ix, Dir(Parent(plan, x))) != InoOf(ix, m)
  {
    hide NameOf, NodesOk, ChildrenSound, ChildrenComplete, RenderedSound, RenderedComplete, TracksOk;
  }

  lemma RenderedLeftListed(st: TreeMaps, plan: Plan, ix: Index, m: Member, x: Member)
    requires Detaching(st, plan, ix, m) && x in plan.slots && x != m
    ensures RenderedListed(Detached(st, plan, ix, m), Drop(plan, m), Left(ix, m), x)
  {
    hide NameOf, Detached, NodesOk, ChildrenSound, RenderedSound, ChildrenComplete, TracksOk, WellFormed, Drop, Left, Leaf,
         Parent, Rendered, Indexed, WithoutRendered;
    DetachSame(st, plan, ix, m, x);
    DetachedRendered(st, plan, ix, m);
    assert RenderedListed(st, plan, ix, x);
    DetachApart(st, plan, ix, m, x);
    WithoutOthers(st.renderedChildren[InoOf(ix, Dir(Parent(plan, m)))], Rendered(plan, m), NameOf(plan, m));
  }

  /** Taking one entry out of a group keeps every other entry. */
  lemma WithoutOthers(groups: map<Name, Kids>, rendered: Name, name: Name)
    ensures var left := WithoutRendered(groups, rendered, name);
            forall r, n | r in groups && n in groups[r] && n != name ::
              r in left && n in left[r] && left[r][n] == groups[r][n]
  {
    if rendered in groups {
      forall n | n in groups[rendered] && n != name
        ensures n in groups[rendered] - {name}
      {
      }
    }
  }

  lemma DetachComplete(st: TreeMaps, plan: Plan, ix: Index, m: Member)
    requires Detaching(st, plan, ix, m)
    ensures ChildrenComplete(Detached(st, plan, ix, m), Drop(plan, m), Left(ix, m))
    ensures RenderedComplete(Detached(st, plan, ix, m), Drop(plan, m), Left(ix, m))
  {
    hide NameOf, Detached, Detaching, Addr, Left, KidListed, RenderedListed;
    var new_, q, jx := Detached(st, plan, ix, m), Drop(plan, m), Left(ix, m);
    forall x | x in q.slots
      ensures KidListed(new_, q, jx, x) && RenderedListed(new_, q, jx, x)
    {
      KidLeftListed(st, plan, ix, m, x);
      RenderedLeftListed(st, plan, ix, m, x);
    }
  }

  lemma DetachTracks(st: TreeMaps, plan: Plan, ix: Index, m: Member)
    requires Detaching(st, plan, ix, m)
    ensures TracksOk(Detached(st, plan, ix, m), Drop(plan, m), Left(ix, m))
  {
    hide NameOf, NodesOk, ChildrenSound, RenderedSound, ChildrenComplete, RenderedComplete, WellFormed;
    DetachListed(st, plan, ix, m);
  }

  /** Taking a childless member out of every map gives the maps of the plan without it. */
  lemma DetachHolds(st: TreeMaps, plan: Plan, ix: Index, m: Member)
    requires Detaching(st, plan, ix, m)
    ensures Holds(Detached(st, plan, ix, m), Drop(plan, m), Left(ix, m)) && WellFormed(Drop(plan, m))
  {
    hide Detached, Drop, Left, Indexed, NodesOk, ChildrenSound, ChildrenComplete, RenderedSound, RenderedComplete, TracksOk, WellFormed;
    DetachIndexed(st, plan, ix, m);
    DetachNodes(st, plan, ix, m);
    DetachChildrenSound(st, plan, ix, m);
    DetachComplete(st, plan, ix, m);
    DetachRenderedSound(st, plan, ix, m);
    DetachTracks(st, plan, ix, m);
    DropWellFormed(plan, m);
  }

  // ----- The plan and the allocator determine the maps ---------------------------------------

  lemma {:induction false} IndexFromPaths(paths: map<string, nat>, plan: Plan, ix: Index, jx: Index)
    requires Indexed(plan, ix) && Indexed(plan, jx) && Linked(paths, plan, ix) && Linked(paths, plan, jx)
    ensures forall m | MemberIn(plan, m) :: InoOf(ix, m) == InoOf(jx, m)
    ensures forall i :: (i in ix.at <==> i in jx.at) && (i in ix.at && i in jx.at ==> ix.at[i] == jx.at[i])
  {
    hide PathOf;
    forall i
      ensures i in ix.at ==> i in jx.at && jx.at[i] == ix.at[i]
      ensures i in jx.at ==> i in ix.at && ix.at[i] == jx.at[i]
    {
      if i in ix.at { assert jx.ino[ix.at[i]] == i; }
      if i in jx.at { assert ix.ino[jx.at[i]] == i; }
    }
  }

  /** Two tables that hold one plan under the same inodes. */
  ghost predicate SameIndex(plan: Plan, ix: Index, jx: Index) {
    (forall m | MemberIn(plan, m) :: InoOf(ix, m) == InoOf(jx, m)) &&
    (forall i :: (i in ix.at <==> i in jx.at) && (i in ix.at && i in jx.at ==> ix.at[i] == jx.at[i]))
  }

  lemma SameNodes(a: TreeMaps, b: TreeMaps, plan: Plan, ix: Index, jx: Index)
    requires Indexed(plan, ix) && WellFormed(plan) && SameIndex(plan, ix, jx)
    requires NodesOk(a, plan, ix) && NodesOk(b, plan, jx)
    ensures a.nodes == b.nodes
  {
    hide NameOf, Shaped, FilesAreTracks, SiblingsDistinct, RootUnreserved;
    forall i
      ensures i in a.nodes <==> i in b.nodes
      ensures i in a.nodes && i in b.nodes ==> a.nodes[i] == b.nodes[i]
    {
      if i in ix.at {
        assert ix.at[i] in ix.ino;
        assert ix.at[i] != ROOT_DIR ==> MemberIn(plan, Dir(Parent(plan, ix.at[i])));
      }
    }
    assert forall i :: i in a.nodes.Keys <==> i in b.nodes.Keys;
    assert a.nodes.Keys == b.nodes.Keys;
    assert forall i :: i in a.nodes ==> i in b.nodes && a.nodes[i] == b.nodes[i];
  }

  lemma KidIn(a: TreeMaps, b: TreeMaps, plan: Plan, ix: Index, jx: Index, i: nat, n: Name)
    requires Indexed(plan, ix) && SameIndex(plan, ix, jx)
    requires ChildrenSound(a, plan, ix) && ChildrenComplete(b, plan, jx) && i in a.children && n in a.children[i]
    requires forall m | m in plan.slots :: DirIn(plan, Parent(plan, m))
    ensures i in b.children && n in b.children[i] && b.children[i][n] == a.children[i][n]
  {
    hide NameOf;
    var c := a.children[i][n];
    assert ListedAs(plan, ix, i, n, c);
    assert KidListed(b, plan, jx, ix.at[c]);
  }

  lemma SameKids(a: TreeMaps, b: TreeMaps, plan: Plan, ix: Index, jx: Index)
    requires Holds(a, plan, ix) && Holds(b, plan, jx) && WellFormed(plan) && SameIndex(plan, ix, jx)
    ensures a.children == b.children
  {
    hide NameOf, NodesOk, TracksOk, RenderedSound, RenderedComplete, ChildrenComplete, ListedAs, Shaped, FilesAreTracks, SiblingsDistinct, RootUnreserved;
    forall i
      ensures i in a.children <==> i in b.children
      ensures i in a.children && i in b.children ==> a.children[i] == b.children[i]
    {
      if i in a.children && i in b.children {
        forall n
          ensures n in a.children[i] ==> n in b.children[i] && b.children[i][n] == a.children[i][n]
          ensures n in b.children[i] ==> n in a.children[i] && b.children[i][n] == a.children[i][n]
        {
          if n in a.children[i] { KidIn(a, b, plan, ix, jx, i, n); }
          if n in b.children[i] { KidIn(b, a, plan, jx, ix, i, n); }
        }
      }
    }
    assert forall i :: i in a.children.Keys <==> i in b.children.Keys;
    assert a.children.Keys == b.children.Keys;
    assert forall i :: i in a.children ==> i in b.children && a.children[i] == b.children[i];
  }

  lemma GroupKidIn(a: TreeMaps, b: TreeMaps, plan: Plan, ix: Index, jx: Index, i: nat, r: Name, n: Name)
    requires Indexed(plan, ix) && SameIndex(plan, ix, jx)
    requires RenderedSound(a, plan, ix) && RenderedComplete(b, plan, jx)
    requires i in a.renderedChildren && r in a.renderedChildren[i] && n in a.renderedChildren[i][r]
    requires forall m | m in plan.slots :: DirIn(plan, Parent(plan, m))
    ensures i in b.renderedChildren && r in b.renderedChildren[i] && n in b.renderedChildren[i][r] &&
            b.renderedChildren[i][r][n] == a.renderedChildren[i][r][n]
  {
    hide NameOf, Rendered;
    var c := a.renderedChildren[i][r][n];
    assert GroupListedAs(plan, ix, i, r, n, c);
    assert RenderedListed(b, plan, jx, ix.at[c]);
  }

  lemma GroupIn(a: TreeMaps, b: TreeMaps, plan: Plan, ix: Index, jx: Index, i: nat, r: Name)
    requires Indexed(plan, ix) && SameIndex(plan, ix, jx)
    requires RenderedSound(a, plan, ix) && RenderedComplete(b, plan, jx)
    requires i in a.renderedChildren && r in a.renderedChildren[i]
    requires forall m | m in plan.slots :: DirIn(plan, Parent(plan, m))
    ensures i in b.renderedChildren && r in b.renderedChildren[i]
  {
    hide NameOf, Rendered, GroupListedAs, RenderedListed, Indexed;
    var g := a.renderedChildren[i][r];
    assert g != map[];
    var n :| n in g;
    GroupKidIn(a, b, plan, ix, jx, i, r, n);
  }

  lemma SameGroups(a: TreeMaps, b: TreeMaps, plan: Plan, ix: Index, jx: Index, i: nat)
    requires Indexed(plan, ix) && Indexed(plan, jx) && SameIndex(plan, ix, jx)
    requires RenderedSound(a, plan, ix) && RenderedComplete(b, plan, jx)
    requires RenderedSound(b, plan, jx) && RenderedComplete(a, plan, ix)
    requires forall m | m in plan.slots :: DirIn(plan, Parent(plan, m))
    requires i in a.renderedChildren && i in b.renderedChildren
    ensures a.renderedChildren[i] == b.renderedChildren[i]
  {
    hide NameOf, Rendered, GroupListedAs, RenderedListed, RenderedSound, RenderedComplete, Indexed, SameIndex;
    assert SameIndex(plan, jx, ix) by { SameIndexSymmetric(plan, ix, jx); }
    forall r
      ensures r in a.renderedChildren[i] <==> r in b.renderedChildren[i]
      ensures r in a.renderedChildren[i] && r in b.renderedChildren[i] ==>
                a.renderedChildren[i][r] == b.renderedChildren[i][r]
    {
      if r in a.renderedChildren[i] { GroupIn(a, b, plan, ix, jx, i, r); }
      if r in b.renderedChildren[i] { GroupIn(b, a, plan, jx, ix, i, r); }
      if r in a.renderedChildren[i] && r in b.renderedChildren[i] {
        forall n
          ensures n in a.renderedChildren[i][r] ==>
                    n in b.renderedChildren[i][r] && b.renderedChildren[i][r][n] == a.renderedChildren[i][r][n]
          ensures n in b.renderedChildren[i][r] ==> n in a.renderedChildren[i][r]
        {
          if n in a.renderedChildren[i][r] { GroupKidIn(a, b, plan, ix, jx, i, r, n); }
          if n in b.renderedChildren[i][r] { GroupKidIn(b, a, plan, jx, ix, i, r, n); }
        }
      }
    }
  }

  lemma SameIndexSymmetric(plan: Plan, ix: Index, jx: Index)
    requires SameIndex(plan, ix, jx)
    ensures SameIndex(plan, jx, ix)
  {
  }

  lemma SameRendered(a: TreeMaps, b: TreeMaps, plan: Plan, ix: Index, jx: Index)
    requires Holds(a, plan, ix) && Holds(b, plan, jx) && WellFormed(plan) && SameIndex(plan, ix, jx)
    ensures a.renderedChildren == b.renderedChildren
  {
    hide NameOf, NodesOk, TracksOk, ChildrenSound, RenderedComplete, ChildrenComplete, GroupListedAs, Shaped, FilesAreTracks, SiblingsDistinct, RootUnreserved;
    forall i
      ensures i in a.renderedChildren <==> i in b.renderedChildren
      ensures i in a.renderedChildren && i in b.renderedChildren ==> a.renderedChildren[i] == b.renderedChildren[i]
    {
      if i in a.renderedChildren && i in b.renderedChildren { SameGroups(a, b, plan, ix, jx, i); }
    }
    assert forall i :: i in a.renderedChildren.Keys <==> i in b.renderedChildren.Keys;
    assert a.renderedChildren.Keys == b.renderedChildren.Keys;
    assert forall i :: i in a.renderedChildren ==> i in b.renderedChildren && a.renderedChildren[i] == b.renderedChildren[i];
  }

  lemma SameTracks(a: TreeMaps, b: TreeMaps, plan: Plan, ix: Index, jx: Index)
    requires TracksOk(a, plan, ix) && TracksOk(b, plan, jx) && FilesAreTracks(plan) && SameIndex(plan, ix, jx)
    ensures a.trackToInode == b.trackToInode
  {
    assert forall t :: t in a.trackToInode.Keys <==> t in b.trackToInode.Keys;
    assert a.trackToInode.Keys == b.trackToInode.Keys;
    forall t
      ensures t in a.trackToInode ==> t in b.trackToInode && a.trackToInode[t] == b.trackToInode[t]
    {
      if t in a.trackToInode { assert MemberIn(plan, File(t)); }
    }
  }

  /** One plan under one allocator has exactly one set of maps. */
  lemma HeldUnique(paths: map<string, nat>, a: TreeMaps, b: TreeMaps, plan: Plan, ix: Index, jx: Index)
    requires Holds(a, plan, ix) && Holds(b, plan, jx) && WellFormed(plan)
    requires Linked(paths, plan, ix) && Linked(paths, plan, jx)
    ensures a == b
  {
    hide NodesOk, ChildrenSound, ChildrenComplete, RenderedSound, RenderedComplete, TracksOk, Linked;
    IndexFromPaths(paths, plan, ix, jx);
    SameNodes(a, b, plan, ix, jx);
    SameKids(a, b, plan, ix, jx);
    SameRendered(a, b, plan, ix, jx);
    SameTracks(a, b, plan, ix, jx);
  }

  // ----- Links to the allocator ---------------------------------------------------------------

  lemma LinkedAdd(paths: map<string, nat>, plan: Plan, ix: Index, m: Member, addr: seq<Name>, i: nat)
    requires WellFormed(plan) && Addable(plan, m, addr) && Indexed(plan, ix) && Linked(paths, plan, ix)
    requires var q := Add(plan, m, addr); PathOf(q, m) in paths && paths[PathOf(q, m)] == i
    ensures Linked(paths, Add(plan, m, addr), Entered(ix, m, i))
  {
    hide NameOf, FirstFree, PathOf, WellFormed, Linked;
    forall x | x in ix.ino && x != m
      ensures PathOf(Add(plan, m, addr), x) == PathOf(plan, x)
    {
      AddPath(plan, ix, m, addr, x);
    }
    LinkedEntered(paths, plan, ix, Add(plan, m, addr), m, i);
  }

  lemma AddPath(plan: Plan, ix: Index, m: Member, addr: seq<Name>, x: Member)
    requires WellFormed(plan) && Addable(plan, m, addr) && Indexed(plan, ix) && x in ix.ino && x != m
    ensures PathOf(Add(plan, m, addr), x) == PathOf(plan, x)
  {
    hide NameOf, FirstFree, PathOf, WellFormed;
    ValidParts(plan);
    AddSame(plan, m, addr);
    PathFrame(plan, Add(plan, m, addr), x);
  }

  lemma LinkedEntered(paths: map<string, nat>, plan: Plan, ix: Index, q: Plan, m: Member, i: nat)
    requires Linked(paths, plan, ix) && PathOf(q, m) in paths && paths[PathOf(q, m)] == i
    requires forall x | x in ix.ino && x != m :: PathOf(q, x) == PathOf(plan, x)
    ensures Linked(paths, q, Entered(ix, m, i))
  {
    hide PathOf;
  }

  lemma LinkedDrop(paths: map<string, nat>, plan: Plan, ix: Index, m: Member)
    requires WellFormed(plan) && Leaf(plan, m) && Indexed(plan, ix) && Linked(paths, plan, ix)
    ensures Linked(paths, Drop(plan, m), Left(ix, m))
  {
    hide NameOf, PathOf, WellFormed;
    var q := Drop(plan, m);
    DropSame(plan, m);
    DropWellFormed(plan, m);
    forall x | x in Left(ix, m).ino
      ensures PathOf(q, x) == PathOf(plan, x)
    {
      PathFrame(q, plan, x);
    }
  }

  lemma LinkedGrows(paths: map<string, nat>, more: map<string, nat>, plan: Plan, ix: Index)
    requires Linked(paths, plan, ix) && forall p | p in paths :: p in more && more[p] == paths[p]
    ensures Linked(more, plan, ix)
  {
    hide PathOf;
  }

  /** The inode kept for a new member's path belongs to no member yet. */
  lemma FreshInode(paths: map<string, nat>, plan: Plan, ix: Index, m: Member, addr: seq<Name>)
    requires WellFormed(plan) && Addable(plan, m, addr) && Indexed(plan, ix) && Linked(paths, plan, ix) && m != ROOT_DIR
    requires PathOf(Add(plan, m, addr), m) in paths
    requires forall p1, p2 | p1 in paths && p2 in paths && paths[p1] == paths[p2] :: p1 == p2
    ensures paths[PathOf(Add(plan, m, addr), m)] !in ix.at
  {
    hide NameOf, FirstFree, PathOf, WellFormed;
    var q := Add(plan, m, addr);
    AddWellFormed(plan, m, addr);
    forall x | x in ix.ino
      ensures PathOf(q, x) != PathOf(q, m) && PathOf(q, x) == PathOf(plan, x)
    {
      AddPath(plan, ix, m, addr, x);
      if PathOf(q, x) == PathOf(q, m) { PathInjective(q, x, m); }
    }
  }

  lemma ValidParts(plan: Plan)
    requires WellFormed(plan)
    ensures FilesAreTracks(plan)
  {
  }
}
