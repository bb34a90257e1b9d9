/**
  What a virtual tree says, apart from its maps and inodes: which tracks are present
  under which rendered components, and the disambiguation rank ("slot") of every
  file and directory.  A directory is known by the rendered components leading to it
  (`dir_child_named` merges on rendered names), a file by its track id.
 */
module TreePlan {
  import opened Names

  datatype Member = Dir(path: seq<Name>) | File(id: int)

  datatype Plan = Plan(tracks: map<int, seq<Name>>, slots: map<Member, nat>)

  const ROOT_DIR: Member := Dir([])

  function Init(s: seq<Name>): seq<Name> { if s == [] then [] else s[..|s| - 1] }

  function Last(s: seq<Name>): Name { if s == [] then "" else s[|s| - 1] }

  /** The rendered components of a member, root first. */
  function Addr(plan: Plan, m: Member): seq<Name> {
    match m
    case Dir(p) => p
    case File(t) => if t in plan.tracks then plan.tracks[t] else []
  }

  function Parent(plan: Plan, m: Member): seq<Name> { Init(Addr(plan, m)) }

  function Rendered(plan: Plan, m: Member): Name { Last(Addr(plan, m)) }

  function NameOf(plan: Plan, m: Member): Name {
    SlotName(Rendered(plan, m), if m in plan.slots then plan.slots[m] else 1)
  }

  /** Names the FUSE layer injects at the root. */
  const METRICS_DIR_NAME: Name := ".musefs-metrics"
  const SPOTLIGHT_MARKER_NAME: Name := ".metadata_never_index"

  predicate Reserved(name: Name) { name == METRICS_DIR_NAME || name == SPOTLIGHT_MARKER_NAME }

  ghost predicate ChildNamed(plan: Plan, dir: seq<Name>, name: Name) {
    exists m :: m in plan.slots && Parent(plan, m) == dir && NameOf(plan, m) == name
  }

  ghost predicate Taken(plan: Plan, dir: seq<Name>, name: Name) {
    (dir == [] && Reserved(name)) || ChildNamed(plan, dir, name)
  }

  // ----- Well-formed plans --------------------------------------------------------

  ghost predicate Shaped(plan: Plan) {
    forall m | m in plan.slots ::
      plan.slots[m] >= 1 && Addr(plan, m) != [] && AreComponents(Addr(plan, m))
  }

  ghost predicate Rooted(plan: Plan) {
    forall m | m in plan.slots :: Parent(plan, m) == [] || Dir(Parent(plan, m)) in plan.slots
  }

  ghost predicate FilesAreTracks(plan: Plan) {
    forall t :: File(t) in plan.slots <==> t in plan.tracks
  }

  ghost predicate SiblingsDistinct(plan: Plan) {
    forall m1, m2 | m1 in plan.slots && m2 in plan.slots && m1 != m2 && Parent(plan, m1) == Parent(plan, m2) ::
      NameOf(plan, m1) != NameOf(plan, m2)
  }

  ghost predicate RootUnreserved(plan: Plan) {
    forall m | m in plan.slots && Parent(plan, m) == [] :: !Reserved(NameOf(plan, m))
  }

  ghost predicate WellFormed(plan: Plan) {
    Shaped(plan) && Rooted(plan) && FilesAreTracks(plan) && SiblingsDistinct(plan) && RootUnreserved(plan)
  }

  /** A file of the track set, or a directory with at least one track below it. */
  ghost predicate Live(tracks: map<int, seq<Name>>, m: Member) {
    match m
    case File(t) => t in tracks
    case Dir(p) => exists t :: t in tracks && p < tracks[t]
  }

  /** No directory is empty. */
  ghost predicate NoEmptyDirs(plan: Plan) { forall m | m in plan.slots :: Live(plan.tracks, m) }

  ghost predicate Valid(plan: Plan) { WellFormed(plan) && NoEmptyDirs(plan) }

  const EMPTY_PLAN: Plan := Plan(map[], map[])

  lemma EmptyPlanValid()
    ensures Valid(EMPTY_PLAN)
  {
  }

  lemma {:induction false} AncestorsPresent(plan: Plan, m: Member, n: nat)
    requires WellFormed(plan) && m in plan.slots && 1 <= n < |Addr(plan, m)|
    ensures Dir(Addr(plan, m)[..n]) in plan.slots
    decreases |Addr(plan, m)|
  {
    var a := Addr(plan, m);
    if n < |a| - 1 {
      AncestorsPresent(plan, Dir(Parent(plan, m)), n);
      assert Parent(plan, m)[..n] == a[..n];
    } else {
      assert Parent(plan, m) == a[..n];
    }
  }

  /** The directories of a valid plan are exactly the proper prefixes of its tracks. */
  lemma ValidMembers(plan: Plan, m: Member)
    requires Valid(plan) && Live(plan.tracks, m) && Addr(plan, m) != []
    ensures m in plan.slots
  {
    if m.Dir? {
      var t :| t in plan.tracks && m.path < plan.tracks[t];
      assert File(t) in plan.slots && Addr(plan, File(t)) == plan.tracks[t];
      AncestorsPresent(plan, File(t), |m.path|);
      assert plan.tracks[t][..|m.path|] == m.path;
    }
  }

  // ----- The first free rank ---------------------------------------------------------

  ghost predicate IsFirstFree(plan: Plan, addr: seq<Name>, k: nat) {
    k >= 1 && !Taken(plan, Init(addr), SlotName(Last(addr), k)) &&
    forall j | 1 <= j < k :: Taken(plan, Init(addr), SlotName(Last(addr), j))
  }

  lemma FirstFreeUnique(plan: Plan, addr: seq<Name>, j: nat, k: nat)
    requires IsFirstFree(plan, addr, j) && IsFirstFree(plan, addr, k)
    ensures j == k
  {
  }

  ghost function TakenNames(plan: Plan, dir: seq<Name>): (s: set<Name>)
    ensures forall n :: n in s <==> Taken(plan, dir, n)
  {
    var kids := set m | m in plan.slots && Parent(plan, m) == dir :: NameOf(plan, m);
    assert forall n :: n in kids <==> ChildNamed(plan, dir, n);
    kids + (if dir == [] then {METRICS_DIR_NAME, SPOTLIGHT_MARKER_NAME} else {})
  }

  /** Among `|names| + 1` consecutive ranks, one is outside `names`. */
  lemma {:induction false} FreeRankExists(rendered: Name, names: set<Name>, from: nat) returns (k: nat)
    requires from >= 2
    ensures from <= k <= from + |names| && SlotName(rendered, k) !in names
    decreases |names|
  {
    var c := SlotName(rendered, from);
    if c in names {
      k := FreeRankExists(rendered, names - {c}, from + 1);
      if SlotName(rendered, k) == c {
        CandidateRankInjective(rendered, k, from);
      }
    } else {
      k := from;
    }
  }

  lemma {:induction false} LeastRank(rendered: Name, names: set<Name>, bound: nat) returns (k: nat)
    requires bound >= 1 && SlotName(rendered, bound) !in names
    ensures 1 <= k <= bound && SlotName(rendered, k) !in names
    ensures forall j | 1 <= j < k :: SlotName(rendered, j) in names
  {
    hide SlotName;
    k := 1;
    while SlotName(rendered, k) in names
      invariant 1 <= k <= bound
      invariant forall j | 1 <= j < k :: SlotName(rendered, j) in names
      decreases bound - k
    {
      k := k + 1;
    }
  }

  lemma FirstFreeExists(plan: Plan, addr: seq<Name>)
    ensures exists k :: IsFirstFree(plan, addr, k)
  {
    var names := TakenNames(plan, Init(addr));
    var bound := FreeRankExists(Last(addr), names, 2);
    var k := LeastRank(Last(addr), names, bound);
    assert IsFirstFree(plan, addr, k);
  }

  /** The rank `disambiguate` settles on for a new child whose rendered components are `addr`. */
  ghost function FirstFree(plan: Plan, addr: seq<Name>): (k: nat)
    ensures IsFirstFree(plan, addr, k)
  {
    FirstFreeExists(plan, addr);
    var k :| IsFirstFree(plan, addr, k);
    k
  }

  lemma FirstFreeSame(p: Plan, q: Plan, addr: seq<Name>)
    requires forall n :: Taken(p, Init(addr), n) == Taken(q, Init(addr), n)
    ensures FirstFree(p, addr) == FirstFree(q, addr)
  {
    assert IsFirstFree(q, addr, FirstFree(p, addr));
    FirstFreeUnique(q, addr, FirstFree(p, addr), FirstFree(q, addr));
  }

  // ----- Adding one member -------------------------------------------------------------

  /** `addr` for the new member `m`: its own path for a directory. */
  ghost predicate Addable(plan: Plan, m: Member, addr: seq<Name>) {
    m !in plan.slots && addr != [] && AreComponents(addr) && (m.Dir? ==> m.path == addr) &&
    (m.File? ==> m.id !in plan.tracks) && (Init(addr) == [] || Dir(Init(addr)) in plan.slots)
  }

  ghost function Add(plan: Plan, m: Member, addr: seq<Name>): Plan {
    Plan(if m.File? then plan.tracks[m.id := addr] else plan.tracks,
         plan.slots[m := FirstFree(plan, addr)])
  }

  lemma AddSame(plan: Plan, m: Member, addr: seq<Name>)
    requires Addable(plan, m, addr) && FilesAreTracks(plan)
    ensures var q := Add(plan, m, addr);
            Addr(q, m) == addr && NameOf(q, m) == SlotName(Last(addr), FirstFree(plan, addr)) &&
            forall x | x in plan.slots ::
              x in q.slots && Addr(q, x) == Addr(plan, x) && NameOf(q, x) == NameOf(plan, x)
  {
    hide SlotName, FirstFree, IsFirstFree;
  }

  lemma AddDistinct(plan: Plan, m: Member, addr: seq<Name>)
    requires FilesAreTracks(plan) && SiblingsDistinct(plan) && Addable(plan, m, addr)
    ensures SiblingsDistinct(Add(plan, m, addr))
  {
    hide SlotName, FirstFree;
    var q := Add(plan, m, addr);
    AddSame(plan, m, addr);
    forall x | x in plan.slots && Parent(q, x) == Init(addr)
      ensures NameOf(q, x) != NameOf(q, m)
    {
      assert ChildNamed(plan, Init(addr), NameOf(plan, x));
    }
  }

  lemma AddRooted(plan: Plan, m: Member, addr: seq<Name>)
    requires FilesAreTracks(plan) && Rooted(plan) && Addable(plan, m, addr)
    ensures Rooted(Add(plan, m, addr))
  {
    AddSame(plan, m, addr);
  }

  lemma AddShaped(plan: Plan, m: Member, addr: seq<Name>)
    requires FilesAreTracks(plan) && Shaped(plan) && Addable(plan, m, addr)
    ensures Shaped(Add(plan, m, addr)) && FilesAreTracks(Add(plan, m, addr))
  {
    hide NameOf, FirstFree;
    AddSame(plan, m, addr);
  }

  lemma AddUnreserved(plan: Plan, m: Member, addr: seq<Name>)
    requires FilesAreTracks(plan) && RootUnreserved(plan) && Addable(plan, m, addr)
    ensures RootUnreserved(Add(plan, m, addr))
  {
    AddSame(plan, m, addr);
  }

  lemma AddWellFormed(plan: Plan, m: Member, addr: seq<Name>)
    requires WellFormed(plan) && Addable(plan, m, addr)
    ensures WellFormed(Add(plan, m, addr))
  {
    AddDistinct(plan, m, addr);
    AddRooted(plan, m, addr);
    AddShaped(plan, m, addr);
    AddUnreserved(plan, m, addr);
  }

  // ----- Inserting a track ----------------------------------------------------------------

  /** `ensure_dir` along the first `n` components of `addr`. */
  ghost function AddDirs(plan: Plan, addr: seq<Name>, n: nat): Plan
    requires n <= |addr|
  {
    if n == 0 then plan
    else
      var q := AddDirs(plan, addr, n - 1);
      if Dir(addr[..n]) in q.slots then q else Add(q, Dir(addr[..n]), addr[..n])
  }

  /** `insert_file`. */
  ghost function Insert(plan: Plan, t: int, addr: seq<Name>): Plan
    requires addr != []
  {
    Add(AddDirs(plan, addr, |addr| - 1), File(t), addr)
  }

  lemma {:induction false} AddDirsWellFormed(plan: Plan, addr: seq<Name>, n: nat)
    requires WellFormed(plan) && n <= |addr| && AreComponents(addr)
    ensures WellFormed(AddDirs(plan, addr, n)) && AddDirs(plan, addr, n).tracks == plan.tracks
    ensures DirIn(AddDirs(plan, addr, n), addr[..n])
  {
    if n > 0 {
      AddDirsWellFormed(plan, addr, n - 1);
      var q, d := AddDirs(plan, addr, n - 1), Dir(addr[..n]);
      assert Init(addr[..n]) == addr[..n - 1];
      if d !in q.slots {
        assert Addable(q, d, addr[..n]);
        AddWellFormed(q, d, addr[..n]);
      }
    }
  }

  /** Only the missing directories along `addr` are added. */
  lemma {:induction false} AddDirsMembers(plan: Plan, addr: seq<Name>, n: nat)
    requires n <= |addr|
    ensures forall m | m in plan.slots ::
              m in AddDirs(plan, addr, n).slots && AddDirs(plan, addr, n).slots[m] == plan.slots[m]
    ensures forall m | m in AddDirs(plan, addr, n).slots && m !in plan.slots ::
              m.Dir? && m.path != [] && |m.path| <= n && m.path <= addr
    ensures forall i | 1 <= i <= n :: Dir(addr[..i]) in AddDirs(plan, addr, n).slots
  {
    hide FirstFree, IsFirstFree;
    if n > 0 {
      AddDirsMembers(plan, addr, n - 1);
    }
  }

  /** A chain of new directories leaves the children of the next level as they were. */
  lemma AddDirsTaken(plan: Plan, addr: seq<Name>, n: nat, name: Name)
    requires WellFormed(plan) && n <= |addr| && AreComponents(addr)
    ensures Taken(AddDirs(plan, addr, n), addr[..n], name) == Taken(plan, addr[..n], name)
  {
    var q := AddDirs(plan, addr, n);
    AddDirsWellFormed(plan, addr, n);
    AddDirsMembers(plan, addr, n);
    assert forall m | m in plan.slots :: Parent(q, m) == Parent(plan, m) && NameOf(q, m) == NameOf(plan, m);
    assert forall m | m in q.slots && m !in plan.slots :: |Parent(q, m)| < n;
  }

  lemma AddDirsFirstFree(plan: Plan, addr: seq<Name>, n: nat)
    requires WellFormed(plan) && n < |addr| && AreComponents(addr)
    ensures FirstFree(AddDirs(plan, addr, n), addr[..n + 1]) == FirstFree(plan, addr[..n + 1])
  {
    assert Init(addr[..n + 1]) == addr[..n];
    forall name
      ensures Taken(AddDirs(plan, addr, n), addr[..n], name) == Taken(plan, addr[..n], name)
    {
      AddDirsTaken(plan, addr, n, name);
    }
    FirstFreeSame(AddDirs(plan, addr, n), plan, addr[..n + 1]);
  }

  /** New directories take the rank that was free before the insertion began. */
  lemma {:induction false} AddDirsSlots(plan: Plan, addr: seq<Name>, n: nat)
    requires WellFormed(plan) && n <= |addr| && AreComponents(addr)
    ensures forall m | m in AddDirs(plan, addr, n).slots && m !in plan.slots ::
              m.Dir? && AddDirs(plan, addr, n).slots[m] == FirstFree(plan, m.path)
  {
    hide IsFirstFree, FirstFree, WellFormed;
    if n > 0 {
      AddDirsSlots(plan, addr, n - 1);
      AddDirsFirstFree(plan, addr, n - 1);
    }
  }

  lemma InsertWellFormed(plan: Plan, t: int, addr: seq<Name>)
    requires WellFormed(plan) && addr != [] && AreComponents(addr) && t !in plan.tracks
    ensures WellFormed(Insert(plan, t, addr)) && Insert(plan, t, addr).tracks == plan.tracks[t := addr]
  {
    var n := |addr| - 1;
    AddDirsWellFormed(plan, addr, n);
    AddDirsMembers(plan, addr, n);
    assert Init(addr) == addr[..n];
    assert Addable(AddDirs(plan, addr, n), File(t), addr);
    AddWellFormed(AddDirs(plan, addr, n), File(t), addr);
  }

  /** What `Insert` adds. */
  lemma InsertMembers(plan: Plan, t: int, addr: seq<Name>, m: Member)
    requires addr != []
    ensures m in Insert(plan, t, addr).slots <==>
            m in plan.slots || m == File(t) || (m.Dir? && m.path != [] && m.path < addr)
  {
    AddDirsMembers(plan, addr, |addr| - 1);
    if m.Dir? && m.path != [] && m.path < addr {
      assert m.path == addr[..|m.path|];
    }
  }

  /** Ranks already given stay; each new member takes the rank that was free before the insertion. */
  lemma InsertSlots(plan: Plan, t: int, addr: seq<Name>, m: Member)
    requires WellFormed(plan) && addr != [] && AreComponents(addr) && t !in plan.tracks
    requires m in Insert(plan, t, addr).slots
    ensures var q := Insert(plan, t, addr);
            q.slots[m] == if m in plan.slots then plan.slots[m] else FirstFree(plan, Addr(q, m))
  {
    var n := |addr| - 1;
    AddDirsMembers(plan, addr, n);
    AddDirsSlots(plan, addr, n);
    AddDirsFirstFree(plan, addr, n);
    assert addr[..n + 1] == addr;
  }

  lemma InsertValid(plan: Plan, t: int, addr: seq<Name>)
    requires Valid(plan) && addr != [] && AreComponents(addr) && t !in plan.tracks
    ensures Valid(Insert(plan, t, addr))
  {
    hide Insert, FirstFree;
    InsertWellFormed(plan, t, addr);
    var q := Insert(plan, t, addr);
    forall m | m in q.slots
      ensures Live(q.tracks, m)
    {
      InsertMembers(plan, t, addr, m);
      if m in plan.slots && m.Dir? {
        var u :| u in plan.tracks && m.path < plan.tracks[u];
        assert u in q.tracks && m.path < q.tracks[u];
      } else if m.Dir? {
        assert m.path < q.tracks[t];
      }
    }
  }

  // ----- Removing tracks -------------------------------------------------------------------

  /** `remove_track` for every id of `ids`: the files go, and with them every directory left empty. */
  ghost function RemoveSet(plan: Plan, ids: set<int>): Plan {
    var tracks := plan.tracks - ids;
    Plan(tracks, map m | m in plan.slots && Live(tracks, m) :: plan.slots[m])
  }

  lemma RemoveSetNames(plan: Plan, ids: set<int>)
    ensures var q := RemoveSet(plan, ids);
            forall m | m in q.slots ::
              m in plan.slots && Addr(q, m) == Addr(plan, m) && Parent(q, m) == Parent(plan, m) &&
              Rendered(q, m) == Rendered(plan, m) && NameOf(q, m) == NameOf(plan, m)
  {
  }

  lemma RemoveSetValid(plan: Plan, ids: set<int>)
    requires WellFormed(plan)
    ensures Valid(RemoveSet(plan, ids))
  {
    hide NameOf;
    RemoveSetNames(plan, ids);
    RemoveSetRooted(plan, ids);
  }

  lemma RemoveSetRooted(plan: Plan, ids: set<int>)
    requires Rooted(plan)
    ensures Rooted(RemoveSet(plan, ids))
  {
    hide NameOf;
    var q := RemoveSet(plan, ids);
    RemoveSetNames(plan, ids);
    forall m | m in q.slots && Parent(q, m) != []
      ensures Dir(Parent(q, m)) in q.slots
    {
      var p := Parent(q, m);
      if m.Dir? {
        var t :| t in q.tracks && m.path < q.tracks[t];
        assert p < q.tracks[t];
      } else {
        assert p < q.tracks[m.id];
      }
    }
  }

  lemma RemoveSetCompose(plan: Plan, a: set<int>, b: set<int>)
    ensures RemoveSet(RemoveSet(plan, a), b) == RemoveSet(plan, a + b)
  {
    var ta, tab := plan.tracks - a, plan.tracks - (a + b);
    assert ta - b == tab;
    forall m | Live(tab, m)
      ensures Live(ta, m)
    {
      if m.Dir? {
        var t :| t in tab && m.path < tab[t];
        assert t in ta && m.path < ta[t];
      }
    }
  }

  // ----- Dropping one childless member -----------------------------------------------------------

  ghost predicate Leaf(plan: Plan, m: Member) {
    m in plan.slots && forall x | x in plan.slots :: Dir(Parent(plan, x)) != m
  }

  ghost function Drop(plan: Plan, m: Member): Plan {
    Plan(if m.File? then plan.tracks - {m.id} else plan.tracks, plan.slots - {m})
  }

  lemma DropSame(plan: Plan, m: Member)
    ensures var q := Drop(plan, m);
            (forall x :: x in q.slots <==> x in plan.slots && x != m) &&
            forall x | x in q.slots ::
              Addr(q, x) == Addr(plan, x) && NameOf(q, x) == NameOf(plan, x) && q.slots[x] == plan.slots[x]
  {
    hide SlotName;
  }

  lemma DropWellFormed(plan: Plan, m: Member)
    requires WellFormed(plan) && Leaf(plan, m)
    ensures WellFormed(Drop(plan, m))
  {
    hide NameOf;
    DropSame(plan, m);
  }

  // ----- Removing one track by pruning upward ----------------------------------------------------

  predicate PrunedDir(addr: seq<Name>, k: nat, m: Member) {
    m.Dir? && k < |m.path| < |addr| && m.path <= addr
  }

  /** After `t` and its emptied directories deeper than `k` are gone. */
  ghost predicate Pruning(plan: Plan, t: int, k: nat, q: Plan) {
    Valid(plan) && t in plan.tracks && WellFormed(q) && k < |plan.tracks[t]| &&
    q.tracks == plan.tracks - {t} &&
    (forall m :: m in q.slots <==> m in plan.slots && m != File(t) && !PrunedDir(plan.tracks[t], k, m)) &&
    (forall m | m in q.slots :: q.slots[m] == plan.slots[m]) &&
    (forall m | PrunedDir(plan.tracks[t], k, m) :: !Live(q.tracks, m))
  }

  lemma FileLeaf(plan: Plan, t: int)
    requires WellFormed(plan) && t in plan.tracks
    ensures Leaf(plan, File(t)) && plan.tracks[t] != [] && Addr(plan, File(t)) == plan.tracks[t]
  {
    hide NameOf;
    assert File(t) in plan.slots;
  }

  lemma PruningStarts(plan: Plan, t: int)
    requires Valid(plan) && t in plan.tracks
    ensures plan.tracks[t] != [] && Pruning(plan, t, |plan.tracks[t]| - 1, Drop(plan, File(t)))
  {
    hide NameOf, Live;
    FileLeaf(plan, t);
    DropSame(plan, File(t));
    DropWellFormed(plan, File(t));
  }

  /** A directory on the removed path has a child left exactly when it has a track left. */
  lemma PruningKids(plan: Plan, t: int, k: nat, q: Plan)
    requires Pruning(plan, t, k, q) && 1 <= k
    ensures Live(q.tracks, Dir(plan.tracks[t][..k])) <==> exists x :: x in q.slots && Parent(q, x) == plan.tracks[t][..k]
  {
    hide NameOf, WellFormed;
    var p := plan.tracks[t][..k];
    if Live(q.tracks, Dir(p)) {
      var u :| u in q.tracks && p < q.tracks[u];
      PruningChild(plan, t, k, q, u);
    }
    if x :| x in q.slots && Parent(q, x) == p {
      PruningTrack(plan, t, k, q, x);
    }
  }

  lemma PruningChild(plan: Plan, t: int, k: nat, q: Plan, u: int)
    requires Pruning(plan, t, k, q) && 1 <= k && u in q.tracks && plan.tracks[t][..k] < q.tracks[u]
    ensures exists x :: x in q.slots && Parent(q, x) == plan.tracks[t][..k]
  {
    hide NameOf, SiblingsDistinct, RootUnreserved;
    var p, a := plan.tracks[t][..k], q.tracks[u];
    assert File(u) in q.slots && Addr(q, File(u)) == a;
    if |a| == k + 1 {
      assert Parent(q, File(u)) == p;
    } else {
      AncestorsPresent(q, File(u), k + 1);
      assert Parent(q, Dir(a[..k + 1])) == p;
    }
  }

  lemma PruningTrack(plan: Plan, t: int, k: nat, q: Plan, x: Member)
    requires Pruning(plan, t, k, q) && 1 <= k && x in q.slots && Parent(q, x) == plan.tracks[t][..k]
    ensures Live(q.tracks, Dir(plan.tracks[t][..k]))
  {
    hide NameOf, SiblingsDistinct, RootUnreserved, Rooted;
    var p := plan.tracks[t][..k];
    assert Addr(q, x) != [];
    assert Addr(q, x) == p + [Last(Addr(q, x))];
    if x.Dir? {
      assert Live(plan.tracks, x);
      var u :| u in plan.tracks && x.path < plan.tracks[u];
      assert u != t;
      assert u in q.tracks && p < q.tracks[u];
    } else {
      assert x.id in q.tracks && p < q.tracks[x.id];
    }
  }

  lemma PruningStep(plan: Plan, t: int, k: nat, q: Plan)
    requires Pruning(plan, t, k, q) && 1 <= k && !Live(q.tracks, Dir(plan.tracks[t][..k]))
    ensures var d := Dir(plan.tracks[t][..k]); Leaf(q, d) && Pruning(plan, t, k - 1, Drop(q, d))
  {
    hide NameOf, Live, WellFormed;
    var addr := plan.tracks[t];
    var d := Dir(addr[..k]);
    PruningKids(plan, t, k, q);
    FileLeafIn(plan, t);
    AncestorsPresent(plan, File(t), k) by { ValidIsWellFormed(plan); }
    DropSame(q, d);
    DropWellFormed(q, d);
    forall m
      ensures PrunedDir(addr, k - 1, m) <==> PrunedDir(addr, k, m) || m == d
    {
      if m.Dir? && m.path <= addr { assert m.path == addr[..|m.path|]; }
    }
  }

  lemma ValidIsWellFormed(plan: Plan)
    requires Valid(plan)
    ensures WellFormed(plan)
  {
  }

  lemma FileLeafIn(plan: Plan, t: int)
    requires Valid(plan) && t in plan.tracks
    ensures File(t) in plan.slots && Addr(plan, File(t)) == plan.tracks[t]
  {
    FileLeaf(plan, t);
  }

  /** Where pruning stops, exactly the dead members are gone. */
  lemma PruningEnds(plan: Plan, t: int, k: nat, q: Plan)
    requires Pruning(plan, t, k, q) && (k == 0 || Live(q.tracks, Dir(plan.tracks[t][..k])))
    ensures q == RemoveSet(plan, {t})
  {
    hide NameOf, WellFormed;
    var r := RemoveSet(plan, {t});
    forall m
      ensures m in q.slots <==> m in r.slots
    {
      if m in plan.slots { PruningLive(plan, t, k, q, m); }
    }
  }

  lemma PruningLive(plan: Plan, t: int, k: nat, q: Plan, m: Member)
    requires Pruning(plan, t, k, q) && (k == 0 || Live(q.tracks, Dir(plan.tracks[t][..k]))) && m in plan.slots
    ensures m in q.slots <==> Live(q.tracks, m)
  {
    hide NameOf, SiblingsDistinct, RootUnreserved, Rooted;
    var addr := plan.tracks[t];
    assert Live(plan.tracks, m);
    if m.Dir? && m in q.slots {
      var u :| u in plan.tracks && m.path < plan.tracks[u];
      if u == t {
        assert Addr(plan, m) != [];
        assert |m.path| <= k;
        var v :| v in q.tracks && addr[..k] < q.tracks[v];
        assert m.path <= addr[..k] by { assert m.path == addr[..k][..|m.path|]; }
        assert v in q.tracks && m.path < q.tracks[v];
      } else {
        assert u in q.tracks && m.path < q.tracks[u];
      }
    }
  }

  // ----- Names along a path -------------------------------------------------------------------

  /** The disambiguated names from the root down to the directory rendered as `p`. */
  ghost function DirNames(plan: Plan, p: seq<Name>): seq<Name> {
    if p == [] then [] else DirNames(plan, Init(p)) + [NameOf(plan, Dir(p))]
  }

  ghost function NamePath(plan: Plan, m: Member): seq<Name> {
    if m == ROOT_DIR then [] else DirNames(plan, Parent(plan, m)) + [NameOf(plan, m)]
  }

  /** `path_of`: the full disambiguated path, the allocator's key for the member. */
  ghost function PathOf(plan: Plan, m: Member): string { JoinNames(NamePath(plan, m)) }

  lemma NamePathDir(plan: Plan, p: seq<Name>)
    ensures NamePath(plan, Dir(p)) == DirNames(plan, p)
  {
  }

  lemma {:induction false} DirNamesLength(plan: Plan, p: seq<Name>)
    ensures |DirNames(plan, p)| == |p|
  {
    if p != [] { DirNamesLength(plan, Init(p)); }
  }

  ghost predicate DirIn(plan: Plan, p: seq<Name>) { p == [] || Dir(p) in plan.slots }

  ghost predicate MemberIn(plan: Plan, m: Member) { m == ROOT_DIR || m in plan.slots }

  lemma {:induction false} DirNamesComponents(plan: Plan, p: seq<Name>)
    requires WellFormed(plan) && DirIn(plan, p)
    ensures AreComponents(DirNames(plan, p))
    decreases |p|
  {
    if p != [] {
      assert Parent(plan, Dir(p)) == Init(p);
      DirNamesComponents(plan, Init(p));
      SlotNameComponent(Last(p), plan.slots[Dir(p)]);
    }
  }

  lemma NamePathComponents(plan: Plan, m: Member)
    requires WellFormed(plan) && MemberIn(plan, m)
    ensures AreComponents(NamePath(plan, m))
    ensures m != ROOT_DIR ==> |NamePath(plan, m)| == |Addr(plan, m)|
  {
    if m != ROOT_DIR {
      var p := Parent(plan, m);
      DirNamesComponents(plan, p);
      DirNamesLength(plan, p);
      SlotNameComponent(Rendered(plan, m), plan.slots[m]);
    }
  }

  lemma {:induction false} DirNamesInjective(plan: Plan, p: seq<Name>, q: seq<Name>)
    requires WellFormed(plan) && DirIn(plan, p) && DirIn(plan, q)
    requires DirNames(plan, p) == DirNames(plan, q)
    ensures p == q
    decreases |p|
  {
    DirNamesLength(plan, p);
    DirNamesLength(plan, q);
    if p != [] {
      assert Parent(plan, Dir(p)) == Init(p) && Parent(plan, Dir(q)) == Init(q);
      var a, b := DirNames(plan, Init(p)), DirNames(plan, Init(q));
      assert a == (a + [NameOf(plan, Dir(p))])[..|p| - 1] by { DirNamesLength(plan, Init(p)); }
      assert b == (b + [NameOf(plan, Dir(q))])[..|q| - 1] by { DirNamesLength(plan, Init(q)); }
      DirNamesInjective(plan, Init(p), Init(q));
    }
  }

  /** Members of a well-formed plan have distinct paths. */
  lemma NamePathInjective(plan: Plan, a: Member, b: Member)
    requires WellFormed(plan) && MemberIn(plan, a) && MemberIn(plan, b)
    requires NamePath(plan, a) == NamePath(plan, b)
    ensures a == b
  {
    if a != ROOT_DIR && b != ROOT_DIR {
      var x, y := DirNames(plan, Parent(plan, a)), DirNames(plan, Parent(plan, b));
      assert x == NamePath(plan, a)[..|x|];
      assert y == NamePath(plan, b)[..|y|];
      assert |x| == |y|;
      assert NameOf(plan, a) == NamePath(plan, a)[|x|] == NameOf(plan, b);
      DirNamesInjective(plan, Parent(plan, a), Parent(plan, b));
    }
  }

  lemma PathInjective(plan: Plan, a: Member, b: Member)
    requires WellFormed(plan) && MemberIn(plan, a) && MemberIn(plan, b)
    requires PathOf(plan, a) == PathOf(plan, b)
    ensures a == b
  {
    NamePathComponents(plan, a);
    NamePathComponents(plan, b);
    JoinInjective(NamePath(plan, a), NamePath(plan, b));
    NamePathInjective(plan, a, b);
  }

  /** Ranks shared along a path give the same names along it. */
  lemma {:induction false} DirNamesFrame(a: Plan, b: Plan, p: seq<Name>)
    requires WellFormed(a) && DirIn(a, p)
    requires forall m: Member | m.Dir? && m in a.slots && m.path <= p :: m in b.slots && a.slots[m] == b.slots[m]
    ensures DirNames(a, p) == DirNames(b, p)
    decreases |p|
  {
    if p != [] {
      assert Parent(a, Dir(p)) == Init(p);
      DirNamesFrame(a, b, Init(p));
    }
  }

  lemma PathFrame(a: Plan, b: Plan, m: Member)
    requires WellFormed(a) && MemberIn(a, m)
    requires m != ROOT_DIR ==> m in b.slots && a.slots[m] == b.slots[m] && Addr(a, m) == Addr(b, m)
    requires forall d: Member | d.Dir? && d in a.slots && d.path <= Parent(a, m) ::
               d in b.slots && a.slots[d] == b.slots[d]
    ensures NamePath(a, m) == NamePath(b, m) && PathOf(a, m) == PathOf(b, m)
  {
    if m != ROOT_DIR {
      DirNamesFrame(a, b, Parent(a, m));
    }
  }
}
