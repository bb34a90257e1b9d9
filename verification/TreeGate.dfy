/**
  The collision gate of the dirty walks: which members it lets through, and why a member
  of a canonical plan that it holds back is alone in its group.
 */
module TreeGate {
  import opened Names
  import opened TreePlan
  import opened TreeCanon
  import opened TreeDirty
  import opened TreeState

  /** Rank `k` of `rendered` is held by a child that rendered the same name. */
  ghost predicate RankShared(plan: Plan, p: seq<Name>, rendered: Name, k: nat) {
    exists m :: m in plan.slots && Parent(plan, m) == p && NameOf(plan, m) == SuffixCandidate(rendered, k) &&
                Rendered(plan, m) == rendered
  }

  ghost predicate RanksTaken(plan: Plan, p: seq<Name>, rendered: Name, k: nat) {
    forall j: nat | 2 <= j < k :: ChildNamed(plan, p, SuffixCandidate(rendered, j))
  }

  /** Touching the child `name` of the directory `p` may rename a sibling. */
  ghost predicate GateOpen(plan: Plan, p: seq<Name>, name: Name, rendered: Name) {
    name != rendered || IsSuffixShaped(name) ||
    exists k: nat :: k >= 2 && RankShared(plan, p, rendered, k) && RanksTaken(plan, p, rendered, k)
  }

  ghost predicate MemberGated(plan: Plan, m: Member) {
    GateOpen(plan, Parent(plan, m), NameOf(plan, m), Rendered(plan, m))
  }

  lemma GateUnshared(plan: Plan, p: seq<Name>, name: Name, rendered: Name)
    ensures name != rendered || IsSuffixShaped(name) ==> GateOpen(plan, p, name, rendered)
    ensures RanksTaken(plan, p, rendered, 2)
  {
    hide RankShared, IsSuffixShaped;
  }

  /** Probing rank `k` when the lower ranks are taken by other groups. */
  lemma GateStep(plan: Plan, p: seq<Name>, name: Name, rendered: Name, k: nat)
    requires k >= 2 && name == rendered && !IsSuffixShaped(name) && RanksTaken(plan, p, rendered, k)
    requires forall j | 2 <= j < k :: !RankShared(plan, p, rendered, j)
    ensures !ChildNamed(plan, p, SuffixCandidate(rendered, k)) ==> !GateOpen(plan, p, name, rendered) && k > 1
    ensures RankShared(plan, p, rendered, k) ==> GateOpen(plan, p, name, rendered)
    ensures ChildNamed(plan, p, SuffixCandidate(rendered, k)) ==>
              RanksTaken(plan, p, rendered, k + 1) && SuffixCandidate(rendered, k) in TakenNames(plan, p)
  {
    hide NameOf, SuffixCandidate, IsSuffixShaped;
  }

  lemma RankedGated(vocab: Vocabulary, plan: Plan, m: Member)
    requires Tame(vocab, plan) && m in plan.slots && plan.slots[m] >= 2
    ensures MemberGated(plan, m)
  {
    hide SuffixCandidate, IsSuffixShaped;
    LastWord(vocab, Addr(plan, m));
    CandidateIsSuffixShaped(Rendered(plan, m), plan.slots[m]);
  }

  /** A second member of a correct group holds the gate open for the first. */
  lemma SharedGated(vocab: Vocabulary, plan: Plan, m: Member, x: Member)
    requires WellFormed(plan) && Tame(vocab, plan) && Correct(plan, Addr(plan, m))
    requires m in plan.slots && plan.slots[m] == 1 && InGroup(plan, Addr(plan, m), x) && x != m
    ensures MemberGated(plan, m)
  {
    hide SuffixCandidate, IsSuffixShaped, Tame, WellFormed, Intro, Base;
    var g, k := Addr(plan, m), plan.slots[x];
    RankAtLeastBase(plan, g, m);
    RankAtLeastBase(plan, g, x);
    BaseRange(g);
    RanksDistinct(plan, g, m, x);
    forall j: nat | 2 <= j < k
      ensures ChildNamed(plan, Parent(plan, m), SuffixCandidate(Rendered(plan, m), j))
    {
      assert Occupied(plan, g, j);
      var o :| InGroup(plan, g, o) && plan.slots[o] == j;
      assert NameOf(plan, o) == SuffixCandidate(Rendered(plan, m), j);
    }
    assert NameOf(plan, x) == SuffixCandidate(Rendered(plan, m), k);
    assert RankShared(plan, Parent(plan, m), Rendered(plan, m), k);
  }

  /** In a canonical plan the gate holds back only members alone in their group. */
  lemma UngatedAlone(vocab: Vocabulary, plan: Plan, m: Member)
    requires Canonical(plan) && Tame(vocab, plan) && m in plan.slots && !MemberGated(plan, m)
    ensures Alone(plan, Addr(plan, m), m)
  {
    hide MemberGated, Tame, NameOf, Correct, Intro, Base, SiblingsDistinct, RootUnreserved, Rooted, FilesAreTracks;
    var g := Addr(plan, m);
    assert plan.slots[m] == 1 by {
      if plan.slots[m] >= 2 { RankedGated(vocab, plan, m); }
    }
    RankAtLeastBase(plan, g, m);
    BaseRange(g);
    assert Correct(plan, g);
    forall x
      ensures InGroup(plan, g, x) <==> x == m
    {
      if InGroup(plan, g, x) && x != m { SharedGated(vocab, plan, m, x); }
    }
  }

  lemma AloneUnranked(vocab: Vocabulary, plan: Plan, m: Member)
    requires Tame(vocab, plan) && WellFormed(plan) && m in plan.slots && Alone(plan, Addr(plan, m), m) && plan.slots[m] == 1
    ensures !ChildNamed(plan, Parent(plan, m), SuffixCandidate(Rendered(plan, m), 2))
  {
    hide Tame, SuffixCandidate, NameOf, SiblingsDistinct, RootUnreserved, Rooted, FilesAreTracks;
    forall x | x in plan.slots && Parent(plan, x) == Parent(plan, m) && NameOf(plan, x) == SuffixCandidate(Rendered(plan, m), 2)
      ensures false
    {
      WordOf(vocab, plan, m);
      SameGroup(vocab, plan, Addr(plan, m), x, 2);
    }
  }

  lemma WordOf(vocab: Vocabulary, plan: Plan, m: Member)
    requires Tame(vocab, plan) && m in plan.slots
    ensures WordPath(vocab, Addr(plan, m))
  {
  }

  /** In a canonical tree the gate is shut exactly for a member alone under its rendered name, at rank 1, whose name is not suffix-shaped. */
  lemma GateExactly(vocab: Vocabulary, plan: Plan, m: Member)
    requires Canonical(plan) && Tame(vocab, plan) && m in plan.slots
    ensures !MemberGated(plan, m) <==>
            (forall x | x in plan.slots && Addr(plan, x) == Addr(plan, m) :: x == m) && plan.slots[m] == 1 && !IsSuffixShaped(Rendered(plan, m))
  {
    hide SuffixCandidate, IsSuffixShaped, Tame, WellFormed, Correct, Intro;
    var g := Addr(plan, m);
    assert Correct(plan, g);
    RankAtLeastBase(plan, g, m);
    BaseRange(g);
    if !MemberGated(plan, m) {
      UngatedAlone(vocab, plan, m);
      if plan.slots[m] >= 2 { RankedGated(vocab, plan, m); }
      GateUnshared(plan, Parent(plan, m), NameOf(plan, m), Rendered(plan, m));
      forall x | x in plan.slots && Addr(plan, x) == g
        ensures x == m
      {
        assert InGroup(plan, g, x);
      }
    }
    if (forall x | x in plan.slots && Addr(plan, x) == g :: x == m) && plan.slots[m] == 1 {
      AloneUnranked(vocab, plan, m);
      ProbeEnds(plan, Parent(plan, m), NameOf(plan, m), Rendered(plan, m));
    }
  }

  /** Probing ends at rank 2 when nobody has it. */
  lemma ProbeEnds(plan: Plan, p: seq<Name>, name: Name, rendered: Name)
    requires !ChildNamed(plan, p, SuffixCandidate(rendered, 2))
    ensures GateOpen(plan, p, name, rendered) <==> name != rendered || IsSuffixShaped(name)
  {
    hide SuffixCandidate, IsSuffixShaped, NameOf;
    forall k: nat | k >= 2 && RankShared(plan, p, rendered, k)
      ensures !RanksTaken(plan, p, rendered, k)
    {
      assert k != 2;
    }
  }

  // ----- The members along a track's path ----------------------------------------------

  /** The member of depth `k` on the path of track `t`. */
  function OnPath(addr: seq<Name>, t: int, k: nat): Member
    requires k <= |addr|
  {
    if k == |addr| then File(t) else Dir(addr[..k])
  }

  lemma OnPathMember(plan: Plan, t: int, k: nat)
    requires WellFormed(plan) && t in plan.tracks && 1 <= k <= |plan.tracks[t]|
    ensures var m := OnPath(plan.tracks[t], t, k);
            m in plan.slots && Addr(plan, m) == plan.tracks[t][..k] && Parent(plan, m) == plan.tracks[t][..k - 1] &&
            Live(plan.tracks, m) && Under(plan.tracks, m, t)
  {
    hide NameOf;
    FileLeaf(plan, t);
    var addr := plan.tracks[t];
    assert addr[..|addr|] == addr;
    if k < |addr| { AncestorsPresent(plan, File(t), k); }
  }

  /** Least ids only fall on the way up. */
  lemma IntroUpward(plan: Plan, t: int, j: nat, k: nat)
    requires WellFormed(plan) && t in plan.tracks && 1 <= j <= k <= |plan.tracks[t]|
    ensures var a, b := OnPath(plan.tracks[t], t, j), OnPath(plan.tracks[t], t, k);
            Live(plan.tracks, a) && Live(plan.tracks, b) &&
            Intro(plan.tracks, a) <= Intro(plan.tracks, b) <= t
  {
    hide WellFormed, NameOf;
    OnPathMember(plan, t, j);
    OnPathMember(plan, t, k);
    var a, b := OnPath(plan.tracks[t], t, j), OnPath(plan.tracks[t], t, k);
    var i := Intro(plan.tracks, b);
    assert Under(plan.tracks, b, i);
    assert Under(plan.tracks, a, i) by {
      if j < k && k < |plan.tracks[t]| { assert plan.tracks[t][..j] <= plan.tracks[t][..k]; }
    }
  }

  lemma IntroUpwardDir(plan: Plan, p: seq<Name>, j: nat, k: nat)
    requires Valid(plan) && DirIn(plan, p) && 1 <= j <= k <= |p|
    ensures Dir(p[..j]) in plan.slots && Dir(p[..k]) in plan.slots
    ensures Live(plan.tracks, Dir(p[..j])) && Live(plan.tracks, Dir(p[..k])) &&
            Intro(plan.tracks, Dir(p[..j])) <= Intro(plan.tracks, Dir(p[..k]))
  {
    hide WellFormed, NameOf;
    DirAtPrefix(plan, p, j);
    DirAtPrefix(plan, p, k);
    var i := Intro(plan.tracks, Dir(p[..k]));
    assert Under(plan.tracks, Dir(p[..k]), i);
    assert p[..j] <= p[..k];
    assert Under(plan.tracks, Dir(p[..j]), i);
  }

  // ----- What the walks mark ---------------------------------------------------------------

  /** The walk up from removed track `t` marks `d` at depth `k`. */
  ghost predicate RemovalMark(plan: Plan, ix: Index, t: int, k: nat, d: nat) {
    t in plan.tracks && 1 <= k <= |plan.tracks[t]| &&
    var m := OnPath(plan.tracks[t], t, k);
    MemberGated(plan, m) && IsIntro(plan.tracks, m, t) && d == InoOf(ix, Dir(plan.tracks[t][..k - 1]))
  }

  ghost predicate RemovalMarkedBelow(plan: Plan, ix: Index, t: int, n: nat, d: nat) {
    exists k: nat :: n < k && RemovalMark(plan, ix, t, k, d)
  }

  ghost predicate RemovalMarked(plan: Plan, ix: Index, t: int, d: nat) { RemovalMarkedBelow(plan, ix, t, 0, d) }

  /** The walk up from the directory `p`, for added track `t`, marks `d` at depth `k`. */
  ghost predicate FlipMark(plan: Plan, ix: Index, p: seq<Name>, t: int, k: nat, d: nat) {
    1 <= k <= |p| && MemberGated(plan, Dir(p[..k])) && Live(plan.tracks, Dir(p[..k])) &&
    t < Intro(plan.tracks, Dir(p[..k])) && d == InoOf(ix, Dir(p[..k - 1]))
  }

  ghost predicate FlipMarkedBelow(plan: Plan, ix: Index, p: seq<Name>, t: int, n: nat, d: nat) {
    exists k: nat :: n < k && FlipMark(plan, ix, p, t, k, d)
  }

  ghost predicate FlipMarked(plan: Plan, ix: Index, p: seq<Name>, t: int, d: nat) { FlipMarkedBelow(plan, ix, p, t, 0, d) }

  lemma RemovalSplit(plan: Plan, ix: Index, t: int, k: nat, d: nat)
    requires k >= 1
    ensures RemovalMarkedBelow(plan, ix, t, k - 1, d) <==> RemovalMarkedBelow(plan, ix, t, k, d) || RemovalMark(plan, ix, t, k, d)
  {
    hide RemovalMark;
    if j: nat :| k - 1 < j && RemovalMark(plan, ix, t, j, d) {
      assert j == k || k < j;
    }
  }

  lemma FlipSplit(plan: Plan, ix: Index, p: seq<Name>, t: int, k: nat, d: nat)
    requires k >= 1
    ensures FlipMarkedBelow(plan, ix, p, t, k - 1, d) <==> FlipMarkedBelow(plan, ix, p, t, k, d) || FlipMark(plan, ix, p, t, k, d)
  {
    hide FlipMark;
    if j: nat :| k - 1 < j && FlipMark(plan, ix, p, t, j, d) {
      assert j == k || k < j;
    }
  }

  /** One level of a walk: what it marks there, and what is left above. */
  lemma RemovalLevel(plan: Plan, ix: Index, t: int, k: nat)
    requires WellFormed(plan) && t in plan.tracks && 1 <= k <= |plan.tracks[t]|
    ensures var m := OnPath(plan.tracks[t], t, k);
            Live(plan.tracks, m) && forall d: nat ::
              (RemovalMarkedBelow(plan, ix, t, k - 1, d) <==>
               (RemovalMarkedBelow(plan, ix, t, k, d) ||
                (MemberGated(plan, m) && Intro(plan.tracks, m) == t && d == InoOf(ix, Dir(plan.tracks[t][..k - 1])))))
    ensures var m := OnPath(plan.tracks[t], t, k);
            Intro(plan.tracks, m) != t ==>
              forall d: nat :: RemovalMarkedBelow(plan, ix, t, 0, d) <==> RemovalMarkedBelow(plan, ix, t, k, d)
  {
    hide WellFormed, MemberGated;
    OnPathMember(plan, t, k);
    var m := OnPath(plan.tracks[t], t, k);
    assert forall u | IsIntro(plan.tracks, m, u) :: u == Intro(plan.tracks, m);
    forall d: nat
      ensures RemovalMarkedBelow(plan, ix, t, k - 1, d) <==> RemovalMarkedBelow(plan, ix, t, k, d) || RemovalMark(plan, ix, t, k, d)
    {
      RemovalSplit(plan, ix, t, k, d);
    }
    forall d: nat
      ensures RemovalMark(plan, ix, t, k, d) <==>
              (MemberGated(plan, m) && Intro(plan.tracks, m) == t && d == InoOf(ix, Dir(plan.tracks[t][..k - 1])))
    {
      assert IsIntro(plan.tracks, m, Intro(plan.tracks, m));
    }
    if Intro(plan.tracks, m) != t { NoRemovalMarksAbove(plan, ix, t, k); }
  }

  lemma NoRemovalMarksAbove(plan: Plan, ix: Index, t: int, k: nat)
    requires WellFormed(plan) && t in plan.tracks && 1 <= k <= |plan.tracks[t]|
    requires var m := OnPath(plan.tracks[t], t, k); Live(plan.tracks, m) && Intro(plan.tracks, m) != t
    ensures forall j: nat, d: nat | j <= k :: !RemovalMark(plan, ix, t, j, d)
  {
    hide WellFormed, MemberGated;
    forall j: nat | 1 <= j <= k
      ensures !IsIntro(plan.tracks, OnPath(plan.tracks[t], t, j), t)
    {
      IntroUpward(plan, t, j, k);
      var a := OnPath(plan.tracks[t], t, j);
      assert IsIntro(plan.tracks, a, Intro(plan.tracks, a));
    }
  }

  lemma FlipLevel(plan: Plan, ix: Index, p: seq<Name>, t: int, k: nat)
    requires Valid(plan) && DirIn(plan, p) && 1 <= k <= |p|
    ensures var m := Dir(p[..k]);
            Live(plan.tracks, m) && forall d: nat ::
              (FlipMarkedBelow(plan, ix, p, t, k - 1, d) <==>
               (FlipMarkedBelow(plan, ix, p, t, k, d) ||
                (MemberGated(plan, m) && t < Intro(plan.tracks, m) && d == InoOf(ix, Dir(p[..k - 1])))))
    ensures var m := Dir(p[..k]);
            Intro(plan.tracks, m) <= t ==>
              forall d: nat :: FlipMarkedBelow(plan, ix, p, t, 0, d) <==> FlipMarkedBelow(plan, ix, p, t, k, d)
  {
    hide WellFormed, MemberGated;
    IntroUpwardDir(plan, p, k, k);
    var m := Dir(p[..k]);
    forall d: nat
      ensures FlipMarkedBelow(plan, ix, p, t, k - 1, d) <==> FlipMarkedBelow(plan, ix, p, t, k, d) || FlipMark(plan, ix, p, t, k, d)
    {
      FlipSplit(plan, ix, p, t, k, d);
    }
    forall d: nat
      ensures FlipMark(plan, ix, p, t, k, d) <==>
              (MemberGated(plan, m) && t < Intro(plan.tracks, m) && d == InoOf(ix, Dir(p[..k - 1])))
    {
    }
    if Intro(plan.tracks, m) <= t { NoFlipMarksAbove(plan, ix, p, t, k); }
  }

  lemma NoFlipMarksAbove(plan: Plan, ix: Index, p: seq<Name>, t: int, k: nat)
    requires Valid(plan) && DirIn(plan, p) && 1 <= k <= |p|
    requires Live(plan.tracks, Dir(p[..k])) && Intro(plan.tracks, Dir(p[..k])) <= t
    ensures forall j: nat, d: nat | j <= k :: !FlipMark(plan, ix, p, t, j, d)
  {
    hide WellFormed, MemberGated, Intro, Live;
    forall j: nat | 1 <= j <= k
      ensures Live(plan.tracks, Dir(p[..j])) && Intro(plan.tracks, Dir(p[..j])) <= t
    {
      IntroUpwardDir(plan, p, j, k);
    }
  }

  /** What one added path marks: its branching point when the name there is taken, and the flips above. */
  ghost predicate InsertionMarked(plan: Plan, ix: Index, t: int, keys: seq<Name>, d: nat) {
    exists n: nat :: IsDeepest(plan, keys, n) &&
      ((Taken(plan, keys[..n], keys[n]) && d == InoOf(ix, Dir(keys[..n]))) || FlipMarked(plan, ix, keys[..n], t, d))
  }

  /** The directories whose inodes are in `dirty`. */
  ghost function Marks(plan: Plan, ix: Index, dirty: set<nat>): set<seq<Name>> {
    set m | m in ix.ino && m.Dir? && ix.ino[m] in dirty :: m.path
  }

  lemma DeepestUnique(plan: Plan, addr: seq<Name>, n1: nat, n2: nat)
    requires WellFormed(plan) && IsDeepest(plan, addr, n1) && IsDeepest(plan, addr, n2)
    ensures n1 == n2
  {
    hide WellFormed;
    DeepestBelow(plan, addr, addr[..n1], n2);
    DeepestBelow(plan, addr, addr[..n2], n1);
  }

  /** Marking what the removal walks mark is marking every removed introducing id that is not alone. */
  lemma WalksCoverRemovals(vocab: Vocabulary, plan: Plan, ix: Index, removed: set<int>, dirty: set<nat>)
    requires Canonical(plan) && Tame(vocab, plan) && Indexed(plan, ix)
    requires forall t, d: nat | t in removed && RemovalMarked(plan, ix, t, d) :: d in dirty
    ensures RemovalMarks(plan, removed, Marks(plan, ix, dirty))
  {
    hide Tame, NameOf, Correct, Alone, Intro, MemberGated, WellFormed, RemovalMarked;
    forall m | m in plan.slots && Live(plan.tracks, m) && Intro(plan.tracks, m) in removed && !Alone(plan, Addr(plan, m), m)
      ensures Parent(plan, m) in Marks(plan, ix, dirty)
    {
      WalkCoversRemoval(vocab, plan, ix, m, dirty, removed);
    }
  }

  lemma WalkCoversRemoval(vocab: Vocabulary, plan: Plan, ix: Index, m: Member, dirty: set<nat>, removed: set<int>)
    requires Canonical(plan) && Tame(vocab, plan) && Indexed(plan, ix)
    requires m in plan.slots && Live(plan.tracks, m) && Intro(plan.tracks, m) in removed && !Alone(plan, Addr(plan, m), m)
    requires forall t, d: nat | t in removed && RemovalMarked(plan, ix, t, d) :: d in dirty
    ensures Parent(plan, m) in Marks(plan, ix, dirty)
  {
    hide Tame, NameOf, Correct, Alone, MemberGated, SiblingsDistinct, RootUnreserved, Intro;
    var t := Intro(plan.tracks, m);
    var addr, k := plan.tracks[t], |Addr(plan, m)|;
    if !MemberGated(plan, m) { UngatedAlone(vocab, plan, m); }
    assert m == OnPath(addr, t, k) && Addr(plan, m) == addr[..k];
    assert Parent(plan, m) == addr[..k - 1];
    var d := InoOf(ix, Dir(addr[..k - 1]));
    assert RemovalMark(plan, ix, t, k, d);
    assert RemovalMarked(plan, ix, t, d);
    assert MemberIn(plan, Dir(Parent(plan, m)));
  }

  /** Marking what the add-side walk marks is marking every branch onto a taken name and every lowered minimum. */
  lemma WalkCoversInsertion(vocab: Vocabulary, plan: Plan, ix: Index, t: int, keys: seq<Name>, dirty: set<nat>)
    requires Canonical(plan) && Tame(vocab, plan) && Indexed(plan, ix)
    requires forall d: nat | InsertionMarked(plan, ix, t, keys, d) :: d in dirty
    ensures InsertionMarks(plan, t, keys, Marks(plan, ix, dirty))
  {
    hide Tame, NameOf, Correct, Alone, Intro, MemberGated, WellFormed, FlipMarked, Taken;
    forall n: nat | IsDeepest(plan, keys, n)
      ensures Taken(plan, keys[..n], keys[n]) ==> keys[..n] in Marks(plan, ix, dirty)
    {
      if Taken(plan, keys[..n], keys[n]) {
        assert InsertionMarked(plan, ix, t, keys, InoOf(ix, Dir(keys[..n])));
        assert MemberIn(plan, Dir(keys[..n]));
      }
    }
    forall n: nat, g | IsDeepest(plan, keys, n) && g != [] && g <= keys[..n] && Dir(g) in plan.slots &&
                       Live(plan.tracks, Dir(g)) && t < Intro(plan.tracks, Dir(g)) && !Alone(plan, g, Dir(g))
      ensures Init(g) in Marks(plan, ix, dirty)
    {
      FlipCovered(vocab, plan, ix, t, keys, n, g);
    }
  }

  lemma FlipCovered(vocab: Vocabulary, plan: Plan, ix: Index, t: int, keys: seq<Name>, n: nat, g: seq<Name>)
    requires Canonical(plan) && Tame(vocab, plan) && Indexed(plan, ix)
    requires IsDeepest(plan, keys, n) && g != [] && g <= keys[..n] && Dir(g) in plan.slots
    requires Live(plan.tracks, Dir(g)) && t < Intro(plan.tracks, Dir(g)) && !Alone(plan, g, Dir(g))
    ensures Dir(Init(g)) in ix.ino && InsertionMarked(plan, ix, t, keys, ix.ino[Dir(Init(g))])
  {
    hide Tame, NameOf, Correct, Alone, Intro, MemberGated, Taken, SiblingsDistinct, RootUnreserved;
    if !MemberGated(plan, Dir(g)) { UngatedAlone(vocab, plan, Dir(g)); }
    assert g == keys[..n][..|g|] && Init(g) == keys[..n][..|g| - 1];
    assert Parent(plan, Dir(g)) == Init(g);
    assert MemberIn(plan, Dir(Init(g)));
    assert FlipMark(plan, ix, keys[..n], t, |g|, ix.ino[Dir(Init(g))]);
  }

  // ----- What the walks mark, without the gate ------------------------------------------------

  /** The member's place is contested: its rendered name is shared, ranked, or shaped like a rank. */
  ghost predicate Contested(plan: Plan, m: Member) {
    m in plan.slots &&
    (plan.slots[m] != 1 || IsSuffixShaped(Rendered(plan, m)) || exists x :: x in plan.slots && x != m && Addr(plan, x) == Addr(plan, m))
  }

  lemma ContestedGated(vocab: Vocabulary, plan: Plan, m: Member)
    requires Canonical(plan) && Tame(vocab, plan) && m in plan.slots
    ensures MemberGated(plan, m) <==> Contested(plan, m)
  {
    hide MemberGated, IsSuffixShaped, Tame, Canonical;
    GateExactly(vocab, plan, m);
  }

  /** The member at or above the track, contested, of which `t` is the least track, stands in directory `d`. */
  ghost predicate LosesLeast(plan: Plan, ix: Index, t: int, m: Member, d: nat) {
    t in plan.tracks && (m == File(t) || (m.Dir? && m.path < plan.tracks[t])) && Contested(plan, m) &&
    (forall u | u in plan.tracks && (m == File(u) || (m.Dir? && m.path < plan.tracks[u])) :: t <= u) && d == InoOf(ix, Dir(Parent(plan, m)))
  }

  /** In a canonical tree a removal marks exactly the directories of the contested members that lose their least track. */
  lemma RemovalMarkedExactly(vocab: Vocabulary, plan: Plan, ix: Index, t: int, d: nat)
    requires Canonical(plan) && Tame(vocab, plan) && t in plan.tracks
    ensures RemovalMarked(plan, ix, t, d) <==> exists m :: LosesLeast(plan, ix, t, m, d)
  {
    hide MemberGated, Contested, Tame, Correct, WellFormed;
    if RemovalMarked(plan, ix, t, d) {
      var k: nat :| 0 < k && RemovalMark(plan, ix, t, k, d);
      OnPathMember(plan, t, k);
      var m := OnPath(plan.tracks[t], t, k);
      ContestedGated(vocab, plan, m);
      forall u | u in plan.tracks && (m == File(u) || (m.Dir? && m.path < plan.tracks[u]))
        ensures t <= u
      {
        assert Under(plan.tracks, m, u);
      }
      assert LosesLeast(plan, ix, t, m, d);
    }
    if m :| LosesLeast(plan, ix, t, m, d) {
      var k := PathPlace(plan, t, m);
      ContestedGated(vocab, plan, m);
      OnPathMember(plan, t, k);
      assert RemovalMark(plan, ix, t, k, d);
    }
  }

  lemma PathPlace(plan: Plan, t: int, m: Member) returns (k: nat)
    requires WellFormed(plan) && t in plan.tracks && (m == File(t) || (m.Dir? && m.path < plan.tracks[t])) && Contested(plan, m)
    ensures m in plan.slots && 1 <= k <= |plan.tracks[t]| && m == OnPath(plan.tracks[t], t, k)
  {
    hide NameOf, SiblingsDistinct, RootUnreserved, Rooted, FilesAreTracks;
    k := |Addr(plan, m)|;
    assert m.Dir? ==> plan.tracks[t][..k] == m.path;
  }

  /** The contested directory at or above `p` holds only tracks after `t`, and stands in directory `d`. */
  ghost predicate GainsLeast(plan: Plan, ix: Index, p: seq<Name>, t: int, q: seq<Name>, d: nat) {
    q != [] && q <= p && Contested(plan, Dir(q)) && (forall u | u in plan.tracks && q < plan.tracks[u] :: t < u) &&
    d == InoOf(ix, Dir(q[..|q| - 1]))
  }

  /** And an addition below `p` marks exactly those of the contested directories on the way whose tracks all come after it. */
  lemma FlipMarkedExactly(vocab: Vocabulary, plan: Plan, ix: Index, p: seq<Name>, t: int, d: nat)
    requires Canonical(plan) && Tame(vocab, plan) && DirIn(plan, p)
    ensures FlipMarked(plan, ix, p, t, d) <==> exists q :: GainsLeast(plan, ix, p, t, q, d)
  {
    hide MemberGated, Contested, Tame, Correct, WellFormed;
    if FlipMarked(plan, ix, p, t, d) {
      var k: nat :| 0 < k && FlipMark(plan, ix, p, t, k, d);
      DirAtPrefix(plan, p, k);
      ContestedGated(vocab, plan, Dir(p[..k]));
      assert p[..k][..k - 1] == p[..k - 1];
      assert IsIntro(plan.tracks, Dir(p[..k]), Intro(plan.tracks, Dir(p[..k])));
      forall u | u in plan.tracks && p[..k] < plan.tracks[u]
        ensures t < u
      {
        assert Under(plan.tracks, Dir(p[..k]), u);
      }
      assert GainsLeast(plan, ix, p, t, p[..k], d);
    }
    if q :| GainsLeast(plan, ix, p, t, q, d) {
      var k := |q|;
      assert q == p[..k] && q[..k - 1] == p[..k - 1];
      DirAtPrefix(plan, p, k);
      ContestedGated(vocab, plan, Dir(q));
      assert IsIntro(plan.tracks, Dir(q), Intro(plan.tracks, Dir(q)));
      assert FlipMark(plan, ix, p, t, k, d);
    }
  }
}
