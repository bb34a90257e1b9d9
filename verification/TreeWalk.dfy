/** The subtree below a member: what the stack walks of the tree visit, and in which order ids are put back. */
module TreeWalk {
  import opened Collections
  import opened Names
  import opened TreePlan
  import opened TreeCanon
  import opened TreeRebuild

  /** `m` is `top` or somewhere below it. */
  predicate Covers(plan: Plan, top: Member, m: Member) {
    m == top || (top.Dir? && top.path < Addr(plan, m))
  }

  ghost predicate CoveredBy(plan: Plan, stack: seq<Member>, m: Member) {
    exists j :: 0 <= j < |stack| && Covers(plan, stack[j], m)
  }

  /** Everything still to be visited from `stack`. */
  ghost function Pending(plan: Plan, stack: seq<Member>): set<Member> {
    set m | m in plan.slots.Keys + {ROOT_DIR} && CoveredBy(plan, stack, m)
  }

  /** No entry of the stack is below another. */
  ghost predicate Apart(plan: Plan, stack: seq<Member>) {
    forall i, j | 0 <= i < |stack| && 0 <= j < |stack| && i != j :: !Covers(plan, stack[i], stack[j])
  }

  ghost predicate Listed(plan: Plan, stack: seq<Member>) {
    forall j | 0 <= j < |stack| :: MemberIn(plan, stack[j])
  }

  /** `kids` lists each child of the directory `top` once. */
  ghost predicate ChildrenOf(plan: Plan, top: Member, kids: seq<Member>) {
    (forall j | 0 <= j < |kids| :: top.Dir? && kids[j] in plan.slots && Parent(plan, kids[j]) == top.path) &&
    (forall m | m in plan.slots && top.Dir? && Parent(plan, m) == top.path :: m in kids) &&
    (forall i, j | 0 <= i < j < |kids| :: kids[i] != kids[j])
  }

  /** What lies below a directory lies below one of its children. */
  lemma {:induction false} BelowAChild(plan: Plan, top: Member, kids: seq<Member>, m: Member)
    requires WellFormed(plan) && ChildrenOf(plan, top, kids) && m in plan.slots && top.Dir? && top.path < Addr(plan, m)
    ensures CoveredBy(plan, kids, m)
  {
    hide NameOf, SiblingsDistinct, RootUnreserved, FilesAreTracks, Shaped;
    var a, n := Addr(plan, m), |top.path| + 1;
    if |a| == n {
      assert Parent(plan, m) == top.path;
      var j :| 0 <= j < |kids| && kids[j] == m;
      assert Covers(plan, kids[j], m);
    } else {
      AncestorsPresent(plan, m, n);
      var c := Dir(a[..n]);
      assert Parent(plan, c) == top.path;
      var j :| 0 <= j < |kids| && kids[j] == c;
      assert Covers(plan, kids[j], m);
    }
  }

  lemma KidBelow(plan: Plan, top: Member, kid: Member)
    requires Shaped(plan) && top.Dir? && kid in plan.slots && Parent(plan, kid) == top.path
    ensures top.path < Addr(plan, kid) && kid != top
  {
    hide NameOf;
    assert Addr(plan, kid) == top.path + [Last(Addr(plan, kid))];
  }

  lemma CoversTransitive(plan: Plan, a: Member, b: Member, c: Member)
    requires Covers(plan, a, b) && Covers(plan, b, c)
    ensures Covers(plan, a, c)
  {
  }

  lemma CoversAntisymmetric(plan: Plan, a: Member, b: Member)
    requires Covers(plan, a, b) && Covers(plan, b, a)
    ensures a == b
  {
  }

  /** Replacing a stack entry by its children leaves everything pending but that entry. */
  lemma PopPending(plan: Plan, rest: seq<Member>, top: Member, kids: seq<Member>)
    requires WellFormed(plan) && Listed(plan, rest + [top]) && Apart(plan, rest + [top]) && ChildrenOf(plan, top, kids)
    ensures Pending(plan, rest + kids) == Pending(plan, rest + [top]) - {top} && top in Pending(plan, rest + [top])
  {
    hide WellFormed, Covers;
    var s := rest + [top];
    assert s[|rest|] == top && Covers(plan, top, top) by { CoversSelf(plan, top); }
    forall m | m in plan.slots.Keys + {ROOT_DIR}
      ensures CoveredBy(plan, rest + kids, m) <==> CoveredBy(plan, s, m) && m != top
    {
      PopCovered(plan, rest, top, kids, m);
    }
  }

  lemma CoversSelf(plan: Plan, m: Member)
    ensures Covers(plan, m, m)
  {
  }

  lemma PopCovered(plan: Plan, rest: seq<Member>, top: Member, kids: seq<Member>, m: Member)
    requires WellFormed(plan) && Listed(plan, rest + [top]) && Apart(plan, rest + [top]) && ChildrenOf(plan, top, kids)
    requires MemberIn(plan, m)
    ensures CoveredBy(plan, rest + kids, m) <==> CoveredBy(plan, rest + [top], m) && m != top
  {
    hide WellFormed, Covers, ChildrenOf, Parent;
    var s, r := rest + [top], rest + kids;
    if CoveredBy(plan, r, m) {
      var j :| 0 <= j < |r| && Covers(plan, r[j], m);
      if j < |rest| {
        assert s[j] == r[j] && !Covers(plan, s[j], s[|rest|]);
      } else {
        KidCovers(plan, top, kids, j - |rest|, m);
        assert Covers(plan, s[|rest|], m);
      }
    }
    if CoveredBy(plan, s, m) && m != top {
      var j :| 0 <= j < |s| && Covers(plan, s[j], m);
      if j < |rest| {
        assert r[j] == s[j];
      } else {
        StrictlyBelow(plan, top, m);
        BelowAChild(plan, top, kids, m);
        var i :| 0 <= i < |kids| && Covers(plan, kids[i], m);
        assert r[|rest| + i] == kids[i];
      }
    }
  }

  lemma StrictlyBelow(plan: Plan, top: Member, m: Member)
    requires MemberIn(plan, m) && Covers(plan, top, m) && m != top
    ensures top.Dir? && top.path < Addr(plan, m) && m in plan.slots
  {
  }

  lemma KidCovers(plan: Plan, top: Member, kids: seq<Member>, j: nat, m: Member)
    requires WellFormed(plan) && ChildrenOf(plan, top, kids) && j < |kids| && Covers(plan, kids[j], m)
    ensures Covers(plan, top, m) && m != top
  {
    hide NameOf, SiblingsDistinct, RootUnreserved, FilesAreTracks, Rooted;
    var kid := kids[j];
    KidBelow(plan, top, kid);
    CoversTransitive(plan, top, kid, m);
    if m == top { CoversAntisymmetric(plan, top, kid); }
  }

  /** The stack stays free of entries below one another. */
  lemma PopApart(plan: Plan, rest: seq<Member>, top: Member, kids: seq<Member>)
    requires WellFormed(plan) && Listed(plan, rest + [top]) && Apart(plan, rest + [top]) && ChildrenOf(plan, top, kids)
    ensures Apart(plan, rest + kids) && Listed(plan, rest + kids)
  {
    hide WellFormed, Covers, Parent;
    var s, r := rest + [top], rest + kids;
    forall j | 0 <= j < |r|
      ensures MemberIn(plan, r[j])
    {
      if j < |rest| { assert s[j] == r[j]; }
    }
    forall i, j | 0 <= i < |r| && 0 <= j < |r| && i != j
      ensures !Covers(plan, r[i], r[j])
    {
      if i < |rest| && j < |rest| {
        assert s[i] == r[i] && s[j] == r[j];
      } else if i < |rest| {
        ApartFromKid(plan, rest, top, kids, i, j - |rest|);
      } else if j < |rest| {
        KidApart(plan, rest, top, kids, i - |rest|, j);
      } else {
        KidsApart(plan, top, kids, i - |rest|, j - |rest|);
      }
    }
  }

  lemma ApartFromKid(plan: Plan, rest: seq<Member>, top: Member, kids: seq<Member>, i: nat, k: nat)
    requires WellFormed(plan) && Listed(plan, rest + [top]) && Apart(plan, rest + [top]) && ChildrenOf(plan, top, kids)
    requires i < |rest| && k < |kids|
    ensures !Covers(plan, rest[i], kids[k])
  {
    hide WellFormed, NameOf;
    var s, x, y := rest + [top], rest[i], kids[k];
    assert s[i] == x && s[|rest|] == top;
    assert !Covers(plan, x, top) && !Covers(plan, top, x);
    KidUncovered(plan, x, top, y);
  }

  lemma KidUncovered(plan: Plan, x: Member, top: Member, y: Member)
    requires WellFormed(plan) && top.Dir? && !Covers(plan, x, top) && !Covers(plan, top, x)
    requires y in plan.slots && Parent(plan, y) == top.path
    ensures !Covers(plan, x, y)
  {
    hide NameOf, SiblingsDistinct, RootUnreserved, FilesAreTracks, Rooted;
    KidBelow(plan, top, y);
    var a := Addr(plan, y);
    assert a == top.path + [Last(a)];
    if x.Dir? { ShorterPrefix(x.path, top.path, a); }
  }

  lemma ShorterPrefix(p: seq<Name>, q: seq<Name>, a: seq<Name>)
    requires q < a && |a| == |q| + 1
    ensures p < a ==> p <= q
  {
    if p < a {
      assert p == a[..|p|] && q == a[..|q|];
    }
  }

  lemma KidApart(plan: Plan, rest: seq<Member>, top: Member, kids: seq<Member>, k: nat, j: nat)
    requires WellFormed(plan) && Listed(plan, rest + [top]) && Apart(plan, rest + [top]) && ChildrenOf(plan, top, kids)
    requires j < |rest| && k < |kids|
    ensures !Covers(plan, kids[k], rest[j])
  {
    hide NameOf, SiblingsDistinct, RootUnreserved, FilesAreTracks, Rooted;
    var s := rest + [top];
    KidBelow(plan, top, kids[k]);
    assert s[j] == rest[j] && s[|rest|] == top;
    assert !Covers(plan, top, rest[j]);
    if Covers(plan, kids[k], rest[j]) { CoversTransitive(plan, top, kids[k], rest[j]); }
  }

  lemma KidsApart(plan: Plan, top: Member, kids: seq<Member>, i: nat, j: nat)
    requires WellFormed(plan) && ChildrenOf(plan, top, kids) && i < |kids| && j < |kids| && i != j
    ensures !Covers(plan, kids[i], kids[j])
  {
    hide NameOf, SiblingsDistinct, RootUnreserved, FilesAreTracks, Rooted;
    KidBelow(plan, top, kids[i]);
    KidBelow(plan, top, kids[j]);
    assert |Addr(plan, kids[i])| == |top.path| + 1 == |Addr(plan, kids[j])|;
    assert kids[i].Dir? ==> !(kids[i].path < Addr(plan, kids[j]));
  }

  lemma PendingAll(plan: Plan, top: Member, t: int)
    requires WellFormed(plan) && MemberIn(plan, top)
    ensures File(t) in Pending(plan, [top]) <==> Under(plan.tracks, top, t)
  {
    hide NameOf;
    assert [top][0] == top;
    assert Covers(plan, top, File(t)) ==> CoveredBy(plan, [top], File(t));
  }

  // ----- Sorting ids -----------------------------------------------------------------------

  method InsertSorted(ids: seq<int>, t: int) returns (sorted: seq<int>)
    requires Ascending(ids) && t !in ids
    ensures Ascending(sorted) && forall u :: u in sorted <==> u == t || u in ids
  {
    var i := |ids|;
    while i > 0 && t < ids[i - 1]
      invariant 0 <= i <= |ids|
      invariant forall j | i <= j < |ids| :: t < ids[j]
    {
      i := i - 1;
    }
    sorted := ids[..i] + [t] + ids[i..];
    if i > 0 {
      assert ids[i - 1] in ids;
    }
    InsertedAt(ids, i, t);
  }

  lemma InsertedAt(ids: seq<int>, i: nat, t: int)
    requires Ascending(ids) && i <= |ids| && (forall j | 0 <= j < i :: ids[j] < t) && forall j | i <= j < |ids| :: t < ids[j]
    ensures var sorted := ids[..i] + [t] + ids[i..]; Ascending(sorted) && forall u :: u in sorted <==> u == t || u in ids
  {
    var sorted := ids[..i] + [t] + ids[i..];
    assert ids == ids[..i] + ids[i..];
    forall a, b | 0 <= a < b < |sorted|
      ensures sorted[a] < sorted[b]
    {
      var x, y := if a < i then a else a - 1, if b < i then b else b - 1;
      assert a != i ==> sorted[a] == ids[x];
      assert b != i ==> sorted[b] == ids[y];
    }
  }

  /** `sort_unstable` on distinct ids. */
  method SortIds(ids: seq<int>) returns (sorted: seq<int>)
    requires Distinct(ids)
    ensures Ascending(sorted) && forall u :: u in sorted <==> u in ids
  {
    sorted := [];
    var i := 0;
    while i < |ids|
      invariant 0 <= i <= |ids| && Ascending(sorted)
      invariant forall u :: u in sorted <==> u in ids[..i]
    {
      assert ids[..i + 1] == ids[..i] + [ids[i]];
      sorted := InsertSorted(sorted, ids[i]);
      i := i + 1;
    }
    assert ids[..i] == ids;
  }

  // ----- Sorting by key --------------------------------------------------------------------

  predicate ByKey(pairs: seq<(nat, nat)>) { forall i, j | 0 <= i < j < |pairs| :: pairs[i].0 <= pairs[j].0 }

  /** Insert a keyed inode behind everything of a key no greater than its own. */
  method InsertByKey(pairs: seq<(nat, nat)>, p: (nat, nat)) returns (more: seq<(nat, nat)>)
    requires ByKey(pairs)
    ensures |more| == |pairs| + 1 && ByKey(more) && forall x :: x in more <==> x == p || x in pairs
  {
    var i := |pairs|;
    while i > 0 && p.0 < pairs[i - 1].0
      invariant 0 <= i <= |pairs|
      invariant forall j | i <= j < |pairs| :: p.0 < pairs[j].0
    {
      i := i - 1;
    }
    more := pairs[..i] + [p] + pairs[i..];
    KeyInserted(pairs, i, p);
  }

  lemma KeyInserted(pairs: seq<(nat, nat)>, i: nat, p: (nat, nat))
    requires ByKey(pairs) && i <= |pairs| && (i > 0 ==> pairs[i - 1].0 <= p.0)
    requires forall j | i <= j < |pairs| :: p.0 < pairs[j].0
    ensures var more := pairs[..i] + [p] + pairs[i..]; ByKey(more) && forall x :: x in more <==> x == p || x in pairs
  {
    var more := pairs[..i] + [p] + pairs[i..];
    KeyOrder(pairs, more, i, p);
    var front, back := pairs[..i], pairs[i..];
    assert pairs == front + back;
    forall x
      ensures x in front + [p] + back <==> x == p || x in front + back
    {
    }
  }

  lemma KeyOrder(pairs: seq<(nat, nat)>, more: seq<(nat, nat)>, i: nat, p: (nat, nat))
    requires ByKey(pairs) && i <= |pairs| && (i > 0 ==> pairs[i - 1].0 <= p.0) && |more| == |pairs| + 1
    requires forall j | i <= j < |pairs| :: p.0 < pairs[j].0
    requires forall a | 0 <= a < |more| :: more[a] == if a < i then pairs[a] else if a == i then p else pairs[a - 1]
    ensures ByKey(more)
  {
    forall a, b | 0 <= a < b < |more|
      ensures more[a].0 <= more[b].0
    {
      assert a < i - 1 ==> pairs[a].0 <= pairs[i - 1].0;
      assert b > i && a < i ==> pairs[a].0 <= pairs[b - 1].0;
      assert b > i && a > i ==> pairs[a - 1].0 <= pairs[b - 1].0;
      assert more[a] == if a < i then pairs[a] else if a == i then p else pairs[a - 1];
      assert more[b] == if b < i then pairs[b] else if b == i then p else pairs[b - 1];
    }
  }
}
