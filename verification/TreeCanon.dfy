/**
  When is a plan the one a fresh build makes?  Members with the same rendered
  components form a group; a fresh build ranks each group by introducing id, with no
  gaps.  Over an unambiguous vocabulary groups do not interfere, and this file shows which
  groups an insertion, a removal or a subtree rebuild keeps in that order.
 */
module TreeCanon {
  import opened Collections
  import opened Names
  import opened TreePlan

  // ----- Introducing ids ------------------------------------------------------------

  /** Is track `t` the file `m`, or somewhere below the directory `m`? */
  predicate Under(tracks: map<int, seq<Name>>, m: Member, t: int) {
    t in tracks && match m { case File(u) => t == u case Dir(p) => p < tracks[t] }
  }

  ghost predicate IsIntro(tracks: map<int, seq<Name>>, m: Member, t: int) {
    Under(tracks, m, t) && forall u | Under(tracks, m, u) :: t <= u
  }

  lemma {:induction false} LeastOf(s: set<int>) returns (t: int)
    requires exists x :: x in s
    ensures t in s && forall u :: u in s ==> t <= u
    decreases |s|
  {
    var x: int :| x in s;
    t := x;
    var rest := s - {x};
    if exists y :: y in rest {
      var u := LeastOf(rest);
      t := if u < x then u else x;
      assert forall v :: v in s ==> v == x || v in rest;
    } else {
      assert forall v :: v in s ==> v == x || v in rest;
    }
  }

  lemma IntroExists(tracks: map<int, seq<Name>>, m: Member)
    requires Live(tracks, m)
    ensures exists t :: IsIntro(tracks, m, t)
  {
    var s := set t | t in tracks && Under(tracks, m, t);
    if m.Dir? {
      var t :| t in tracks && m.path < tracks[t];
      assert t in s;
    } else {
      assert m.id in s;
    }
    var t := LeastOf(s);
    assert forall u | Under(tracks, m, u) :: u in s;
    assert IsIntro(tracks, m, t);
  }

  /** `introducing_id`: the least track id under a member. */
  ghost function Intro(tracks: map<int, seq<Name>>, m: Member): (t: int)
    requires Live(tracks, m)
    ensures IsIntro(tracks, m, t)
  {
    IntroExists(tracks, m);
    var t :| IsIntro(tracks, m, t);
    t
  }

  // ----- Groups -----------------------------------------------------------------------

  ghost predicate InGroup(plan: Plan, g: seq<Name>, m: Member) { m in plan.slots && Addr(plan, m) == g }

  /** The lowest rank a group may use: a reserved root name is held by the FUSE layer. */
  function Base(g: seq<Name>): nat { if |g| == 1 && Reserved(g[0]) then 2 else 1 }

  ghost predicate Occupied(plan: Plan, g: seq<Name>, k: nat) {
    exists m :: InGroup(plan, g, m) && plan.slots[m] == k
  }

  ghost predicate GroupLive(plan: Plan, g: seq<Name>) {
    forall m | InGroup(plan, g, m) :: Live(plan.tracks, m)
  }

  ghost predicate Ordered(plan: Plan, g: seq<Name>)
    requires GroupLive(plan, g)
  {
    forall a, b | InGroup(plan, g, a) && InGroup(plan, g, b) && Intro(plan.tracks, a) < Intro(plan.tracks, b) ::
      plan.slots[a] < plan.slots[b]
  }

  ghost predicate Dense(plan: Plan, g: seq<Name>) {
    forall m, k | InGroup(plan, g, m) && Base(g) <= k < plan.slots[m] :: Occupied(plan, g, k)
  }

  /** The group is ranked as a fresh build ranks it. */
  ghost predicate Correct(plan: Plan, g: seq<Name>) {
    GroupLive(plan, g) && Ordered(plan, g) && Dense(plan, g)
  }

  ghost predicate Canonical(plan: Plan) { Valid(plan) && forall g :: Correct(plan, g) }

  // ----- Plans over a vocabulary ---------------------------------------------------------------------

  /** The names allowed in each directory, known by its rendered components. */
  type Vocabulary = seq<Name> -> iset<Name>

  /** Within no directory is one allowed name a ranked candidate of another. */
  ghost predicate Separate(vocab: Vocabulary) { forall dir :: Unambiguous(vocab(dir)) }

  /** Every name is allowed in the directory of those before it. */
  ghost predicate Worded(vocab: Vocabulary, names: seq<Name>) { forall i | 0 <= i < |names| :: names[i] in vocab(names[..i]) }

  ghost predicate WordPath(vocab: Vocabulary, addr: seq<Name>) { Separate(vocab) && addr != [] && Worded(vocab, addr) }

  ghost predicate WordTracks(vocab: Vocabulary, tracks: map<int, seq<Name>>) {
    (forall t | t in tracks :: WordPath(vocab, tracks[t])) && |tracks| + 3 < RANK_LIMIT
  }

  ghost predicate Tame(vocab: Vocabulary, plan: Plan) {
    Separate(vocab) && WordTracks(vocab, plan.tracks) &&
    forall m | m in plan.slots :: WordPath(vocab, Addr(plan, m)) && plan.slots[m] < RANK_LIMIT
  }

  lemma NotShapedWithoutSpace(name: Name)
    requires ' ' !in name
    ensures !IsSuffixShaped(name)
  {
    var stem := SplitSuffixParts(name).0;
    assert forall i | 0 <= i < |stem| :: stem[i] == name[i];
    assert forall i: nat :: !OpensAt(stem, i);
  }

  /** No ranked name is reserved. */
  lemma RankedUnreserved(name: Name, k: nat)
    requires Fits(name) && 2 <= k < RANK_LIMIT
    ensures !Reserved(SlotName(name, k))
  {
    hide IsSuffixShaped, SuffixCandidate;
    CandidateIsSuffixShaped(name, k);
    NotShapedWithoutSpace(METRICS_DIR_NAME);
    NotShapedWithoutSpace(SPOTLIGHT_MARKER_NAME);
  }

  lemma LastWord(vocab: Vocabulary, g: seq<Name>)
    requires WordPath(vocab, g)
    ensures Last(g) in vocab(Init(g)) && Unambiguous(vocab(Init(g))) && g == Init(g) + [Last(g)]
  {
    hide Unambiguous;
    assert Last(g) in vocab(g[..|g| - 1]);
  }

  lemma SameGroup(vocab: Vocabulary, plan: Plan, g: seq<Name>, m: Member, k: nat)
    requires Tame(vocab, plan) && WordPath(vocab, g) && 1 <= k < RANK_LIMIT
    requires m in plan.slots && plan.slots[m] >= 1
    requires Parent(plan, m) == Init(g) && NameOf(plan, m) == SlotName(Last(g), k)
    ensures InGroup(plan, g, m) && plan.slots[m] == k
  {
    hide SlotName, Unambiguous, Separate;
    LastWord(vocab, Addr(plan, m));
    LastWord(vocab, g);
    SlotNameInjective(vocab(Init(g)), Rendered(plan, m), plan.slots[m], Last(g), k);
  }

  /** Over an unambiguous vocabulary a rank of a group is taken exactly when a member of that group holds it. */
  lemma GroupTaken(vocab: Vocabulary, plan: Plan, g: seq<Name>, k: nat)
    requires WellFormed(plan) && Tame(vocab, plan) && WordPath(vocab, g) && 1 <= k < RANK_LIMIT
    ensures Taken(plan, Init(g), SlotName(Last(g), k)) <==> k < Base(g) || Occupied(plan, g, k)
  {
    hide SuffixCandidate, Separate;
    var name := SlotName(Last(g), k);
    LastWord(vocab, g);
    ReservedRank(vocab, g, k);
    if ChildNamed(plan, Init(g), name) {
      var m :| m in plan.slots && Parent(plan, m) == Init(g) && NameOf(plan, m) == name;
      SameGroup(vocab, plan, g, m, k);
    }
    if Occupied(plan, g, k) {
      var m :| InGroup(plan, g, m) && plan.slots[m] == k;
      assert ChildNamed(plan, Init(g), name);
    }
  }

  lemma ReservedRank(vocab: Vocabulary, g: seq<Name>, k: nat)
    requires WordPath(vocab, g) && 1 <= k < RANK_LIMIT
    ensures Init(g) == [] && Reserved(SlotName(Last(g), k)) <==> k < Base(g)
  {
    hide SuffixCandidate, IsSuffixShaped, Reserved;
    if k >= 2 {
      RankedUnreserved(Last(g), k);
    }
  }

  // ----- Ranks stay small --------------------------------------------------------------------

  /** Members of one group have different introducing ids. */
  lemma IntroDistinct(plan: Plan, g: seq<Name>, a: Member, b: Member)
    requires InGroup(plan, g, a) && InGroup(plan, g, b) && a != b && FilesAreTracks(plan)
    requires Live(plan.tracks, a) && Live(plan.tracks, b)
    ensures Intro(plan.tracks, a) != Intro(plan.tracks, b)
  {
    hide NameOf;
    assert Under(plan.tracks, a, Intro(plan.tracks, a));
    assert Under(plan.tracks, b, Intro(plan.tracks, b));
  }

  ghost predicate HoldsRankIn(plan: Plan, g: seq<Name>, t: int, lo: nat, hi: nat) {
    exists m :: InGroup(plan, g, m) && Live(plan.tracks, m) && Intro(plan.tracks, m) == t && lo <= plan.slots[m] < hi
  }

  lemma {:induction false} RankHolders(plan: Plan, g: seq<Name>, lo: nat, hi: nat) returns (ids: set<int>)
    requires WellFormed(plan) && GroupLive(plan, g) && lo <= hi
    requires forall k | lo <= k < hi :: Occupied(plan, g, k)
    ensures |ids| == hi - lo && ids <= plan.tracks.Keys
    ensures forall t | t in ids :: HoldsRankIn(plan, g, t, lo, hi)
    decreases hi - lo
  {
    hide WellFormed, Intro;
    if lo == hi {
      ids := {};
    } else {
      var rest := RankHolders(plan, g, lo, hi - 1);
      assert Occupied(plan, g, hi - 1);
      var m :| InGroup(plan, g, m) && plan.slots[m] == hi - 1;
      var t := Intro(plan.tracks, m);
      forall u | u in rest
        ensures u != t && HoldsRankIn(plan, g, u, lo, hi)
      {
        var n :| InGroup(plan, g, n) && Live(plan.tracks, n) && Intro(plan.tracks, n) == u && lo <= plan.slots[n] < hi - 1;
        NeighboursDiffer(plan, g, m, n);
      }
      assert Under(plan.tracks, m, t);
      ids := rest + {t};
    }
  }

  lemma NeighboursDiffer(plan: Plan, g: seq<Name>, m: Member, n: Member)
    requires WellFormed(plan) && GroupLive(plan, g) && InGroup(plan, g, m) && InGroup(plan, g, n)
    requires plan.slots[m] != plan.slots[n]
    ensures Intro(plan.tracks, m) != Intro(plan.tracks, n)
  {
    IntroDistinct(plan, g, m, n);
  }

  /** The first free rank of a group, in the group's own terms. */
  ghost predicate GroupFirstFree(plan: Plan, g: seq<Name>, k: nat) {
    Base(g) <= k < RANK_LIMIT && !Occupied(plan, g, k) && forall j | Base(g) <= j < k :: Occupied(plan, g, j)
  }

  lemma FirstFreeInGroup(vocab: Vocabulary, plan: Plan, g: seq<Name>)
    requires WellFormed(plan) && Tame(vocab, plan) && WordPath(vocab, g) && GroupLive(plan, g)
    ensures GroupFirstFree(plan, g, FirstFree(plan, g))
  {
    hide SlotName, WellFormed, Tame, WordPath, Base, Taken, Occupied;
    var k, n := FirstFree(plan, g), |plan.tracks|;
    assert n + 3 < RANK_LIMIT by { TameBound(vocab, plan); }
    BaseRange(g);
    if k > n + 2 {
      forall j | Base(g) <= j < n + 3
        ensures Occupied(plan, g, j)
      {
        GroupTaken(vocab, plan, g, j);
      }
      var ids := RankHolders(plan, g, Base(g), n + 3);
      SubsetSize(ids, plan.tracks.Keys);
    }
    forall j | 1 <= j <= k
      ensures Taken(plan, Init(g), SlotName(Last(g), j)) <==> j < Base(g) || Occupied(plan, g, j)
    {
      GroupTaken(vocab, plan, g, j);
    }
  }

  lemma BaseRange(g: seq<Name>)
    ensures 1 <= Base(g) <= 2
  {
  }

  lemma TameBound(vocab: Vocabulary, plan: Plan)
    requires Tame(vocab, plan)
    ensures |plan.tracks| + 3 < RANK_LIMIT && Separate(vocab)
  {
  }

  /** Ranks never fall below the base. */
  lemma RankAtLeastBase(plan: Plan, g: seq<Name>, m: Member)
    requires WellFormed(plan) && InGroup(plan, g, m)
    ensures plan.slots[m] >= Base(g)
  {
    hide SuffixCandidate;
    assert Base(g) == 2 ==> Parent(plan, m) == [] && Rendered(plan, m) == g[0];
    assert plan.slots[m] == 1 ==> NameOf(plan, m) == Rendered(plan, m);
  }

  /** No two members of a group share a rank. */
  lemma RanksDistinct(plan: Plan, g: seq<Name>, a: Member, b: Member)
    requires WellFormed(plan) && InGroup(plan, g, a) && InGroup(plan, g, b) && a != b
    ensures plan.slots[a] != plan.slots[b]
  {
    hide SlotName, Shaped, Rooted, FilesAreTracks, RootUnreserved;
    assert Parent(plan, a) == Parent(plan, b) && Rendered(plan, a) == Rendered(plan, b);
  }

  // ----- Insertion keeps groups correct ---------------------------------------------------------

  lemma InsertTame(vocab: Vocabulary, plan: Plan, t: int, addr: seq<Name>)
    requires Valid(plan) && Tame(vocab, plan) && WordPath(vocab, addr) && t !in plan.tracks && |plan.tracks| + 4 < RANK_LIMIT
    ensures Tame(vocab, Insert(plan, t, addr))
  {
    hide Separate, Insert, SlotName, FirstFree;
    WordComponents(vocab, addr);
    InsertWellFormed(plan, t, addr);
    var q := Insert(plan, t, addr);
    assert |q.tracks| <= |plan.tracks| + 1;
    forall m | m in q.slots
      ensures WordPath(vocab, Addr(q, m)) && q.slots[m] < RANK_LIMIT
    {
      InsertMemberTame(vocab, plan, t, addr, m);
    }
  }

  lemma InsertMemberTame(vocab: Vocabulary, plan: Plan, t: int, addr: seq<Name>, m: Member)
    requires Valid(plan) && Tame(vocab, plan) && WordPath(vocab, addr) && t !in plan.tracks
    requires m in Insert(plan, t, addr).slots && |plan.tracks| + 3 < RANK_LIMIT
    ensures WordPath(vocab, Addr(Insert(plan, t, addr), m)) && Insert(plan, t, addr).slots[m] < RANK_LIMIT
  {
    hide Separate, Insert, SlotName, FirstFree, WordPath, NameOf, WordTracks;
    WordComponents(vocab, addr);
    InsertWellFormed(plan, t, addr);
    InsertMembers(plan, t, addr, m);
    InsertSlots(plan, t, addr, m);
    if m !in plan.slots {
      PrefixWord(vocab, addr, Addr(Insert(plan, t, addr), m));
      FirstFreeInGroup(vocab, plan, Addr(Insert(plan, t, addr), m));
    }
  }

  lemma PrefixWord(vocab: Vocabulary, addr: seq<Name>, p: seq<Name>)
    requires WordPath(vocab, addr) && p != [] && p <= addr
    ensures WordPath(vocab, p)
  {
    hide Separate;
    PrefixWorded(vocab, addr, p);
  }

  lemma PrefixWorded(vocab: Vocabulary, names: seq<Name>, init: seq<Name>)
    requires Worded(vocab, names) && init <= names
    ensures Worded(vocab, init)
  {
    forall i | 0 <= i < |init|
      ensures init[i] in vocab(init[..i])
    {
      assert init[i] == names[i] && init[..i] == names[..i];
    }
  }

  lemma WordComponents(vocab: Vocabulary, addr: seq<Name>)
    requires WordPath(vocab, addr)
    ensures AreComponents(addr) && addr != []
  {
    hide IsSuffixShaped;
  }

  /** Members of group `g` are unchanged from `p` to `q`, ranks included. */
  ghost predicate SameRanks(p: Plan, q: Plan, g: seq<Name>) {
    (forall m :: InGroup(p, g, m) <==> InGroup(q, g, m)) &&
    (forall m | InGroup(p, g, m) && InGroup(q, g, m) :: p.slots[m] == q.slots[m])
  }

  ghost predicate SameIntros(p: Plan, q: Plan, g: seq<Name>) {
    forall m | InGroup(p, g, m) && Live(p.tracks, m) :: Live(q.tracks, m) && Intro(p.tracks, m) == Intro(q.tracks, m)
  }

  lemma OccupiedSame(p: Plan, q: Plan, g: seq<Name>, k: nat)
    requires SameRanks(p, q, g)
    ensures Occupied(p, g, k) == Occupied(q, g, k)
  {
    if Occupied(p, g, k) {
      var m :| InGroup(p, g, m) && p.slots[m] == k;
      assert InGroup(q, g, m);
    }
    if Occupied(q, g, k) {
      var m :| InGroup(q, g, m) && q.slots[m] == k;
      assert InGroup(p, g, m);
    }
  }

  lemma CorrectSame(p: Plan, q: Plan, g: seq<Name>)
    requires SameRanks(p, q, g) && SameIntros(p, q, g) && Correct(p, g)
    ensures Correct(q, g)
  {
    hide Intro, Addr;
    forall k
      ensures Occupied(p, g, k) == Occupied(q, g, k)
    {
      OccupiedSame(p, q, g, k);
    }
  }

  /** A group gaining a member with the first free rank and the greatest introducing id stays correct. */
  lemma CorrectExtended(p: Plan, q: Plan, g: seq<Name>, n: Member)
    requires Correct(p, g) && InGroup(q, g, n) && !InGroup(p, g, n)
    requires forall m :: InGroup(q, g, m) <==> InGroup(p, g, m) || m == n
    requires forall m | InGroup(p, g, m) :: m in q.slots && q.slots[m] == p.slots[m]
    requires SameIntros(p, q, g) && Live(q.tracks, n)
    requires GroupFirstFree(p, g, q.slots[n])
    requires forall m | InGroup(p, g, m) :: Intro(q.tracks, m) < Intro(q.tracks, n)
    ensures Correct(q, g)
  {
    hide Intro, Addr, Base;
    var k := q.slots[n];
    forall m | InGroup(p, g, m)
      ensures p.slots[m] < k
    {
      FullBelow(p, g, m, k);
    }
    forall m, j | InGroup(q, g, m) && Base(g) <= j < q.slots[m]
      ensures Occupied(q, g, j)
    {
      assert Occupied(p, g, j);
      var o :| InGroup(p, g, o) && p.slots[o] == j;
      assert InGroup(q, g, o);
    }
  }

  lemma FullBelow(p: Plan, g: seq<Name>, m: Member, k: nat)
    requires Dense(p, g) && InGroup(p, g, m) && GroupFirstFree(p, g, k)
    ensures p.slots[m] < k
  {
    assert Occupied(p, g, p.slots[m]);
  }

  /** A later track never changes who introduced a member. */
  lemma IntroKept(a: map<int, seq<Name>>, m: Member, t: int, addr: seq<Name>)
    requires Live(a, m) && t !in a
    requires Intro(a, m) < t || !Under(a[t := addr], m, t)
    ensures Live(a[t := addr], m) && Intro(a[t := addr], m) == Intro(a, m)
  {
    var b, i := a[t := addr], Intro(a, m);
    assert forall u | u != t :: Under(b, m, u) == Under(a, m, u);
    assert Under(b, m, i);
    if m.Dir? { assert i in b && m.path < b[i]; }
    assert IsIntro(b, m, i);
    assert IsIntro(b, m, Intro(b, m));
  }

  /** Members of group `g` after an insertion: the old ones, and at most one more on the inserted path. */
  lemma InsertGroup(plan: Plan, t: int, addr: seq<Name>, g: seq<Name>, m: Member)
    requires WellFormed(plan) && addr != [] && AreComponents(addr) && t !in plan.tracks && g != []
    ensures var q := Insert(plan, t, addr);
            InGroup(q, g, m) <==> InGroup(plan, g, m) || (m == File(t) && g == addr) || (m == Dir(g) && g < addr)
    ensures InGroup(plan, g, m) ==>
              m in Insert(plan, t, addr).slots && Insert(plan, t, addr).slots[m] == plan.slots[m]
  {
    hide Insert, FirstFree, SlotName;
    InsertWellFormed(plan, t, addr);
    InsertMembers(plan, t, addr, m);
    if m in plan.slots { InsertSlots(plan, t, addr, m); }
  }

  /** `m` is the whole of group `g`, at its lowest rank. */
  ghost predicate Alone(plan: Plan, g: seq<Name>, m: Member) {
    (forall x :: InGroup(plan, g, x) <==> x == m) && m in plan.slots && plan.slots[m] == Base(g)
  }

  lemma AloneCorrect(plan: Plan, g: seq<Name>, m: Member)
    requires Live(plan.tracks, m) && Alone(plan, g, m)
    ensures Correct(plan, g)
  {
    hide Intro, Base, Addr;
  }

  lemma EmptyGroupCorrect(plan: Plan, g: seq<Name>)
    requires forall x :: !InGroup(plan, g, x)
    ensures Correct(plan, g)
  {
    hide Intro, Base, Addr;
  }

  /** Groups off the inserted path, and directories an earlier track introduced, keep their order. */
  lemma InsertUnmoved(plan: Plan, t: int, addr: seq<Name>, g: seq<Name>)
    requires Valid(plan) && Correct(plan, g) && g != []
    requires addr != [] && AreComponents(addr) && t !in plan.tracks
    requires !(g <= addr) || (g < addr && Dir(g) in plan.slots && Intro(plan.tracks, Dir(g)) < t)
    ensures Correct(Insert(plan, t, addr), g)
  {
    hide Insert, FirstFree, SlotName, Intro;
    var q := Insert(plan, t, addr);
    InsertWellFormed(plan, t, addr);
    forall m
      ensures InGroup(q, g, m) <==> InGroup(plan, g, m)
      ensures InGroup(plan, g, m) ==> m in q.slots && q.slots[m] == plan.slots[m]
    {
      InsertGroup(plan, t, addr, g, m);
    }
    forall m | InGroup(plan, g, m)
      ensures Live(q.tracks, m) && Intro(q.tracks, m) == Intro(plan.tracks, m)
    {
      IntroKept(plan.tracks, m, t, addr);
    }
    CorrectSame(plan, q, g);
  }

  /** The member an insertion adds to a group on its path: introduced by the inserted track. */
  lemma NewMemberIntro(plan: Plan, t: int, addr: seq<Name>, n: Member)
    requires Valid(plan) && n !in plan.slots && t !in plan.tracks
    requires n == File(t) || (n.Dir? && n.path != [] && n.path < addr)
    ensures var tracks := plan.tracks[t := addr]; Live(tracks, n) && Intro(tracks, n) == t
  {
    hide NameOf;
    var tracks := plan.tracks[t := addr];
    assert Under(tracks, n, t);
    if n.Dir? {
      assert t in tracks && n.path < tracks[t];
      forall u | Under(tracks, n, u)
        ensures u == t
      {
        if u != t {
          assert Live(plan.tracks, n) by { assert u in plan.tracks && n.path < plan.tracks[u]; }
          ValidMembers(plan, n);
        }
      }
    }
    assert Under(tracks, n, Intro(tracks, n));
  }

  /** A group whose tracks all precede the inserted one stays correct. */
  lemma InsertAscending(vocab: Vocabulary, plan: Plan, t: int, addr: seq<Name>, g: seq<Name>)
    requires Valid(plan) && Tame(vocab, plan) && Correct(plan, g) && g != [] && g <= addr
    requires WordPath(vocab, addr) && t !in plan.tracks
    requires forall u | u in plan.tracks && g <= plan.tracks[u] :: u < t
    ensures Correct(Insert(plan, t, addr), g)
  {
    WordComponents(vocab, addr);
    if Dir(g) in plan.slots && g < addr {
      assert Under(plan.tracks, Dir(g), Intro(plan.tracks, Dir(g)));
      InsertUnmoved(plan, t, addr, g);
    } else {
      InsertExtends(vocab, plan, t, addr, g, if g == addr then File(t) else Dir(g));
    }
  }

  lemma InsertExtends(vocab: Vocabulary, plan: Plan, t: int, addr: seq<Name>, g: seq<Name>, n: Member)
    requires Valid(plan) && Tame(vocab, plan) && Correct(plan, g) && g != [] && g <= addr
    requires WordPath(vocab, addr) && t !in plan.tracks && n !in plan.slots
    requires n == if g == addr then File(t) else Dir(g)
    requires forall u | u in plan.tracks && g <= plan.tracks[u] :: u < t
    ensures Correct(Insert(plan, t, addr), g)
  {
    hide Insert, FirstFree, SlotName, Intro, Separate, NameOf, WordPath;
    var q := Insert(plan, t, addr);
    WordComponents(vocab, addr);
    PrefixWord(vocab, addr, g);
    InsertWellFormed(plan, t, addr);
    forall m
      ensures InGroup(q, g, m) <==> InGroup(plan, g, m) || m == n
      ensures InGroup(plan, g, m) ==> m in q.slots && q.slots[m] == plan.slots[m]
    {
      InsertGroup(plan, t, addr, g, m);
    }
    forall m | InGroup(plan, g, m)
      ensures Live(q.tracks, m) && Intro(q.tracks, m) == Intro(plan.tracks, m) < t
    {
      assert Under(plan.tracks, m, Intro(plan.tracks, m));
      IntroKept(plan.tracks, m, t, addr);
    }
    NewMemberIntro(plan, t, addr, n);
    InsertSlots(plan, t, addr, n);
    FirstFreeInGroup(vocab, plan, g);
    CorrectExtended(plan, q, g, n);
  }

  /** A directory alone in its group stays at its base rank whatever is inserted below it. */
  lemma InsertBelowSingleton(plan: Plan, t: int, addr: seq<Name>, g: seq<Name>)
    requires Valid(plan) && g != [] && g < addr && AreComponents(addr) && t !in plan.tracks
    requires Alone(plan, g, Dir(g))
    ensures Alone(Insert(plan, t, addr), g, Dir(g)) && Correct(Insert(plan, t, addr), g)
  {
    hide Insert, FirstFree, SlotName, Intro, Base;
    var q := Insert(plan, t, addr);
    InsertValid(plan, t, addr);
    forall x
      ensures InGroup(q, g, x) <==> x == Dir(g)
      ensures InGroup(plan, g, x) ==> x in q.slots && q.slots[x] == plan.slots[x]
    {
      InsertGroup(plan, t, addr, g, x);
    }
    assert InGroup(plan, g, Dir(g));
    AloneCorrect(q, g, Dir(g));
  }
}
