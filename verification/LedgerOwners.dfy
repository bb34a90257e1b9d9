/**
  When the invariant that the documentation of the pool gives is kept: the rules of the
  handles under which every buffer that holds bytes is in the registry or on its way.
 */
module LedgerOwners {
  import opened Bytes
  import opened Ledger

  // ----- Owners ----------------------------------------------------------------------------------------

  /** A release that has taken the buffer off the registry and not yet emptied it. */
  predicate Collects(pc: Pc, b: nat) {
    ((pc.WantBuffer? || pc.HasBuffer?) && pc.job.Release? && pc.b == b) || (pc.Clearing? && pc.b == b)
  }

  /** A registration that has not reached the registry. */
  predicate Enters(pc: Pc, b: nat) { (pc.Registering? || pc.Inserting?) && pc.key == pc.b == b }

  /** A release that has not reached the registry. */
  predicate Ends(pc: Pc, b: nat) { (pc.Releasing? || pc.Removing?) && pc.key == b }

  predicate HasJob(pc: Pc) { pc.WantBuffer? || pc.HasBuffer? || pc.Recovering? || pc.Recovered? }

  /** A read of the buffer that may still fill it. */
  predicate Reads(pc: Pc, b: nat) {
    (HasJob(pc) && pc.job.Read? && pc.b == b) ||
    ((pc.Permitting? || pc.WantRegistry? || pc.Snapshotting? || pc.Evicting? || pc.EvictReading? || pc.EvictHolding? ||
      pc.EvictCleared? || pc.Filling?) && pc.b == b)
  }

  /** A store into the buffer that has its epoch test ahead of it. */
  predicate Pending(pc: Pc, b: nat) { HasJob(pc) && pc.job.Store? && pc.b == b }

  /** The thread may yet put bytes into the buffer, as things stand. */
  predicate Uses(s: State, pc: Pc, b: nat) { Reads(pc, b) || (Pending(pc, b) && Fresh(s, pc.job, b)) }

  ghost predicate Entering(s: State, b: nat) { exists t: nat :: t < |s.threads| && Enters(s.threads[t], b) }

  ghost predicate Collected(s: State, b: nat) { exists t: nat :: t < |s.threads| && Collects(s.threads[t], b) }

  ghost predicate Ending(s: State, b: nat) { exists t: nat :: t < |s.threads| && Ends(s.threads[t], b) }

  ghost predicate Owned(s: State, b: nat) { Registered(s, b) || Entering(s, b) || Collected(s, b) }

  /** The handle of the buffer is open and has registered it, or is about to. */
  ghost predicate Live(s: State, b: nat) { (Registered(s, b) || Entering(s, b)) && !Ending(s, b) }

  // ----- The rules --------------------------------------------------------------------------------------

  /**
    A buffer is registered under its own address; it is read, and jobs for it are dispatched,
    through an open handle; when the last reference to the handle goes no read of it is still
    going and no job still waiting has the buffer's epoch.  No thread panics.
   */
  ghost predicate Lawful(s: State, a: Action) {
    match a
    case StartRegister(k, b) => k == b
    case StartRead(b) => Live(s, b)
    case StartStore(b) => Live(s, b)
    case StartRelease(k) => forall t | 0 <= t < |s.threads| :: !Uses(s, s.threads[t], k)
    case Panic => false
    case _ => true
  }

  ghost predicate Keyed(s: State) {
    (forall k | k in s.registry :: s.registry[k] == k) &&
    forall t | 0 <= t < |s.threads| && (s.threads[t].Registering? || s.threads[t].Inserting?) :: s.threads[t].key == s.threads[t].b
  }

  /** Jobs carry epochs of the past. */
  predicate Dated(s: State) {
    forall t | 0 <= t < |s.threads| && HasJob(s.threads[t]) && s.threads[t].job.Store? ::
      s.threads[t].b < |s.epochs| && s.threads[t].job.epoch <= s.epochs[s.threads[t].b]
  }

  ghost predicate UsedAreLive(s: State) {
    forall t, b: nat | 0 <= t < |s.threads| && Uses(s, s.threads[t], b) :: Live(s, b)
  }

  /** A buffer whose store has passed the epoch test, or that holds bytes, has an owner. */
  ghost predicate AllOwned(s: State) {
    (forall t | 0 <= t < |s.threads| && s.threads[t].Storing? :: Owned(s, s.threads[t].b)) &&
    forall b: nat | b < |s.bytes| && s.bytes[b] > 0 :: Owned(s, b)
  }

  ghost predicate Kept(s: State) { s.poisoned == {} && s.lost == 0 && Keyed(s) && Dated(s) && UsedAreLive(s) && AllOwned(s) }

  // ----- What one step does ------------------------------------------------------------------------------

  ghost predicate Fine(s: State, t: nat, a: Action) { Inv(s) && Kept(s) && Enabled(s, t, a) && Lawful(s, a) }

  lemma FineParts(s: State, t: nat, a: Action)
    requires Fine(s, t, a)
    ensures t < |s.threads| && WellNamed(s) && Enabled(s, t, a) && s.poisoned == {} && s.lost == 0 && !a.Panic?
    ensures |Effect(s, t, a).threads| == |s.threads| && |Effect(s, t, a).bytes| == |s.bytes|
    ensures forall u | 0 <= u < |s.threads| && u != t :: Effect(s, t, a).threads[u] == s.threads[u]
  {
    hide Effect, WellNamed, Keyed, Dated, UsedAreLive, AllOwned, Balanced, Current, Exclusive;
    OthersStay(s, t, a);
  }

  lemma RegistryStep(s: State, t: nat, a: Action)
    requires WellNamed(s) && Enabled(s, t, a)
    ensures var s2, pc := Effect(s, t, a), s.threads[t];
            |s2.threads| == |s.threads| &&
            (a.InsertEntry? ==> pc.Inserting? && s2.registry == s.registry[pc.key := pc.b]) &&
            (a.RemoveEntry? ==> pc.Removing? && s2.registry == (if pc.key in s.registry then s.registry - {pc.key} else s.registry) &&
                                (pc.key in s.registry ==> s2.threads[t] == WantBuffer(Release, s.registry[pc.key]))) &&
            (!a.InsertEntry? && !a.RemoveEntry? ==> s2.registry == s.registry)
  {
    hide BufferFree, RegistryFree, Holds, Registered, Reconciled, Uncharged, Unsettled, AllBelow, Named;
    NamedParts(s, t);
  }

  lemma NobodyDies(s: State, t: nat, a: Action)
    requires WellNamed(s) && Enabled(s, t, a) && s.poisoned == {} && s.lost == 0 && !a.Panic?
    ensures Effect(s, t, a).poisoned == {} && Effect(s, t, a).lost == 0
  {
    hide BufferFree, RegistryFree, Holds, Registered, Reconciled, Uncharged, Unsettled, AllBelow, Named;
    NamedParts(s, t);
  }

  lemma CollectorStep(s: State, t: nat, a: Action, b: nat)
    requires WellNamed(s) && Enabled(s, t, a) && s.poisoned == {} && !a.Panic? && Collects(s.threads[t], b)
    ensures var s2 := Effect(s, t, a);
            |s2.threads| == |s.threads| && |s2.bytes| == |s.bytes| && b < |s.bytes| &&
            (Collects(s2.threads[t], b) || (Holds(s.threads[t], b) && s2.bytes[b] == 0))
  {
    hide BufferFree, RegistryFree, Registered, Reconciled, Uncharged, Unsettled, AllBelow, Named;
    NamedParts(s, t);
  }

  /** Only a registration enters, and only a release that begins ends something. */
  lemma EntererStep(s: State, t: nat, a: Action, b: nat)
    requires WellNamed(s) && Enabled(s, t, a) && !a.Panic?
    ensures var s2 := Effect(s, t, a);
            |s2.threads| == |s.threads| && (Enters(s.threads[t], b) ==> Enters(s2.threads[t], b) || a.InsertEntry?) &&
            (Ends(s2.threads[t], b) ==> Ends(s.threads[t], b) || a == StartRelease(b))
  {
    hide BufferFree, RegistryFree, Registered, Reconciled, Uncharged, Unsettled, AllBelow, Named, Holds;
    NamedParts(s, t);
  }

  lemma KeyStep(s: State, t: nat, a: Action)
    requires WellNamed(s) && Enabled(s, t, a)
    ensures var s2 := Effect(s, t, a);
            |s2.threads| == |s.threads| &&
            (s2.threads[t].Registering? || s2.threads[t].Inserting? ==>
               a == StartRegister(s2.threads[t].key, s2.threads[t].b) ||
               (s.threads[t].Registering? && s.threads[t].key == s2.threads[t].key && s.threads[t].b == s2.threads[t].b))
  {
    hide BufferFree, RegistryFree, Registered, Reconciled, Uncharged, Unsettled, AllBelow, Named, Holds;
    NamedParts(s, t);
  }

  lemma ReaderStep(s: State, t: nat, a: Action, b: nat)
    requires WellNamed(s) && Enabled(s, t, a)
    ensures var s2 := Effect(s, t, a);
            |s2.threads| == |s.threads| && (Reads(s2.threads[t], b) ==> Reads(s.threads[t], b) || a == StartRead(b))
  {
    hide BufferFree, RegistryFree, Registered, Reconciled, Uncharged, Unsettled, AllBelow, Named, Holds;
    NamedParts(s, t);
  }

  lemma JobStep(s: State, t: nat, a: Action, b: nat)
    requires WellNamed(s) && Enabled(s, t, a)
    ensures var s2 := Effect(s, t, a);
            |s2.threads| == |s.threads| &&
            (Pending(s2.threads[t], b) ==>
               (Pending(s.threads[t], b) && s2.threads[t].job == s.threads[t].job) ||
               (a == StartStore(b) && b < |s.epochs| && s2.threads[t].job == Store(s.epochs[b])))
  {
    hide BufferFree, RegistryFree, Registered, Reconciled, Uncharged, Unsettled, AllBelow, Named, Holds;
    NamedParts(s, t);
  }

  lemma StorerStep(s: State, t: nat, a: Action)
    requires WellNamed(s) && Enabled(s, t, a)
    ensures var s2 := Effect(s, t, a);
            |s2.threads| == |s.threads| && (s2.threads[t].Storing? ==> Uses(s, s.threads[t], s2.threads[t].b) && a.BeginStore?)
  {
    hide BufferFree, RegistryFree, Registered, Reconciled, Uncharged, Unsettled, AllBelow, Named, Holds;
    NamedParts(s, t);
  }

  /** A release of its handle, or a seek of its reader, and nothing else, moves a buffer on to its next epoch. */
  predicate Redates(s: State, t: nat, a: Action, b: nat)
    requires t < |s.threads|
  {
    a == Retire(b) || (a == Miss(true) && s.threads[t].HasBuffer? && s.threads[t].b == b)
  }

  lemma EpochStep(s: State, t: nat, a: Action)
    requires WellNamed(s) && Enabled(s, t, a)
    ensures var s2 := Effect(s, t, a);
            |s2.epochs| == |s.epochs| && forall b | 0 <= b < |s.epochs| :: s2.epochs[b] == s.epochs[b] + if Redates(s, t, a, b) then 1 else 0
  {
    hide BufferFree, RegistryFree, Registered, Reconciled, Uncharged, Unsettled, AllBelow, Named, Holds;
    NamedParts(s, t);
  }

  /** Only a fill and a store add bytes. */
  lemma GrowthStep(s: State, t: nat, a: Action, b: nat)
    requires WellNamed(s) && Enabled(s, t, a) && b < |s.bytes|
    ensures var s2, pc := Effect(s, t, a), s.threads[t];
            |s2.bytes| == |s.bytes| && (s2.bytes[b] <= s.bytes[b] || ((pc.Filling? || pc.Storing?) && pc.b == b))
  {
    hide BufferFree, RegistryFree, Registered, Reconciled, Uncharged, Unsettled, AllBelow, Named, Holds;
    NamedParts(s, t);
  }

  // ----- What every step keeps -----------------------------------------------------------------------------

  lemma StepKeyed(s: State, t: nat, a: Action)
    requires Fine(s, t, a)
    ensures Keyed(Effect(s, t, a))
  {
    hide Effect, Enabled, WellNamed, Balanced, Current, Exclusive, Dated, UsedAreLive, AllOwned, Live, Uses;
    FineParts(s, t, a);
    RegistryStep(s, t, a);
    KeyStep(s, t, a);
  }

  lemma StepDated(s: State, t: nat, a: Action)
    requires Fine(s, t, a)
    ensures Dated(Effect(s, t, a))
  {
    hide Effect, Enabled, WellNamed, Balanced, Current, Exclusive, Keyed, UsedAreLive, AllOwned, Live, Uses;
    FineParts(s, t, a);
    EpochStep(s, t, a);
    var s2 := Effect(s, t, a);
    forall u | 0 <= u < |s2.threads| && HasJob(s2.threads[u]) && s2.threads[u].job.Store?
      ensures s2.threads[u].b < |s2.epochs| && s2.threads[u].job.epoch <= s2.epochs[s2.threads[u].b]
    {
      if u == t { JobStep(s, t, a, s2.threads[t].b); }
    }
  }

  /** Whoever could use the buffer before the step, or begins to, found it live; and a stale job stays stale. */
  lemma UsedBefore(s: State, t: nat, a: Action, u: nat, b: nat)
    requires Fine(s, t, a) && u < |s.threads|
    requires var s2 := Effect(s, t, a); u < |s2.threads| && Uses(s2, s2.threads[u], b)
    ensures Live(s, b) && a != StartRelease(b)
  {
    hide Effect, Enabled, WellNamed, Balanced, Current, Exclusive, Keyed, AllOwned, Live;
    FineParts(s, t, a);
    EpochStep(s, t, a);
    var s2 := Effect(s, t, a);
    if u == t {
      ReaderStep(s, t, a, b);
      JobStep(s, t, a, b);
    }
    if Uses(s, s.threads[u], b) {
      assert Live(s, b);
    }
  }

  /** A live buffer stays live until a release of it begins. */
  lemma LiveStays(s: State, t: nat, a: Action, b: nat)
    requires Fine(s, t, a) && Live(s, b) && a != StartRelease(b)
    ensures Live(Effect(s, t, a), b)
  {
    hide Effect, Enabled, WellNamed, Balanced, Current, Exclusive, Dated, UsedAreLive, AllOwned, Uses, Ends, Enters;
    FineParts(s, t, a);
    RegistryStep(s, t, a);
    EntererStep(s, t, a, b);
    var s2 := Effect(s, t, a);
    assert !Ending(s2, b) by {
      forall u: nat | u < |s2.threads|
        ensures !Ends(s2.threads[u], b)
      {
        assert !Ends(s.threads[u], b);
      }
    }
    EntryStays(s, t, a, b);
  }

  lemma EntryStays(s: State, t: nat, a: Action, b: nat)
    requires Fine(s, t, a) && (Registered(s, b) || Entering(s, b)) && !Ending(s, b)
    ensures var s2 := Effect(s, t, a); Registered(s2, b) || Entering(s2, b)
  {
    hide Effect, Enabled, WellNamed, Balanced, Current, Exclusive, Dated, UsedAreLive, AllOwned, Uses;
    FineParts(s, t, a);
    RegistryStep(s, t, a);
    EntererStep(s, t, a, b);
    var s2 := Effect(s, t, a);
    assert !Ends(s.threads[t], b);
    if Registered(s, b) {
      assert b in s.registry && s.registry[b] == b;
      assert b in s2.registry && s2.registry[b] == b;
    } else {
      var u: nat :| u < |s.threads| && Enters(s.threads[u], b);
      if u == t && a.InsertEntry? { assert s2.registry[b] == b; } else { assert Enters(s2.threads[u], b); }
    }
  }

  lemma StepUsed(s: State, t: nat, a: Action)
    requires Fine(s, t, a)
    ensures UsedAreLive(Effect(s, t, a))
  {
    hide Effect, Fine, Live, Uses;
    FineParts(s, t, a);
    var s2 := Effect(s, t, a);
    forall u, b: nat | 0 <= u < |s2.threads| && Uses(s2, s2.threads[u], b)
      ensures Live(s2, b)
    {
      UsedBefore(s, t, a, u, b);
      LiveStays(s, t, a, b);
    }
  }

  /** An owner is lost only to the step that empties the buffer under its lock. */
  lemma OwnerStays(s: State, t: nat, a: Action, b: nat)
    requires Fine(s, t, a) && Owned(s, b)
    ensures var s2 := Effect(s, t, a);
            Owned(s2, b) || (t < |s.threads| && Holds(s.threads[t], b) && b < |s2.bytes| && s2.bytes[b] == 0)
  {
    hide Effect, Enabled, WellNamed, Balanced, Current, Exclusive, Dated, UsedAreLive, AllOwned, Uses, Holds;
    FineParts(s, t, a);
    RegistryStep(s, t, a);
    var s2 := Effect(s, t, a);
    if Registered(s, b) {
      assert b in s.registry && s.registry[b] == b;
      if b in s2.registry { assert s2.registry[b] == b; } else { assert Collects(s2.threads[t], b); }
    } else if Entering(s, b) {
      var u: nat :| u < |s.threads| && Enters(s.threads[u], b);
      EntererStep(s, t, a, b);
      if u == t && a.InsertEntry? { assert s2.registry[b] == b; } else { assert Enters(s2.threads[u], b); }
    } else {
      var u: nat :| u < |s.threads| && Collects(s.threads[u], b);
      if u == t { CollectorStep(s, t, a, b); }
      if Collects(s2.threads[u], b) { assert Collected(s2, b); }
    }
  }

  lemma LiveOwned(s: State, b: nat)
    requires Live(s, b)
    ensures Owned(s, b)
  {
  }

  /** The buffer of a store that has passed its test is locked, so nobody empties it. */
  lemma StorerOwned(s: State, t: nat, a: Action, u: nat)
    requires Fine(s, t, a) && u < |s.threads|
    requires var s2 := Effect(s, t, a); u < |s2.threads| && s2.threads[u].Storing?
    ensures var s2 := Effect(s, t, a); Owned(s2, s2.threads[u].b)
  {
    hide Effect, Enabled, WellNamed, Balanced, Current, Dated, Owned, Live, Uses, Keyed;
    FineParts(s, t, a);
    var s2 := Effect(s, t, a);
    var b := s2.threads[u].b;
    if u == t {
      StorerStep(s, t, a);
      assert Live(s, b);
      LiveStays(s, t, a, b);
      LiveOwned(s2, b);
    } else {
      assert s.threads[u].Storing? && Holds(s.threads[u], b);
      OwnerStays(s, t, a, b);
    }
  }

  lemma FilledOwned(s: State, t: nat, a: Action, b: nat)
    requires Fine(s, t, a) && b < |s.bytes|
    requires var s2 := Effect(s, t, a); b < |s2.bytes| && s2.bytes[b] > 0
    ensures Owned(Effect(s, t, a), b)
  {
    hide Effect, Enabled, WellNamed, Balanced, Current, Exclusive, Dated, Owned, Live, Keyed;
    FineParts(s, t, a);
    GrowthStep(s, t, a, b);
    if s.bytes[b] == 0 && s.threads[t].Filling? {
      assert Uses(s, s.threads[t], b);
      assert Live(s, b);
      LiveOwned(s, b);
    }
    OwnerStays(s, t, a, b);
  }

  lemma StepOwned(s: State, t: nat, a: Action)
    requires Fine(s, t, a)
    ensures AllOwned(Effect(s, t, a))
  {
    hide Effect, Fine, Owned;
    FineParts(s, t, a);
    var s2 := Effect(s, t, a);
    forall u | 0 <= u < |s2.threads| && s2.threads[u].Storing?
      ensures Owned(s2, s2.threads[u].b)
    {
      StorerOwned(s, t, a, u);
    }
    forall b: nat | b < |s2.bytes| && s2.bytes[b] > 0
      ensures Owned(s2, b)
    {
      FilledOwned(s, t, a, b);
    }
  }

  lemma StepKept(s: State, t: nat, a: Action)
    requires Fine(s, t, a)
    ensures Kept(Effect(s, t, a))
  {
    hide Effect, Fine, Keyed, Dated, UsedAreLive, AllOwned;
    FineParts(s, t, a);
    NobodyDies(s, t, a);
    StepKeyed(s, t, a);
    StepDated(s, t, a);
    StepUsed(s, t, a);
    StepOwned(s, t, a);
  }

  lemma InitKept(s: State)
    requires Init(s)
    ensures Kept(s)
  {
  }

  // ----- Every lawful run ------------------------------------------------------------------------------------

  ghost predicate LawfulRun(states: seq<State>, movers: seq<nat>, actions: seq<Action>) {
    Run(states, movers, actions) && forall i | 0 <= i < |actions| :: Lawful(states[i], actions[i])
  }

  lemma {:induction false} LawfulKept(states: seq<State>, movers: seq<nat>, actions: seq<Action>, n: nat)
    requires LawfulRun(states, movers, actions) && n <= |actions|
    ensures Kept(states[n])
  {
    hide Effect, Enabled, Inv, Kept, Init, Lawful, WellNamed;
    if n == 0 {
      InitKept(states[0]);
    } else {
      LawfulKept(states, movers, actions, n - 1);
      RunInv(states, movers, actions, n - 1);
      StepKept(states[n - 1], movers[n - 1], actions[n - 1]);
    }
  }

  /** Nothing waits to be charged, entered or collected. */
  predicate Rested(s: State) {
    Quiet(s) && forall t | 0 <= t < |s.threads| ::
      var pc := s.threads[t]; !(pc.Registering? || pc.Inserting? || pc.Clearing? || ((pc.WantBuffer? || pc.HasBuffer?) && pc.job.Release?))
  }

  /**
    In a run under the rules the documented invariant holds at every rest: charged is the
    bytes of the registered buffers.
   */
  lemma ExactInLawfulRuns(states: seq<State>, movers: seq<nat>, actions: seq<Action>, n: nat)
    requires LawfulRun(states, movers, actions) && n <= |actions|
    requires Rested(states[n]) && SumBytes(states[n].bytes) < U64_LIMIT
    ensures states[n].charged == RegisteredBytes(states[n], |states[n].bytes|)
  {
    hide Effect, Enabled, WellNamed, Init, Lawful, Inv, Registered, Keyed, Dated, UsedAreLive;
    var s := states[n];
    LawfulKept(states, movers, actions, n);
    RunInv(states, movers, actions, n);
    forall b: nat | b < |s.bytes| && !Registered(s, b)
      ensures s.bytes[b] == 0
    {
      assert !Entering(s, b) && !Collected(s, b);
      assert s.bytes[b] > 0 ==> Owned(s, b);
    }
    ExactOverRegistered(s);
  }

  /**
    The rule on waiting jobs is the one that `StoredAfterRelease` breaks: its job is dispatched
    through an open handle, and at the release no read is going, but the job is not stale.
   */
  lemma LateJobBreaksTheRule()
    ensures var retired, dispatched := Pair(Idle, Idle, 0, 1, map[0 := 0], 0), Pair(Idle, WantBuffer(Store(1), 0), 0, 1, map[0 := 0], 0);
            Enabled(retired, 1, StartStore(0)) && Lawful(retired, StartStore(0)) &&
            Enabled(dispatched, 0, StartRelease(0)) && !Lawful(dispatched, StartRelease(0)) &&
            forall t | 0 <= t < 2 :: !Reads(dispatched.threads[t], 0)
  {
    var retired, dispatched := Pair(Idle, Idle, 0, 1, map[0 := 0], 0), Pair(Idle, WantBuffer(Store(1), 0), 0, 1, map[0 := 0], 0);
    assert retired.registry[0] == 0;
    assert Registered(retired, 0) && !Ending(retired, 0);
    assert Uses(dispatched, dispatched.threads[1], 0);
  }
}
