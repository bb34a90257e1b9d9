/**
  The read-ahead pool's ledger and locks as a system of steps: readers, prefetch stores,
  evictions, releases and panics interleave freely, each atomic action of the code a step.
 */
module Ledger {
  import opened Outcomes
  import opened Bytes

  /** A store carries the epoch of its buffer at the time it was dispatched. */
  datatype Job = Read | Store(epoch: nat) | Release

  /**
    Where a thread is; the constructor says which locks it holds, which it waits for, and what
    it has read off a buffer: `old` and `new` are the lengths it takes before and after a
    change, `freed` the length it takes before emptying.
   */
  datatype Pc =
    | Idle
    | WantBuffer(job: Job, b: nat)
    | HasBuffer(job: Job, b: nat)
    | Recovering(job: Job, b: nat, freed: nat)
    | Recovered(job: Job, b: nat, freed: nat)
    | Permitting(b: nat)
    | WantRegistry(b: nat)
    | Snapshotting(b: nat)
    | Evicting(b: nat, candidates: seq<nat>)
    | EvictReading(b: nat, victim: nat, freed: nat, candidates: seq<nat>)
    | EvictHolding(b: nat, victim: nat, freed: nat, candidates: seq<nat>)
    | EvictCleared(b: nat, freed: nat, candidates: seq<nat>)
    | Filling(b: nat, old_: nat)
    | Filled(b: nat, old_: nat, new_: nat)
    | Leaving(b: nat)
    | Touching
    | Storing(b: nat, old_: nat)
    | StoreHolding(b: nat, old_: nat, new_: nat)
    | StoreLeft(old_: nat, new_: nat)
    | Registering(key: nat, b: nat)
    | Inserting(key: nat, b: nat)
    | Releasing(key: nat)
    | Removing(key: nat)
    | Clearing(b: nat, freed: nat)
    | ReleaseHolding(b: nat, freed: nat)
    | ReleaseLeft(freed: nat)

  /** Each buffer has its handle's epoch; `lost` gathers what threads that panicked had yet to charge. */
  datatype State = State(
    threads: seq<Pc>,
    bytes: seq<nat>,
    epochs: seq<nat>,
    poisoned: set<nat>,
    registry: map<nat, nat>,
    charged: nat,
    lost: int)

  predicate Holds(pc: Pc, b: nat) {
    match pc
    case HasBuffer(_, x) => x == b
    case Recovering(_, x, _) => x == b
    case Recovered(_, x, _) => x == b
    case Permitting(x) => x == b
    case WantRegistry(x) => x == b
    case Snapshotting(x) => x == b
    case Evicting(x, _) => x == b
    case EvictReading(x, y, _, _) => x == b || y == b
    case EvictHolding(x, y, _, _) => x == b || y == b
    case EvictCleared(x, _, _) => x == b
    case Filling(x, _) => x == b
    case Filled(x, _, _) => x == b
    case Leaving(x) => x == b
    case Storing(x, _) => x == b
    case StoreHolding(x, _, _) => x == b
    case Clearing(x, _) => x == b
    case ReleaseHolding(x, _) => x == b
    case _ => false
  }

  predicate HoldsRegistry(pc: Pc) { pc.Snapshotting? || pc.Inserting? || pc.Removing? }

  predicate WaitsForBuffer(pc: Pc, b: nat) { pc.WantBuffer? && pc.b == b }

  predicate WaitsForRegistry(pc: Pc) { pc.WantRegistry? || pc.Registering? || pc.Releasing? }

  ghost predicate BufferFree(s: State, b: nat) { forall t | 0 <= t < |s.threads| :: !Holds(s.threads[t], b) }

  ghost predicate RegistryFree(s: State) { forall t | 0 <= t < |s.threads| :: !HoldsRegistry(s.threads[t]) }

  // ----- Steps ----------------------------------------------------------------------------------

  datatype Action =
    | StartRead(b: nat)
    | StartStore(b: nat)
    | StartRegister(key: nat, b: nat)
    | StartRelease(key: nat)
    | Retire(b: nat)
    | LockBuffer
    | Empty
    | Recover
    | Hit
    | Miss(seeks: bool)
    | Permit(enough: bool)
    | LockRegistry
    | Snapshot(candidates: seq<nat>)
    | TryEvict
    | DropEvicted
    | ChargeEvicted
    | GiveUp
    | Fill(len: nat)
    | FillFails
    | Reconcile
    | Leave
    | Touch
    | BeginStore
    | StoreWindow(len: nat)
    | Stale
    | DropStored
    | ChargeStored
    | InsertEntry
    | RemoveEntry
    | BeginClear
    | DropReleased
    | ChargeReleased
    | Panic

  function Go(s: State, t: nat, pc: Pc): State
    requires t < |s.threads|
  {
    s.(threads := s.threads[t := pc])
  }

  /** Buffer `b` gets a new length. */
  function Resize(s: State, t: nat, pc: Pc, b: nat, len: nat): State
    requires t < |s.threads| && b < |s.bytes|
  {
    Go(s, t, pc).(bytes := s.bytes[b := len])
  }

  /** A seek or a release of the handle makes the jobs dispatched before it stale. */
  function Bumped(s: State, b: nat, bumps: bool): State
    requires b < |s.epochs|
  {
    if bumps then s.(epochs := s.epochs[b := s.epochs[b] + 1]) else s
  }

  /** `reconcile`: the wrapping counter moves by the difference of the two lengths it is given. */
  function Reconciled(charged: nat, old_: nat, new_: nat): (c: nat)
    ensures c < U64_LIMIT || c == charged
  {
    if new_ > old_ then (charged + (new_ - old_)) % U64_LIMIT
    else if new_ < old_ then (charged - (old_ - new_)) % U64_LIMIT
    else charged
  }

  /** An eviction or a release takes off the bytes it freed. */
  function Uncharged(charged: nat, freed: nat): (c: nat)
    ensures c < U64_LIMIT || c == charged
  {
    if freed > 0 then (charged - freed) % U64_LIMIT else charged
  }

  /** What the thread has done to a buffer and not yet told the ledger, by its own locals. */
  function Unsettled(pc: Pc): int {
    match pc
    case Recovered(_, _, freed) => 0 - freed as int
    case EvictHolding(_, _, freed, _) => 0 - freed as int
    case EvictCleared(_, freed, _) => 0 - freed as int
    case Filled(_, old_, new_) => new_ as int - old_
    case StoreHolding(_, old_, new_) => new_ as int - old_
    case StoreLeft(old_, new_) => new_ as int - old_
    case ReleaseHolding(_, freed) => 0 - freed as int
    case ReleaseLeft(freed) => 0 - freed as int
    case _ => 0
  }

  /** A buffer's length as the thread read it, before it changes the buffer. */
  function Remembers(pc: Pc): Option<(nat, nat)> {
    match pc
    case Recovering(_, b, freed) => Some((b, freed))
    case EvictReading(_, victim, freed, _) => Some((victim, freed))
    case Filling(b, old_) => Some((b, old_))
    case Storing(b, old_) => Some((b, old_))
    case Clearing(b, freed) => Some((b, freed))
    case _ => None
  }

  /** The thread dies; every buffer it held is poisoned and what it had yet to charge never is. */
  function Die(s: State, t: nat): State
    requires t < |s.threads|
  {
    s.(threads := s.threads[t := Idle],
       poisoned := s.poisoned + (set b: nat | b < |s.bytes| && Holds(s.threads[t], b)),
       lost := s.lost + Unsettled(s.threads[t]))
  }

  /** The epoch test of a store. */
  predicate Fresh(s: State, job: Job, b: nat) { job.Store? && b < |s.epochs| && s.epochs[b] == job.epoch }

  ghost predicate Registered(s: State, b: nat) { exists k: nat :: k in s.registry && s.registry[k] == b }

  ghost predicate Enabled(s: State, t: nat, a: Action) {
    t < |s.threads| &&
    var pc := s.threads[t];
    match a
    case StartRead(b) => pc.Idle? && b < |s.bytes|
    case StartStore(b) => pc.Idle? && b < |s.bytes|
    case StartRegister(_, b) => pc.Idle? && b < |s.bytes|
    case StartRelease(_) => pc.Idle?
    case Retire(b) => pc.Idle? && b < |s.bytes|
    case LockBuffer => pc.WantBuffer? && BufferFree(s, pc.b)
    case Empty => Remembers(pc).Some? && !pc.Filling? && !pc.Storing?
    case Recover => pc.Recovered?
    case Hit => pc.HasBuffer? && pc.job.Read?
    case Miss(_) => pc.HasBuffer? && pc.job.Read?
    case Permit(_) => pc.Permitting?
    case LockRegistry => WaitsForRegistry(pc) && RegistryFree(s)
    case Snapshot(cs) => pc.Snapshotting? && forall i | 0 <= i < |cs| :: Registered(s, cs[i])
    case TryEvict => pc.Evicting? && pc.candidates != []
    case DropEvicted => pc.EvictHolding?
    case ChargeEvicted => pc.EvictCleared?
    case GiveUp => pc.Evicting? && pc.candidates == []
    case Fill(_) => pc.Filling?
    case FillFails => pc.Filling?
    case Reconcile => pc.Filled?
    case Leave => pc.Leaving?
    case Touch => pc.Touching?
    case BeginStore => pc.HasBuffer? && pc.job.Store? && Fresh(s, pc.job, pc.b)
    case StoreWindow(_) => pc.Storing?
    case Stale => pc.HasBuffer? && pc.job.Store? && !Fresh(s, pc.job, pc.b)
    case DropStored => pc.StoreHolding?
    case ChargeStored => pc.StoreLeft?
    case InsertEntry => pc.Inserting?
    case RemoveEntry => pc.Removing?
    case BeginClear => pc.HasBuffer? && pc.job.Release?
    case DropReleased => pc.ReleaseHolding?
    case ChargeReleased => pc.ReleaseLeft?
    case Panic => !HoldsRegistry(pc) && exists b: nat :: Holds(pc, b)
  }

  predicate NamesBuffer(pc: Pc) {
    !(pc.Idle? || pc.Touching? || pc.StoreLeft? || pc.Releasing? || pc.Removing? || pc.ReleaseLeft?)
  }

  predicate AllBelow(ids: seq<nat>, n: nat) { forall i | 0 <= i < |ids| :: ids[i] < n }

  /** Indices name buffers that exist. */
  predicate Named(s: State, pc: Pc) {
    (NamesBuffer(pc) ==> pc.b < |s.bytes|) && (pc.EvictReading? || pc.EvictHolding? ==> pc.victim < |s.bytes|) &&
    (pc.Evicting? || pc.EvictReading? || pc.EvictHolding? || pc.EvictCleared? ==> AllBelow(pc.candidates, |s.bytes|))
  }

  ghost predicate WellNamed(s: State) {
    |s.epochs| == |s.bytes| && (forall t | 0 <= t < |s.threads| :: Named(s, s.threads[t])) &&
    forall k | k in s.registry :: s.registry[k] < |s.bytes|
  }

  /** A poisoned lock: readers and stores empty the buffer and carry on, a release gives up. */
  function Locked(s: State, t: nat, job: Job, b: nat): State
    requires t < |s.threads| && b < |s.bytes|
  {
    if b !in s.poisoned then Go(s, t, HasBuffer(job, b))
    else if job.Release? then Die(s, t)
    else Go(s, t, Recovering(job, b, s.bytes[b])).(poisoned := s.poisoned - {b})
  }

  /** `clear`: the buffer whose length was read is emptied. */
  function Emptied(s: State, t: nat): State
    requires t < |s.threads| && Remembers(s.threads[t]).Some? && Remembers(s.threads[t]).value.0 < |s.bytes|
  {
    match s.threads[t]
    case Recovering(job, b, freed) => Resize(s, t, Recovered(job, b, freed), b, 0)
    case EvictReading(b, victim, freed, rest) => Resize(s, t, EvictHolding(b, victim, freed, rest), victim, 0)
    case Clearing(b, freed) => Resize(s, t, ReleaseHolding(b, freed), b, 0)
    case _ => s
  }

  function RegistryLocked(pc: Pc): Pc
    requires WaitsForRegistry(pc)
  {
    match pc
    case WantRegistry(b) => Snapshotting(b)
    case Registering(k, b) => Inserting(k, b)
    case Releasing(k) => Removing(k)
  }

  /** `try_lock`: a buffer that is held or poisoned is skipped. */
  ghost function TriedEviction(s: State, t: nat, b: nat, victim: nat, rest: seq<nat>): State
    requires t < |s.threads| && victim < |s.bytes|
  {
    if BufferFree(s, victim) && victim !in s.poisoned then Go(s, t, EvictReading(b, victim, s.bytes[victim], rest))
    else Go(s, t, Evicting(b, rest))
  }

  function Removed(s: State, t: nat, key: nat): State
    requires t < |s.threads|
  {
    if key in s.registry then Go(s, t, WantBuffer(Release, s.registry[key])).(registry := s.registry - {key})
    else Go(s, t, Idle)
  }

  ghost function Effect(s: State, t: nat, a: Action): State
    requires WellNamed(s) && Enabled(s, t, a)
  {
    var pc := s.threads[t];
    assert Named(s, pc);
    match a
    case StartRead(b) => Go(s, t, WantBuffer(Read, b))
    case StartStore(b) => Go(s, t, WantBuffer(Store(s.epochs[b]), b))
    case StartRegister(k, b) => Go(s, t, Registering(k, b))
    case StartRelease(k) => Go(s, t, Releasing(k))
    case Retire(b) => Bumped(s, b, true)
    case LockBuffer => Locked(s, t, pc.job, pc.b)
    case Empty => Emptied(s, t)
    case Recover => Go(s, t, HasBuffer(pc.job, pc.b)).(charged := Reconciled(s.charged, pc.freed, 0))
    case Hit => Go(s, t, Filled(pc.b, s.bytes[pc.b], s.bytes[pc.b]))
    case Miss(seeks) => Bumped(Go(s, t, Permitting(pc.b)), pc.b, seeks)
    case Permit(enough) => Go(s, t, if enough then Filling(pc.b, s.bytes[pc.b]) else WantRegistry(pc.b))
    case LockRegistry => Go(s, t, RegistryLocked(pc))
    case Snapshot(cs) => Go(s, t, Evicting(pc.b, cs))
    case TryEvict => TriedEviction(s, t, pc.b, pc.candidates[0], pc.candidates[1..])
    case DropEvicted => Go(s, t, EvictCleared(pc.b, pc.freed, pc.candidates))
    case ChargeEvicted =>
      Go(s, t, if pc.freed > 0 then Permitting(pc.b) else Evicting(pc.b, pc.candidates)).(charged := Uncharged(s.charged, pc.freed))
    case GiveUp => Go(s, t, Filling(pc.b, s.bytes[pc.b]))
    case Fill(len) => Resize(s, t, Filled(pc.b, pc.old_, len), pc.b, len)
    case FillFails => Go(s, t, Idle)
    case Reconcile => Go(s, t, Leaving(pc.b)).(charged := Reconciled(s.charged, pc.old_, pc.new_))
    case Leave => Go(s, t, Touching)
    case Touch => Go(s, t, Idle)
    case BeginStore => Go(s, t, Storing(pc.b, s.bytes[pc.b]))
    case StoreWindow(len) => Resize(s, t, StoreHolding(pc.b, pc.old_, len), pc.b, len)
    case Stale => Go(s, t, Idle)
    case DropStored => Go(s, t, StoreLeft(pc.old_, pc.new_))
    case ChargeStored => Go(s, t, Idle).(charged := Reconciled(s.charged, pc.old_, pc.new_))
    case InsertEntry => Go(s, t, Idle).(registry := s.registry[pc.key := pc.b])
    case RemoveEntry => Removed(s, t, pc.key)
    case BeginClear => Go(s, t, Clearing(pc.b, s.bytes[pc.b]))
    case DropReleased => Go(s, t, ReleaseLeft(pc.freed))
    case ChargeReleased => Go(s, t, Idle).(charged := Uncharged(s.charged, pc.freed))
    case Panic => Die(s, t)
  }

  // ----- The ledger --------------------------------------------------------------------------------

  function SumBytes(bytes: seq<nat>): nat {
    if bytes == [] then 0 else SumBytes(bytes[..|bytes| - 1]) + bytes[|bytes| - 1]
  }

  function SumUnsettled(threads: seq<Pc>): int {
    if threads == [] then 0 else SumUnsettled(threads[..|threads| - 1]) + Unsettled(threads[|threads| - 1])
  }

  /** Charged, plus everything not yet applied, is the bytes of all buffers, modulo 2^64. */
  predicate Balanced(s: State) {
    (s.charged + SumUnsettled(s.threads) + s.lost - SumBytes(s.bytes)) % U64_LIMIT == 0
  }

  /** What a thread remembers of a buffer's length is the buffer's length still. */
  predicate Current(s: State) {
    forall t | 0 <= t < |s.threads| && Remembers(s.threads[t]).Some? ::
      var (b, len) := Remembers(s.threads[t]).value; b < |s.bytes| && s.bytes[b] == len
  }

  lemma {:induction false} SumBytesUpdate(bytes: seq<nat>, b: nat, len: nat)
    requires b < |bytes|
    ensures SumBytes(bytes[b := len]) == SumBytes(bytes) + len - bytes[b]
  {
    var n := |bytes| - 1;
    if b < n {
      SumBytesUpdate(bytes[..n], b, len);
      assert bytes[b := len][..n] == bytes[..n][b := len];
    } else {
      assert bytes[b := len][..n] == bytes[..n];
    }
  }

  lemma {:induction false} SumUnsettledUpdate(threads: seq<Pc>, t: nat, pc: Pc)
    requires t < |threads|
    ensures SumUnsettled(threads[t := pc]) == SumUnsettled(threads) + Unsettled(pc) - Unsettled(threads[t])
  {
    hide Unsettled;
    var n := |threads| - 1;
    if t < n {
      SumUnsettledUpdate(threads[..n], t, pc);
      assert threads[t := pc][..n] == threads[..n][t := pc];
    } else {
      assert threads[t := pc][..n] == threads[..n];
    }
  }

  /** Wrapping changes nothing modulo 2^64. */
  lemma Wrapped(charged: int, delta: int, rest: int)
    requires (charged + delta + rest) % U64_LIMIT == 0
    ensures ((charged + delta) % U64_LIMIT + rest) % U64_LIMIT == 0
  {
    var q := (charged + delta) / U64_LIMIT;
    assert (charged + delta) % U64_LIMIT + rest == (charged + delta + rest) - U64_LIMIT * q;
    Shifted(charged + delta + rest, q);
  }

  lemma Shifted(x: int, q: int)
    requires x % U64_LIMIT == 0
    ensures (x - U64_LIMIT * q) % U64_LIMIT == 0
  {
    var k := x / U64_LIMIT;
    assert x - U64_LIMIT * q == U64_LIMIT * (k - q);
  }

  lemma GoBalanced(s: State, t: nat, pc: Pc)
    requires Balanced(s) && t < |s.threads| && Unsettled(pc) == Unsettled(s.threads[t])
    ensures Balanced(Go(s, t, pc))
  {
    hide Unsettled;
    SumUnsettledUpdate(s.threads, t, pc);
  }

  /** A change of length balances when it is what the thread's locals say it is. */
  lemma ResizeBalanced(s: State, t: nat, pc: Pc, b: nat, len: nat)
    requires Balanced(s) && t < |s.threads| && b < |s.bytes|
    requires Unsettled(pc) - Unsettled(s.threads[t]) == len - s.bytes[b]
    ensures Balanced(Resize(s, t, pc, b, len))
  {
    hide Unsettled;
    SumUnsettledUpdate(s.threads, t, pc);
    SumBytesUpdate(s.bytes, b, len);
  }

  /** So does a charge of what the thread's locals say is due. */
  lemma ChargeBalanced(s: State, t: nat, pc: Pc, charged: nat)
    requires Balanced(s) && t < |s.threads| && Unsettled(pc) == 0
    requires charged == (s.charged + Unsettled(s.threads[t])) % U64_LIMIT
    ensures Balanced(Go(s, t, pc).(charged := charged))
  {
    hide Unsettled;
    var d := Unsettled(s.threads[t]);
    SumUnsettledUpdate(s.threads, t, pc);
    Wrapped(s.charged, d, SumUnsettled(s.threads) - d + s.lost - SumBytes(s.bytes));
  }

  lemma ChargesAre(charged: nat, old_: nat, new_: nat)
    requires charged < U64_LIMIT
    ensures Reconciled(charged, old_, new_) == (charged as int + new_ - old_) % U64_LIMIT
    ensures Uncharged(charged, old_) == (charged as int - old_) % U64_LIMIT
  {
  }

  lemma DieBalanced(s: State, t: nat)
    requires Balanced(s) && t < |s.threads|
    ensures Balanced(Die(s, t))
  {
    hide Holds, Unsettled;
    SumUnsettledUpdate(s.threads, t, Idle);
    assert Unsettled(Idle) == 0 by { IdleSettled(); }
  }

  lemma IdleSettled()
    ensures Unsettled(Idle) == 0
  {
  }

  lemma RegistryAside(s: State, registry: map<nat, nat>)
    requires Balanced(s)
    ensures Balanced(s.(registry := registry))
  {
  }

  lemma BumpBalanced(s: State, b: nat, bumps: bool)
    requires Balanced(s) && b < |s.epochs|
    ensures Balanced(Bumped(s, b, bumps))
  {
  }

  lemma PoisonAside(s: State, poisoned: set<nat>)
    requires Balanced(s)
    ensures Balanced(s.(poisoned := poisoned))
  {
  }

  /** The indices a step uses. */
  lemma NamedParts(s: State, t: nat)
    requires WellNamed(s) && t < |s.threads|
    ensures var pc := s.threads[t];
            (NamesBuffer(pc) ==> pc.b < |s.bytes|) && (pc.Evicting? && pc.candidates != [] ==> pc.candidates[0] < |s.bytes|) &&
            (Remembers(pc).Some? ==> Remembers(pc).value.0 < |s.bytes|) && |s.epochs| == |s.bytes|
  {
    assert Named(s, s.threads[t]);
  }

  /**
    Every step keeps the ledger balanced: a thread that changes a buffer still remembers the
    buffer's true length, and a thread that charges does so by the lengths it took.
   */
  lemma StepBalanced(s: State, t: nat, a: Action)
    requires WellNamed(s) && Enabled(s, t, a) && Balanced(s) && Current(s) && s.charged < U64_LIMIT
    ensures Balanced(Effect(s, t, a))
  {
    hide Balanced, Effect, Enabled, WellNamed, Current;
    if Charges(a) {
      ChargeStepBalanced(s, t, a);
    } else if Alters(a) {
      AlteringStepBalanced(s, t, a);
    } else if Bumps(a) {
      BumpStepBalanced(s, t, a);
    } else {
      PassingStepBalanced(s, t, a);
    }
  }

  /** Steps that change more than the mover's place without charging. */
  predicate Alters(a: Action) {
    a.Empty? || a.Fill? || a.StoreWindow? || a.LockBuffer? || a.Panic? || a.InsertEntry? || a.RemoveEntry?
  }

  predicate Bumps(a: Action) { a.Retire? || a.Miss? }

  lemma AlteringStepBalanced(s: State, t: nat, a: Action)
    requires WellNamed(s) && Enabled(s, t, a) && Balanced(s) && Current(s) && Alters(a)
    ensures Balanced(Effect(s, t, a))
  {
    hide Balanced, Go, Resize, Die, BufferFree, RegistryFree, Current, Holds;
    NamedParts(s, t);
    var pc := s.threads[t];
    match a {
      case LockBuffer =>
        DieBalanced(s, t);
        GoBalanced(s, t, HasBuffer(pc.job, pc.b));
        GoBalanced(s, t, Recovering(pc.job, pc.b, s.bytes[pc.b]));
        PoisonAside(Go(s, t, Recovering(pc.job, pc.b, s.bytes[pc.b])), s.poisoned - {pc.b});
      case Panic => DieBalanced(s, t);
      case InsertEntry =>
        GoBalanced(s, t, Idle);
        RegistryAside(Go(s, t, Idle), s.registry[pc.key := pc.b]);
      case RemoveEntry =>
        GoBalanced(s, t, Idle);
        if pc.key in s.registry {
          GoBalanced(s, t, WantBuffer(Release, s.registry[pc.key]));
          RegistryAside(Go(s, t, WantBuffer(Release, s.registry[pc.key])), s.registry - {pc.key});
        }
      case Empty => EmptiedBalanced(s, t);
      case Fill(len) => GrownBalanced(s, t, Filled(pc.b, pc.old_, len), len);
      case StoreWindow(len) => GrownBalanced(s, t, StoreHolding(pc.b, pc.old_, len), len);
    }
  }

  lemma BumpStepBalanced(s: State, t: nat, a: Action)
    requires WellNamed(s) && Enabled(s, t, a) && Balanced(s) && Bumps(a)
    ensures Balanced(Effect(s, t, a))
  {
    hide Balanced, BufferFree, RegistryFree, Holds, Bumped;
    NamedParts(s, t);
    match a {
      case Retire(b) => BumpBalanced(s, b, true);
      case Miss(seeks) =>
        var b := s.threads[t].b;
        GoBalanced(s, t, Permitting(b));
        BumpBalanced(Go(s, t, Permitting(b)), b, seeks);
    }
  }

  lemma PassingStepBalanced(s: State, t: nat, a: Action)
    requires WellNamed(s) && Enabled(s, t, a) && Balanced(s) && !Alters(a) && !Charges(a) && !Bumps(a)
    ensures Balanced(Effect(s, t, a))
  {
    hide Balanced, Go, BufferFree, RegistryFree, Holds, Registered;
    NamedParts(s, t);
    forall pc2 | Unsettled(pc2) == Unsettled(s.threads[t])
      ensures Balanced(Go(s, t, pc2))
    {
      GoBalanced(s, t, pc2);
    }
  }

  predicate Charges(a: Action) { a.Recover? || a.Reconcile? || a.ChargeStored? || a.ChargeEvicted? || a.ChargeReleased? }

  lemma ChargeStepBalanced(s: State, t: nat, a: Action)
    requires WellNamed(s) && Enabled(s, t, a) && Balanced(s) && s.charged < U64_LIMIT && Charges(a)
    ensures Balanced(Effect(s, t, a))
  {
    hide Balanced, BufferFree, RegistryFree, Reconciled, Uncharged, Holds, Go, WellNamed;
    var pc := s.threads[t];
    match a {
      case Recover => ChargedBalanced(s, t, HasBuffer(pc.job, pc.b), pc.freed, 0);
      case Reconcile => ChargedBalanced(s, t, Leaving(pc.b), pc.old_, pc.new_);
      case ChargeStored => ChargedBalanced(s, t, Idle, pc.old_, pc.new_);
      case ChargeEvicted =>
        ChargedBalanced(s, t, if pc.freed > 0 then Permitting(pc.b) else Evicting(pc.b, pc.candidates), pc.freed, 0);
      case ChargeReleased => ChargedBalanced(s, t, Idle, pc.freed, 0);
    }
  }

  lemma EmptiedBalanced(s: State, t: nat)
    requires Balanced(s) && Current(s) && t < |s.threads| && Remembers(s.threads[t]).Some?
    ensures Remembers(s.threads[t]).value.0 < |s.bytes| && Balanced(Emptied(s, t))
  {
    hide Balanced, Resize;
    match s.threads[t] {
      case Recovering(job, b, freed) => ResizeBalanced(s, t, Recovered(job, b, freed), b, 0);
      case EvictReading(b, victim, freed, rest) => ResizeBalanced(s, t, EvictHolding(b, victim, freed, rest), victim, 0);
      case Clearing(b, freed) => ResizeBalanced(s, t, ReleaseHolding(b, freed), b, 0);
      case _ =>
    }
  }

  lemma GrownBalanced(s: State, t: nat, pc: Pc, len: nat)
    requires Balanced(s) && Current(s) && t < |s.threads|
    requires s.threads[t].Filling? || s.threads[t].Storing?
    requires Unsettled(pc) == len as int - s.threads[t].old_
    ensures s.threads[t].b < |s.bytes| && Balanced(Resize(s, t, pc, s.threads[t].b, len))
  {
    hide Balanced, Resize;
    assert Remembers(s.threads[t]).Some?;
    ResizeBalanced(s, t, pc, s.threads[t].b, len);
  }

  lemma ChargedBalanced(s: State, t: nat, pc: Pc, old_: nat, new_: nat)
    requires Balanced(s) && t < |s.threads| && Unsettled(pc) == 0 && s.charged < U64_LIMIT
    requires Unsettled(s.threads[t]) == new_ as int - old_
    ensures Balanced(Go(s, t, pc).(charged := Reconciled(s.charged, old_, new_)))
    ensures new_ == 0 ==> Balanced(Go(s, t, pc).(charged := Uncharged(s.charged, old_)))
  {
    hide Balanced, Unsettled, Reconciled, Uncharged;
    ChargesAre(s.charged, old_, new_);
    ChargeBalanced(s, t, pc, Reconciled(s.charged, old_, new_));
    if new_ == 0 { ChargeBalanced(s, t, pc, Uncharged(s.charged, old_)); }
  }

  // ----- No stale length -----------------------------------------------------------------------------

  /** A step changes no buffer but those its thread holds. */
  lemma BytesHeld(s: State, t: nat, a: Action, b: nat)
    requires WellNamed(s) && Enabled(s, t, a) && b < |s.bytes|
    ensures var s2 := Effect(s, t, a); |s2.bytes| == |s.bytes| && (s2.bytes[b] == s.bytes[b] || Holds(s.threads[t], b))
  {
    hide BufferFree, RegistryFree, WellNamed;
    NamedParts(s, t);
  }

  /** What the mover remembers after its step it has just read. */
  lemma MoverCurrent(s: State, t: nat, a: Action)
    requires WellNamed(s) && Enabled(s, t, a)
    ensures var s2 := Effect(s, t, a);
            |s2.threads| == |s.threads| &&
            (Remembers(s2.threads[t]).Some? ==>
               var (b, len) := Remembers(s2.threads[t]).value; b < |s2.bytes| && s2.bytes[b] == len)
  {
    hide BufferFree, RegistryFree, WellNamed, Holds;
    NamedParts(s, t);
  }

  lemma RememberedHeld(pc: Pc)
    ensures Remembers(pc).Some? ==> Holds(pc, Remembers(pc).value.0)
  {
  }

  /** Because locks exclude, no step makes a remembered length stale. */
  lemma StepCurrent(s: State, t: nat, a: Action)
    requires WellNamed(s) && Enabled(s, t, a) && Current(s) && Exclusive(s)
    ensures Current(Effect(s, t, a))
  {
    hide Effect, WellNamed, Holds, HoldsRegistry, Remembers;
    assert t < |s.threads|;
    hide Enabled;
    var s2 := Effect(s, t, a);
    OthersStay(s, t, a);
    MoverCurrent(s, t, a);
    forall u | 0 <= u < |s2.threads| && Remembers(s2.threads[u]).Some?
      ensures var (b, len) := Remembers(s2.threads[u]).value; b < |s2.bytes| && s2.bytes[b] == len
    {
      if u != t {
        RememberedHeld(s.threads[u]);
        BytesHeld(s, t, a, Remembers(s.threads[u]).value.0);
      }
    }
  }

  lemma StepCharged(s: State, t: nat, a: Action)
    requires WellNamed(s) && Enabled(s, t, a) && s.charged < U64_LIMIT
    ensures Effect(s, t, a).charged < U64_LIMIT
  {
    hide BufferFree, RegistryFree, WellNamed, Holds;
    NamedParts(s, t);
  }

  // ----- Invariants of every run -------------------------------------------------------------------

  /** Between changing a buffer and telling the ledger. */
  predicate Between(pc: Pc) {
    pc.Recovered? || pc.EvictHolding? || pc.EvictCleared? || pc.Filled? || pc.StoreHolding? || pc.StoreLeft? ||
    pc.ReleaseHolding? || pc.ReleaseLeft?
  }

  /** Every buffer change has been charged. */
  predicate Quiet(s: State) { forall t | 0 <= t < |s.threads| :: !Between(s.threads[t]) }

  /** No lock has two holders. */
  ghost predicate Exclusive(s: State) {
    forall t, u | 0 <= t < |s.threads| && 0 <= u < |s.threads| && t != u ::
      !(HoldsRegistry(s.threads[t]) && HoldsRegistry(s.threads[u])) &&
      forall b: nat :: !(Holds(s.threads[t], b) && Holds(s.threads[u], b))
  }

  ghost predicate Inv(s: State) { WellNamed(s) && Balanced(s) && Current(s) && Exclusive(s) && s.charged < U64_LIMIT }

  predicate Init(s: State) {
    |s.epochs| == |s.bytes| && (forall t | 0 <= t < |s.threads| :: s.threads[t] == Idle) && (forall b | 0 <= b < |s.bytes| :: s.bytes[b] == 0) &&
    s.poisoned == {} && s.registry == map[] && s.charged == 0 && s.lost == 0
  }

  lemma {:induction false} AllZero(bytes: seq<nat>)
    requires forall b | 0 <= b < |bytes| :: bytes[b] == 0
    ensures SumBytes(bytes) == 0
  {
    if bytes != [] { AllZero(bytes[..|bytes| - 1]); }
  }

  lemma {:induction false} NoneUnsettled(threads: seq<Pc>)
    requires forall t | 0 <= t < |threads| :: !Between(threads[t])
    ensures SumUnsettled(threads) == 0
  {
    if threads != [] {
      NoneUnsettled(threads[..|threads| - 1]);
      assert !Between(threads[|threads| - 1]);
    }
  }

  lemma InitInv(s: State)
    requires Init(s)
    ensures Inv(s)
  {
    AllZero(s.bytes);
    NoneUnsettled(s.threads);
  }

  /** A step of one thread: the others stay where they are. */
  lemma OthersStay(s: State, t: nat, a: Action)
    requires WellNamed(s) && Enabled(s, t, a)
    ensures var s2 := Effect(s, t, a);
            |s2.threads| == |s.threads| && |s2.bytes| == |s.bytes| &&
            forall u | 0 <= u < |s.threads| && u != t :: s2.threads[u] == s.threads[u]
  {
    hide BufferFree, RegistryFree, Holds, Named, WellNamed;
    NamedParts(s, t);
  }

  predicate Evicts(a: Action) { a.Snapshot? || a.TryEvict? || a.Empty? || a.DropEvicted? || a.ChargeEvicted? || a.GiveUp? }

  lemma MoverNamed(s: State, t: nat, a: Action)
    requires WellNamed(s) && Enabled(s, t, a)
    ensures var s2 := Effect(s, t, a); |s2.threads| == |s.threads| && Named(s2, s2.threads[t])
  {
    hide Effect, Enabled, Named;
    if Evicts(a) { EvictorNamed(s, t, a); } else { OtherNamed(s, t, a); }
  }

  lemma EvictorNamed(s: State, t: nat, a: Action)
    requires WellNamed(s) && Enabled(s, t, a) && Evicts(a)
    ensures var s2 := Effect(s, t, a); |s2.threads| == |s.threads| && Named(s2, s2.threads[t])
  {
    hide BufferFree, RegistryFree, Holds, Registered, Reconciled, Uncharged, Unsettled;
    NamedParts(s, t);
    assert Named(s, s.threads[t]);
    match a {
      case TryEvict => TailBelow(s.threads[t].candidates, |s.bytes|);
      case Snapshot(cs) => SnapshotNamed(s, cs);
      case _ =>
    }
  }

  lemma OtherNamed(s: State, t: nat, a: Action)
    requires WellNamed(s) && Enabled(s, t, a) && !Evicts(a)
    ensures var s2 := Effect(s, t, a); |s2.threads| == |s.threads| && Named(s2, s2.threads[t])
  {
    hide BufferFree, RegistryFree, Holds, Registered, Reconciled, Uncharged, Unsettled, Emptied, TriedEviction, AllBelow;
    NamedParts(s, t);
    assert Named(s, s.threads[t]);
  }

  lemma TailBelow(ids: seq<nat>, n: nat)
    requires AllBelow(ids, n) && ids != []
    ensures AllBelow(ids[1..], n)
  {
  }

  lemma SnapshotNamed(s: State, cs: seq<nat>)
    requires WellNamed(s) && forall i | 0 <= i < |cs| :: Registered(s, cs[i])
    ensures AllBelow(cs, |s.bytes|)
  {
    forall i | 0 <= i < |cs|
      ensures cs[i] < |s.bytes|
    {
      assert Registered(s, cs[i]);
    }
  }

  lemma RegistryNamed(s: State, t: nat, a: Action)
    requires WellNamed(s) && Enabled(s, t, a)
    ensures var s2 := Effect(s, t, a); |s2.epochs| == |s.bytes| && forall k | k in s2.registry :: s2.registry[k] < |s.bytes|
  {
    hide BufferFree, RegistryFree, Holds;
    NamedParts(s, t);
    assert Named(s, s.threads[t]);
  }

  lemma StepNamed(s: State, t: nat, a: Action)
    requires WellNamed(s) && Enabled(s, t, a)
    ensures WellNamed(Effect(s, t, a))
  {
    hide Effect, Enabled;
    var s2 := Effect(s, t, a);
    OthersStay(s, t, a);
    MoverNamed(s, t, a);
    RegistryNamed(s, t, a);
    forall u | 0 <= u < |s2.threads|
      ensures Named(s2, s2.threads[u])
    {
      if u != t { assert Named(s, s.threads[u]); }
    }
  }

  /** A step takes at most one lock that was free, and keeps only locks it had. */
  lemma LocksTaken(s: State, t: nat, a: Action, b: nat)
    requires WellNamed(s) && Enabled(s, t, a)
    ensures var s2 := Effect(s, t, a);
            |s2.threads| == |s.threads| && (Holds(s2.threads[t], b) ==> Holds(s.threads[t], b) || BufferFree(s, b)) &&
            (HoldsRegistry(s2.threads[t]) ==> HoldsRegistry(s.threads[t]) || RegistryFree(s))
  {
    hide BufferFree, RegistryFree, Named, WellNamed;
    NamedParts(s, t);
  }

  lemma StepExclusive(s: State, t: nat, a: Action)
    requires WellNamed(s) && Enabled(s, t, a) && Exclusive(s)
    ensures Exclusive(Effect(s, t, a))
  {
    hide Effect, WellNamed, Holds, HoldsRegistry;
    assert t < |s.threads|;
    hide Enabled;
    var s2 := Effect(s, t, a);
    OthersStay(s, t, a);
    forall b: nat
      ensures Holds(s2.threads[t], b) ==> Holds(s.threads[t], b) || BufferFree(s, b)
      ensures HoldsRegistry(s2.threads[t]) ==> HoldsRegistry(s.threads[t]) || RegistryFree(s)
    {
      LocksTaken(s, t, a, b);
    }
    LocksTaken(s, t, a, 0);
    ExclusiveAfter(s, s2, t);
  }

  lemma ExclusiveAfter(s: State, s2: State, t: nat)
    requires Exclusive(s) && |s2.threads| == |s.threads| && t < |s.threads|
    requires forall u | 0 <= u < |s.threads| && u != t :: s2.threads[u] == s.threads[u]
    requires forall b: nat | Holds(s2.threads[t], b) :: Holds(s.threads[t], b) || BufferFree(s, b)
    requires HoldsRegistry(s2.threads[t]) ==> HoldsRegistry(s.threads[t]) || RegistryFree(s)
    ensures Exclusive(s2)
  {
    hide Holds, HoldsRegistry;
  }

  lemma StepInv(s: State, t: nat, a: Action)
    requires Inv(s) && Enabled(s, t, a)
    ensures Inv(Effect(s, t, a))
  {
    hide Effect, Enabled, WellNamed, Balanced, Current, Exclusive;
    StepNamed(s, t, a);
    StepBalanced(s, t, a);
    StepCurrent(s, t, a);
    StepCharged(s, t, a);
    StepExclusive(s, t, a);
  }

  ghost predicate Steps(states: seq<State>, movers: seq<nat>, actions: seq<Action>) {
    |states| == |actions| + 1 == |movers| + 1 &&
    forall i | 0 <= i < |actions| ::
      WellNamed(states[i]) && Enabled(states[i], movers[i], actions[i]) && states[i + 1] == Effect(states[i], movers[i], actions[i])
  }

  ghost predicate Run(states: seq<State>, movers: seq<nat>, actions: seq<Action>) { Steps(states, movers, actions) && Init(states[0]) }

  /** In every interleaving the ledger balances and every lock has one holder. */
  lemma {:induction false} RunInv(states: seq<State>, movers: seq<nat>, actions: seq<Action>, n: nat)
    requires Run(states, movers, actions) && n <= |actions|
    ensures Inv(states[n])
  {
    hide Effect, Enabled, Inv, Init;
    if n == 0 {
      InitInv(states[0]);
    } else {
      RunInv(states, movers, actions, n - 1);
      StepInv(states[n - 1], movers[n - 1], actions[n - 1]);
    }
  }

  /** With every change charged and none lost, the counter is the bytes held by all buffers. */
  lemma ExactWhenQuiet(s: State)
    requires Inv(s) && s.lost == 0 && SumBytes(s.bytes) < U64_LIMIT && Quiet(s)
    ensures s.charged == SumBytes(s.bytes)
  {
    hide Exclusive, WellNamed, Current;
    NoneUnsettled(s.threads);
    Small(s.charged - SumBytes(s.bytes));
  }

  lemma Small(x: int)
    requires -(U64_LIMIT as int) < x < U64_LIMIT && x % U64_LIMIT == 0
    ensures x == 0
  {
  }

  // ----- Registered buffers --------------------------------------------------------------------------

  /** The bytes of the first `n` buffers that are registered. */
  ghost function RegisteredBytes(s: State, n: nat): nat
    requires n <= |s.bytes|
  {
    if n == 0 then 0 else RegisteredBytes(s, n - 1) + if Registered(s, n - 1) then s.bytes[n - 1] else 0
  }

  lemma {:induction false} RegisteredAll(s: State, n: nat)
    requires n <= |s.bytes|
    ensures RegisteredBytes(s, n) <= SumBytes(s.bytes[..n])
    ensures RegisteredBytes(s, n) == SumBytes(s.bytes[..n]) <==> forall b: nat | b < n && !Registered(s, b) :: s.bytes[b] == 0
  {
    hide Registered;
    if n > 0 {
      RegisteredAll(s, n - 1);
      assert s.bytes[..n][..n - 1] == s.bytes[..n - 1];
    }
  }

  /**
    The invariant as the documentation of the pool gives it, over registered buffers: with
    every change charged it holds exactly when no unregistered buffer holds bytes.
   */
  lemma ExactOverRegistered(s: State)
    requires Inv(s) && s.lost == 0 && SumBytes(s.bytes) < U64_LIMIT && Quiet(s)
    ensures s.charged == RegisteredBytes(s, |s.bytes|) <==> forall b: nat | b < |s.bytes| && !Registered(s, b) :: s.bytes[b] == 0
  {
    hide Inv, Registered, Quiet;
    ExactWhenQuiet(s);
    RegisteredAll(s, |s.bytes|);
    assert s.bytes[..|s.bytes|] == s.bytes;
  }

  /** Two threads, one buffer of `len` bytes. */
  function Pair(one: Pc, two: Pc, len: nat, epoch: nat, registry: map<nat, nat>, charged: nat): State {
    State([one, two], [len], [epoch], {}, registry, charged, 0)
  }

  /** Steps lead from one state to another. */
  ghost predicate Leads(from: State, to: State) {
    exists states, movers, actions :: Steps(states, movers, actions) && states[0] == from && states[|actions|] == to
  }

  lemma LeadsOn(from: State, s: State, t: nat, a: Action)
    requires Leads(from, s) && WellNamed(s) && Enabled(s, t, a)
    ensures Leads(from, Effect(s, t, a))
  {
    hide Effect, Enabled, WellNamed;
    var states, movers, actions :| Steps(states, movers, actions) && states[0] == from && states[|actions|] == s;
    var n, s2 := |actions|, Effect(s, t, a);
    var states2, movers2, actions2 := states + [s2], movers + [t], actions + [a];
    forall i | 0 <= i < n + 1
      ensures WellNamed(states2[i]) && Enabled(states2[i], movers2[i], actions2[i])
      ensures states2[i + 1] == Effect(states2[i], movers2[i], actions2[i])
    {
      if i < n { assert states2[i] == states[i] && movers2[i] == movers[i] && actions2[i] == actions[i]; }
    }
    assert Steps(states2, movers2, actions2);
  }

  lemma LeadsNowhere(s: State)
    ensures Leads(s, s)
  {
    assert Steps([s], [], []);
  }

  lemma On(from: State, s: State, t: nat, a: Action, s2: State)
    requires Leads(from, s) && WellNamed(s) && Enabled(s, t, a) && s2 == Effect(s, t, a)
    ensures Leads(from, s2)
  {
    hide Effect, Enabled, WellNamed, Leads;
    LeadsOn(from, s, t, a);
  }

  /** A handle registers its buffer. */
  lemma Registers(from: State, k: nat)
    requires Leads(from, Pair(Idle, Idle, 0, 0, map[], 0))
    ensures Leads(from, Pair(Idle, Idle, 0, 0, map[k := 0], 0))
  {
    hide Leads;
    var one, none := map[k := 0], map[];
    On(from, Pair(Idle, Idle, 0, 0, none, 0), 0, StartRegister(k, 0),
       Pair(Registering(k, 0), Idle, 0, 0, none, 0));
    On(from, Pair(Registering(k, 0), Idle, 0, 0, none, 0), 0, LockRegistry,
       Pair(Inserting(k, 0), Idle, 0, 0, none, 0));
    On(from, Pair(Inserting(k, 0), Idle, 0, 0, none, 0), 0, InsertEntry,
       Pair(Idle, Idle, 0, 0, one, 0));
  }

  /** The release moves the epoch on; a read that was still going dispatches a job after that. */
  lemma Dispatches(from: State, k: nat)
    requires Leads(from, Pair(Idle, Idle, 0, 0, map[k := 0], 0))
    ensures Leads(from, Pair(Idle, WantBuffer(Store(1), 0), 0, 1, map[k := 0], 0))
  {
    hide Leads;
    var one := map[k := 0];
    assert [0][0 := 1] == [1];
    On(from, Pair(Idle, Idle, 0, 0, one, 0), 0, Retire(0),
       Pair(Idle, Idle, 0, 1, one, 0));
    On(from, Pair(Idle, Idle, 0, 1, one, 0), 1, StartStore(0),
       Pair(Idle, WantBuffer(Store(1), 0), 0, 1, one, 0));
  }

  /** The last reference to the handle goes. */
  lemma Unregisters(from: State, k: nat)
    requires Leads(from, Pair(Idle, WantBuffer(Store(1), 0), 0, 1, map[k := 0], 0))
    ensures Leads(from, Pair(WantBuffer(Release, 0), WantBuffer(Store(1), 0), 0, 1, map[], 0))
  {
    hide Leads;
    var one, none := map[k := 0], map[];
    On(from, Pair(Idle, WantBuffer(Store(1), 0), 0, 1, one, 0), 0, StartRelease(k),
       Pair(Releasing(k), WantBuffer(Store(1), 0), 0, 1, one, 0));
    On(from, Pair(Releasing(k), WantBuffer(Store(1), 0), 0, 1, one, 0), 0, LockRegistry,
       Pair(Removing(k), WantBuffer(Store(1), 0), 0, 1, one, 0));
    assert one - {k} == none;
    On(from, Pair(Removing(k), WantBuffer(Store(1), 0), 0, 1, one, 0), 0, RemoveEntry,
       Pair(WantBuffer(Release, 0), WantBuffer(Store(1), 0), 0, 1, none, 0));
  }

  lemma Locks(from: State)
    requires Leads(from, Pair(WantBuffer(Release, 0), WantBuffer(Store(1), 0), 0, 1, map[], 0))
    ensures Leads(from, Pair(Clearing(0, 0), WantBuffer(Store(1), 0), 0, 1, map[], 0))
  {
    hide Leads;
    var none := map[];
    On(from, Pair(WantBuffer(Release, 0), WantBuffer(Store(1), 0), 0, 1, none, 0), 0, LockBuffer,
       Pair(HasBuffer(Release, 0), WantBuffer(Store(1), 0), 0, 1, none, 0));
    On(from, Pair(HasBuffer(Release, 0), WantBuffer(Store(1), 0), 0, 1, none, 0), 0, BeginClear,
       Pair(Clearing(0, 0), WantBuffer(Store(1), 0), 0, 1, none, 0));
  }

  lemma Clears(from: State)
    requires Leads(from, Pair(Clearing(0, 0), WantBuffer(Store(1), 0), 0, 1, map[], 0))
    ensures Leads(from, Pair(ReleaseHolding(0, 0), WantBuffer(Store(1), 0), 0, 1, map[], 0))
  {
    hide Leads;
    var none := map[];
    assert [0][0 := 0] == [0];
    On(from, Pair(Clearing(0, 0), WantBuffer(Store(1), 0), 0, 1, none, 0), 0, Empty,
       Pair(ReleaseHolding(0, 0), WantBuffer(Store(1), 0), 0, 1, none, 0));
  }

  lemma Releases(from: State)
    requires Leads(from, Pair(ReleaseHolding(0, 0), WantBuffer(Store(1), 0), 0, 1, map[], 0))
    ensures Leads(from, Pair(Idle, WantBuffer(Store(1), 0), 0, 1, map[], 0))
  {
    hide Leads;
    var none := map[];
    On(from, Pair(ReleaseHolding(0, 0), WantBuffer(Store(1), 0), 0, 1, none, 0), 0, DropReleased,
       Pair(ReleaseLeft(0), WantBuffer(Store(1), 0), 0, 1, none, 0));
    On(from, Pair(ReleaseLeft(0), WantBuffer(Store(1), 0), 0, 1, none, 0), 0, ChargeReleased,
       Pair(Idle, WantBuffer(Store(1), 0), 0, 1, none, 0));
  }

  /** The job passes the epoch test. */
  lemma Stores(from: State, len: nat)
    requires Leads(from, Pair(Idle, WantBuffer(Store(1), 0), 0, 1, map[], 0)) && 0 < len < U64_LIMIT
    ensures Leads(from, Pair(Idle, StoreHolding(0, 0, len), len, 1, map[], 0))
  {
    hide Leads;
    var none := map[];
    On(from, Pair(Idle, WantBuffer(Store(1), 0), 0, 1, none, 0), 1, LockBuffer,
       Pair(Idle, HasBuffer(Store(1), 0), 0, 1, none, 0));
    On(from, Pair(Idle, HasBuffer(Store(1), 0), 0, 1, none, 0), 1, BeginStore,
       Pair(Idle, Storing(0, 0), 0, 1, none, 0));
    assert [0][0 := len] == [len];
    On(from, Pair(Idle, Storing(0, 0), 0, 1, none, 0), 1, StoreWindow(len),
       Pair(Idle, StoreHolding(0, 0, len), len, 1, none, 0));
  }

  lemma ChargesStored(from: State, len: nat)
    requires Leads(from, Pair(Idle, StoreHolding(0, 0, len), len, 1, map[], 0)) && 0 < len < U64_LIMIT
    ensures Leads(from, Pair(Idle, Idle, len, 1, map[], len))
  {
    hide Leads;
    var none := map[];
    On(from, Pair(Idle, StoreHolding(0, 0, len), len, 1, none, 0), 1, DropStored,
       Pair(Idle, StoreLeft(0, len), len, 1, none, 0));
    On(from, Pair(Idle, StoreLeft(0, len), len, 1, none, 0), 1, ChargeStored,
       Pair(Idle, Idle, len, 1, none, len));
  }

  /**
    The other half of `ExactOverRegistered` is needed.  A read still going when its handle is
    released dispatches a job after the release has moved the epoch on: the job passes the
    epoch test after the buffer is gone from the registry, and its bytes stay charged.
   */
  lemma StoredAfterRelease(k: nat, len: nat)
    requires 0 < len < U64_LIMIT
    ensures var start, registered, dispatched, end := Pair(Idle, Idle, 0, 0, map[], 0), Pair(Idle, Idle, 0, 0, map[k := 0], 0),
                                                      Pair(Idle, WantBuffer(Store(1), 0), 0, 1, map[k := 0], 0),
                                                      Pair(Idle, Idle, len, 1, map[], len);
            Init(start) && Leads(start, registered) && Leads(registered, dispatched) && Leads(dispatched, end) &&
            Quiet(end) && end.charged == len && RegisteredBytes(end, 1) == 0
  {
    hide Leads;
    var start, registered := Pair(Idle, Idle, 0, 0, map[], 0), Pair(Idle, Idle, 0, 0, map[k := 0], 0);
    var dispatched, end := Pair(Idle, WantBuffer(Store(1), 0), 0, 1, map[k := 0], 0), Pair(Idle, Idle, len, 1, map[], len);
    LeadsNowhere(start);
    LeadsNowhere(registered);
    LeadsNowhere(dispatched);
    Registers(start, k);
    Dispatches(registered, k);
    Unregisters(dispatched, k);
    Locks(dispatched);
    Clears(dispatched);
    Releases(dispatched);
    Stores(dispatched, len);
    ChargesStored(dispatched, len);
    assert !Registered(end, 0);
  }

  // ----- Blocking --------------------------------------------------------------------------------------

  /** `t` is blocked on a lock that `u` holds. */
  ghost predicate WaitsFor(s: State, t: nat, u: nat) {
    t < |s.threads| && u < |s.threads| &&
    ((exists b: nat :: WaitsForBuffer(s.threads[t], b) && Holds(s.threads[u], b)) ||
     (WaitsForRegistry(s.threads[t]) && HoldsRegistry(s.threads[u])))
  }

  /** Nobody waits while holding the registry, and nobody holds a lock while waiting for a buffer. */
  lemma WaitsAreShort(s: State, t: nat, u: nat, v: nat, w: nat)
    requires WaitsFor(s, t, u) && WaitsFor(s, u, v)
    ensures !WaitsFor(s, v, w)
  {
  }

  function After(i: nat, n: nat): nat { if i + 1 < n then i + 1 else 0 }

  /** Blocked threads never form a cycle: round any ring of threads someone is not waiting for the next. */
  lemma NoCycle(s: State, ring: seq<nat>)
    requires ring != []
    ensures exists i :: 0 <= i < |ring| && !WaitsFor(s, ring[i], ring[After(i, |ring|)])
  {
    hide WaitsFor;
    var n := |ring|;
    var i1 := After(0, n);
    var i2 := After(i1, n);
    if WaitsFor(s, ring[0], ring[i1]) && WaitsFor(s, ring[i1], ring[i2]) {
      WaitsAreShort(s, ring[0], ring[i1], ring[i2], ring[After(i2, n)]);
    }
  }

  predicate Blocked(pc: Pc) { pc.WantBuffer? || WaitsForRegistry(pc) }

  predicate Starts(a: Action) { a.StartRead? || a.StartStore? || a.StartRegister? || a.StartRelease? || a.Retire? }

  /** `u` is `t`, or holds what `t` waits for, or holds what that holder waits for. */
  ghost predicate OnChain(s: State, t: nat, u: nat) {
    u == t || WaitsFor(s, t, u) || exists h: nat :: WaitsFor(s, t, h) && WaitsFor(s, h, u)
  }

  /** A thread that has begun something and is not blocked can go on with it. */
  lemma Moves(s: State, t: nat) returns (a: Action)
    requires t < |s.threads| && !Blocked(s.threads[t]) && !s.threads[t].Idle?
    ensures Enabled(s, t, a) && !Starts(a)
  {
    a := match s.threads[t]
      case HasBuffer(j, b) =>
        (match j case Read => Hit case Store(_) => (if Fresh(s, j, b) then BeginStore else Stale) case Release => BeginClear)
      case Recovering(_, _, _) => Empty
      case Recovered(_, _, _) => Recover
      case Permitting(_) => Permit(true)
      case Snapshotting(_) => Snapshot([])
      case Evicting(_, cs) => if cs == [] then GiveUp else TryEvict
      case EvictReading(_, _, _, _) => Empty
      case EvictHolding(_, _, _, _) => DropEvicted
      case EvictCleared(_, _, _) => ChargeEvicted
      case Filling(_, _) => FillFails
      case Filled(_, _, _) => Reconcile
      case Leaving(_) => Leave
      case Touching => Touch
      case Storing(_, _) => StoreWindow(0)
      case StoreHolding(_, _, _) => DropStored
      case StoreLeft(_, _) => ChargeStored
      case Inserting(_, _) => InsertEntry
      case Removing(_) => RemoveEntry
      case Clearing(_, _) => Empty
      case ReleaseHolding(_, _) => DropReleased
      case _ => ChargeReleased;
  }

  /**
    Whatever a thread that has begun something is blocked on, it goes on or someone on its
    chain of waits does: the thread itself, the holder, or the holder's holder.
   */
  lemma SomeoneMoves(s: State, t: nat) returns (u: nat, a: Action)
    requires t < |s.threads| && !s.threads[t].Idle?
    ensures Enabled(s, u, a) && !Starts(a) && OnChain(s, t, u)
  {
    hide Enabled;
    var pc := s.threads[t];
    if !Blocked(pc) {
      u := t;
      a := Moves(s, t);
    } else if WaitsForRegistry(pc) {
      u, a := RegistryMoves(s, t);
    } else if BufferFree(s, pc.b) {
      u, a := t, LockBuffer;
      assert Enabled(s, t, LockBuffer) by { CanLockBuffer(s, t); }
    } else {
      var h: nat :| h < |s.threads| && Holds(s.threads[h], pc.b);
      assert WaitsForBuffer(pc, pc.b);
      assert WaitsFor(s, t, h);
      if Blocked(s.threads[h]) {
        u, a := RegistryMoves(s, h);
      } else {
        u := h;
        a := Moves(s, h);
      }
    }
  }

  lemma CanLockBuffer(s: State, t: nat)
    requires t < |s.threads| && s.threads[t].WantBuffer? && BufferFree(s, s.threads[t].b)
    ensures Enabled(s, t, LockBuffer)
  {
  }

  lemma RegistryMoves(s: State, t: nat) returns (u: nat, a: Action)
    requires t < |s.threads| && WaitsForRegistry(s.threads[t])
    ensures Enabled(s, u, a) && !Starts(a) && (u == t || WaitsFor(s, t, u))
  {
    if RegistryFree(s) {
      u, a := t, LockRegistry;
    } else {
      var h: nat :| h < |s.threads| && HoldsRegistry(s.threads[h]);
      u := h;
      a := Moves(s, h);
    }
  }
}
