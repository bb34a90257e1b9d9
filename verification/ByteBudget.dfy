/**
  The byte semaphore of `musefs-core/src/byte_budget.rs` as a monitor: every method runs
  under one lock, a waiter parks on a condition variable, release and close wake them all.
 */
module ByteBudget {
  import opened Bytes
  import opened Collections

  /** A thread outside `acquire`, parked in it, or woken but not yet back under the lock. */
  datatype Thread = Outside | Parked(n: nat) | Woken(n: nat)

  /** `reserved` lists the reservations not yet released; they outlive the call that made them, and belong to no thread. */
  datatype State = State(cap: nat, inFlight: nat, closed: bool, threads: seq<Thread>, reserved: seq<nat>)

  /** The guard `acquire` waits on. */
  predicate MustWait(s: State, n: nat) { !s.closed && s.inFlight != 0 && SaturatingAdd(s.inFlight, n) > s.cap }

  /** `Release` gives back the reservations whose mark is unset, as one sum; `Wake` is a wakeup nobody caused. */
  datatype Action = Acquire(t: nat, n: nat) | Resume(t: nat) | Wake(t: nat) | Release(kept: seq<bool>) | Close

  predicate Enabled(s: State, a: Action) {
    match a
    case Acquire(t, _) => t < |s.threads| && s.threads[t].Outside?
    case Resume(t) => t < |s.threads| && s.threads[t].Woken?
    case Wake(t) => t < |s.threads| && s.threads[t].Parked?
    case Release(kept) => |kept| == |s.reserved|
    case Close => true
  }

  function WokenUp(th: Thread): Thread { if th.Parked? then Woken(th.n) else th }

  /** `notify_all`. */
  function NotifyAll(threads: seq<Thread>): (r: seq<Thread>)
    ensures |r| == |threads| && forall t | 0 <= t < |r| :: r[t] == WokenUp(threads[t])
  {
    seq(|threads|, t requires 0 <= t < |threads| => WokenUp(threads[t]))
  }

  function Sum(ns: seq<nat>): nat { SumBy(ns, Whole) }

  function Nonzero(ns: seq<nat>): nat { SumBy(ns, IsNonzero) }

  function Whole(n: nat): nat { n }

  function IsNonzero(n: nat): nat { if n > 0 then 1 else 0 }

  /** One turn of the wait loop: park, or reserve and leave. */
  function Turn(s: State, t: nat, n: nat): State
    requires t < |s.threads|
  {
    if MustWait(s, n) then s.(threads := s.threads[t := Parked(n)])
    else s.(threads := s.threads[t := Outside], inFlight := SaturatingAdd(s.inFlight, n), reserved := s.reserved + [n])
  }

  function Effect(s: State, a: Action): State
    requires Enabled(s, a)
  {
    match a
    case Acquire(t, n) => Turn(s, t, n)
    case Resume(t) => Turn(s, t, s.threads[t].n)
    case Wake(t) => s.(threads := s.threads[t := Woken(s.threads[t].n)])
    case Release(kept) =>
      s.(inFlight := SaturatingSub(s.inFlight, Sum(Marked(s.reserved, kept, false))), reserved := Marked(s.reserved, kept, true),
         threads := NotifyAll(s.threads))
    case Close => s.(closed := true, threads := NotifyAll(s.threads))
  }

  /** A turn reserves exactly when the budget is closed, or idle, or has room for all of it; else it parks. */
  lemma TurnExactly(s: State, t: nat, n: nat)
    requires t < |s.threads| && s.cap < U64_MAX && s.inFlight + n <= U64_MAX
    ensures var s2 := Turn(s, t, n);
            var reserves := s.closed || s.inFlight == 0 || s.inFlight + n <= s.cap;
            s2.threads == s.threads[..t] + [if reserves then Outside else Parked(n)] + s.threads[t + 1..] &&
            s2.inFlight == s.inFlight + (if reserves then n else 0) && s2.reserved == s.reserved + (if reserves then [n] else []) &&
            s2.cap == s.cap && s2.closed == s.closed
  {
    assert forall th: Thread :: s.threads[t := th] == s.threads[..t] + [th] + s.threads[t + 1..];
    assert s.reserved + [] == s.reserved;
  }

  // ----- Invariants -----------------------------------------------------------------------------

  /** Reservations together stay below 2^64, so saturation never sets in. */
  predicate Unsaturated(s: State) { Sum(s.reserved) < U64_MAX }

  /** Whoever is parked still has to wait: a waiter whose guard has fallen has been woken. */
  predicate NoLostWakeup(s: State) {
    forall t | 0 <= t < |s.threads| && s.threads[t].Parked? :: MustWait(s, s.threads[t].n)
  }

  predicate Exact(s: State) { s.inFlight == Sum(s.reserved) }

  /** Within the cap, unless one reservation larger than it stands alone. */
  predicate Bounded(s: State) { !s.closed ==> s.inFlight <= s.cap || Nonzero(s.reserved) == 1 }

  predicate Inv(s: State) { Exact(s) && Bounded(s) && NoLostWakeup(s) }

  lemma {:induction false} NothingReserved(ns: seq<nat>)
    ensures Sum(ns) == 0 <==> Nonzero(ns) == 0
  {
    if ns != [] { NothingReserved(ns[..|ns| - 1]); }
  }

  lemma TurnInv(s: State, t: nat, n: nat)
    requires Inv(s) && t < |s.threads| && Unsaturated(Turn(s, t, n))
    ensures Inv(Turn(s, t, n))
  {
    hide SumBy;
    SumByPush(s.reserved, n, Whole);
    SumByPush(s.reserved, n, IsNonzero);
    NothingReserved(s.reserved);
  }

  lemma ReleaseInv(s: State, kept: seq<bool>)
    requires Inv(s) && Enabled(s, Release(kept))
    ensures Inv(Effect(s, Release(kept)))
  {
    hide SumBy, Marked;
    MarkedSplit(s.reserved, kept, Whole);
    MarkedSplit(s.reserved, kept, IsNonzero);
    NothingReserved(Marked(s.reserved, kept, true));
  }

  /** Every step keeps the accounts exact and bounded and loses no wakeup. */
  lemma StepInv(s: State, a: Action)
    requires Inv(s) && Enabled(s, a) && Unsaturated(Effect(s, a))
    ensures Inv(Effect(s, a))
  {
    hide Sum, Nonzero, Turn, Marked;
    match a {
      case Acquire(t, n) => TurnInv(s, t, n);
      case Resume(t) => TurnInv(s, t, s.threads[t].n);
      case Release(kept) => ReleaseInv(s, kept);
      case _ =>
    }
  }

  predicate Step(s: State, a: Action, s2: State) { Enabled(s, a) && s2 == Effect(s, a) && Unsaturated(s2) }

  predicate Run(states: seq<State>, actions: seq<Action>) {
    |states| == |actions| + 1 && states[0].inFlight == 0 && !states[0].closed && states[0].reserved == [] &&
    (forall t | 0 <= t < |states[0].threads| :: states[0].threads[t] == Outside) &&
    forall i | 0 <= i < |actions| :: Step(states[i], actions[i], states[i + 1])
  }

  lemma {:induction false} RunInv(states: seq<State>, actions: seq<Action>, n: nat)
    requires Run(states, actions) && n <= |actions|
    ensures Inv(states[n])
  {
    hide Effect, Enabled, Nonzero, Unsaturated;
    if n > 0 {
      RunInv(states, actions, n - 1);
      assert Step(states[n - 1], actions[n - 1], states[n]);
      StepInv(states[n - 1], actions[n - 1]);
    }
  }

  /** Once closed, nobody is parked, and a call to acquire never parks. */
  lemma ClosedParksNobody(s: State)
    requires Inv(s) && s.closed
    ensures forall t | 0 <= t < |s.threads| :: !s.threads[t].Parked?
    ensures forall t: nat, n: nat | t < |s.threads| :: !Turn(s, t, n).threads[t].Parked?
  {
    hide Sum, Nonzero;
  }
}
