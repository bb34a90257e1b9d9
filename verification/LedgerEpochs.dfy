/** Prefetched windows are stored only while they are wanted: what the epochs of the buffers are for. */
module LedgerEpochs {
  import opened Ledger
  import opened LedgerOwners

  /** Whatever store the thread has ahead of it was dispatched for buffer `b` in its epoch `e`. */
  predicate Dispatched(pc: Pc, b: nat, e: nat) { HasJob(pc) && pc.job.Store? ==> pc.b == b && pc.job.epoch == e }

  lemma DispatchedStep(s: State, t: nat, a: Action, u: nat, b: nat, e: nat)
    requires WellNamed(s) && Enabled(s, t, a) && u < |s.threads| && Dispatched(s.threads[u], b, e) && (u == t ==> !a.StartStore?)
    ensures var s2 := Effect(s, t, a); u < |s2.threads| && Dispatched(s2.threads[u], b, e)
  {
    hide Effect, Enabled, WellNamed;
    OthersStay(s, t, a);
    if u == t && HasJob(Effect(s, t, a).threads[t]) { JobStep(s, t, a, Effect(s, t, a).threads[t].b); }
  }

  /** Between the dispatch and step `n` the thread `t` dispatches nothing else. */
  ghost predicate Since(movers: seq<nat>, actions: seq<Action>, t: nat, j: nat, n: nat) {
    |movers| == |actions| && j < n <= |actions| && forall m | j < m < n && movers[m] == t :: !actions[m].StartStore?
  }

  lemma {:induction false} DispatchedRun(states: seq<State>, movers: seq<nat>, actions: seq<Action>, t: nat, b: nat, j: nat, n: nat)
    requires Run(states, movers, actions) && Since(movers, actions, t, j, n) && movers[j] == t && actions[j] == StartStore(b)
    ensures b < |states[j].epochs| && t < |states[n].threads| && Dispatched(states[n].threads[t], b, states[j].epochs[b])
    decreases n
  {
    hide Effect, Enabled, WellNamed, Init;
    RunInv(states, movers, actions, j);
    if n == j + 1 {
      DispatchStep(states[j], t, b);
    } else {
      DispatchedRun(states, movers, actions, t, b, j, n - 1);
      DispatchedStep(states[n - 1], movers[n - 1], actions[n - 1], t, b, states[j].epochs[b]);
    }
  }

  lemma DispatchStep(s: State, t: nat, b: nat)
    requires WellNamed(s) && Enabled(s, t, StartStore(b))
    ensures b < |s.epochs| && var s2 := Effect(s, t, StartStore(b)); t < |s2.threads| && Dispatched(s2.threads[t], b, s.epochs[b])
  {
  }

  /** How many of the steps from `j` up to `n` move buffer `b` on to its next epoch. */
  ghost function Redatings(states: seq<State>, movers: seq<nat>, actions: seq<Action>, b: nat, j: nat, n: nat): nat
    requires Run(states, movers, actions) && j <= n <= |actions|
    decreases n
  {
    if n == j then 0
    else
      Redatings(states, movers, actions, b, j, n - 1) +
      if movers[n - 1] < |states[n - 1].threads| && Redates(states[n - 1], movers[n - 1], actions[n - 1], b) then 1 else 0
  }

  lemma {:induction false} EpochCounts(states: seq<State>, movers: seq<nat>, actions: seq<Action>, b: nat, j: nat, n: nat)
    requires Run(states, movers, actions) && j <= n <= |actions| && b < |states[j].epochs|
    ensures b < |states[n].epochs| && states[n].epochs[b] == states[j].epochs[b] + Redatings(states, movers, actions, b, j, n)
    decreases n
  {
    hide Effect, Enabled, WellNamed, Init, Redates;
    if n > j {
      EpochCounts(states, movers, actions, b, j, n - 1);
      EpochStep(states[n - 1], movers[n - 1], actions[n - 1]);
      Mover(states[n - 1], movers[n - 1], actions[n - 1]);
    }
  }

  lemma Mover(s: State, t: nat, a: Action)
    requires Enabled(s, t, a)
    ensures t < |s.threads|
  {
  }

  /**
    In every run: a job that was dispatched for a buffer, and holds it now, is stored if
    neither a seek nor a release of the handle came between, and else is stale.
   */
  lemma StoredWhileCurrent(states: seq<State>, movers: seq<nat>, actions: seq<Action>, t: nat, b: nat, j: nat, n: nat)
    requires Run(states, movers, actions) && Since(movers, actions, t, j, n) && movers[j] == t && actions[j] == StartStore(b)
    requires t < |states[n].threads| && states[n].threads[t].HasBuffer? && states[n].threads[t].job.Store?
    ensures states[n].threads[t].b == b
    ensures Enabled(states[n], t, BeginStore) <==> Redatings(states, movers, actions, b, j, n) == 0
    ensures Enabled(states[n], t, Stale) <==> Redatings(states, movers, actions, b, j, n) > 0
  {
    hide Effect, WellNamed, Init, Redatings;
    DispatchedRun(states, movers, actions, t, b, j, n);
    EpochCounts(states, movers, actions, b, j, n);
  }
}
