/**
  Prefetch planning and the compare-and-swap loop that claims windows: concurrent readers of
  one handle never claim the same bytes twice.
 */
module Prefetch {
  import opened Bytes

  function SaturatingMul(a: nat, b: nat): nat { Min(a * b, U64_MAX) }

  /** How far ahead of the reader windows are wanted. */
  function Horizon(start: nat, window: nat, depth: nat, backingLen: nat): nat {
    Min(SaturatingAdd(start, SaturatingMul(depth, window)), backingLen)
  }

  /** Where dispatch resumes: at the watermark, unless the reader passed it or it lies a window beyond the horizon. */
  function Resume(upto: nat, start: nat, window: nat, horizon: nat): nat {
    if start <= upto < SaturatingAdd(horizon, window) then upto else start
  }

  /** The window starts from `from` that lie before the horizon. */
  function Starts(from: nat, window: nat, horizon: nat): (starts: seq<nat>)
    requires window >= 1
    decreases horizon - from
  {
    if from >= horizon then [] else [from] + Starts(from + window, window, horizon)
  }

  /** The first window boundary at or past the horizon. */
  function Landing(from: nat, window: nat, horizon: nat): (end: nat)
    requires window >= 1
    ensures end >= horizon && end >= from
    ensures from < horizon + window ==> end < horizon + window
    decreases horizon - from
  {
    if from >= horizon then from else Landing(from + window, window, horizon)
  }

  datatype Plan = Plan(starts: seq<nat>, upto: nat)

  function PlanOf(upto: nat, start: nat, window: nat, depth: nat, backingLen: nat): Plan {
    if window == 0 || start >= backingLen then Plan([], upto)
    else
      var horizon := Horizon(start, window, depth, backingLen);
      var from := Resume(upto, start, window, horizon);
      Plan(Starts(from, window, horizon), Min(Landing(from, window, horizon), backingLen))
  }

  /** `plan_prefetch`: contiguous window-sized blocks from the watermark up to the horizon. */
  method PlanPrefetch(prefetchedUpto: nat, start: nat, window: nat, depth: nat, backingLen: nat) returns (p: Plan)
    ensures p == PlanOf(prefetchedUpto, start, window, depth, backingLen)
  {
    if window == 0 || start >= backingLen {
      return Plan([], prefetchedUpto);
    }
    var horizon := Min(SaturatingAdd(start, SaturatingMul(depth, window)), backingLen);
    var s := prefetchedUpto;
    if !(start <= s < SaturatingAdd(horizon, window)) {
      s := start;
    }
    ghost var from := s;
    var starts: seq<nat> := [];
    while s < horizon
      invariant starts + Starts(s, window, horizon) == Starts(from, window, horizon)
      invariant Landing(s, window, horizon) == Landing(from, window, horizon)
      decreases horizon - s
    {
      assert Starts(s, window, horizon) == [s] + Starts(s + window, window, horizon);
      assert starts + ([s] + Starts(s + window, window, horizon)) == (starts + [s]) + Starts(s + window, window, horizon);
      starts := starts + [s];
      s := s + window;
    }
    return Plan(starts, Min(s, backingLen));
  }

  predicate Apart(claimed: seq<nat>, window: nat) {
    forall i, j | 0 <= i < j < |claimed| :: claimed[i] + window <= claimed[j]
  }

  /** Planned windows follow one another from the resumption point, before the horizon, and end by the landing. */
  lemma {:induction false} StartsApart(from: nat, window: nat, horizon: nat)
    requires window >= 1
    ensures var starts := Starts(from, window, horizon);
            Apart(starts, window) && forall i | 0 <= i < |starts| ::
              from <= starts[i] < horizon && starts[i] + window <= Landing(from, window, horizon)
    decreases horizon - from
  {
    if from < horizon {
      StartsApart(from + window, window, horizon);
      assert Landing(from, window, horizon) >= from + window;
    }
  }

  lemma {:induction false} StartsStep(from: nat, window: nat, horizon: nat)
    requires window >= 1
    ensures var n := |Starts(from, window, horizon)|;
            from + n * window == Landing(from, window, horizon) >= horizon && (n > 0 ==> from + (n - 1) * window < horizon) &&
            forall i | 0 <= i < n :: Starts(from, window, horizon)[i] == from + i * window
    decreases horizon - from
  {
    if from < horizon {
      StartsStep(from + window, window, horizon);
      var n := |Starts(from + window, window, horizon)|;
      assert (n + 1) * window == n * window + window;
      forall i | 0 <= i < n + 1
        ensures Starts(from, window, horizon)[i] == from + i * window
      {
        if i > 0 { assert i * window == (i - 1) * window + window; }
      }
    }
  }

  /**
    The plan of a reader at `start`: windows one after another from the watermark, or from
    `start` when the watermark lies before it or a window past `depth` windows ahead; as many
    as it takes to cover those `depth` windows, within the file.
   */
  lemma PlanExactly(upto: nat, start: nat, window: nat, depth: nat, backingLen: nat)
    requires window >= 1 && start < backingLen && backingLen + window < U64_MAX
    ensures var ahead := start + depth * window;
            var horizon := if ahead < backingLen then ahead else backingLen;
            var first := if start <= upto < horizon + window then upto else start;
            var p := PlanOf(upto, start, window, depth, backingLen);
            var end := first + |p.starts| * window;
            (forall i | 0 <= i < |p.starts| :: p.starts[i] == first + i * window) &&
            end >= horizon && (p.starts != [] ==> end - window < horizon) &&
            p.upto == if end < backingLen then end else backingLen
  {
    var horizon := Horizon(start, window, depth, backingLen);
    var from := Resume(upto, start, window, horizon);
    StartsStep(from, window, horizon);
    var n := |Starts(from, window, horizon)|;
    if n > 0 { assert n * window == (n - 1) * window + window; }
  }

  // ----- Claiming windows ------------------------------------------------------------------------

  /** One handle: its watermark, what each reader loaded last, the windows claimed so far and the last claimant's position. */
  datatype Handle = Handle(upto: nat, loaded: map<nat, nat>, claimed: seq<nat>, position: nat)

  datatype Step =
    | Load(reader: nat)
    | Swap(reader: nat, start: nat)
    | Retry(reader: nat)

  /** The loop of `serve_backing`, one atomic action at a time; a weak compare-and-swap may also fail spuriously. */
  predicate Next(h: Handle, step: Step, h2: Handle, window: nat, depth: nat, backingLen: nat) {
    match step
    case Load(r) => h2 == h.(loaded := h.loaded[r := h.upto])
    case Swap(r, start) =>
      r in h.loaded && h.loaded[r] == h.upto && h.position <= start &&
      var plan := PlanOf(h.loaded[r], start, window, depth, backingLen);
      h2 == Handle(plan.upto, h.loaded - {r}, h.claimed + plan.starts, start)
    case Retry(r) => r in h.loaded && h2 == h.(loaded := h.loaded - {r})
  }

  predicate Run(states: seq<Handle>, steps: seq<Step>, window: nat, depth: nat, backingLen: nat) {
    |states| == |steps| + 1 && states[0] == Handle(0, map[], [], 0) &&
    forall i | 0 <= i < |steps| :: Next(states[i], steps[i], states[i + 1], window, depth, backingLen)
  }

  /** Claimed windows are disjoint and start before the end of the file; the watermark bounds them and stays in it. */
  ghost predicate Sound(h: Handle, window: nat, depth: nat, backingLen: nat) {
    Apart(h.claimed, window) && h.upto <= backingLen &&
    (forall i | 0 <= i < |h.claimed| :: h.claimed[i] < backingLen && Min(h.claimed[i] + window, backingLen) <= h.upto) &&
    (h.upto > 0 ==> h.upto < Horizon(h.position, window, depth, backingLen) + window)
  }

  /** A later position has no nearer horizon. */
  lemma HorizonGrows(a: nat, b: nat, window: nat, depth: nat, backingLen: nat)
    requires a <= b
    ensures Horizon(a, window, depth, backingLen) <= Horizon(b, window, depth, backingLen)
  {
  }

  lemma ApartConcat(a: seq<nat>, b: seq<nat>, window: nat, from: nat)
    requires Apart(a, window) && Apart(b, window)
    requires (forall i | 0 <= i < |a| && b != [] :: a[i] + window <= from) && forall j | 0 <= j < |b| :: from <= b[j]
    ensures Apart(a + b, window)
  {
    forall i, j | 0 <= i < j < |a + b|
      ensures (a + b)[i] + window <= (a + b)[j]
    {
      if i < |a| <= j { assert from <= b[j - |a|]; }
    }
  }

  /** What one plan adds to a sound handle. */
  lemma PlanSound(h: Handle, start: nat, window: nat, depth: nat, backingLen: nat)
    requires Sound(h, window, depth, backingLen) && h.position <= start < backingLen
    requires window >= 1 && depth >= 1 && backingLen + window < U64_MAX
    ensures var plan := PlanOf(h.upto, start, window, depth, backingLen);
            h.upto <= plan.upto <= backingLen && plan.upto < Horizon(start, window, depth, backingLen) + window &&
            Apart(h.claimed + plan.starts, window) &&
            forall i | 0 <= i < |plan.starts| ::
              plan.starts[i] < backingLen && Min(plan.starts[i] + window, backingLen) <= plan.upto
  {
    hide Horizon;
    var horizon := Horizon(start, window, depth, backingLen);
    HorizonGrows(h.position, start, window, depth, backingLen);
    HorizonAhead(start, window, depth, backingLen);
    var from := Resume(h.upto, start, window, horizon);
    StartsApart(from, window, horizon);
    if from < horizon {
      ApartConcat(h.claimed, Starts(from, window, horizon), window, from);
    } else {
      assert h.claimed + [] == h.claimed;
    }
  }

  lemma HorizonAhead(start: nat, window: nat, depth: nat, backingLen: nat)
    requires window >= 1 && depth >= 1 && start < backingLen < U64_MAX
    ensures start < Horizon(start, window, depth, backingLen) <= backingLen
  {
    assert depth * window >= 1;
  }

  /** Every step keeps the claims sound. */
  lemma StepSound(h: Handle, step: Step, h2: Handle, window: nat, depth: nat, backingLen: nat)
    requires Sound(h, window, depth, backingLen) && Next(h, step, h2, window, depth, backingLen)
    requires window >= 1 && depth >= 1 && backingLen + window < U64_MAX
    ensures Sound(h2, window, depth, backingLen)
  {
    hide Horizon, PlanOf;
    if step.Swap? {
      HorizonGrows(h.position, step.start, window, depth, backingLen);
      if step.start < backingLen {
        PlanSound(h, step.start, window, depth, backingLen);
      } else {
        NothingPlanned(h.upto, step.start, window, depth, backingLen);
        assert h.claimed + [] == h.claimed;
      }
    }
  }

  lemma NothingPlanned(upto: nat, start: nat, window: nat, depth: nat, backingLen: nat)
    requires start >= backingLen
    ensures PlanOf(upto, start, window, depth, backingLen) == Plan([], upto)
  {
  }

  /** In every run of readers over one handle, claimed windows are disjoint and the watermark stays in the file. */
  lemma {:induction false} RunSound(states: seq<Handle>, steps: seq<Step>, window: nat, depth: nat, backingLen: nat, n: nat)
    requires Run(states, steps, window, depth, backingLen) && n <= |steps|
    requires window >= 1 && depth >= 1 && backingLen + window < U64_MAX
    ensures Sound(states[n], window, depth, backingLen)
  {
    hide Horizon, PlanOf, Next;
    if n > 0 {
      RunSound(states, steps, window, depth, backingLen, n - 1);
      StepSound(states[n - 1], steps[n - 1], states[n], window, depth, backingLen);
    }
  }
}
