/**
  The scan pipeline of `musefs-core/src/scan.rs` as a system of steps: workers claim files,
  probe them, reserve bytes and send; one writer batches, commits and releases.
 */
module Pipeline {
  import ByteBudget
  import opened Bytes
  import opened Collections

  const BATCH_FILES: nat := 256

  datatype Unit = Unit(file: nat, weight: nat)

  datatype Worker =
    | Claiming
    | Probing(file: nat)
    | Acquiring(unit: Unit)
    | Sending(unit: Unit)
    | Returning(unit: Unit)
    | Exited

  /** What the writer does after a flush. */
  datatype Then = Poll | Receive | Finish

  datatype Writer =
    | Top
    | Polling
    | Flushing(then_: Then)
    | Releasing(then_: Then, amount: nat)
    | Receiving
    | CatchingUp
    | Dropping
    | Closing
    | Joining(ok: bool)
    | Done(ok: bool)

  datatype Config = Config(total: nat, cap: nat, room: nat)

  datatype State = State(
    cursor: nat,
    workers: seq<Worker>,
    channel: seq<Unit>,
    receiving: bool,
    inFlight: nat,
    closed: bool,
    writer: Writer,
    batch: seq<Unit>,
    committed: seq<nat>,
    failed: seq<nat>,
    raced: seq<nat>,
    dropped: seq<nat>,
    finished: nat,
    seen: nat,
    events: seq<nat>)

  // ----- Sums over workers and units -----------------------------------------------------------

  function Held(w: Worker): nat { if w.Sending? || w.Returning? then w.unit.weight else 0 }

  predicate Carries(w: Worker, file: nat) {
    match w
    case Probing(f) => f == file
    case Acquiring(u) => u.file == file
    case Sending(u) => u.file == file
    case Returning(u) => u.file == file
    case _ => false
  }

  predicate Busy(w: Worker) { w.Probing? || w.Acquiring? || w.Sending? || w.Returning? }

  function CarryingOf(file: nat): Worker -> nat { w => if Carries(w, file) then 1 else 0 }

  function BusyOf(): Worker -> nat { w => if Busy(w) then 1 else 0 }

  /** How far a worker is from its exit. */
  function WorkerSteps(w: Worker): nat {
    match w
    case Claiming => 1
    case Probing(_) => 16
    case Acquiring(_) => 14
    case Sending(_) => 12
    case Returning(_) => 2
    case Exited => 0
  }

  function Weights(us: seq<Unit>): nat {
    if us == [] then 0 else Weights(us[..|us| - 1]) + us[|us| - 1].weight
  }

  /** How often a file occurs among units, and among file numbers. */
  function UnitCount(us: seq<Unit>, file: nat): nat {
    if us == [] then 0 else UnitCount(us[..|us| - 1], file) + if us[|us| - 1].file == file then 1 else 0
  }

  function Count(fs: seq<nat>, file: nat): nat { SumBy(fs, IsFile(file)) }

  function IsFile(file: nat): nat -> nat { f => if f == file then 1 else 0 }

  lemma {:induction false} UnitsFirst(us: seq<Unit>, file: nat)
    requires us != []
    ensures Weights(us) == us[0].weight + Weights(us[1..])
    ensures UnitCount(us, file) == UnitCount(us[1..], file) + if us[0].file == file then 1 else 0
  {
    if |us| > 1 {
      UnitsFirst(us[..|us| - 1], file);
      assert us[..|us| - 1][1..] == us[1..][..|us| - 2];
    }
  }

  lemma UnitsLast(us: seq<Unit>, u: Unit, file: nat)
    ensures Weights(us + [u]) == Weights(us) + u.weight
    ensures UnitCount(us + [u], file) == UnitCount(us, file) + if u.file == file then 1 else 0
  {
    assert (us + [u])[..|us|] == us;
  }

  // ----- Steps ------------------------------------------------------------------------------------

  datatype Action =
    | Claim(k: nat)
    | ProbeFails(k: nat)
    | ProbeRaces(k: nat)
    | ProbeSucceeds(k: nat, weight: nat)
    | Acquire(k: nat)
    | Send(k: nat)
    | SendRefused(k: nat)
    | GiveBack(k: nat)
    | CatchUp(tally: nat)
    | Take
    | FindEmpty
    | FindClosed
    | NothingToFlush
    | Commit(kept: seq<bool>)
    | Abort(rejected: seq<bool>)
    | Release
    | FinalCatchUp
    | DropReceiver
    | Close
    | Join

  predicate AllExited(ws: seq<Worker>) { forall k | 0 <= k < |ws| :: ws[k].Exited? }

  /** The guard of `ByteBudget::acquire`. */
  predicate Admits(s: State, c: Config, weight: nat) { s.closed || s.inFlight == 0 || s.inFlight + weight <= c.cap }

  predicate AtReceive(w: Writer) { w.Polling? || w.Receiving? }

  predicate Enabled(s: State, c: Config, a: Action) {
    match a
    case Claim(k) => k < |s.workers| && s.workers[k].Claiming?
    case ProbeFails(k) => k < |s.workers| && s.workers[k].Probing?
    case ProbeRaces(k) => k < |s.workers| && s.workers[k].Probing?
    case ProbeSucceeds(k, _) => k < |s.workers| && s.workers[k].Probing?
    case Acquire(k) => k < |s.workers| && s.workers[k].Acquiring? && Admits(s, c, s.workers[k].unit.weight)
    case Send(k) => k < |s.workers| && s.workers[k].Sending? && s.receiving && |s.channel| < c.room
    case SendRefused(k) => k < |s.workers| && s.workers[k].Sending? && !s.receiving
    case GiveBack(k) => k < |s.workers| && s.workers[k].Returning?
    case CatchUp(tally) => s.writer.Top? && s.seen <= tally <= |s.failed| + |s.raced|
    case Take => AtReceive(s.writer) && s.channel != []
    case FindEmpty => s.writer.Polling? && s.channel == [] && !AllExited(s.workers)
    case FindClosed => AtReceive(s.writer) && s.channel == [] && AllExited(s.workers)
    case NothingToFlush => s.writer.Flushing? && s.batch == []
    case Commit(kept) => s.writer.Flushing? && s.batch != [] && |kept| == |s.batch|
    case Abort(rejected) => s.writer.Flushing? && s.batch != [] && |rejected| == |s.batch|
    case Release => s.writer.Releasing?
    case FinalCatchUp => s.writer.CatchingUp?
    case DropReceiver => s.writer.Dropping?
    case Close => s.writer.Closing?
    case Join => s.writer.Joining? && AllExited(s.workers)
  }

  function Next(then_: Then): Writer {
    match then_ case Poll => Top case Receive => Receiving case Finish => CatchingUp
  }

  function Put(s: State, k: nat, w: Worker): State
    requires k < |s.workers|
  {
    s.(workers := s.workers[k := w])
  }

  function FilesOf(us: seq<Unit>): (fs: seq<nat>)
    ensures |fs| == |us|
  {
    if us == [] then [] else FilesOf(us[..|us| - 1]) + [us[|us| - 1].file]
  }

  lemma {:induction false} FilesCount(us: seq<Unit>, file: nat)
    ensures Count(FilesOf(us), file) == UnitCount(us, file)
  {
    if us != [] {
      var n := |us| - 1;
      FilesCount(us[..n], file);
      assert FilesOf(us)[..n] == FilesOf(us[..n]);
    }
  }

  /** `n` progress events that continue the count. */
  function Counted(events: seq<nat>, finished: nat, n: nat): seq<nat> {
    events + seq(n, i requires 0 <= i < n => finished + 1 + i)
  }

  /** A unit taken off the channel joins the batch, which is flushed when it is full. */
  function Batched(s: State, c: Config): State
    requires s.channel != []
  {
    var batch := s.batch + [s.channel[0]];
    s.(channel := s.channel[1..], batch := batch,
       writer := if |batch| >= BATCH_FILES || Weights(batch) >= c.cap then Flushing(Poll) else Top)
  }

  function Committed(s: State, kept: seq<bool>): State
    requires s.writer.Flushing? && |kept| == |s.batch|
  {
    var files := Marked(FilesOf(s.batch), kept, true);
    s.(batch := [], committed := s.committed + files, failed := s.failed + Marked(FilesOf(s.batch), kept, false),
       finished := s.finished + |files|, events := Counted(s.events, s.finished, |files|),
       writer := Releasing(s.writer.then_, Weights(s.batch)))
  }

  function CaughtUp(s: State, tally: nat, writer: Writer): State
  {
    var n := SaturatingSub(tally, s.seen);
    s.(finished := s.finished + n, seen := tally, events := Counted(s.events, s.finished, n), writer := writer)
  }

  function Effect(s: State, c: Config, a: Action): State
    requires Enabled(s, c, a)
  {
    match a
    case Claim(k) => Put(s, k, if s.cursor < c.total then Probing(s.cursor) else Exited).(cursor := s.cursor + 1)
    case ProbeFails(k) => Put(s, k, Claiming).(failed := s.failed + [s.workers[k].file])
    case ProbeRaces(k) => Put(s, k, Claiming).(raced := s.raced + [s.workers[k].file])
    case ProbeSucceeds(k, weight) => Put(s, k, Acquiring(Unit(s.workers[k].file, weight)))
    case Acquire(k) => Put(s, k, Sending(s.workers[k].unit)).(inFlight := s.inFlight + s.workers[k].unit.weight)
    case Send(k) => Put(s, k, Claiming).(channel := s.channel + [s.workers[k].unit])
    case SendRefused(k) => Put(s, k, Returning(s.workers[k].unit))
    case GiveBack(k) =>
      Put(s, k, Exited).(inFlight := SaturatingSub(s.inFlight, s.workers[k].unit.weight), dropped := s.dropped + [s.workers[k].unit.file])
    case CatchUp(tally) => CaughtUp(s, tally, Polling)
    case Take => Batched(s, c)
    case FindEmpty => s.(writer := Flushing(Receive))
    case FindClosed => s.(writer := Flushing(Finish))
    case NothingToFlush => s.(writer := Next(s.writer.then_))
    case Commit(kept) => Committed(s, kept)
    case Abort(rejected) =>
      s.(batch := [], failed := s.failed + Marked(FilesOf(s.batch), rejected, true), dropped := s.dropped + Marked(FilesOf(s.batch), rejected, false),
         writer := Dropping)
    case Release => s.(inFlight := SaturatingSub(s.inFlight, s.writer.amount), writer := Next(s.writer.then_))
    case FinalCatchUp => CaughtUp(s, |s.failed| + |s.raced|, Joining(true))
    case DropReceiver => s.(receiving := false, channel := [], dropped := s.dropped + FilesOf(s.channel), writer := Closing)
    case Close => s.(closed := true, writer := Joining(false))
    case Join => s.(writer := Done(s.writer.ok))
  }

  // ----- Invariants ---------------------------------------------------------------------------------

  /** How many places file `f` is in. */
  function Places(s: State, file: nat): nat {
    SumBy(s.workers, CarryingOf(file)) + UnitCount(s.channel, file) + UnitCount(s.batch, file) +
    Count(s.committed, file) + Count(s.failed, file) + Count(s.raced, file) + Count(s.dropped, file)
  }

  /** How many files are in some place. */
  function Placed(s: State): nat {
    SumBy(s.workers, BusyOf()) + |s.channel| + |s.batch| + |s.committed| + |s.failed| + |s.raced| + |s.dropped|
  }

  function Claimed(s: State, c: Config): nat { if s.cursor < c.total then s.cursor else c.total }

  /** Every claimed file is in exactly one place, and no other file anywhere. */
  ghost predicate OncePlaced(s: State, c: Config) {
    Placed(s) == Claimed(s, c) && forall file: nat :: Places(s, file) == if file < Claimed(s, c) then 1 else 0
  }

  predicate Aborted(w: Writer) { w.Dropping? || w.Closing? || (w.Joining? && !w.ok) || (w.Done? && !w.ok) }

  predicate Ending(w: Writer) {
    ((w.Flushing? || w.Releasing?) && w.then_.Finish?) || w.CatchingUp? || (w.Joining? && w.ok) || (w.Done? && w.ok)
  }

  /** Reserved bytes are exactly those of sending workers, queued and batched units, and the batch being released. */
  predicate BudgetExact(s: State) {
    s.inFlight == SumBy(s.workers, Held) + Weights(s.channel) + Weights(s.batch) + if s.writer.Releasing? then s.writer.amount else 0
  }

  /** The progress events are 1, 2, 3, ... and count what is committed or caught up. */
  predicate CountsRight(s: State) {
    |s.events| == s.finished && (forall i | 0 <= i < |s.events| :: s.events[i] == i + 1) &&
    s.finished == |s.committed| + s.seen && s.seen <= |s.failed| + |s.raced|
  }

  function IsHeavy(u: Unit): nat { if u.weight > 0 then 1 else 0 }

  function HeavyHeld(w: Worker): nat { if Held(w) > 0 then 1 else 0 }

  /** Reservations of at least a byte: held by workers, queued, batched, or being released. */
  function Heavies(s: State): nat {
    SumBy(s.workers, HeavyHeld) + SumBy(s.channel, IsHeavy) + SumBy(s.batch, IsHeavy) +
    if s.writer.Releasing? && s.writer.amount > 0 then 1 else 0
  }

  /** Until the writer aborts, reserved bytes stay within the cap, unless one reservation alone makes them up. */
  predicate WithinCap(s: State, c: Config) { !Aborted(s.writer) ==> s.inFlight <= c.cap || Heavies(s) == 1 }

  /** A batch that has grown to 256 files, or to the cap in bytes, is being flushed. */
  predicate Batching(s: State, c: Config) {
    |s.channel| <= c.room && |s.batch| <= 256 && (s.batch != [] && !s.writer.Flushing? ==> |s.batch| < 256 && Weights(s.batch) < c.cap)
  }

  predicate Running(s: State) {
    !Aborted(s.writer) ==> s.receiving && !s.closed && s.dropped == [] && BudgetExact(s)
  }

  predicate TornDown(s: State) {
    (s.writer.Closing? || ((s.writer.Joining? || s.writer.Done?) && !s.writer.ok) ==> !s.receiving) &&
    ((s.writer.Joining? || s.writer.Done?) && !s.writer.ok ==> s.closed)
  }

  /** The writer is past a flush. */
  predicate Emptied(w: Writer) {
    w.Receiving? || w.Releasing? || w.CatchingUp? || w.Dropping? || w.Closing? || w.Joining? || w.Done?
  }

  predicate WoundDown(s: State) {
    (Emptied(s.writer) ==> s.batch == []) &&
    (Ending(s.writer) ==> AllExited(s.workers) && s.channel == []) &&
    ((s.writer.Joining? || s.writer.Done?) && s.writer.ok ==> s.seen == |s.failed| + |s.raced|) &&
    (s.writer.Done? ==> AllExited(s.workers))
  }

  predicate Workforce(s: State, c: Config) {
    |s.workers| >= 1 && c.room >= 1 &&
    (s.receiving ==> forall k | 0 <= k < |s.workers| ::
       !s.workers[k].Returning? && (s.workers[k].Exited? ==> s.cursor >= c.total))
  }

  predicate Shape(s: State, c: Config) {
    Running(s) && TornDown(s) && WoundDown(s) && Workforce(s, c) && WithinCap(s, c) && Batching(s, c)
  }

  ghost predicate Inv(s: State, c: Config) { OncePlaced(s, c) && CountsRight(s) && Shape(s, c) }

  predicate Init(s: State, c: Config) {
    s == State(0, s.workers, [], true, 0, false, Top, [], [], [], [], [], 0, 0, []) && |s.workers| >= 1 && c.room >= 1 &&
    forall k | 0 <= k < |s.workers| :: s.workers[k] == Claiming
  }

  lemma CountOne(fs: seq<nat>, g: nat, file: nat)
    ensures Count(fs + [g], file) == Count(fs, file) + if g == file then 1 else 0
  {
    SumByPush(fs, g, IsFile(file));
  }

  /** A worker changes and nothing else does. */
  lemma WorkerMoves(s: State, k: nat, w: Worker, file: nat)
    requires k < |s.workers|
    ensures SumBy(s.workers[k := w], CarryingOf(file)) ==
            SumBy(s.workers, CarryingOf(file)) - CarryingOf(file)(s.workers[k]) + CarryingOf(file)(w)
    ensures SumBy(s.workers[k := w], BusyOf()) == SumBy(s.workers, BusyOf()) - BusyOf()(s.workers[k]) + BusyOf()(w)
  {
    SumByUpdate(s.workers, CarryingOf(file), k, w);
    SumByUpdate(s.workers, BusyOf(), k, w);
  }

  lemma OnceByWorker(s: State, c: Config, a: Action, file: nat)
    requires OncePlaced(s, c) && Enabled(s, c, a)
    requires a.Claim? || a.ProbeFails? || a.ProbeRaces? || a.ProbeSucceeds? || a.Acquire? || a.Send? || a.SendRefused? || a.GiveBack?
    ensures PlacedRight(Effect(s, c, a), c, file)
  {
    hide SumBy, UnitCount, Count, Weights;
    var s2 := Effect(s, c, a);
    WorkerMoves(s, a.k, s2.workers[a.k], file);
    assert Places(s, file) == if file < Claimed(s, c) then 1 else 0;
    match a {
      case ProbeFails(k) => CountOne(s.failed, s.workers[k].file, file);
      case ProbeRaces(k) => CountOne(s.raced, s.workers[k].file, file);
      case Send(k) => UnitsLast(s.channel, s.workers[k].unit, file);
      case GiveBack(k) => CountOne(s.dropped, s.workers[k].unit.file, file);
      case _ =>
    }
  }

  /** File `file` is in one place if it is claimed and nowhere else, and as many files are placed as claimed. */
  predicate PlacedRight(s: State, c: Config, file: nat) {
    Places(s, file) == (if file < Claimed(s, c) then 1 else 0) && Placed(s) == Claimed(s, c)
  }

  lemma OnceByTake(s: State, c: Config, file: nat)
    requires PlacedRight(s, c, file) && Enabled(s, c, Take)
    ensures PlacedRight(Effect(s, c, Take), c, file)
  {
    hide SumBy, Weights, Count, UnitCount;
    UnitsFirst(s.channel, file);
    UnitsLast(s.batch, s.channel[0], file);
  }

  lemma OnceByCommit(s: State, c: Config, kept: seq<bool>, file: nat)
    requires PlacedRight(s, c, file) && Enabled(s, c, Commit(kept))
    ensures PlacedRight(Effect(s, c, Commit(kept)), c, file)
  {
    hide SumBy, Weights, Marked, Counted, IsFile;
    FilesCount(s.batch, file);
    MarkedSplit(FilesOf(s.batch), kept, IsFile(file));
    SumByConcat(s.committed, Marked(FilesOf(s.batch), kept, true), IsFile(file));
    SumByConcat(s.failed, Marked(FilesOf(s.batch), kept, false), IsFile(file));
  }

  lemma OnceByAbort(s: State, c: Config, rejected: seq<bool>, file: nat)
    requires PlacedRight(s, c, file) && Enabled(s, c, Abort(rejected))
    ensures PlacedRight(Effect(s, c, Abort(rejected)), c, file)
  {
    hide SumBy, Weights, Marked, IsFile;
    FilesCount(s.batch, file);
    MarkedSplit(FilesOf(s.batch), rejected, IsFile(file));
    SumByConcat(s.failed, Marked(FilesOf(s.batch), rejected, true), IsFile(file));
    SumByConcat(s.dropped, Marked(FilesOf(s.batch), rejected, false), IsFile(file));
  }

  lemma OnceByDrop(s: State, c: Config, file: nat)
    requires PlacedRight(s, c, file) && Enabled(s, c, DropReceiver)
    ensures PlacedRight(Effect(s, c, DropReceiver), c, file)
  {
    hide SumBy, Weights, FilesOf, IsFile;
    FilesCount(s.channel, file);
    SumByConcat(s.dropped, FilesOf(s.channel), IsFile(file));
  }

  lemma StepOnce(s: State, c: Config, a: Action)
    requires OncePlaced(s, c) && Enabled(s, c, a)
    ensures OncePlaced(Effect(s, c, a), c)
  {
    hide SumBy, UnitCount, Count, Weights, Marked, Counted;
    forall file: nat
      ensures PlacedRight(Effect(s, c, a), c, file)
    {
      assert Places(s, file) == if file < Claimed(s, c) then 1 else 0;
      if a.Claim? || a.ProbeFails? || a.ProbeRaces? || a.ProbeSucceeds? || a.Acquire? || a.Send? || a.SendRefused? || a.GiveBack? {
        OnceByWorker(s, c, a, file);
      } else {
        match a {
          case Take => OnceByTake(s, c, file);
          case Commit(kept) => OnceByCommit(s, c, kept, file);
          case Abort(rejected) => OnceByAbort(s, c, rejected, file);
          case DropReceiver => OnceByDrop(s, c, file);
          case _ =>
        }
      }
    }
    AllPlacedRight(Effect(s, c, a), c);
  }

  lemma AllPlacedRight(s: State, c: Config)
    requires forall file: nat :: PlacedRight(s, c, file)
    ensures OncePlaced(s, c)
  {
    hide SumBy, UnitCount, Count;
    assert PlacedRight(s, c, 0);
    forall file: nat
      ensures Places(s, file) == if file < Claimed(s, c) then 1 else 0
    {
      assert PlacedRight(s, c, file);
    }
  }

  lemma StepCounts(s: State, c: Config, a: Action)
    requires CountsRight(s) && Enabled(s, c, a)
    ensures CountsRight(Effect(s, c, a))
  {
    hide Marked, Weights, FilesOf, AllExited;
  }

  lemma BudgetByWorker(s: State, c: Config, a: Action)
    requires BudgetExact(s) && Enabled(s, c, a) && Workforce(s, c) && s.receiving
    requires a.Claim? || a.ProbeFails? || a.ProbeRaces? || a.ProbeSucceeds? || a.Acquire? || a.Send?
    ensures BudgetExact(Effect(s, c, a))
  {
    hide SumBy, Weights;
    SumByUpdate(s.workers, Held, a.k, Effect(s, c, a).workers[a.k]);
    if a.Send? { UnitsLast(s.channel, s.workers[a.k].unit, 0); }
  }

  lemma BudgetByWriter(s: State, c: Config, a: Action)
    requires BudgetExact(s) && Enabled(s, c, a) && s.seen <= |s.failed| + |s.raced|
    requires a.CatchUp? || a.Take? || a.FindEmpty? || a.FindClosed? || a.NothingToFlush? || a.Commit? || a.Release? || a.FinalCatchUp? || a.Join?
    ensures BudgetExact(Effect(s, c, a))
  {
    hide SumBy, Weights, Marked, Counted, AllExited;
    NoWeight();
    if a.Take? { BudgetByTake(s, c); }
  }

  lemma BudgetByTake(s: State, c: Config)
    requires BudgetExact(s) && Enabled(s, c, Take)
    ensures BudgetExact(Effect(s, c, Take))
  {
    hide SumBy, Weights;
    UnitsFirst(s.channel, 0);
    UnitsLast(s.batch, s.channel[0], 0);
  }

  lemma NoWeight()
    ensures Weights([]) == 0 && SumBy([], IsHeavy) == 0
  {
  }

  lemma StepRunning(s: State, c: Config, a: Action)
    requires Shape(s, c) && CountsRight(s) && Enabled(s, c, a)
    ensures Running(Effect(s, c, a))
  {
    hide SumBy, Weights, Marked, Counted, FilesOf, BudgetExact, TornDown, WoundDown, AllExited;
    if !Aborted(Effect(s, c, a).writer) {
      assert !Aborted(s.writer);
      if a.Claim? || a.ProbeFails? || a.ProbeRaces? || a.ProbeSucceeds? || a.Acquire? || a.Send? {
        BudgetByWorker(s, c, a);
      } else if a.CatchUp? || a.Take? || a.FindEmpty? || a.FindClosed? || a.NothingToFlush? || a.Commit? || a.Release? || a.FinalCatchUp? || a.Join? {
        BudgetByWriter(s, c, a);
      }
    }
  }

  lemma UnitsHeavy(us: seq<Unit>, u: Unit)
    ensures SumBy(us + [u], IsHeavy) == SumBy(us, IsHeavy) + IsHeavy(u)
  {
    SumByPush(us, u, IsHeavy);
  }

  lemma FirstHeavy(us: seq<Unit>)
    requires us != []
    ensures SumBy(us, IsHeavy) == IsHeavy(us[0]) + SumBy(us[1..], IsHeavy)
  {
    assert us == [us[0]] + us[1..];
    SumByConcat([us[0]], us[1..], IsHeavy);
    assert [us[0]][..0] == [];
  }

  /** Units weigh nothing exactly when none of them is heavy. */
  lemma {:induction false} WeighNothing(us: seq<Unit>)
    ensures Weights(us) == 0 <==> SumBy(us, IsHeavy) == 0
  {
    if us != [] { WeighNothing(us[..|us| - 1]); }
  }

  lemma {:induction false} HoldNothing(ws: seq<Worker>)
    ensures SumBy(ws, Held) == 0 <==> SumBy(ws, HeavyHeld) == 0
  {
    if ws != [] { HoldNothing(ws[..|ws| - 1]); }
  }

  /** With nothing in flight there is no heavy reservation. */
  lemma NothingHeavy(s: State)
    requires BudgetExact(s) && s.inFlight == 0
    ensures Heavies(s) == 0
  {
    hide SumBy, Weights;
    HoldNothing(s.workers);
    WeighNothing(s.channel);
    WeighNothing(s.batch);
  }

  lemma CapByWorker(s: State, c: Config, a: Action)
    requires WithinCap(s, c) && Running(s) && Enabled(s, c, a) && Workforce(s, c) && !Aborted(s.writer)
    requires a.Claim? || a.ProbeFails? || a.ProbeRaces? || a.ProbeSucceeds? || a.Acquire? || a.Send? || a.SendRefused? || a.GiveBack?
    ensures WithinCap(Effect(s, c, a), c)
  {
    hide SumBy, Weights, Count, UnitCount;
    SumByUpdate(s.workers, HeavyHeld, a.k, Effect(s, c, a).workers[a.k]);
    if a.Acquire? && s.inFlight == 0 { NothingHeavy(s); }
    if a.Send? { UnitsHeavy(s.channel, s.workers[a.k].unit); }
  }

  lemma CapByWriter(s: State, c: Config, a: Action)
    requires WithinCap(s, c) && Enabled(s, c, a) && !Aborted(Effect(s, c, a).writer) && !Aborted(s.writer) && Running(s)
    requires !(a.Claim? || a.ProbeFails? || a.ProbeRaces? || a.ProbeSucceeds? || a.Acquire? || a.Send? || a.SendRefused? || a.GiveBack?)
    ensures WithinCap(Effect(s, c, a), c)
  {
    hide SumBy, Weights, Marked, Counted, AllExited, FilesOf;
    NoWeight();
    if a.Take? {
      FirstHeavy(s.channel);
      UnitsHeavy(s.batch, s.channel[0]);
    }
    if a.Commit? { WeighNothing(s.batch); }
    if a.Release? && s.writer.amount > 0 && Heavies(s) == 1 { ReleasedHeavy(s); }
  }

  /** Releasing the one heavy reservation leaves nothing in flight. */
  lemma ReleasedHeavy(s: State)
    requires BudgetExact(s) && s.writer.Releasing? && s.writer.amount > 0 && Heavies(s) == 1
    ensures s.inFlight == s.writer.amount
  {
    hide SumBy, Weights;
    HoldNothing(s.workers);
    WeighNothing(s.channel);
    WeighNothing(s.batch);
  }

  lemma StepWithinCap(s: State, c: Config, a: Action)
    requires Shape(s, c) && CountsRight(s) && Enabled(s, c, a)
    ensures WithinCap(Effect(s, c, a), c)
  {
    hide SumBy, Weights, Marked, Counted, FilesOf, BudgetExact, TornDown, WoundDown, AllExited, Heavies, Batching;
    if !Aborted(Effect(s, c, a).writer) {
      assert !Aborted(s.writer);
      if a.Claim? || a.ProbeFails? || a.ProbeRaces? || a.ProbeSucceeds? || a.Acquire? || a.Send? || a.SendRefused? || a.GiveBack? {
        CapByWorker(s, c, a);
      } else {
        CapByWriter(s, c, a);
      }
    }
  }

  lemma StepBatching(s: State, c: Config, a: Action)
    requires Batching(s, c) && Enabled(s, c, a) && WoundDown(s)
    ensures Batching(Effect(s, c, a), c)
  {
    hide SumBy, Weights, Marked, Counted, FilesOf, AllExited;
  }

  /** A unit off the channel starts a flush exactly when it fills the batch to 256 files or to the cap. */
  lemma TakeFlushes(s: State, c: Config)
    requires Enabled(s, c, Take)
    ensures var s2 := Effect(s, c, Take);
            s2.batch == s.batch + [s.channel[0]] && s2.channel == s.channel[1..] &&
            (s2.writer == Flushing(Poll) <==> |s.batch| >= 255 || Weights(s.batch) + s.channel[0].weight >= c.cap) &&
            (s2.writer != Flushing(Poll) ==> s2.writer == Top)
  {
    hide Weights;
    UnitsLast(s.batch, s.channel[0], 0);
  }

  /** A worker may reserve exactly when its unit fits, or nothing is in flight, or the budget is closed. */
  lemma AcquireExactly(s: State, c: Config, k: nat)
    requires k < |s.workers| && s.workers[k].Acquiring?
    ensures Enabled(s, c, Acquire(k)) <==> s.closed || s.inFlight == 0 || s.inFlight + s.workers[k].unit.weight <= c.cap
  {
  }

  /** That is when the byte budget would not make it wait. */
  lemma AdmitsAsBudget(s: State, c: Config, weight: nat, budget: ByteBudget.State)
    requires budget.cap == c.cap < U64_MAX && budget.inFlight == s.inFlight && budget.closed == s.closed
    ensures Admits(s, c, weight) <==> !ByteBudget.MustWait(budget, weight)
  {
  }

  lemma StepTornDown(s: State, c: Config, a: Action)
    requires Shape(s, c) && CountsRight(s) && Enabled(s, c, a)
    ensures TornDown(Effect(s, c, a))
  {
    hide SumBy, Weights, Marked, Counted, FilesOf, BudgetExact, Running, WoundDown, AllExited, Workforce;
  }

  lemma StepWoundDown(s: State, c: Config, a: Action)
    requires Shape(s, c) && CountsRight(s) && Enabled(s, c, a)
    ensures WoundDown(Effect(s, c, a))
  {
    hide SumBy, Weights, Marked, Counted, FilesOf, BudgetExact, Running, TornDown, Workforce;
  }

  lemma StepWorkforce(s: State, c: Config, a: Action)
    requires Shape(s, c) && CountsRight(s) && Enabled(s, c, a)
    ensures Workforce(Effect(s, c, a), c)
  {
    hide SumBy, Weights, Marked, Counted, FilesOf, BudgetExact, Running, WoundDown, TornDown, AllExited;
  }

  lemma StepShape(s: State, c: Config, a: Action)
    requires Shape(s, c) && CountsRight(s) && Enabled(s, c, a)
    ensures Shape(Effect(s, c, a), c)
  {
    hide Effect, Enabled, Running, WoundDown, TornDown, Workforce, CountsRight, WithinCap, Batching;
    StepWithinCap(s, c, a);
    StepBatching(s, c, a);
    StepRunning(s, c, a);
    StepTornDown(s, c, a);
    StepWoundDown(s, c, a);
    StepWorkforce(s, c, a);
  }

  lemma StepInv(s: State, c: Config, a: Action)
    requires Inv(s, c) && Enabled(s, c, a)
    ensures Inv(Effect(s, c, a), c)
  {
    hide Effect, OncePlaced, Shape;
    StepOnce(s, c, a);
    StepCounts(s, c, a);
    StepShape(s, c, a);
  }

  lemma {:induction false} NobodyWorks(ws: seq<Worker>, f: Worker -> nat)
    requires forall k | 0 <= k < |ws| :: f(ws[k]) == 0
    ensures SumBy(ws, f) == 0
  {
    if ws != [] { NobodyWorks(ws[..|ws| - 1], f); }
  }

  lemma InitInv(s: State, c: Config)
    requires Init(s, c)
    ensures Inv(s, c)
  {
    NobodyWorks(s.workers, BusyOf());
    NobodyWorks(s.workers, Held);
    forall file: nat
      ensures Places(s, file) == 0
    {
      NobodyWorks(s.workers, CarryingOf(file));
    }
  }

  // ----- No deadlock -----------------------------------------------------------------------------------

  predicate Finished(s: State) { s.writer.Done? }

  lemma {:induction false} SomeoneHolds(ws: seq<Worker>) returns (k: nat)
    requires SumBy(ws, Held) > 0
    ensures k < |ws| && Held(ws[k]) > 0
  {
    var n := |ws| - 1;
    if Held(ws[n]) > 0 { k := n; } else { k := SomeoneHolds(ws[..n]); }
  }

  /** A worker that has not exited can move, unless it waits for budget or for room in a live channel. */
  lemma WorkerMovesOn(s: State, c: Config, k: nat) returns (a: Action)
    requires k < |s.workers| && !s.workers[k].Exited?
    requires s.workers[k].Acquiring? ==> Admits(s, c, s.workers[k].unit.weight)
    requires s.workers[k].Sending? ==> !s.receiving || |s.channel| < c.room
    ensures Enabled(s, c, a)
  {
    a := match s.workers[k]
      case Claiming => Claim(k)
      case Probing(_) => ProbeFails(k)
      case Acquiring(_) => Acquire(k)
      case Sending(_) => if s.receiving then Send(k) else SendRefused(k)
      case _ => GiveBack(k);
  }

  /** Blocked on an empty channel, the writer holds no reservation: some worker can move. */
  lemma ReceivingMoves(s: State, c: Config) returns (a: Action)
    requires Inv(s, c) && s.writer.Receiving?
    ensures Enabled(s, c, a)
  {
    hide OncePlaced, CountsRight, SumBy, Weights;
    if s.channel != [] {
      a := Take;
    } else if AllExited(s.workers) {
      a := FindClosed;
    } else {
      var k :| 0 <= k < |s.workers| && !s.workers[k].Exited?;
      if s.workers[k].Acquiring? && !Admits(s, c, s.workers[k].unit.weight) {
        NoWeight();
        var h := SomeoneHolds(s.workers);
        a := WorkerMovesOn(s, c, h);
      } else {
        a := WorkerMovesOn(s, c, k);
      }
    }
  }

  /** While joining, a worker that has not exited can move: the budget is closed and sends are refused. */
  lemma JoiningMoves(s: State, c: Config) returns (a: Action)
    requires Inv(s, c) && s.writer.Joining?
    ensures Enabled(s, c, a)
  {
    hide OncePlaced, CountsRight, SumBy, Weights;
    if AllExited(s.workers) {
      a := Join;
    } else {
      var k :| 0 <= k < |s.workers| && !s.workers[k].Exited?;
      a := WorkerMovesOn(s, c, k);
    }
  }

  /** The pipeline never deadlocks: until the writer is done, some step is enabled. */
  lemma NoDeadlock(s: State, c: Config) returns (a: Action)
    requires Inv(s, c) && !Finished(s)
    ensures Enabled(s, c, a)
  {
    hide OncePlaced, SumBy, Weights;
    match s.writer {
      case Top => a := CatchUp(s.seen);
      case Polling => a := if s.channel != [] then Take else if AllExited(s.workers) then FindClosed else FindEmpty;
      case Flushing(_) =>
        a := if s.batch == [] then NothingToFlush else Commit(seq(|s.batch|, i requires 0 <= i < |s.batch| => true));
      case Releasing(_, _) => a := Release;
      case Receiving => a := ReceivingMoves(s, c);
      case CatchingUp => a := FinalCatchUp;
      case Dropping => a := DropReceiver;
      case Closing => a := Close;
      case Joining(_) => a := JoiningMoves(s, c);
    }
  }

  // ----- Every run ends -----------------------------------------------------------------------------------

  function WriterSteps(w: Writer): nat {
    match w
    case Done(_) => 0
    case Joining(_) => 1
    case Closing => 2
    case Dropping => 3
    case CatchingUp => 2
    case Releasing(t, _) => (match t case Finish => 4 case Receive => 7 case Poll => 11)
    case Flushing(t) => (match t case Finish => 5 case Receive => 8 case Poll => 12)
    case Receiving => 6
    case Polling => 9
    case Top => 10
  }

  /** A bound on the steps still to come. */
  function Potential(s: State, c: Config): nat {
    20 * (c.total - Claimed(s, c)) + SumBy(s.workers, WorkerSteps) + 10 * |s.channel| + WriterSteps(s.writer)
  }

  lemma WorkerDescends(s: State, c: Config, a: Action)
    requires Enabled(s, c, a)
    requires a.Claim? || a.ProbeFails? || a.ProbeRaces? || a.ProbeSucceeds? || a.Acquire? || a.Send? || a.SendRefused? || a.GiveBack?
    ensures Potential(Effect(s, c, a), c) < Potential(s, c)
  {
    hide SumBy, Weights;
    SumByUpdate(s.workers, WorkerSteps, a.k, Effect(s, c, a).workers[a.k]);
  }

  /** Every step uses some of it up, so a run is at most as long as its initial potential. */
  lemma StepDescends(s: State, c: Config, a: Action)
    requires Enabled(s, c, a)
    ensures Potential(Effect(s, c, a), c) < Potential(s, c)
  {
    hide SumBy, Weights, Marked, Counted, FilesOf, AllExited;
    if a.Claim? || a.ProbeFails? || a.ProbeRaces? || a.ProbeSucceeds? || a.Acquire? || a.Send? || a.SendRefused? || a.GiveBack? {
      hide Effect, Enabled, Potential;
      WorkerDescends(s, c, a);
    } else {
      assert Effect(s, c, a).workers == s.workers;
    }
  }

  ghost predicate Run(states: seq<State>, actions: seq<Action>, c: Config) {
    |states| == |actions| + 1 && Init(states[0], c) &&
    forall i | 0 <= i < |actions| ::
      Enabled(states[i], c, actions[i]) && states[i + 1] == Effect(states[i], c, actions[i])
  }

  lemma {:induction false} RunInv(states: seq<State>, actions: seq<Action>, c: Config, n: nat)
    requires Run(states, actions, c) && n <= |actions|
    ensures Inv(states[n], c) && Potential(states[n], c) + n <= Potential(states[0], c)
  {
    hide Effect, Enabled, Inv, Potential, Init;
    if n == 0 {
      InitInv(states[0], c);
    } else {
      RunInv(states, actions, c, n - 1);
      StepInv(states[n - 1], c, actions[n - 1]);
      StepDescends(states[n - 1], c, actions[n - 1]);
    }
  }

  /** Every run ends, under any scheduling, within 20 steps a file and one a worker. */
  lemma RunsEnd(states: seq<State>, actions: seq<Action>, c: Config)
    requires Run(states, actions, c)
    ensures |actions| <= 20 * c.total + |states[0].workers| + 10
  {
    hide Effect, Enabled, Inv;
    RunInv(states, actions, c, |actions|);
    AllClaiming(states[0].workers);
  }

  lemma {:induction false} AllClaiming(ws: seq<Worker>)
    requires forall k | 0 <= k < |ws| :: ws[k] == Claiming
    ensures SumBy(ws, WorkerSteps) == |ws|
  {
    if ws != [] { AllClaiming(ws[..|ws| - 1]); }
  }

  // ----- What a successful run counted ----------------------------------------------------------------------

  /**
    A run that ends well has put every file in exactly one of committed, failed and raced, and
    its progress events are 1, 2, ..., total.
   */
  lemma SuccessCounts(s: State, c: Config)
    requires Inv(s, c) && s.writer == Done(true)
    ensures forall file: nat ::
              Count(s.committed, file) + Count(s.failed, file) + Count(s.raced, file) == if file < c.total then 1 else 0
    ensures |s.committed| + |s.failed| + |s.raced| == c.total && s.finished == c.total
    ensures |s.events| == c.total && forall i | 0 <= i < c.total :: s.events[i] == i + 1
    ensures s.inFlight == 0
  {
    assert s.cursor >= c.total by { assert s.workers[0].Exited?; }
    NoneBusy(s.workers);
    forall file: nat
      ensures Count(s.committed, file) + Count(s.failed, file) + Count(s.raced, file) == if file < c.total then 1 else 0
    {
      assert Places(s, file) == if file < Claimed(s, c) then 1 else 0;
      NoneCarry(s.workers, file);
    }
  }

  lemma NoneBusy(ws: seq<Worker>)
    requires AllExited(ws)
    ensures SumBy(ws, BusyOf()) == 0 && SumBy(ws, Held) == 0
  {
    NobodyWorks(ws, BusyOf());
    NobodyWorks(ws, Held);
  }

  lemma NoneCarry(ws: seq<Worker>, file: nat)
    requires AllExited(ws)
    ensures SumBy(ws, CarryingOf(file)) == 0
  {
    NobodyWorks(ws, CarryingOf(file));
  }
}
