/** Backing reads through the ring: what every read of the serve path returns, and what it charges. */
module Backing {
  import opened Outcomes
  import opened Bytes
  import opened Windows
  import opened ReadAheads

  const PER_STREAM_DIVISOR: nat := 4

  function Clamp(n: nat, lo: nat, hi: nat): nat
    requires lo <= hi
  {
    Min(Max(n, lo), hi)
  }

  /** Per-stream window cap derived from the budget. */
  function PerStreamCap(budget: nat): nat {
    if budget == 0 then 0 else Clamp(budget / PER_STREAM_DIVISOR, WINDOW_FLOOR, WINDOW_ABS_CAP)
  }

  /** A quarter of the budget, held between 512 KiB and 8 MiB; nothing without a budget. */
  lemma CapExactly(budget: nat)
    ensures var c := PerStreamCap(budget);
            if budget == 0 then c == 0
            else 524288 <= c <= 8388608 && (c > 524288 ==> 4 * c <= budget) && (c < 8388608 ==> budget < 4 * (c + 1))
  {
  }

  /** How many next windows to keep in flight: about one per-stream share, at least 1 and at most 4. */
  function PrefetchDepth(cap: nat, window: nat): (d: nat)
    ensures 1 <= d <= 4
    ensures d == 1 || d * Max(window, 1) <= cap
    ensures d == 4 || cap < (d + 1) * Max(window, 1)
  {
    Clamp(cap / Max(window, 1), 1, 4)
  }

  /** `read_exact_at` on the file itself. */
  method ReadDirect(file: seq<Byte>, off: nat, len: nat, ioFails: bool) returns (r: Result<seq<Byte>, ReadError>)
    ensures r.Ok? ==> |r.value| == len && (len > 0 ==> off + len <= |file| && r.value == file[off..off + len])
    ensures off + len <= |file| && !ioFails ==> r.Ok?
  {
    if len == 0 {
      return Ok([]);
    }
    if ioFails {
      return Err(IoFailure);
    }
    if off + len > |file| {
      return Err(UnexpectedEof);
    }
    return Ok(file[off..off + len]);
  }

  /** The circumstances of one backing read: a poisoned buffer lock, the window the pool permits, a failing device. */
  datatype Chance = Chance(poisoned: bool, permitted: nat, ioFails: bool)

  class BackingReader {
    const file: seq<Byte>
    const ra: ReadAhead
    const budget: nat
    const backingLen: nat
    const prefetch: bool
    var fills: nat
    var epoch: nat
    var plannedNextExpected: nat
    var plannedWindow: nat

    constructor (file: seq<Byte>, ra: ReadAhead, budget: nat, backingLen: nat, prefetch: bool, epoch: nat)
      ensures this.file == file && this.ra == ra && this.budget == budget && this.backingLen == backingLen
      ensures this.prefetch == prefetch && this.epoch == epoch && fills == 0
      ensures plannedNextExpected == U64_MAX && plannedWindow == 0
    {
      this.file, this.ra, this.budget, this.backingLen, this.prefetch := file, ra, budget, backingLen, prefetch;
      this.epoch, fills, plannedNextExpected, plannedWindow := epoch, 0, U64_MAX, 0;
    }

    ghost predicate Valid()
      reads this, ra
    {
      ra.Valid() && Agrees(ra.windows, file) && |file| < U64_MAX && backingLen < U64_MAX
    }

    /** No read fails for reasons of its own, and the length on record is the file's. */
    ghost predicate Sound(chances: nat -> Chance) {
      backingLen == |file| && forall i: nat :: !chances(i).ioFails
    }

    /** A read whose circumstances are what they may be. */
    method Read(off: nat, len: nat, chance: Chance) returns (r: Result<seq<Byte>, ReadError>)
      requires Valid()
      modifies this, ra
      ensures Valid()
      ensures r.Ok? ==> |r.value| == len && (len > 0 ==> off + len <= |file| && r.value == file[off..off + len])
      ensures off + len <= backingLen <= |file| && !chance.ioFails ==> r.Ok?
    {
      hide Sorted, Total, Agrees;
      var read, _ := ReadExactAt(off, len, chance.poisoned && budget > 0, chance.permitted, chance.ioFails);
      r := read;
    }

    /**
      Read exactly `len` bytes at `off`.  `poisoned` says that an earlier holder of the buffer
      panicked, `permitted` is the window the pool allows, `ioFails` that the device fails.
      `charge` is what the pool's ledger is told.
     */
    method ReadExactAt(off: nat, len: nat, poisoned: bool, permitted: nat, ioFails: bool)
      returns (r: Result<seq<Byte>, ReadError>, ghost charge: int)
      requires if poisoned then ra.maxWindows >= 1 && |file| < U64_MAX && backingLen < U64_MAX && budget > 0 else Valid()
      modifies this, ra
      ensures Valid()
      ensures r.Ok? ==> |r.value| == len && (len > 0 ==> off + len <= |file| && r.value == file[off..off + len])
      ensures off + len <= backingLen <= |file| && !ioFails ==> r.Ok?
      ensures charge == ra.cachedBytes - old(ra.cachedBytes)
      ensures epoch == old(epoch) +
                if budget > 0 && (if poisoned then off != U64_MAX else !old(ra.Covers(off, len)) && off != old(ra.nextExpected)) then 1 else 0
      ensures prefetch && budget > 0 && r.Ok? ==>
                plannedNextExpected == ra.nextExpected && plannedWindow == ra.window &&
                ra.maxWindows == PrefetchDepth(PerStreamCap(budget), ra.window) + 1
      ensures !(prefetch && budget > 0 && r.Ok?) ==>
                plannedNextExpected == old(plannedNextExpected) && plannedWindow == old(plannedWindow) && ra.maxWindows == old(ra.maxWindows)
      ensures ra.cap == if budget > 0 && (poisoned || !old(ra.Covers(off, len))) then permitted else old(ra.cap)
      ensures fills == old(fills) +
                if budget == 0 || (len > 0 && off + len <= backingLen && (poisoned || !old(ra.Covers(off, len)))) then 1 else 0
    {
      hide Sorted, Total, Copies, Clamp, PerStreamCap, PrefetchDepth;
      charge := 0;
      if budget == 0 {
        fills := fills + 1;
        r := ReadDirect(file, off, len, ioFails);
        return r, charge;
      }
      if poisoned {
        var freed := ra.Clear();
        charge := charge - freed;
      }
      var held := ra.WindowContaining(off, len);
      if held.None? {
        if off != ra.nextExpected {
          epoch := epoch + 1;
        }
        ra.SetCap(permitted);
      }
      var read, filled := ra.ReadInto(file, off, len, backingLen, ioFails);
      if filled {
        fills := fills + 1;
      }
      if read.Err? {
        return Err(read.error), charge;
      }
      var (bytes, before, after) := read.value;
      if prefetch {
        ra.SetMaxWindows(PrefetchDepth(PerStreamCap(budget), ra.window) + 1);
        plannedNextExpected, plannedWindow := ra.nextExpected, ra.window;
      }
      charge := charge + after - before;
      return Ok(bytes), charge;
    }
  }
}
