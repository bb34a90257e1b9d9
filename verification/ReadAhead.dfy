/**
  The per-handle read-ahead ring of `musefs-core/src/readahead.rs`: cached windows of the
  backing file, an adaptive window size, and eviction that never takes the reader's own
  furthest window.
 */
module ReadAheads {
  import opened Outcomes
  import opened Bytes
  import opened Windows

  const WINDOW_FLOOR: nat := 512 * 1024
  const WINDOW_ABS_CAP: nat := 8 * 1024 * 1024

  datatype ReadError = UnexpectedEof | IoFailure

  class ReadAhead {
    var windows: seq<Window>
    var cachedBytes: nat
    var nextExpected: nat
    var window: nat
    var cap: nat
    var maxWindows: nat

    predicate Valid()
      reads this
    {
      Sorted(windows) && cachedBytes == Total(windows) && maxWindows >= 1
    }

    constructor (initialCap: nat)
      ensures Valid() && windows == [] && nextExpected == U64_MAX && window == WINDOW_FLOOR && cap == initialCap && maxWindows == 1
    {
      windows, cachedBytes, nextExpected, window, cap, maxWindows := [], 0, U64_MAX, WINDOW_FLOOR, initialCap, 1;
    }

    method SetMaxWindows(n: nat)
      requires Valid()
      modifies `maxWindows
      ensures Valid() && maxWindows == Max(n, 1)
    {
      maxWindows := Max(n, 1);
    }

    /** Empty the ring, whatever state it is in; say how many bytes it had on its books. */
    method Clear() returns (freed: nat)
      requires maxWindows >= 1
      modifies `windows, `cachedBytes, `nextExpected, `window
      ensures Valid() && windows == [] && cachedBytes == 0 && freed == old(cachedBytes)
      ensures window == Min(WINDOW_FLOOR, cap) && nextExpected == U64_MAX
    {
      freed := cachedBytes;
      windows, cachedBytes, window, nextExpected := [], 0, Min(WINDOW_FLOOR, cap), U64_MAX;
    }

    method SetCap(newCap: nat)
      modifies `cap, `window
      ensures cap == newCap && window == Min(old(window), newCap)
    {
      cap := newCap;
      if window > cap {
        window := cap;
      }
    }

    predicate Covers(off: nat, len: nat)
      reads this
    {
      exists i :: 0 <= i < |windows| && windows[i].Covers(off, len)
    }

    /** The first window holding the range. */
    method WindowContaining(off: nat, len: nat) returns (w: Option<Window>)
      ensures w.Some? <==> Covers(off, len)
      ensures w.Some? ==> w.value in windows && w.value.Covers(off, len)
    {
      var i := 0;
      while i < |windows|
        invariant i <= |windows| && forall j | 0 <= j < i :: !windows[j].Covers(off, len)
      {
        if windows[i].Covers(off, len) {
          return Some(windows[i]);
        }
        i := i + 1;
      }
      return None;
    }

    /** `binary_search_by_key` on the starts. */
    method FindStart(start: nat) returns (found: bool, i: nat)
      requires Sorted(windows)
      ensures i <= |windows| && (found ==> i < |windows| && windows[i].start == start)
      ensures !found ==> SplitsAt(windows, start, i)
    {
      var lo, hi := 0, |windows|;
      while lo < hi
        invariant lo <= hi <= |windows|
        invariant forall j | 0 <= j < lo :: windows[j].start < start
        invariant forall j | hi <= j < |windows| :: start < windows[j].start
      {
        var mid := (lo + hi) / 2;
        if windows[mid].start == start {
          return true, mid;
        }
        if windows[mid].start < start {
          lo := mid + 1;
        } else {
          hi := mid;
        }
      }
      return false, lo;
    }

    method EvictVictim() returns (idx: nat)
      requires |windows| >= 2
      ensures IsVictim(windows, nextExpected, idx)
    {
      var i := 0;
      while i < |windows|
        invariant i <= |windows| && forall j | 0 <= j < i :: windows[j].End() > nextExpected
      {
        if windows[i].End() <= nextExpected {
          return i;
        }
        i := i + 1;
      }
      while i > 0
        invariant 0 <= i <= |windows| && forall j | i <= j < |windows| :: windows[j].start <= nextExpected
      {
        if windows[i - 1].start > nextExpected {
          return i - 1;
        }
        i := i - 1;
      }
      idx, i := 0, 1;
      while i < |windows|
        invariant 1 <= i <= |windows| && idx < i && forall j | 0 <= j < i :: windows[idx].End() <= windows[j].End()
        invariant forall j | 0 <= j < idx :: windows[idx].End() < windows[j].End()
      {
        if windows[i].End() < windows[idx].End() {
          idx := i;
        }
        i := i + 1;
      }
    }

    /** Store a window and trim the ring; the trim never shortens the reader's reach. */
    method InsertWindow(w: Window)
      requires Valid()
      modifies `windows, `cachedBytes
      ensures Valid() && |windows| <= maxWindows
      ensures Trimmed(Place(old(windows), w), maxWindows, nextExpected, windows)
      ensures forall x | x in windows :: x == w || x in old(windows)
      ensures Reach(windows, nextExpected) == Reach(Place(old(windows), w), nextExpected)
    {
      hide Sorted, Total, Reach, Place, Inserted, SplitsAt, Trimmed;
      var found, i := FindStart(w.start);
      if found {
        PlaceFound(windows, w, i);
        TotalReplaced(windows, i, w);
        TotalWithout(windows, i);
        cachedBytes := cachedBytes - |windows[i].bytes| + |w.bytes|;
        windows := windows[i := w];
      } else {
        PlaceMissing(windows, w, i);
        InsertedSorted(windows, w, i);
        TotalInserted(windows, i, w);
        InsertedMembers(windows, w, i);
        cachedBytes := cachedBytes + |w.bytes|;
        windows := Inserted(windows, w, i);
      }
      TrimRing();
    }

    /** Drop windows until the ring has no more than it may hold. */
    method TrimRing()
      requires Valid()
      modifies `windows, `cachedBytes
      ensures Valid() && |windows| <= maxWindows && forall x | x in windows :: x in old(windows)
      ensures Trimmed(old(windows), maxWindows, nextExpected, windows)
      ensures Reach(windows, nextExpected) == Reach(old(windows), nextExpected)
    {
      hide Sorted, Total, Reach, Without, IsVictim, Trimmed;
      ghost var placed := windows;
      while |windows| > maxWindows
        invariant Valid() && forall x | x in windows :: x in placed
        invariant Reach(windows, nextExpected) == Reach(placed, nextExpected)
        invariant forall r | Trimmed(windows, maxWindows, nextExpected, r) :: Trimmed(placed, maxWindows, nextExpected, r)
        decreases |windows|
      {
        var idx := EvictVictim();
        VictimIn(windows, nextExpected, idx);
        if windows[idx].Inside(nextExpected) {
          VictimExposed(windows, nextExpected, idx);
          Outreached(windows, nextExpected, idx);
        }
        TrimStep(windows, maxWindows, nextExpected, idx);
        ReachWithout(windows, nextExpected, idx);
        TotalWithout(windows, idx);
        WithoutSorted(windows, idx);
        WithoutLength(windows, idx);
        cachedBytes := cachedBytes - |windows[idx].bytes|;
        windows := Without(windows, idx);
      }
      TrimDone(windows, maxWindows, nextExpected);
    }

    /** Store a prefetched window; report the ring's size before and after. */
    method StoreWindow(start: nat, bytes: seq<Byte>, ghost file: seq<Byte>) returns (before: nat, after: nat)
      requires Valid() && Agrees(windows, file) && Copies(Window(start, bytes), file)
      modifies `windows, `cachedBytes
      ensures Valid() && Agrees(windows, file) && |windows| <= maxWindows
      ensures Trimmed(Place(old(windows), Window(start, bytes)), maxWindows, nextExpected, windows)
      ensures before == Total(old(windows)) && after == Total(windows)
    {
      hide Sorted, Total, Reach, Place, Trimmed, Agrees;
      before := cachedBytes;
      ghost var was := windows;
      InsertWindow(Window(start, bytes));
      AgreesFrom(was, windows, Window(start, bytes), file);
      after := cachedBytes;
    }

    /** The window size a miss at `off` settles on. */
    function NextWindow(off: nat): nat
      reads this
    {
      if off == nextExpected then Min(Min(2 * window, U64_MAX), cap) else Min(WINDOW_FLOOR, cap)
    }

    /** How much a miss at `off` reads. */
    function Want(off: nat, len: nat, backingLen: nat): nat
      reads this
      requires off <= backingLen
    {
      Min(Min(Max(NextWindow(off), len), Max(cap, len)), backingLen - off)
    }

    /**
      A miss where the last read ended doubles the window, up to the cap; any other starts
      over at 512 KiB, or the cap.  It reads that much or what was asked for, whichever is
      more, as far as the file goes.
     */
    lemma MissExactly(off: nat, len: nat, backingLen: nat)
      requires off <= backingLen && cap <= U64_MAX
      ensures var next := if off == nextExpected && 2 * window <= cap then 2 * window
                          else if off != nextExpected && 524288 <= cap then 524288 else cap;
              var wanted := if next < len then len else next;
              NextWindow(off) == next && Want(off, len, backingLen) == if off + wanted < backingLen then wanted else backingLen - off
    {
    }

    /** A miss can be filled. */
    predicate Fillable(file: seq<Byte>, off: nat, len: nat, backingLen: nat, ioFails: bool)
      reads this
    {
      off + len <= backingLen && !ioFails && off + Want(off, len, backingLen) <= |file|
    }

    /**
      Serve `len` bytes at `off`, from the ring when it holds them, else by one fill of the
      backing file.  Success always gives the file's own bytes.
     */
    method ReadInto(file: seq<Byte>, off: nat, len: nat, backingLen: nat, ioFails: bool)
      returns (r: Result<(seq<Byte>, nat, nat), ReadError>, filled: bool)
      requires Valid() && Agrees(windows, file) && |file| < U64_MAX && backingLen < U64_MAX
      modifies `windows, `cachedBytes, `nextExpected, `window
      ensures Valid() && Agrees(windows, file)
      ensures r.Ok? <==> len == 0 || old(Covers(off, len)) || old(Fillable(file, off, len, backingLen, ioFails))
      ensures r.Ok? ==> len == 0 || off + len <= |file|
      ensures r.Ok? && len > 0 ==> r.value.0 == file[off..off + len] && nextExpected == off + len
      ensures len == 0 ==> nextExpected == old(nextExpected)
      ensures r.Ok? ==> |r.value.0| == len && r.value.1 == Total(old(windows)) && r.value.2 == Total(windows)
      ensures r.Err? ==> windows == old(windows) && nextExpected == old(nextExpected)
      ensures filled <==> len > 0 && !old(Covers(off, len)) && off + len <= backingLen
      ensures window == if len == 0 || old(Covers(off, len)) then old(window) else old(NextWindow(off))
      ensures r.Ok? && !filled ==> windows == old(windows)
      ensures r.Ok? && filled ==>
                off + old(Want(off, len, backingLen)) <= |file| && |windows| <= maxWindows &&
                Trimmed(Place(old(windows), Window(off, file[off..off + old(Want(off, len, backingLen))])), maxWindows, off + len, windows)
    {
      hide Sorted, Total, Reach, Place, Agrees, Copies, Trimmed;
      filled := false;
      if len == 0 {
        return Ok(([], cachedBytes, cachedBytes)), filled;
      }
      var held := WindowContaining(off, len);
      if held.Some? {
        var lo := off - held.value.start;
        HeldBytes(held.value, windows, file, off, len);
        nextExpected := off + len;
        return Ok((held.value.bytes[lo..lo + len], cachedBytes, cachedBytes)), filled;
      }
      var before := cachedBytes;
      ghost var was := windows;
      window := if off == nextExpected then Min(SaturatingDouble(window), cap) else Min(WINDOW_FLOOR, cap);
      if off >= backingLen || SaturatingAdd(off, len) > backingLen {
        return Err(UnexpectedEof), filled;
      }
      var want := Min(Min(Max(window, len), Max(cap, len)), backingLen - off);
      filled := true;
      if ioFails {
        return Err(IoFailure), filled;
      }
      if off + want > |file| {
        return Err(UnexpectedEof), filled;
      }
      var w := Window(off, file[off..off + want]);
      FilledWindow(file, off, want, len);
      nextExpected := off + len;
      InsertWindow(w);
      AgreesFrom(was, windows, w, file);
      return Ok((w.bytes[..len], before, cachedBytes)), filled;
    }
  }

  lemma FilledWindow(file: seq<Byte>, off: nat, want: nat, len: nat)
    requires off + want <= |file| && len <= want
    ensures var w := Window(off, file[off..off + want]);
            Copies(w, file) && |w.bytes| == want && w.bytes[..len] == file[off..off + len]
  {
    SliceOfSlice(file, off, off + want, 0, len);
  }

  function SaturatingDouble(n: nat): nat { Min(2 * n, U64_MAX) }

  lemma HeldBytes(w: Window, ws: seq<Window>, file: seq<Byte>, off: nat, len: nat)
    requires w in ws && Agrees(ws, file) && w.Covers(off, len) && |file| < U64_MAX
    ensures off + len <= w.End() <= |file| && w.start <= off
    ensures w.bytes[off - w.start..off - w.start + len] == file[off..off + len]
  {
    var i :| 0 <= i < |ws| && ws[i] == w;
    assert Copies(ws[i], file);
    SliceOfSlice(file, w.start, w.End(), off - w.start, off - w.start + len);
  }

  /** A miss past the only window: that window is behind the reader, and first in the ring. */
  lemma SoleWindow(was: seq<Window>, w: Window, len: nat)
    requires |was| <= 1 && (forall x | x in was :: x.start < w.start && !x.Covers(w.start, len)) && len <= |w.bytes|
    ensures var placed := Place(was, w);
            |placed| <= 2 && (|placed| <= 1 ==> placed == [w]) && (|placed| == 2 ==> placed[1..] == [w] && placed[0].End() <= w.start + len)
  {
    if |was| == 1 {
      assert was[0] in was;
      assert Place(was[1..], w) == [w];
      assert Place(was, w) == [was[0]] + [w];
    }
  }

  /** So a ring of one window trims to the new one. */
  lemma SoleTrim(was: seq<Window>, w: Window, len: nat, r: seq<Window>)
    requires |was| <= 1 && (forall x | x in was :: x.start < w.start && !x.Covers(w.start, len)) && len <= |w.bytes|
    requires Trimmed(Place(was, w), 1, w.start + len, r)
    ensures r == [w]
  {
    hide Place;
    SoleWindow(was, w, len);
    var placed, frontier := Place(was, w), w.start + len;
    if |placed| == 2 {
      assert placed[0].End() <= frontier;
      assert SomeBehind(placed, frontier);
      var idx: nat :| IsVictim(placed, frontier, idx) && Trimmed(Without(placed, idx), 1, frontier, r);
      assert idx == 0;
      assert Without(placed, 0) == placed[1..];
    }
  }

  /** A window every other outreaches. */
  lemma Outreached(ws: seq<Window>, frontier: nat, i: nat)
    requires |ws| >= 2 && i < |ws| && forall j | 0 <= j < |ws| :: ws[j].Inside(frontier) && ws[i].End() <= ws[j].End()
    ensures exists j :: 0 <= j < |ws| && j != i && ws[j].Inside(frontier) && ws[i].End() <= ws[j].End()
  {
    var j := if i == 0 then 1 else 0;
    assert ws[j].Inside(frontier);
  }

  lemma AgreesFrom(was: seq<Window>, now: seq<Window>, w: Window, file: seq<Byte>)
    requires Agrees(was, file) && Copies(w, file) && forall x | x in now :: x == w || x in was
    ensures Agrees(now, file)
  {
    forall i | 0 <= i < |now|
      ensures Copies(now[i], file)
    {
      assert now[i] in now;
    }
  }

  // ----- Sequential playback: how many fills --------------------------------------------------------

  /** How often a window of size `w` doubles before it reaches `cap`. */
  function Doublings(w: nat, cap: nat): nat
    decreases cap - w
  {
    if w == 0 || w >= cap then 0 else 1 + Doublings(2 * w, cap)
  }

  function Pow2(k: nat): (n: nat)
    ensures n >= 1
  {
    if k == 0 then 1 else 2 * Pow2(k - 1)
  }

  /** `Doublings` is the ceiling of log2(cap / w): the least power of two that takes `w` to `cap`. */
  lemma {:induction false} DoublingsIsCeilLog(w: nat, cap: nat)
    requires 1 <= w <= cap
    ensures w * Pow2(Doublings(w, cap)) >= cap
    ensures Doublings(w, cap) > 0 ==> w * Pow2(Doublings(w, cap) - 1) < cap
    decreases cap - w
  {
    if w < cap && 2 * w < cap {
      var d := Doublings(2 * w, cap);
      DoublingsIsCeilLog(2 * w, cap);
      assert w * Pow2(d + 1) == (2 * w) * Pow2(d);
      assert w * Pow2(d) == (2 * w) * Pow2(d - 1);
    } else if w < cap {
      assert Doublings(2 * w, cap) == 0;
      assert Pow2(1) == 2 * Pow2(0);
    }
  }

  function SumOf(sizes: seq<nat>): nat {
    if sizes == [] then 0 else SumOf(sizes[..|sizes| - 1]) + sizes[|sizes| - 1]
  }

  /** What the ring holds after `fills` fills of a sequential run: one window, big enough. */
  ghost predicate Streaming(ws: seq<Window>, size: nat, cap: nat, file: seq<Byte>, o: nat, pos: nat) {
    |ws| == 1 && ws[0].start == o && ws[0].End() >= Min(o + size, |file|) && o < pos && 1 <= size <= cap
  }

  /** The accounting of a sequential run: each full-size fill is paid for by the distance since the last. */
  ghost predicate Paid(fills: nat, size: nat, cap: nat, gap: nat, m: nat, travelled: nat) {
    fills + Doublings(size, cap) == Doublings(WINDOW_FLOOR, cap) + 1 + m && m * gap <= travelled
  }

  lemma NextFill(fills: nat, size: nat, cap: nat, gap: nat, m: nat, travelled: nat, further: nat)
    requires Paid(fills, size, cap, gap, m, travelled) && 1 <= size <= cap && travelled <= further
    requires size == cap ==> travelled + gap <= further
    ensures Paid(fills + 1, Min(2 * size, cap), cap, gap, if size == cap then m + 1 else m, further)
  {
    if size == cap {
      assert (m + 1) * gap == m * gap + gap;
    } else {
      assert Doublings(size, cap) == 1 + Doublings(2 * size, cap);
      assert Doublings(Min(2 * size, cap), cap) == Doublings(2 * size, cap);
    }
  }

  lemma GapsFit(m: nat, gap: nat, total: nat)
    requires gap >= 1 && m * gap <= total
    ensures m <= total / gap
  {
    var q := total / gap;
    assert total == q * gap + total % gap;
    assert (q + 1) * gap == q * gap + gap;
    CancelFactor(m, q + 1, gap);
  }

  lemma CancelFactor(m: nat, n: nat, gap: nat)
    requires gap >= 1 && m * gap < n * gap
    ensures m < n
  {
    if m >= n { KeepFactor(n, m, gap); }
  }

  lemma KeepFactor(n: nat, m: nat, gap: nat)
    requires n <= m
    ensures n * gap <= m * gap
  {
  }

  /** A covering window that falls short of the file's end was missed by more than its size less one read. */
  lemma MissFar(ws: seq<Window>, size: nat, cap: nat, file: seq<Byte>, o: nat, pos: nat, len: nat)
    requires Streaming(ws, size, cap, file, o, pos) && pos + len <= |file| < U64_MAX && !ws[0].Covers(pos, len)
    ensures pos + len > o + size
  {
  }

  /** A fill at `pos` leaves one window that starts there and is big enough. */
  lemma FillStreams(file: seq<Byte>, pos: nat, len: nat, size: nat, cap: nat, want: nat)
    requires 1 <= len <= cap && pos + len <= |file| && 1 <= size <= cap
    requires want == Min(Min(Max(size, len), Max(cap, len)), |file| - pos)
    ensures pos + want <= |file| && Streaming([Window(pos, file[pos..pos + want])], size, cap, file, pos, pos + len)
  {
  }

  lemma StillStreams(ws: seq<Window>, size: nat, cap: nat, file: seq<Byte>, o: nat, pos: nat, more: nat)
    requires Streaming(ws, size, cap, file, o, pos) && pos <= more
    ensures Streaming(ws, size, cap, file, o, more)
  {
  }

  lemma FirstFill(cap: nat, gap: nat)
    ensures Paid(1, WINDOW_FLOOR, cap, gap, 0, 0)
  {
  }

  /** Where a sequential run stands: nothing read yet, or one window streaming and every fill paid for. */
  ghost predicate Running(ra: ReadAhead, file: seq<Byte>, start: nat, pos: nat, fills: nat, o: nat, m: nat, gap: nat)
    reads ra
  {
    ra.Valid() && Agrees(ra.windows, file) && ra.maxWindows == 1 && start <= pos &&
    (fills == 0 ==> ra.windows == [] && pos == start && ra.nextExpected == U64_MAX) &&
    (fills > 0 ==> ra.nextExpected == pos && start <= o && Streaming(ra.windows, ra.window, ra.cap, file, o, pos) &&
                   Paid(fills, ra.window, ra.cap, gap, m, o - start))
  }

  /** One read of a sequential run. */
  method NextRead(ra: ReadAhead, file: seq<Byte>, ghost start: nat, pos: nat, len: nat, fills: nat,
                  ghost o: nat, ghost m: nat, ghost gap: nat)
    returns (bytes: seq<Byte>, filled: bool, ghost o2: nat, ghost m2: nat)
    requires Running(ra, file, start, pos, fills, o, m, gap) && WINDOW_FLOOR <= ra.cap && 2 * ra.cap < U64_MAX
    requires len <= ra.cap && gap + len <= ra.cap + 1 && pos + len <= |file| < U64_MAX
    modifies ra`windows, ra`cachedBytes, ra`nextExpected, ra`window
    ensures bytes == file[pos..pos + len]
    ensures Running(ra, file, start, pos + len, if filled then fills + 1 else fills, o2, m2, gap)
    ensures o2 == o || o2 == pos
  {
    hide Sorted, Total, Place, Reach, Doublings, Agrees, Streaming, Paid, Trimmed;
    var r;
    ghost var ws, size, cap := ra.windows, ra.window, ra.cap;
    o2, m2 := o, m;
    if fills > 0 { OneWindow(ws, size, cap, file, o, pos); }
    r, filled := ra.ReadInto(file, pos, len, |file|, false);
    bytes := r.value.0;
    if len == 0 { assert file[pos..pos + len] == []; }
    if filled {
      ghost var want := Min(Min(Max(ra.window, len), Max(cap, len)), |file| - pos);
      SoleTrim(ws, Window(pos, file[pos..pos + want]), len, ra.windows);
      FillStreams(file, pos, len, ra.window, cap, want);
      if fills > 0 {
        MissFar(ws, size, cap, file, o, pos, len);
        NextFill(fills, size, cap, gap, m, o - start, pos - start);
        m2 := if size == cap then m + 1 else m;
      } else {
        FirstFill(cap, gap);
        m2 := 0;
      }
      o2 := pos;
    } else if fills > 0 {
      StillStreams(ws, size, cap, file, o, pos, pos + len);
    }
  }

  lemma OneWindow(ws: seq<Window>, size: nat, cap: nat, file: seq<Byte>, o: nat, pos: nat)
    requires Streaming(ws, size, cap, file, o, pos)
    ensures |ws| == 1 && (forall x | x in ws :: x.start < pos) && 1 <= size <= cap && o < pos
  {
  }

  /**
    Reading contiguous ranges of at most `largest` bytes through a one-window ring: the bytes
    are the file's, and full-size fills are at least `cap - largest + 1` bytes apart.
   */
  method ReadSequentially(ra: ReadAhead, file: seq<Byte>, start: nat, sizes: seq<nat>, largest: nat)
    returns (bytes: seq<Byte>, fills: nat)
    requires ra.Valid() && ra.windows == [] && ra.maxWindows == 1 && ra.nextExpected == U64_MAX && WINDOW_FLOOR <= ra.cap
    requires (forall i | 0 <= i < |sizes| :: sizes[i] <= largest) && largest <= ra.cap
    requires start + SumOf(sizes) <= |file| < U64_MAX && 2 * ra.cap < U64_MAX
    modifies ra
    ensures bytes == file[start..start + SumOf(sizes)]
    ensures fills <= Doublings(WINDOW_FLOOR, old(ra.cap)) + 1 + SumOf(sizes) / (old(ra.cap) - largest + 1)
  {
    hide Sorted, Total, Place, Reach, Doublings, Agrees, Running, SumOf;
    bytes, fills := [], 0;
    var i, pos := 0, start;
    ghost var o: nat, m: nat, gap: nat := start, 0, ra.cap - largest + 1;
    RunStarts(ra, file, start, gap);
    NothingSummed(sizes);
    while i < |sizes|
      invariant i <= |sizes| && pos == start + SumOf(sizes[..i]) && pos <= start + SumOf(sizes)
      invariant ra.cap == old(ra.cap) && start <= o <= pos && bytes == file[start..pos]
      invariant Running(ra, file, start, pos, fills, o, m, gap)
    {
      SumPrefix(sizes, i);
      var piece, filled;
      piece, filled, o, m := NextRead(ra, file, start, pos, sizes[i], fills, o, m, gap);
      SliceJoin(file, start, pos, pos + sizes[i]);
      bytes := bytes + piece;
      fills := if filled then fills + 1 else fills;
      pos, i := pos + sizes[i], i + 1;
    }
    assert sizes[..i] == sizes;
    RunPaid(ra, file, start, pos, fills, o, m, gap, SumOf(sizes));
  }

  lemma NothingSummed(sizes: seq<nat>)
    ensures SumOf(sizes[..0]) == 0
  {
    assert sizes[..0] == [];
  }

  lemma RunStarts(ra: ReadAhead, file: seq<Byte>, start: nat, gap: nat)
    requires ra.Valid() && ra.windows == [] && ra.maxWindows == 1 && ra.nextExpected == U64_MAX
    ensures Running(ra, file, start, start, 0, start, 0, gap)
  {
  }

  lemma RunPaid(ra: ReadAhead, file: seq<Byte>, start: nat, pos: nat, fills: nat, o: nat, m: nat, gap: nat, total: nat)
    requires Running(ra, file, start, pos, fills, o, m, gap) && gap >= 1 && o <= start + total
    ensures fills <= Doublings(WINDOW_FLOOR, ra.cap) + 1 + total / gap
  {
    hide Doublings;
    if fills > 0 { GapsFit(m, gap, total); }
  }

  lemma {:induction false} SumPrefix(sizes: seq<nat>, i: nat)
    requires i < |sizes|
    ensures SumOf(sizes[..i + 1]) == SumOf(sizes[..i]) + sizes[i] && SumOf(sizes[..i + 1]) <= SumOf(sizes)
    decreases |sizes| - i
  {
    assert sizes[..i + 1][..i] == sizes[..i];
    if i + 1 < |sizes| { SumPrefix(sizes, i + 1); } else { assert sizes[..i + 1] == sizes; }
  }
}
