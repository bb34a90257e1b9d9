/**
  Serving a window of an Ogg audio region without an index: a backward scan for the page
  the window starts in, a forward walk that patches headers, and a one-page memo between
  calls (`musefs-core/src/ogg_index.rs`).
 */
module OggServe {
  import opened Outcomes
  import opened Bytes
  import opened Backing
  import opened OggPages

  /** CRC validations one backward scan may pay for. */
  const MAX_CRC_CHECKS: nat := 64

  // ----- The backward scan --------------------------------------------------------------------

  /** `p` passes the cheap tests a scan ending at `target` applies: bytes beyond the window never reject. */
  predicate Candidate(file: seq<Byte>, target: nat, p: nat)
    requires target <= |file|
  {
    p + 4 <= target && Captured(file, p) &&
    (p + 4 < target ==> file[p + 4] == 0) && (p + 5 < target ==> file[p + 5] < 8)
  }

  /** How many positions of `[lo, hi)` pass the cheap tests. */
  function Candidates(file: seq<Byte>, target: nat, lo: nat, hi: nat): (n: nat)
    requires target <= |file|
    decreases hi - lo
  {
    if lo >= hi then 0
    else (if Candidate(file, target, lo) then 1 else 0) + Candidates(file, target, lo + 1, hi)
  }

  /** A capture pattern before `target`, with version 0 and a header type below 8 as far as those are before it too. */
  predicate LooksCapped(file: seq<Byte>, target: nat, p: nat)
    requires target <= |file|
  {
    p + 4 <= target && file[p] == 0x4F && file[p + 1] == 0x67 && file[p + 2] == 0x67 && file[p + 3] == 0x53 &&
    (p + 4 == target || file[p + 4] == 0) && (p + 5 >= target || file[p + 5] <= 7)
  }

  lemma CandidateExactly(file: seq<Byte>, target: nat, p: nat)
    requires target <= |file|
    ensures Candidate(file, target, p) <==> LooksCapped(file, target, p)
  {
    if p + 4 <= target { assert file[p..p + 4] == [file[p], file[p + 1], file[p + 2], file[p + 3]]; }
  }

  /** What the scan pays for is how many such positions there are. */
  lemma {:induction false} CandidatesCount(file: seq<Byte>, target: nat, lo: nat, hi: nat)
    requires target <= |file|
    ensures Candidates(file, target, lo, hi) == |set p | lo <= p < hi && LooksCapped(file, target, p)|
    decreases hi - lo
  {
    hide LooksCapped, Candidate;
    var all := set p | lo <= p < hi && LooksCapped(file, target, p);
    if lo < hi {
      CandidatesCount(file, target, lo + 1, hi);
      CandidateExactly(file, target, lo);
      var rest := set p | lo + 1 <= p < hi && LooksCapped(file, target, p);
      assert all == (if LooksCapped(file, target, lo) then {lo} else {}) + rest;
    } else {
      assert all == {};
    }
  }

  lemma {:induction false} MoreCandidates(file: seq<Byte>, target: nat, lo: nat, mid: nat, hi: nat)
    requires target <= |file| && lo <= mid
    ensures Candidates(file, target, mid, hi) <= Candidates(file, target, lo, hi)
    decreases mid - lo
  {
    if lo < mid { MoreCandidates(file, target, lo + 1, mid, hi); }
  }

  function WindowStart(audioOffset: nat, target: nat): nat {
    Max(if target > MAX_OGG_PAGE_BYTES then target - MAX_OGG_PAGE_BYTES else 0, audioOffset)
  }

  predicate Hit(ops: PageOps, file: seq<Byte>, target: nat, p: nat)
    requires target <= |file|
  {
    Candidate(file, target, p) && PageValid(ops, file, p)
  }

  /** `p` is the rightmost valid page of the window, reached within the CRC budget. */
  predicate Located(ops: PageOps, file: seq<Byte>, audioOffset: nat, target: nat, p: nat)
    requires target <= |file| && target >= 4
  {
    WindowStart(audioOffset, target) <= p && Hit(ops, file, target, p) &&
    (forall q: nat | p < q <= target - 4 :: !Hit(ops, file, target, q)) &&
    Candidates(file, target, p + 1, target - 3) < MAX_CRC_CHECKS
  }

  /** A valid page of the window, reached within the CRC budget. */
  predicate LocatedNear(ops: PageOps, file: seq<Byte>, audioOffset: nat, target: nat, p: nat)
    requires target <= |file| && target >= 4
  {
    WindowStart(audioOffset, target) <= p && Hit(ops, file, target, p) &&
    Candidates(file, target, p + 1, target - 3) < MAX_CRC_CHECKS
  }

  /** How a page check fares on the device: the read of the head may fail, or that of the whole page. */
  datatype Trouble = Fine | HeadFails | PageFails

  /** What the device does to the reads of one window: those through the ring, the scan's own, and its page checks'. */
  datatype Luck = Luck(ring: nat -> Chance, scanFails: bool, pages: nat -> Trouble)

  ghost predicate ScanSound(luck: Luck) { !luck.scanFails && forall i: nat :: luck.pages(i).Fine? }

  /** Read the page at `start` and check its CRC; anything short of a whole valid page, or unreadable, is a no. */
  method PageCrcOk(ops: PageOps, file: seq<Byte>, start: nat, trouble: Trouble) returns (r: Result<bool, OggError>)
    ensures trouble.Fine? ==> r == Ok(PageValid(ops, file, start))
    ensures trouble.HeadFails? ==> r == Err(Io)
    ensures trouble.PageFails? ==> r == Ok(false)
  {
    if trouble.HeadFails? {
      return Err(Io);
    }
    var n := if start <= |file| then Min(MAX_OGG_HEADER_BYTES, |file| - start) else 0;
    if n < 27 {
      return Ok(false);
    }
    var head := file[start..start + n];
    var headerLen := 27 + head[26] as int;
    if n < headerLen {
      return Ok(false);
    }
    assert head[..headerLen] == Header(file, start);
    assert head[27..headerLen] == Header(file, start)[27..];
    var total := headerLen + Sum(head[27..headerLen]);
    if start + total > |file| || trouble.PageFails? {
      return Ok(false);
    }
    return Ok(ops.crcOk(file[start..start + total]));
  }

  class LastPageMemo {
    /** Page offset in the region, page length, patched header. */
    var entry: Option<(nat, nat, seq<Byte>)>

    constructor ()
      ensures entry == None
    {
      entry := None;
    }
  }

  /** The page the memo names covers `target`. */
  predicate MemoCovers(entry: Option<(nat, nat, seq<Byte>)>, audioOffset: nat, target: nat) {
    entry.Some? && audioOffset + entry.value.0 <= target < audioOffset + entry.value.0 + entry.value.1
  }

  predicate MemoOverflows(entry: Option<(nat, nat, seq<Byte>)>, audioOffset: nat) {
    entry.Some? && audioOffset + entry.value.0 + entry.value.1 >= U64_LIMIT
  }

  /** What the search for a window's start may answer. */
  ghost predicate Answers(ops: PageOps, file: seq<Byte>, audioOffset: nat, target: nat, entry: Option<(nat, nat, seq<Byte>)>, luck: Luck,
                          r: Result<nat, OggError>) {
    if target < audioOffset + 4 then r == Ok(audioOffset)
    else if MemoOverflows(entry, audioOffset) then r == Err(Malformed)
    else if MemoCovers(entry, audioOffset, target) then r == Ok(audioOffset + entry.value.0)
    else if target > |file| || luck.scanFails then r == Err(Io)
    else if r.Ok? then
      LocatedNear(ops, file, audioOffset, target, r.value) && (ScanSound(luck) ==> Located(ops, file, audioOffset, target, r.value))
    else
      ScanSound(luck) ==> r.error == Malformed && forall p: nat :: !Located(ops, file, audioOffset, target, p)
  }

  /** Find the page a window starting at `target` begins in, or one before it. */
  method FindPageStart(ops: PageOps, file: seq<Byte>, audioOffset: nat, target: nat, memo: LastPageMemo?, luck: Luck)
    returns (r: Result<nat, OggError>)
    ensures r.Ok? ==> r.value >= audioOffset
    ensures Answers(ops, file, audioOffset, target, if memo == null then None else memo.entry, luck, r)
  {
    if target < audioOffset + 4 {
      return Ok(audioOffset);
    }
    if memo != null && memo.entry.Some? {
      var start := CheckedAdd(audioOffset, memo.entry.value.0);
      if start.None? {
        return Err(Malformed);
      }
      var end := CheckedAdd(start.value, memo.entry.value.1);
      if end.None? {
        return Err(Malformed);
      }
      if start.value <= target < end.value {
        return Ok(start.value);
      }
    }
    if target > |file| || luck.scanFails {
      return Err(Io);
    }
    r := ScanBackward(ops, file, audioOffset, target, luck);
  }

  /** The scan itself, over the window that ends at `target`; a page that cannot be read is passed over. */
  method ScanBackward(ops: PageOps, file: seq<Byte>, audioOffset: nat, target: nat, luck: Luck) returns (r: Result<nat, OggError>)
    requires audioOffset + 4 <= target <= |file|
    ensures r.Ok? ==> LocatedNear(ops, file, audioOffset, target, r.value)
    ensures r.Ok? && ScanSound(luck) ==> Located(ops, file, audioOffset, target, r.value)
    ensures r.Err? && ScanSound(luck) ==> r.error == Malformed && forall p: nat :: !Located(ops, file, audioOffset, target, p)
  {
    hide Candidate, PageValid, CAPTURE;
    var scanStart := WindowStart(audioOffset, target);
    var window := file[scanStart..target];
    var i, checks := |window| - 4, 0;
    while true
      invariant 0 <= i <= |window| - 4 && checks <= MAX_CRC_CHECKS
      invariant checks == Candidates(file, target, scanStart + i + 1, target - 3)
      invariant ScanSound(luck) ==> forall q: nat | scanStart + i < q <= target - 4 :: !Hit(ops, file, target, q)
      decreases i
    {
      WindowTests(file, target, scanStart, window, i);
      if window[i..i + 4] == CAPTURE {
        if (i + 4 >= |window| || window[i + 4] == 0) && (i + 5 >= |window| || window[i + 5] < 8) {
          if checks == MAX_CRC_CHECKS {
            if ScanSound(luck) { OverBudget(ops, file, audioOffset, target, scanStart + i); }
            return Err(Malformed);
          }
          var ok := PageCrcOk(ops, file, scanStart + i, luck.pages(checks));
          checks := checks + 1;
          if ok.Err? {
            return Err(ok.error);
          }
          if ok.value {
            return Ok(scanStart + i);
          }
        }
      }
      if i == 0 {
        if ScanSound(luck) { NoneLocated(ops, file, audioOffset, target); }
        return Err(Malformed);
      }
      i := i - 1;
    }
  }

  lemma WindowTests(file: seq<Byte>, target: nat, from: nat, window: seq<Byte>, i: nat)
    requires from <= target <= |file| && window == file[from..target] && i + 4 <= |window|
    ensures Candidate(file, target, from + i) <==>
              (window[i..i + 4] == CAPTURE &&
               (i + 4 >= |window| || window[i + 4] == 0) && (i + 5 >= |window| || window[i + 5] < 8))
  {
    var a, b := window[i..i + 4], file[from + i..from + i + 4];
    forall j | 0 <= j < 4
      ensures a[j] == b[j]
    {
      assert window[i + j] == file[from + i + j];
    }
    assert a == b;
  }

  lemma NoneLocated(ops: PageOps, file: seq<Byte>, audioOffset: nat, target: nat)
    requires 4 <= target <= |file|
    requires forall q: nat | WindowStart(audioOffset, target) <= q <= target - 4 :: !Hit(ops, file, target, q)
    ensures forall p: nat :: !Located(ops, file, audioOffset, target, p)
  {
  }

  lemma OverBudget(ops: PageOps, file: seq<Byte>, audioOffset: nat, target: nat, p: nat)
    requires 4 <= target <= |file| && p <= target - 4 && Candidate(file, target, p)
    requires Candidates(file, target, p + 1, target - 3) == MAX_CRC_CHECKS
    requires forall q: nat | p < q <= target - 4 :: !Hit(ops, file, target, q)
    ensures forall q: nat :: !Located(ops, file, audioOffset, target, q)
  {
    forall q: nat
      ensures !Located(ops, file, audioOffset, target, q)
    {
      if q < p { MoreCandidates(file, target, q + 1, p + 1, target - 3); }
    }
  }

  // ----- Where the scan succeeds ---------------------------------------------------------------------

  /** Every capture pattern of the region under which a page checks out is a page of the tiling. */
  ghost predicate NoFalsePages(ops: PageOps, file: seq<Byte>, audioOffset: nat, end: nat)
    requires Tiled(ops, file, audioOffset, end)
  {
    forall p: nat | audioOffset <= p < end && Captured(file, p) && PageValid(ops, file, p) :: Start(ops, file, audioOffset, end, p)
  }

  /** The page a cold scan for `target` must find. */
  function Goal(ops: PageOps, file: seq<Byte>, audioOffset: nat, end: nat, target: nat): nat
    requires Tiled(ops, file, audioOffset, end) && audioOffset < end && audioOffset + 4 <= target
  {
    LastStart(ops, file, audioOffset, end, target - 4)
  }

  /** That page begins within one maximum page before `target`. */
  predicate Reachable(ops: PageOps, file: seq<Byte>, audioOffset: nat, end: nat, target: nat)
    requires Tiled(ops, file, audioOffset, end) && audioOffset < end && audioOffset + 4 <= target
  {
    target - Goal(ops, file, audioOffset, end, target) <= MAX_OGG_PAGE_BYTES
  }

  /** Fewer than 64 look-alikes lie between that page's start and `target`. */
  predicate Affordable(ops: PageOps, file: seq<Byte>, audioOffset: nat, end: nat, target: nat)
    requires Tiled(ops, file, audioOffset, end) && audioOffset < end && audioOffset + 4 <= target <= |file|
  {
    Candidates(file, target, Goal(ops, file, audioOffset, end, target) + 1, target - 3) < MAX_CRC_CHECKS
  }

  /** Affordable means fewer than 64 look-alikes strictly behind the page's start. */
  lemma AffordableExactly(ops: PageOps, file: seq<Byte>, audioOffset: nat, end: nat, target: nat)
    requires Tiled(ops, file, audioOffset, end) && audioOffset < end && audioOffset + 4 <= target <= |file|
    ensures var g := LastStart(ops, file, audioOffset, end, target - 4);
            Affordable(ops, file, audioOffset, end, target) <==> |set p | g < p < target - 3 && LooksCapped(file, target, p)| < 64
  {
    hide Candidates, LooksCapped, LastStart, Tiled;
    var g := LastStart(ops, file, audioOffset, end, target - 4);
    CandidatesCount(file, target, g + 1, target - 3);
    assert (set p | g < p < target - 3 && LooksCapped(file, target, p)) == set p | g + 1 <= p < target - 3 && LooksCapped(file, target, p);
  }

  /** A cold scan for `target` succeeds exactly when its page is reachable and affordable, and finds that page. */
  lemma LocatedExactly(ops: PageOps, file: seq<Byte>, audioOffset: nat, end: nat, target: nat, p: nat)
    requires Tiled(ops, file, audioOffset, end) && NoFalsePages(ops, file, audioOffset, end)
    requires audioOffset + 4 <= target < end && end <= |file|
    ensures Located(ops, file, audioOffset, target, p) <==>
              (p == Goal(ops, file, audioOffset, end, target) && Reachable(ops, file, audioOffset, end, target) &&
               Affordable(ops, file, audioOffset, end, target))
  {
    hide LastStart, Candidates, PageValid, PageLen;
    var g := LastStart(ops, file, audioOffset, end, target - 4);
    StartTiled(ops, file, audioOffset, end, g);
    assert Hit(ops, file, target, g) by { assert PageValid(ops, file, g); }
    forall q: nat | q > g && q <= target - 4
      ensures !Hit(ops, file, target, q)
    {
      assert !Start(ops, file, audioOffset, end, q);
    }
    if Located(ops, file, audioOffset, target, p) {
      assert Captured(file, p) && Start(ops, file, audioOffset, end, p);
      assert p <= g;
      assert p == g;
    }
  }

  /** Cold reads work at every offset exactly when every page but the last leaves room for a 3-byte overshoot. */
  lemma ReachableEverywhere(ops: PageOps, file: seq<Byte>, audioOffset: nat, end: nat)
    requires Tiled(ops, file, audioOffset, end) && audioOffset < end
    ensures (forall t: nat | audioOffset + 4 <= t < end :: Reachable(ops, file, audioOffset, end, t)) <==> RoomyPages(ops, file, audioOffset, end)
  {
    hide LastStart, LooksLikePage, PageValid, PageLen;
    if RoomyPages(ops, file, audioOffset, end) {
      forall t: nat | audioOffset + 4 <= t < end
        ensures Reachable(ops, file, audioOffset, end, t)
      {
        var q := Goal(ops, file, audioOffset, end, t);
        StartTiled(ops, file, audioOffset, end, q);
      }
    } else {
      var q: nat :| Start(ops, file, audioOffset, end, q) && HasHeader(file, q) && q + PageLen(file, q) < end &&
                    PageLen(file, q) > MAX_OGG_PAGE_BYTES - 3;
      TooBig(ops, file, audioOffset, end, q);
    }
  }

  /** Every page that has a successor is at most 65,304 bytes. */
  predicate RoomyPages(ops: PageOps, file: seq<Byte>, audioOffset: nat, end: nat)
    requires Tiled(ops, file, audioOffset, end)
  {
    forall q: nat | audioOffset <= q < end && Start(ops, file, audioOffset, end, q) && HasHeader(file, q) &&
                    q + PageLen(file, q) < end :: PageLen(file, q) <= MAX_OGG_PAGE_BYTES - 3
  }

  lemma TooBig(ops: PageOps, file: seq<Byte>, audioOffset: nat, end: nat, q: nat)
    requires Tiled(ops, file, audioOffset, end) && Start(ops, file, audioOffset, end, q) && HasHeader(file, q)
    requires q + PageLen(file, q) < end && PageLen(file, q) > MAX_OGG_PAGE_BYTES - 3
    ensures var t := q + PageLen(file, q) + 3; audioOffset + 4 <= t < end && !Reachable(ops, file, audioOffset, end, t)
  {
    hide LastStart, LooksLikePage, PageValid, PageLen;
    StartTiled(ops, file, audioOffset, end, q);
    var next := q + PageLen(file, q);
    StartTiled(ops, file, audioOffset, end, next);
    var g := Goal(ops, file, audioOffset, end, next + 3);
    NextStart(ops, file, audioOffset, end, q, g);
  }

  /** No page starts strictly between a page and its successor. */
  lemma {:induction false} NextStart(ops: PageOps, file: seq<Byte>, p: nat, end: nat, q: nat, g: nat)
    requires Tiled(ops, file, p, end) && Start(ops, file, p, end, q) && Start(ops, file, p, end, g)
    requires HasHeader(file, q) && g < q + PageLen(file, q)
    ensures g <= q
    decreases end - p
  {
    hide LooksLikePage, PageLen;
    var next := p + PageLen(file, p);
    if q == p {
      if g != p { StartTiled(ops, file, next, end, g); }
    } else if g != p {
      NextStart(ops, file, next, end, q, g);
    } else {
      StartTiled(ops, file, next, end, q);
    }
  }

  // ----- Serving a window --------------------------------------------------------------------------

  /** The memo names a header of the file and holds it patched. */
  ghost predicate MemoSound(ops: PageOps, file: seq<Byte>, audioOffset: nat, delta: int, entry: Option<(nat, nat, seq<Byte>)>) {
    entry.Some? ==>
      var p := audioOffset + entry.value.0;
      HasHeader(file, p) && entry.value.1 == PageLen(file, p) && PatchedHeader(ops, file, p, delta) == Ok(entry.value.2)
  }

  /** A sound memo that names a page of the tiling. */
  ghost predicate MemoTrue(ops: PageOps, file: seq<Byte>, audioOffset: nat, end: nat, delta: int, entry: Option<(nat, nat, seq<Byte>)>) {
    Tiled(ops, file, audioOffset, end) && MemoSound(ops, file, audioOffset, delta, entry) &&
    (entry.Some? ==> Start(ops, file, audioOffset, end, audioOffset + entry.value.0))
  }

  /** The memo answers for a target exactly when the page it names is the one the target lies in. */
  lemma MemoCoversExactly(ops: PageOps, file: seq<Byte>, audioOffset: nat, end: nat, delta: int, entry: Option<(nat, nat, seq<Byte>)>,
                          target: nat)
    requires MemoTrue(ops, file, audioOffset, end, delta, entry) && audioOffset <= target < end
    ensures MemoCovers(entry, audioOffset, target) <==>
            entry.Some? && LastStart(ops, file, audioOffset, end, target) == audioOffset + entry.value.0
  {
    hide PatchedHeader, LastStart, Tiled, Start, HasHeader, PageLen;
    if entry.Some? { CoveredByLast(ops, file, audioOffset, end, audioOffset + entry.value.0, target); }
  }

  lemma CoveredByLast(ops: PageOps, file: seq<Byte>, audioOffset: nat, end: nat, q: nat, target: nat)
    requires Tiled(ops, file, audioOffset, end) && Start(ops, file, audioOffset, end, q) && HasHeader(file, q) && audioOffset <= target < end
    ensures q <= target < q + PageLen(file, q) <==> LastStart(ops, file, audioOffset, end, target) == q
  {
    hide LooksLikePage, PageValid, PageLen;
    var g := LastStart(ops, file, audioOffset, end, target);
    StartTiled(ops, file, audioOffset, end, q);
    StartTiled(ops, file, audioOffset, end, g);
    if q <= target < q + PageLen(file, q) { NextStart(ops, file, audioOffset, end, q, g); }
  }

  /** An audio region of valid pages without look-alike pages, under page operations that keep their promise. */
  ghost predicate Region(ops: PageOps, file: seq<Byte>, audioOffset: nat, end: nat) {
    PatchKeeps(ops) && audioOffset < end < U64_LIMIT && end <= |file| && Tiled(ops, file, audioOffset, end) &&
    NoFalsePages(ops, file, audioOffset, end)
  }

  /** Where the walk can start for a window at `target`. */
  ghost predicate Findable(ops: PageOps, file: seq<Byte>, audioOffset: nat, end: nat, target: nat, entry: Option<(nat, nat, seq<Byte>)>)
    requires Tiled(ops, file, audioOffset, end) && audioOffset <= target < end <= |file|
  {
    target < audioOffset + 4 || MemoCovers(entry, audioOffset, target) ||
    (Reachable(ops, file, audioOffset, end, target) && Affordable(ops, file, audioOffset, end, target))
  }

  function EntryOf(memo: LastPageMemo?): Option<(nat, nat, seq<Byte>)>
    reads memo
  {
    if memo == null then None else memo.entry
  }

  /** What is served of the window `[a, b)` once the region up to `n` has been walked. */
  function Served<T>(stream: seq<T>, a: nat, b: nat, n: nat): seq<T>
    requires n <= |stream|
  {
    if Min(b, n) <= a then [] else stream[a..Min(b, n)]
  }

  /** The part of `piece`, standing at `at`, inside the window `[a, b)`. */
  function Overlap<T>(piece: seq<T>, at: nat, a: nat, b: nat): seq<T> {
    var lo, hi := Max(a, at), Min(b, at + |piece|);
    if lo < hi then piece[lo - at..hi - at] else []
  }

  lemma ServedStep<T>(stream: seq<T>, a: nat, b: nat, n: nat, m: nat)
    requires n <= m <= |stream|
    ensures Served(stream, a, b, m) == Served(stream, a, b, n) + Overlap(stream[n..m], n, a, b)
  {
    hide Served, Overlap;
    var lo, hi := Max(a, n), Min(b, m);
    StreamOverlap(stream, a, b, n, m);
    if lo < hi {
      ServedGrows(stream, a, b, n, m);
    } else {
      ServedStops(stream, a, b, n, m);
    }
  }

  lemma StreamOverlap<T>(stream: seq<T>, a: nat, b: nat, n: nat, m: nat)
    requires n <= m <= |stream|
    ensures Overlap(stream[n..m], n, a, b) == if Max(a, n) < Min(b, m) then stream[Max(a, n)..Min(b, m)] else []
  {
    var lo, hi := Max(a, n), Min(b, m);
    if lo < hi { SliceOfSlice(stream, n, m, lo - n, hi - n); }
  }

  lemma ServedStops<T>(stream: seq<T>, a: nat, b: nat, n: nat, m: nat)
    requires n <= m <= |stream| && Max(a, n) >= Min(b, m)
    ensures Served(stream, a, b, m) == Served(stream, a, b, n) + []
  {
  }

  lemma ServedGrows<T>(stream: seq<T>, a: nat, b: nat, n: nat, m: nat)
    requires n <= m <= |stream| && Max(a, n) < Min(b, m)
    ensures Served(stream, a, b, m) == Served(stream, a, b, n) + stream[Max(a, n)..Min(b, m)]
  {
    if a < n { assert stream[a..Min(b, m)] == stream[a..n] + stream[n..Min(b, m)]; }
  }

  lemma OverlapSplit<T>(h: seq<T>, payload: seq<T>, at: nat, a: nat, b: nat)
    ensures Overlap(h + payload, at, a, b) == Overlap(h, at, a, b) + Overlap(payload, at + |h|, a, b)
  {
    var mid := at + |h|;
    var lo, hi := Max(a, at), Min(b, mid + |payload|);
    if lo < hi && lo < mid && mid < hi {
      OverlapCross(h, payload, at, a, b);
    } else if lo < hi && hi <= mid {
      OverlapHead(h, payload, at, a, b);
    } else if lo < hi {
      OverlapTail(h, payload, at, a, b);
    }
  }

  lemma OverlapHead<T>(h: seq<T>, payload: seq<T>, at: nat, a: nat, b: nat)
    requires Max(a, at) < Min(b, at + |h| + |payload|) <= at + |h|
    ensures Overlap(h + payload, at, a, b) == Overlap(h, at, a, b) + Overlap(payload, at + |h|, a, b)
  {
    var lo, hi := Max(a, at) - at, Min(b, at + |h| + |payload|) - at;
    HeadSlice(h, payload, lo, hi);
    assert Overlap(payload, at + |h|, a, b) == [];
  }

  lemma OverlapTail<T>(h: seq<T>, payload: seq<T>, at: nat, a: nat, b: nat)
    requires at + |h| <= Max(a, at) < Min(b, at + |h| + |payload|)
    ensures Overlap(h + payload, at, a, b) == Overlap(h, at, a, b) + Overlap(payload, at + |h|, a, b)
  {
    var lo, hi := Max(a, at) - at - |h|, Min(b, at + |h| + |payload|) - at - |h|;
    TailSlice(h, payload, lo, hi);
    assert Overlap(h, at, a, b) == [];
  }

  lemma OverlapCross<T>(h: seq<T>, payload: seq<T>, at: nat, a: nat, b: nat)
    requires Max(a, at) < at + |h| < Min(b, at + |h| + |payload|)
    ensures Overlap(h + payload, at, a, b) == Overlap(h, at, a, b) + Overlap(payload, at + |h|, a, b)
  {
    var lo, hi := Max(a, at) - at, Min(b, at + |h| + |payload|) - at - |h|;
    CrossSlice(h, payload, lo, hi);
  }

  /** Parse the header at `pos`, of which no more than the region may be read. */
  method ReadHeader(br: BackingReader, pos: nat, end: nat, chance: Chance) returns (r: Result<(seq<Byte>, nat), OggError>)
    requires pos < end && br.Valid()
    modifies br, br.ra
    ensures br.Valid()
    ensures r.Ok? ==> HasHeader(br.file, pos) && r.value == (Header(br.file, pos), PayloadLen(br.file, pos))
    ensures end <= |br.file| == br.backingLen && HasHeader(br.file, pos) && pos + HeaderLen(br.file, pos) <= end && !chance.ioFails ==> r.Ok?
  {
    var n := Min(MAX_OGG_HEADER_BYTES, end - pos);
    var read := br.Read(pos, n, chance);
    if read.Err? {
      return Err(Io);
    }
    r := HeaderOf(br.file, pos, n, read.value);
  }

  /** The header that starts `buf`, if it is whole. */
  method HeaderOf(ghost file: seq<Byte>, ghost pos: nat, n: nat, buf: seq<Byte>) returns (r: Result<(seq<Byte>, nat), OggError>)
    requires pos + n <= |file| && buf == file[pos..pos + n] && n <= MAX_OGG_HEADER_BYTES
    ensures r.Ok? ==> HasHeader(file, pos) && r.value == (Header(file, pos), PayloadLen(file, pos))
    ensures HasHeader(file, pos) && HeaderLen(file, pos) <= n ==> r.Ok?
  {
    if n < 27 {
      return Err(Malformed);
    }
    var headerLen := 27 + buf[26] as int;
    if n < headerLen {
      return Err(Malformed);
    }
    assert buf[..headerLen] == Header(file, pos);
    return Ok((buf[..headerLen], Sum(buf[..headerLen][27..])));
  }

  /** The patched header of the page at `pos`: the carried one if it is of this page. */
  method HeaderFor(ops: PageOps, ghost file: seq<Byte>, audioOffset: nat, pos: nat, delta: int, header: seq<Byte>,
                   carried: Option<(nat, nat, seq<Byte>)>)
    returns (r: Result<seq<Byte>, OggError>)
    requires audioOffset <= pos && HasHeader(file, pos) && header == Header(file, pos)
    requires MemoSound(ops, file, audioOffset, delta, carried)
    ensures r == PatchedHeader(ops, file, pos, delta)
  {
    if carried.Some? && carried.value.0 == pos - audioOffset {
      return Ok(carried.value.2);
    }
    var newSeq := (Le32(header[18..22]) + delta) % SEQ_LIMIT;
    r := ops.patch(header, newSeq);
  }

  lemma OverlapIs<T>(piece: seq<T>, at: nat, a: nat, b: nat)
    ensures var lo, hi := Max(a, at), Min(b, at + |piece|);
            Overlap(piece, at, a, b) == if lo < hi then piece[lo - at..hi - at] else []
  {
  }

  lemma PayloadOverlap<T>(file: seq<T>, q: nat, n: nat, at: nat, a: nat, b: nat)
    requires q + n <= |file|
    ensures var lo, hi := Max(a, at), Min(b, at + n);
            Overlap(file[q..q + n], at, a, b) == if lo < hi then file[q + (lo - at)..q + (hi - at)] else []
  {
    var lo, hi := Max(a, at), Min(b, at + n);
    if lo < hi { SliceOfSlice(file, q, q + n, lo - at, hi - at); }
  }

  /** The payload bytes of a page that the window covers, read from the backing file. */
  method ServePayload(br: BackingReader, from: nat, len: nat, at: nat, rstart: nat, rend: nat, chance: Chance)
    returns (r: Result<seq<Byte>, OggError>)
    requires br.Valid()
    modifies br, br.ra
    ensures br.Valid()
    ensures from + len <= |br.file| && r.Ok? ==> r.value == Overlap(br.file[from..from + len], at, rstart, rend)
    ensures from + len <= |br.file| == br.backingLen && !chance.ioFails ==> r.Ok?
  {
    hide Overlap;
    var ps, pe := Max(rstart, at), Min(rend, at + len);
    if from + len <= |br.file| { PayloadOverlap(br.file, from, len, at, rstart, rend); }
    if ps >= pe {
      return Ok([]);
    }
    var read := br.Read(from + (ps - at), pe - ps, chance);
    if read.Err? {
      return Err(Io);
    }
    return Ok(read.value);
  }

  /** Append the parts of one page, patched header and payload from the file, that the window covers. */
  method ServePage(br: BackingReader, pos: nat, at: nat, patched: seq<Byte>, payloadLen: nat, rstart: nat, rend: nat, out: seq<Byte>,
                   chance: Chance)
    returns (r: Result<(), OggError>, more: seq<Byte>)
    requires br.Valid()
    modifies br, br.ra
    ensures br.Valid()
    ensures pos + |patched| + payloadLen <= |br.file| && r.Ok? ==>
              more == out + Overlap(patched, at, rstart, rend) +
                      Overlap(br.file[pos + |patched|..pos + |patched| + payloadLen], at + |patched|, rstart, rend)
    ensures pos + |patched| + payloadLen <= |br.file| == br.backingLen && !chance.ioFails ==> r.Ok?
  {
    hide Overlap;
    more := out;
    var hs, he := Max(rstart, at), Min(rend, at + |patched|);
    OverlapIs(patched, at, rstart, rend);
    if hs < he {
      more := more + patched[hs - at..he - at];
    }
    assert more == out + Overlap(patched, at, rstart, rend);
    var payload := ServePayload(br, pos + |patched|, payloadLen, at + |patched|, rstart, rend, chance);
    if payload.Err? {
      return Err(payload.error), more;
    }
    more := more + payload.value;
    return Ok(()), more;
  }

  /** The walk stands at a boundary of the tiling, with everything before it served. */
  ghost predicate Walking(ops: PageOps, file: seq<Byte>, audioOffset: nat, end: nat, delta: int, rstart: nat, rend: nat,
                          out: seq<Byte>, more: seq<Byte>, pos: nat) {
    Region(ops, file, audioOffset, end) && audioOffset <= pos <= end && Boundary(ops, file, audioOffset, end, pos) &&
    |PatchedStream(ops, file, audioOffset, end, delta)| == end - audioOffset &&
    more == out + Served(PatchedStream(ops, file, audioOffset, end, delta), rstart, rend, pos - audioOffset)
  }

  lemma WalkingShape(ops: PageOps, file: seq<Byte>, audioOffset: nat, end: nat, delta: int, rstart: nat, rend: nat,
                     out: seq<Byte>, start: nat)
    requires Walking(ops, file, audioOffset, end, delta, rstart, rend, out, out, start)
    ensures MemoTrue(ops, file, audioOffset, end, delta, None)
    ensures |PatchedStream(ops, file, audioOffset, end, delta)| == end - audioOffset
  {
    hide NoFalsePages, PatchKeeps, PatchedStream, Tiled, Start, Served;
  }

  lemma WalkStarts(ops: PageOps, file: seq<Byte>, audioOffset: nat, end: nat, delta: int, rstart: nat, rend: nat,
                   out: seq<Byte>, pos: nat)
    requires Region(ops, file, audioOffset, end) && Start(ops, file, audioOffset, end, pos) && pos <= audioOffset + rstart
    ensures Walking(ops, file, audioOffset, end, delta, rstart, rend, out, out, pos)
  {
    hide NoFalsePages, PatchKeeps, PatchedStream;
    StartTiled(ops, file, audioOffset, end, pos);
    StreamLength(ops, file, audioOffset, end, delta);
  }

  /** Whole page by whole page: what the step at `pos` finds, and where it leaves the walk. */
  lemma WalkStep(ops: PageOps, file: seq<Byte>, audioOffset: nat, end: nat, delta: int, rstart: nat, rend: nat,
                 out: seq<Byte>, more: seq<Byte>, pos: nat)
    requires Walking(ops, file, audioOffset, end, delta, rstart, rend, out, more, pos) && pos < end
    ensures Start(ops, file, audioOffset, end, pos) && WholePage(file, pos) && pos + PageLen(file, pos) <= end < U64_LIMIT && end <= |file|
    ensures PageLen(file, pos) == HeaderLen(file, pos) + PayloadLen(file, pos)
    ensures var h := PatchedHeader(ops, file, pos, delta);
            h.Ok? && |h.value| == HeaderLen(file, pos) &&
            Walking(ops, file, audioOffset, end, delta, rstart, rend, out,
                    more + Overlap(h.value, pos - audioOffset, rstart, rend) +
                      Overlap(file[pos + HeaderLen(file, pos)..pos + PageLen(file, pos)], pos - audioOffset + HeaderLen(file, pos), rstart, rend),
                    pos + PageLen(file, pos))
  {
    hide NoFalsePages, PatchKeeps, PatchedStream, PatchedHeader, HeaderLen, PayloadLen, LooksLikePage, PageValid, Served, Overlap;
    StartTiled(ops, file, audioOffset, end, pos);
    assert PageValid(ops, file, pos);
    ValidWhole(ops, file, pos);
    PatchedLengths(ops, file, pos, delta);
    StreamPage(ops, file, audioOffset, end, delta, pos);
    var stream, n, m := PatchedStream(ops, file, audioOffset, end, delta), pos - audioOffset, pos + PageLen(file, pos) - audioOffset;
    ServedStep(stream, rstart, rend, n, m);
    var h, payload := PatchedHeader(ops, file, pos, delta).value, file[pos + HeaderLen(file, pos)..pos + PageLen(file, pos)];
    OverlapSplit(h, payload, n, rstart, rend);
    Associate(out, Served(stream, rstart, rend, n), Overlap(h, n, rstart, rend), Overlap(payload, n + |h|, rstart, rend));
  }

  /** Past the end of the region or of the window, the whole window has been served. */
  lemma WalkEnds(ops: PageOps, file: seq<Byte>, audioOffset: nat, end: nat, delta: int, rstart: nat, rend: nat,
                 out: seq<Byte>, more: seq<Byte>, pos: nat)
    requires Walking(ops, file, audioOffset, end, delta, rstart, rend, out, more, pos) && (pos >= end || pos - audioOffset >= rend)
    requires rstart < rend && audioOffset + rstart < end
    ensures |PatchedStream(ops, file, audioOffset, end, delta)| == end - audioOffset
    ensures more == out + PatchedStream(ops, file, audioOffset, end, delta)[rstart..Min(rend, end - audioOffset)]
  {
    hide NoFalsePages, PatchKeeps, PatchedStream, Tiled, Start;
  }

  lemma PageLenParts(file: seq<Byte>, pos: nat)
    requires HasHeader(file, pos)
    ensures PageLen(file, pos) == |Header(file, pos)| + PayloadLen(file, pos)
  {
  }

  lemma ValidWhole(ops: PageOps, file: seq<Byte>, pos: nat)
    requires PageValid(ops, file, pos)
    ensures WholePage(file, pos)
  {
  }

  lemma Associate<T>(a: seq<T>, b: seq<T>, c: seq<T>, d: seq<T>)
    ensures a + (b + (c + d)) == ((a + b) + c) + d
  {
  }

  /** Any page the scan settles on is a start no later than the target, and the target could be found without faults. */
  lemma NearStart(ops: PageOps, file: seq<Byte>, audioOffset: nat, end: nat, target: nat, p: nat)
    requires Region(ops, file, audioOffset, end) && audioOffset + 4 <= target < end
    requires LocatedNear(ops, file, audioOffset, target, p)
    ensures Start(ops, file, audioOffset, end, p) && p <= target
    ensures Reachable(ops, file, audioOffset, end, target) && Affordable(ops, file, audioOffset, end, target)
  {
    hide PatchKeeps, PageLen, PageValid, LastStart, Candidates;
    assert Captured(file, p) && PageValid(ops, file, p);
    var g := Goal(ops, file, audioOffset, end, target);
    MoreCandidates(file, target, p + 1, g + 1, target - 3);
  }

  /** A findable target is found at a page start no later than it; any other is refused. */
  lemma FoundStart(ops: PageOps, file: seq<Byte>, audioOffset: nat, end: nat, target: nat, delta: int,
                   entry: Option<(nat, nat, seq<Byte>)>, luck: Luck, r: Result<nat, OggError>)
    requires Region(ops, file, audioOffset, end) && audioOffset <= target < end && MemoTrue(ops, file, audioOffset, end, delta, entry)
    requires Answers(ops, file, audioOffset, target, entry, luck, r)
    ensures r.Ok? ==> Findable(ops, file, audioOffset, end, target, entry)
    ensures ScanSound(luck) ==> (r.Ok? <==> Findable(ops, file, audioOffset, end, target, entry))
    ensures r.Ok? ==> Start(ops, file, audioOffset, end, r.value) && r.value <= target
    ensures r.Err? && ScanSound(luck) ==> r.error == Malformed
  {
    hide PatchKeeps, PageLen, LooksLikePage, PageValid, LastStart, Located, LocatedNear, Candidates, NoFalsePages, Reachable, Affordable;
    if entry.Some? {
      StartTiled(ops, file, audioOffset, end, audioOffset + entry.value.0);
    }
    if audioOffset + 4 <= target {
      if r.Ok? && LocatedNear(ops, file, audioOffset, target, r.value) { NearStart(ops, file, audioOffset, end, target, r.value); }
      var g := Goal(ops, file, audioOffset, end, target);
      LocatedExactly(ops, file, audioOffset, end, target, g);
    }
  }

  predicate AffordableEverywhere(ops: PageOps, file: seq<Byte>, audioOffset: nat, end: nat)
    requires Tiled(ops, file, audioOffset, end) && audioOffset < end <= |file|
  {
    forall t: nat | audioOffset + 4 <= t < end :: Affordable(ops, file, audioOffset, end, t)
  }

  /** Where every page but the last is at most 65,304 bytes and look-alikes are few, every window can be served. */
  lemma EveryWindowFindable(ops: PageOps, file: seq<Byte>, audioOffset: nat, end: nat, target: nat, entry: Option<(nat, nat, seq<Byte>)>)
    requires Region(ops, file, audioOffset, end) && RoomyPages(ops, file, audioOffset, end)
    requires AffordableEverywhere(ops, file, audioOffset, end) && audioOffset <= target < end
    ensures Findable(ops, file, audioOffset, end, target, entry)
  {
    hide PatchKeeps, NoFalsePages, RoomyPages, Reachable, Affordable;
    ReachableEverywhere(ops, file, audioOffset, end);
  }

  /**
    Walk forward page by page from `start`, appending what the window covers of each; `last`
    is the entry of the last page walked.  `carried` is the memo as it was before the walk.
   */
  method WalkPages(ops: PageOps, br: BackingReader, audioOffset: nat, audioEnd: nat, delta: int, rstart: nat, rend: nat,
                   start: nat, carried: Option<(nat, nat, seq<Byte>)>, out: seq<Byte>, chances: nat -> Chance)
    returns (r: Result<(), OggError>, more: seq<Byte>, last: Option<(nat, nat, seq<Byte>)>)
    requires br.Valid() && MemoSound(ops, br.file, audioOffset, delta, carried)
    requires PatchKeepsLength(ops)
    requires audioOffset <= start && rstart < rend
    modifies br, br.ra
    ensures br.Valid() && MemoSound(ops, br.file, audioOffset, delta, last)
    ensures Walking(ops, br.file, audioOffset, audioEnd, delta, rstart, rend, out, out, start) && audioOffset + rstart < audioEnd ==>
              MemoTrue(ops, br.file, audioOffset, audioEnd, delta, last) &&
              |PatchedStream(ops, br.file, audioOffset, audioEnd, delta)| == audioEnd - audioOffset &&
              (r.Ok? ==> more == out + PatchedStream(ops, br.file, audioOffset, audioEnd, delta)[rstart..Min(rend, audioEnd - audioOffset)]) &&
              (br.Sound(chances) ==> r.Ok?)
  {
    hide PatchedStream, PatchedHeader, HeaderLen, PageLen, PageValid, PatchKeeps, Walking,
         LooksLikePage, Overlap, HasHeader, Header, PayloadLen, Served, Region, Start;
    more, last := out, None;
    ghost var file, end := br.file, audioEnd;
    ghost var good := Walking(ops, file, audioOffset, end, delta, rstart, rend, out, out, start) && audioOffset + rstart < audioEnd;
    if good { WalkingShape(ops, file, audioOffset, end, delta, rstart, rend, out, start); }
    var pos, tries := start, 0;
    while pos < audioEnd && pos - audioOffset < rend
      invariant audioOffset <= pos && br.Valid()
      invariant MemoSound(ops, file, audioOffset, delta, last)
      invariant good ==> Walking(ops, file, audioOffset, end, delta, rstart, rend, out, more, pos)
      invariant good ==> MemoTrue(ops, file, audioOffset, end, delta, last)
      decreases audioEnd - pos
    {
      if good { WalkStep(ops, file, audioOffset, end, delta, rstart, rend, out, more, pos); }
      var at := pos - audioOffset;
      var head := ReadHeader(br, pos, audioEnd, chances(tries));
      if head.Err? {
        return Err(head.error), more, last;
      }
      var (header, payloadLen) := head.value;
      var patched := HeaderFor(ops, file, audioOffset, pos, delta, header, carried);
      if patched.Err? {
        return Err(patched.error), more, last;
      }
      var totalLen := |header| + payloadLen;
      PageLenParts(file, pos);
      if CheckedAdd(at, totalLen).None? {
        return Err(Malformed), more, last;
      }
      var served;
      served, more := ServePage(br, pos, at, patched.value, payloadLen, rstart, rend, more, chances(tries + 1));
      if served.Err? {
        return Err(served.error), more, last;
      }
      var next := CheckedAdd(pos, totalLen);
      if next.None? || next.value > audioEnd {
        return Err(Malformed), more, last;
      }
      last, pos, tries := Some((at, totalLen, patched.value)), next.value, tries + 2;
    }
    if good { WalkEnds(ops, file, audioOffset, end, delta, rstart, rend, out, more, pos); }
    return Ok(()), more, last;
  }

  /** No read fails, and the length on record is the file's. */
  ghost predicate Steady(br: BackingReader, luck: Luck) { br.Sound(luck.ring) && ScanSound(luck) }

  /**
    Append the bytes `[rstart, rend)` of the patched region to `out`.  On a region of valid
    pages and a sound device this succeeds exactly when a start is findable.  Success always
    appends that slice of the patched stream, even when unreadable pages made the scan settle
    on an earlier page; the memo is left naming a true page.
   */
  method ServeOggWindow(ops: PageOps, br: BackingReader, audioOffset: nat, audioLength: nat, delta: int, rstart: nat, rend: nat,
                        out: seq<Byte>, memo: LastPageMemo?, luck: Luck)
    returns (r: Result<(), OggError>, more: seq<Byte>)
    requires br.Valid() && MemoSound(ops, br.file, audioOffset, delta, EntryOf(memo))
    requires PatchKeepsLength(ops)
    modifies memo, br, br.ra
    ensures br.Valid() && MemoSound(ops, br.file, audioOffset, delta, EntryOf(memo))
    ensures rstart >= rend ==> r == Ok(()) && more == out
    ensures var end := audioOffset + audioLength;
            Region(ops, br.file, audioOffset, end) && rstart < Min(rend, audioLength) &&
            MemoTrue(ops, br.file, audioOffset, end, delta, old(EntryOf(memo))) ==>
              MemoTrue(ops, br.file, audioOffset, end, delta, EntryOf(memo)) &&
              (r.Ok? ==> Findable(ops, br.file, audioOffset, end, audioOffset + rstart, old(EntryOf(memo)))) &&
              (Steady(br, luck) ==>
                 (r.Ok? <==> Findable(ops, br.file, audioOffset, end, audioOffset + rstart, old(EntryOf(memo))))) &&
              |PatchedStream(ops, br.file, audioOffset, end, delta)| == audioLength &&
              (r.Ok? ==> more == out + PatchedStream(ops, br.file, audioOffset, end, delta)[rstart..Min(rend, audioLength)]) &&
              (r.Err? ==> EntryOf(memo) == old(EntryOf(memo)) && (Steady(br, luck) ==> r.error == Malformed && more == out))
  {
    hide Findable, PatchedStream, Located, PatchedHeader, HeaderLen, PageLen, PageValid, NoFalsePages, PatchKeeps, Walking,
         LooksLikePage, Overlap, HasHeader, Header, PayloadLen, Captured, RoomyPages, Served, Reachable, Affordable, MemoCovers;
    more := out;
    if rstart >= rend {
      return Ok(()), more;
    }
    ghost var file, end := br.file, audioOffset + audioLength;
    ghost var good := Region(ops, file, audioOffset, end) && rstart < audioLength && MemoTrue(ops, file, audioOffset, end, delta, EntryOf(memo));
    if good { StreamLength(ops, file, audioOffset, end, delta); }
    var audioEnd, absStart := CheckedAdd(audioOffset, audioLength), CheckedAdd(audioOffset, rstart);
    if audioEnd.None? || absStart.None? {
      return Err(Malformed), more;
    }
    var found := FindPageStart(ops, br.file, audioOffset, absStart.value, memo, luck);
    if good { FoundStart(ops, file, audioOffset, end, absStart.value, delta, EntryOf(memo), luck, found); }
    if found.Err? {
      return Err(found.error), more;
    }
    if good { WalkStarts(ops, file, audioOffset, end, delta, rstart, rend, out, found.value); }
    var last;
    r, more, last := WalkPages(ops, br, audioOffset, audioEnd.value, delta, rstart, rend, found.value, EntryOf(memo), out, luck.ring);
    if r.Err? {
      return r, more;
    }
    if memo != null && last.Some? {
      memo.entry := last;
    }
    return Ok(()), more;
  }
}
