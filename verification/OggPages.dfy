/**
  Ogg pages in a file (section 6 of RFC 3533): their geometry, a region tiled by them, the
  stream the mount presents instead, and what the page operations of the format layer
  promise.
 */
module OggPages {
  import opened Outcomes
  import opened Bytes

  /** Maximum page size: 27 fixed header bytes, 255 lacing values, 255 * 255 payload bytes. */
  const MAX_OGG_PAGE_BYTES: nat := 65307
  const MAX_OGG_HEADER_BYTES: nat := 282

  const CAPTURE: seq<Byte> := [0x4F, 0x67, 0x67, 0x53]

  const SEQ_LIMIT: nat := 0x1_0000_0000

  datatype OggError = Malformed | Io

  /** The page operations of the format layer: CRC check and algebraic re-sequencing of a header. */
  datatype PageOps = PageOps(crcOk: seq<Byte> -> bool, patch: (seq<Byte>, nat) -> Result<seq<Byte>, OggError>)

  // ----- Geometry ------------------------------------------------------------------------

  function Sum(s: seq<Byte>): (n: nat)
    ensures n <= 255 * |s|
  {
    if s == [] then 0 else Sum(s[..|s| - 1]) + s[|s| - 1]
  }

  function Le32(s: seq<Byte>): (n: nat)
    requires |s| == 4
    ensures n < SEQ_LIMIT
  {
    s[0] as int + 0x100 * s[1] as int + 0x1_0000 * s[2] as int + 0x100_0000 * s[3] as int
  }

  predicate HasHeader(file: seq<Byte>, p: nat) { p + 27 <= |file| && p + 27 + file[p + 26] as int <= |file| }

  function HeaderLen(file: seq<Byte>, p: nat): (n: nat)
    requires HasHeader(file, p)
    ensures 27 <= n <= MAX_OGG_HEADER_BYTES
  {
    27 + file[p + 26] as int
  }

  function Header(file: seq<Byte>, p: nat): (h: seq<Byte>)
    requires HasHeader(file, p)
    ensures |h| == HeaderLen(file, p)
  {
    file[p..p + HeaderLen(file, p)]
  }

  function PayloadLen(file: seq<Byte>, p: nat): (n: nat)
    requires HasHeader(file, p)
    ensures n <= 255 * 255
  {
    Sum(Header(file, p)[27..])
  }

  function PageLen(file: seq<Byte>, p: nat): (n: nat)
    requires HasHeader(file, p)
    ensures 27 <= n <= MAX_OGG_PAGE_BYTES
  {
    HeaderLen(file, p) + PayloadLen(file, p)
  }

  predicate WholePage(file: seq<Byte>, p: nat) { HasHeader(file, p) && p + PageLen(file, p) <= |file| }

  function Page(file: seq<Byte>, p: nat): (page: seq<Byte>)
    requires WholePage(file, p)
    ensures |page| == PageLen(file, p)
  {
    file[p..p + PageLen(file, p)]
  }

  /** The bytes at `p` form a page whose CRC is right. */
  predicate PageValid(ops: PageOps, file: seq<Byte>, p: nat) { WholePage(file, p) && ops.crcOk(Page(file, p)) }

  predicate Captured(file: seq<Byte>, p: nat) { p + 4 <= |file| && file[p..p + 4] == CAPTURE }

  /** Capture pattern, version zero, header type in range. */
  predicate LooksLikePage(file: seq<Byte>, p: nat) {
    Captured(file, p) && p + 6 <= |file| && file[p + 4] == 0 && file[p + 5] < 8
  }

  // ----- A region tiled by pages -----------------------------------------------------------

  predicate Tiled(ops: PageOps, file: seq<Byte>, p: nat, end: nat)
    decreases end - p
  {
    p == end ||
    (p < end && LooksLikePage(file, p) && PageValid(ops, file, p) && p + PageLen(file, p) <= end &&
     Tiled(ops, file, p + PageLen(file, p), end))
  }

  /** `q` is the start of a page of the tiling from `p`. */
  predicate Start(ops: PageOps, file: seq<Byte>, p: nat, end: nat, q: nat)
    requires Tiled(ops, file, p, end)
    decreases end - p
  {
    p < end && (q == p || Start(ops, file, p + PageLen(file, p), end, q))
  }

  /** A page start, or the end of the region. */
  predicate Boundary(ops: PageOps, file: seq<Byte>, p: nat, end: nat, q: nat)
    requires Tiled(ops, file, p, end)
  {
    q == end || Start(ops, file, p, end, q)
  }

  lemma {:induction false} StartTiled(ops: PageOps, file: seq<Byte>, p: nat, end: nat, q: nat)
    requires Tiled(ops, file, p, end) && Start(ops, file, p, end, q)
    ensures p <= q < end <= |file| && LooksLikePage(file, q) && PageValid(ops, file, q) && q + PageLen(file, q) <= end
    ensures Boundary(ops, file, p, end, q + PageLen(file, q))
    decreases end - p
  {
    RegionInFile(ops, file, p, end);
    if q != p { StartTiled(ops, file, p + PageLen(file, p), end, q); }
  }

  lemma {:induction false} RegionInFile(ops: PageOps, file: seq<Byte>, p: nat, end: nat)
    requires Tiled(ops, file, p, end) && p < end
    ensures end <= |file|
    decreases end - p
  {
    var next := p + PageLen(file, p);
    if next < end { RegionInFile(ops, file, next, end); }
  }

  /** The last page start at or before `x`. */
  function LastStart(ops: PageOps, file: seq<Byte>, p: nat, end: nat, x: nat): (q: nat)
    requires Tiled(ops, file, p, end) && p < end && p <= x
    ensures Start(ops, file, p, end, q) && p <= q <= x
    ensures forall r: nat | Start(ops, file, p, end, r) && r <= x :: r <= q
    ensures HasHeader(file, q) && (q + PageLen(file, q) == end || x < q + PageLen(file, q))
    decreases end - p
  {
    var next := p + PageLen(file, p);
    if next <= x && next < end then LastStart(ops, file, next, end, x)
    else
      assert forall r: nat | Start(ops, file, next, end, r) :: next <= r by {
        forall r: nat | Start(ops, file, next, end, r)
          ensures next <= r
        {
          StartTiled(ops, file, next, end, r);
        }
      }
      p
  }

  // ----- The stream presented instead ---------------------------------------------------------

  /** The page's sequence number shifted by `delta`, as wrapping `u32` arithmetic. */
  function NewSeq(file: seq<Byte>, p: nat, delta: int): (s: nat)
    requires HasHeader(file, p)
    ensures s < SEQ_LIMIT
  {
    (Le32(Header(file, p)[18..22]) + delta) % SEQ_LIMIT
  }

  function PatchedHeader(ops: PageOps, file: seq<Byte>, p: nat, delta: int): Result<seq<Byte>, OggError>
    requires HasHeader(file, p)
  {
    ops.patch(Header(file, p), NewSeq(file, p, delta))
  }

  /** The header with its new sequence number; the payload as it is. */
  function PatchedPage(ops: PageOps, file: seq<Byte>, p: nat, delta: int): (page: seq<Byte>)
    requires WholePage(file, p)
  {
    var h := PatchedHeader(ops, file, p, delta);
    (if h.Ok? then h.value else []) + file[p + HeaderLen(file, p)..p + PageLen(file, p)]
  }

  function PatchedStream(ops: PageOps, file: seq<Byte>, p: nat, end: nat, delta: int): seq<Byte>
    requires Tiled(ops, file, p, end)
    decreases end - p
  {
    if p == end then []
    else PatchedPage(ops, file, p, delta) + PatchedStream(ops, file, p + PageLen(file, p), end, delta)
  }

  // ----- What the page operations promise --------------------------------------------------------

  predicate IsHeader(h: seq<Byte>) { IsWhole(h) && h[..4] == CAPTURE }

  /** Exactly as long as its segment count says. */
  predicate IsWhole(h: seq<Byte>) { |h| >= 27 && |h| == 27 + h[26] as int }

  /** Re-sequencing a header that ends where its segment table does keeps its length. */
  ghost predicate PatchKeepsLength(ops: PageOps) {
    forall h, s | IsWhole(h) && ops.patch(h, s).Ok? :: |ops.patch(h, s).value| == |h|
  }

  /** A re-sequenced header keeps its length and everything but bytes 18 to 26, and carries the new number. */
  ghost predicate PatchKeeps(ops: PageOps) {
    PatchKeepsLength(ops) &&
    forall h, s: nat | IsHeader(h) && s < SEQ_LIMIT ::
      ops.patch(h, s).Ok? && ops.patch(h, s).value[..18] == h[..18] && ops.patch(h, s).value[26..] == h[26..] &&
      Le32(ops.patch(h, s).value[18..22]) == s
  }

  /** Re-sequencing never changes whether the CRC is right. */
  ghost predicate PatchPreservesValidity(ops: PageOps) {
    forall h, s: nat, payload: seq<Byte> | IsHeader(h) && s < SEQ_LIMIT && |payload| == Sum(h[27..]) && ops.patch(h, s).Ok? ::
      ops.crcOk(ops.patch(h, s).value + payload) == ops.crcOk(h + payload)
  }

  lemma HeaderOfPage(file: seq<Byte>, p: nat)
    requires LooksLikePage(file, p) && HasHeader(file, p)
    ensures IsHeader(Header(file, p))
  {
    var h := Header(file, p);
    assert h[26] == file[p + 26];
    assert h[..4] == file[p..p + 4];
  }

  lemma PatchedLengths(ops: PageOps, file: seq<Byte>, p: nat, delta: int)
    requires PatchKeeps(ops) && LooksLikePage(file, p) && WholePage(file, p)
    ensures PatchedHeader(ops, file, p, delta).Ok? && |PatchedHeader(ops, file, p, delta).value| == HeaderLen(file, p)
    ensures |PatchedPage(ops, file, p, delta)| == PageLen(file, p)
  {
    HeaderOfPage(file, p);
  }

  lemma SliceIn(a: seq<Byte>, b: seq<Byte>, c: seq<Byte>, i: nat, j: nat)
    requires i <= j <= |b|
    ensures (a + b + c)[|a| + i..|a| + j] == b[i..j]
  {
  }

  lemma {:induction false} StreamLength(ops: PageOps, file: seq<Byte>, p: nat, end: nat, delta: int)
    requires PatchKeeps(ops) && Tiled(ops, file, p, end) && p <= end
    ensures |PatchedStream(ops, file, p, end, delta)| == end - p
    decreases end - p
  {
    hide PatchedPage, PatchKeeps, LooksLikePage;
    if p < end {
      PatchedLengths(ops, file, p, delta);
      StreamLength(ops, file, p + PageLen(file, p), end, delta);
    }
  }

  /** Each patched page stands in the stream where the page stood in the region. */
  lemma {:induction false} StreamPage(ops: PageOps, file: seq<Byte>, p: nat, end: nat, delta: int, q: nat)
    requires PatchKeeps(ops) && Tiled(ops, file, p, end) && Start(ops, file, p, end, q)
    ensures p <= q && WholePage(file, q) && q + PageLen(file, q) <= end && |PatchedStream(ops, file, p, end, delta)| == end - p
    ensures PatchedStream(ops, file, p, end, delta)[q - p..q - p + PageLen(file, q)] == PatchedPage(ops, file, q, delta)
    decreases end - p
  {
    hide PatchedPage, PatchKeeps, LooksLikePage, PageLen;
    StartTiled(ops, file, p, end, q);
    StreamLength(ops, file, p, end, delta);
    var next := p + PageLen(file, p);
    PatchedLengths(ops, file, p, delta);
    var page, rest := PatchedPage(ops, file, p, delta), PatchedStream(ops, file, next, end, delta);
    if q != p {
      StreamPage(ops, file, next, end, delta, q);
      SliceIn(page, rest, [], q - next, q - next + PageLen(file, q));
      assert page + rest + [] == page + rest;
    }
  }

  // ----- The stream is again a tiling, re-sequenced --------------------------------------------------

  /** A patched page differs from the page in bytes 18 to 26 only: the number and the CRC. */
  lemma PatchedBytes(ops: PageOps, file: seq<Byte>, p: nat, delta: int)
    requires PatchKeeps(ops) && LooksLikePage(file, p) && WholePage(file, p)
    ensures var page := PatchedPage(ops, file, p, delta);
            |page| == PageLen(file, p) && forall i | 0 <= i < |page| && !(18 <= i < 26) :: page[i] == file[p + i]
  {
    hide Sum, PatchPreservesValidity, LooksLikePage;
    PatchedLengths(ops, file, p, delta);
    HeaderOfPage(file, p);
    var h, n := Header(file, p), NewSeq(file, p, delta);
    var g, page := ops.patch(h, n).value, PatchedPage(ops, file, p, delta);
    forall i | 0 <= i < |h| && !(18 <= i < 26)
      ensures page[i] == g[i] == h[i] == file[p + i]
    {
      assert i < 18 ==> g[..18][i] == h[..18][i];
      assert i >= 26 ==> g[26..][i - 26] == h[26..][i - 26];
    }
  }

  /** A patched page standing anywhere in a file is a valid page of the same length with the new number. */
  lemma PatchedPageStands(ops: PageOps, file: seq<Byte>, p: nat, delta: int, before: seq<Byte>, after: seq<Byte>)
    requires PatchKeeps(ops) && PatchPreservesValidity(ops) && LooksLikePage(file, p) && PageValid(ops, file, p)
    ensures var s, q := before + PatchedPage(ops, file, p, delta) + after, |before|;
            LooksLikePage(s, q) && PageValid(ops, s, q) && PageLen(s, q) == PageLen(file, p) &&
            HeaderLen(s, q) == HeaderLen(file, p) && Le32(Header(s, q)[18..22]) == NewSeq(file, p, delta)
  {
    var page := PatchedPage(ops, file, p, delta);
    var s, q := before + page + after, |before|;
    PatchedBytes(ops, file, p, delta);
    StandsAlike(file, p, before, page, after);
    HeaderOfPage(file, p);
    PatchedLengths(ops, file, p, delta);
    var h, n := Header(file, p), NewSeq(file, p, delta);
    var g := ops.patch(h, n).value;
    assert page == g + file[p + |h|..p + PageLen(file, p)];
    assert Page(file, p) == h + file[p + |h|..p + PageLen(file, p)];
    assert Header(s, q) == page[..|h|] == g;
  }

  /** A page that differs in bytes 18 to 26 only has the same geometry wherever it stands. */
  lemma StandsAlike(file: seq<Byte>, p: nat, before: seq<Byte>, page: seq<Byte>, after: seq<Byte>)
    requires LooksLikePage(file, p) && WholePage(file, p) && |page| == PageLen(file, p)
    requires forall i | 0 <= i < |page| && !(18 <= i < 26) :: page[i] == file[p + i]
    ensures var s, q := before + page + after, |before|;
            LooksLikePage(s, q) && WholePage(s, q) && HeaderLen(s, q) == HeaderLen(file, p) && PageLen(s, q) == |page| &&
            Header(s, q) == page[..HeaderLen(file, p)] && Page(s, q) == page
  {
    hide Sum;
    var s, q, n := before + page + after, |before|, HeaderLen(file, p);
    forall i | 0 <= i < |page|
      ensures s[q + i] == page[i]
    {
    }
    assert s[q..q + 4] == page[..4] == file[p..p + 4];
    assert s[q + 26] == page[26] == file[p + 26];
    assert Header(s, q) == s[q..q + n] == page[..n];
    assert Header(s, q)[27..] == page[27..n] == file[p + 27..p + n] == Header(file, p)[27..];
    assert Page(s, q) == s[q..q + |page|] == page;
  }

  /** The served stream is itself tiled by valid pages. */
  lemma {:induction false} StreamTiled(ops: PageOps, file: seq<Byte>, p: nat, end: nat, delta: int, before: seq<Byte>)
    requires PatchKeeps(ops) && PatchPreservesValidity(ops) && Tiled(ops, file, p, end) && p <= end
    ensures var s := before + PatchedStream(ops, file, p, end, delta);
            |s| == |before| + (end - p) && Tiled(ops, s, |before|, |s|)
    decreases end - p
  {
    hide PatchedPage, PatchKeeps, PatchPreservesValidity, LooksLikePage, PageLen;
    StreamLength(ops, file, p, end, delta);
    if p < end {
      var next, page := p + PageLen(file, p), PatchedPage(ops, file, p, delta);
      var rest := PatchedStream(ops, file, next, end, delta);
      PatchedLengths(ops, file, p, delta);
      PatchedPageStands(ops, file, p, delta, before, rest);
      StreamTiled(ops, file, next, end, delta, before + page);
      assert before + (page + rest) == (before + page) + rest;
    }
  }

  lemma {:induction false} StreamNumbers(ops: PageOps, file: seq<Byte>, p: nat, end: nat, delta: int, before: seq<Byte>, q: nat)
    requires PatchKeeps(ops) && PatchPreservesValidity(ops) && Tiled(ops, file, p, end) && Start(ops, file, p, end, q) && p <= q
    ensures var s, r := before + PatchedStream(ops, file, p, end, delta), |before| + (q - p);
            HasHeader(file, q) && HasHeader(s, r) && PageLen(s, r) == PageLen(file, q) &&
            Le32(Header(s, r)[18..22]) == NewSeq(file, q, delta)
    decreases end - p
  {
    hide PatchedPage, PatchKeeps, PatchPreservesValidity, LooksLikePage, PageLen;
    StartTiled(ops, file, p, end, q);
    var next, page := p + PageLen(file, p), PatchedPage(ops, file, p, delta);
    var rest := PatchedStream(ops, file, next, end, delta);
    PatchedLengths(ops, file, p, delta);
    PatchedPageStands(ops, file, p, delta, before, rest);
    assert before + (page + rest) == before + page + rest;
    if q != p {
      StartTiled(ops, file, next, end, q);
      StreamNumbers(ops, file, next, end, delta, before + page, q);
    }
  }

  /** Of a page of the stream every byte but its number and its CRC is the region's own. */
  lemma StreamBytes(ops: PageOps, file: seq<Byte>, p: nat, end: nat, delta: int, q: nat, i: nat)
    requires PatchKeeps(ops) && Tiled(ops, file, p, end) && Start(ops, file, p, end, q)
    requires HasHeader(file, q) && i < PageLen(file, q) && !(18 <= i < 26)
    ensures p <= q && q - p + i < |PatchedStream(ops, file, p, end, delta)| && q + i < |file|
    ensures PatchedStream(ops, file, p, end, delta)[q - p + i] == file[q + i]
  {
    hide PatchKeeps, PatchedStream, PatchedPage, LooksLikePage, PageLen, Tiled, Start;
    StartTiled(ops, file, p, end, q);
    StreamPage(ops, file, p, end, delta, q);
    PatchedBytes(ops, file, q, delta);
    assert PatchedStream(ops, file, p, end, delta)[q - p..q - p + PageLen(file, q)][i] == PatchedPage(ops, file, q, delta)[i];
  }

  lemma Shift32(old_: nat, delta: int)
    ensures ((old_ + delta) % SEQ_LIMIT - old_ - delta) % SEQ_LIMIT == 0
  {
    var q := (old_ + delta) / SEQ_LIMIT;
    assert (old_ + delta) % SEQ_LIMIT - old_ - delta == SEQ_LIMIT * (0 - q);
  }

  /** Page for page, the served stream has the lengths of the region, and its 32-bit numbers are ahead by `delta`. */
  lemma StreamResequenced(ops: PageOps, file: seq<Byte>, p: nat, end: nat, delta: int, before: seq<Byte>, q: nat)
    requires PatchKeeps(ops) && PatchPreservesValidity(ops) && Tiled(ops, file, p, end) && Start(ops, file, p, end, q) && p <= q
    ensures var s, r := before + PatchedStream(ops, file, p, end, delta), |before| + (q - p);
            HasHeader(file, q) && HasHeader(s, r) && PageLen(s, r) == PageLen(file, q)
    ensures var s, r := before + PatchedStream(ops, file, p, end, delta), |before| + (q - p);
            (Le32(Header(s, r)[18..22]) - Le32(Header(file, q)[18..22]) - delta) % 0x1_0000_0000 == 0
  {
    hide PatchedStream, PatchKeeps, PatchPreservesValidity, Tiled, Start, PageLen, Le32;
    StreamNumbers(ops, file, p, end, delta, before, q);
    Shift32(Le32(Header(file, q)[18..22]), delta);
  }
}
