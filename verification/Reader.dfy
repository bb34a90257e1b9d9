/**
  The segment loop of `musefs-core/src/reader.rs`: a synthesized file is a list of segments,
  inline bytes, ranges of the backing file, stored blobs and re-sequenced Ogg audio, and a
  read of it is the clamped slice of their concatenation.
 */
module Reader {
  import opened Outcomes
  import opened Bytes
  import opened Windows
  import opened ReadAheads
  import opened Backing
  import opened OggPages
  import opened OggServe

  datatype Segment =
    | Inline(bytes: seq<Byte>)
    | BackingAudio(offset: nat, len: nat)
    | ArtImage(artId: int, len: nat)
    | BinaryTag(payloadId: int, len: nat)
    | OggAudio(offset: nat, len: nat, seqDelta: int)
    | OggArtSlice(artId: int, offset: nat, len: nat, base64: bool, artTotal: nat)
  {
    function Len(): nat { if Inline? then |bytes| else len }
  }

  datatype B64Window = B64Window(inStart: nat, inLen: nat, skip: nat)

  /** The base64 operations of the format layer (section 4 of RFC 4648): whole encoding, input window, windowed encoding. */
  datatype B64 = B64(
    full: seq<Byte> -> seq<Byte>,
    window: (nat, nat, nat) -> B64Window,
    slice: (seq<Byte>, nat, nat) -> Option<seq<Byte>>)

  /** A windowed encoding is the slice of the whole encoding, from input inside the image. */
  ghost predicate WindowedEncodes(b: B64) {
    forall img, off: nat, take: nat | take >= 1 && off + take <= |b.full(img)| ::
      var w := b.window(off, take, |img|);
      w.inStart + w.inLen <= |img| && b.slice(img[w.inStart..w.inStart + w.inLen], w.skip, take) == Some(b.full(img)[off..off + take])
  }

  /** What a read draws on: the backing file, stored images and binary tags, and the format layer. */
  datatype Env = Env(file: seq<Byte>, art: map<int, seq<Byte>>, tags: map<int, seq<Byte>>, ops: PageOps, b64: B64)

  datatype Fault = BackingFault(read: ReadError) | OggFault(ogg: OggError) | MissingBlob | BackingChanged

  // ----- What a segment stands for ---------------------------------------------------------------

  /** A region of valid pages. */
  ghost predicate OggRegion(env: Env, o: nat, len: nat) { Region(env.ops, env.file, o, o + len) }

  /** The scan finds a page from every offset of the region. */
  ghost predicate OggScannable(env: Env, o: nat, len: nat) {
    Region(env.ops, env.file, o, o + len) && RoomyPages(env.ops, env.file, o, o + len) &&
    AffordableEverywhere(env.ops, env.file, o, o + len)
  }

  ghost predicate Scannable(env: Env, seg: Segment) { seg.OggAudio? ==> OggScannable(env, seg.offset, seg.len) }

  function Blob(blobs: map<int, seq<Byte>>, id: int, at: nat, len: nat): Option<seq<Byte>> {
    if id in blobs && at + len <= |blobs[id]| then Some(blobs[id][at..at + len]) else None
  }

  /** The bytes of a segment, when everything it refers to is there. */
  ghost function Content(env: Env, seg: Segment): (c: Option<seq<Byte>>)
    ensures c.Some? && !seg.OggAudio? ==> |c.value| == seg.Len()
  {
    match seg
    case Inline(bytes) => Some(bytes)
    case BackingAudio(o, len) => if o + len <= |env.file| then Some(env.file[o..o + len]) else None
    case ArtImage(id, len) => Blob(env.art, id, 0, len)
    case BinaryTag(id, len) => Blob(env.tags, id, 0, len)
    case OggAudio(o, len, delta) =>
      if OggRegion(env, o, len) then Some(PatchedStream(env.ops, env.file, o, o + len, delta)) else None
    case OggArtSlice(id, o, len, base64, total) =>
      if base64 then
        if id in env.art && |env.art[id]| == total && o + len <= |env.b64.full(env.art[id])| then
          Some(env.b64.full(env.art[id])[o..o + len]) else None
      else Blob(env.art, id, o, len)
  }

  lemma ContentLength(env: Env, seg: Segment)
    requires Content(env, seg).Some?
    ensures |Content(env, seg).value| == seg.Len()
  {
    hide Content;
    if seg.OggAudio? { OggContentLength(env, seg); }
  }

  lemma OggContentLength(env: Env, seg: Segment)
    requires Content(env, seg).Some? && seg.OggAudio?
    ensures |Content(env, seg).value| == seg.Len()
  {
    hide PatchedStream, PatchKeeps, NoFalsePages, RoomyPages, AffordableEverywhere;
    StreamLength(env.ops, env.file, seg.offset, seg.offset + seg.len, seg.seqDelta);
  }

  /** Byte `i` of a segment: of its bytes, its range of the backing file, or its stored image or tag. */
  lemma ContentBytes(env: Env, seg: Segment, i: nat)
    requires i < seg.Len()
    ensures var c := Content(env, seg);
            match seg
            case Inline(bytes) => c.Some? && c.value[i] == bytes[i]
            case BackingAudio(o, len) => (c.Some? <==> o + len <= |env.file|) && (c.Some? ==> c.value[i] == env.file[o + i])
            case ArtImage(id, len) => (c.Some? <==> id in env.art && len <= |env.art[id]|) && (c.Some? ==> c.value[i] == env.art[id][i])
            case BinaryTag(id, len) => (c.Some? <==> id in env.tags && len <= |env.tags[id]|) && (c.Some? ==> c.value[i] == env.tags[id][i])
            case OggAudio(o, len, _) => c.Some? <==> OggRegion(env, o, len)
            case OggArtSlice(id, o, len, base64, total) =>
              if base64 then
                (c.Some? <==> id in env.art && |env.art[id]| == total && o + len <= |env.b64.full(env.art[id])|) &&
                (c.Some? ==> c.value[i] == env.b64.full(env.art[id])[o + i])
              else (c.Some? <==> id in env.art && o + len <= |env.art[id]|) && (c.Some? ==> c.value[i] == env.art[id][o + i])
  {
    hide OggRegion, PatchedStream;
  }

  ghost predicate Present(env: Env, segs: seq<Segment>) { forall i | 0 <= i < |segs| :: Content(env, segs[i]).Some? }

  ghost predicate AllScannable(env: Env, segs: seq<Segment>) { forall i | 0 <= i < |segs| :: Scannable(env, segs[i]) }

  /** The whole synthesized file. */
  ghost function Synthesized(env: Env, segs: seq<Segment>): seq<Byte>
    requires Present(env, segs)
  {
    if segs == [] then []
    else Synthesized(env, segs[..|segs| - 1]) + Content(env, segs[|segs| - 1]).value
  }

  function LenOf(segs: seq<Segment>): nat {
    if segs == [] then 0 else LenOf(segs[..|segs| - 1]) + segs[|segs| - 1].Len()
  }

  lemma {:induction false} SynthesizedLength(env: Env, segs: seq<Segment>)
    requires Present(env, segs)
    ensures |Synthesized(env, segs)| == LenOf(segs)
  {
    hide Content;
    if segs != [] {
      SynthesizedLength(env, segs[..|segs| - 1]);
      ContentLength(env, segs[|segs| - 1]);
    }
  }

  /** A segment stands in the file after the segments before it. */
  lemma {:induction false} SegmentStands(env: Env, segs: seq<Segment>, i: nat)
    requires Present(env, segs) && i < |segs|
    ensures LenOf(segs[..i]) + segs[i].Len() == LenOf(segs[..i + 1]) <= LenOf(segs) == |Synthesized(env, segs)|
    ensures Synthesized(env, segs)[LenOf(segs[..i])..LenOf(segs[..i + 1])] == Content(env, segs[i]).value
    decreases |segs|
  {
    hide Content;
    var init, last := segs[..|segs| - 1], segs[|segs| - 1];
    SynthesizedLength(env, segs);
    SynthesizedLength(env, init);
    ContentLength(env, last);
    assert segs[..i + 1][..i] == segs[..i];
    if i == |segs| - 1 {
      assert segs[..i + 1] == segs;
      TailSlice(Synthesized(env, init), Content(env, last).value, 0, last.Len());
      assert Content(env, last).value[0..last.Len()] == Content(env, last).value;
    } else {
      assert init[..i] == segs[..i] && init[..i + 1] == segs[..i + 1];
      SegmentStands(env, init, i);
      HeadSlice(Synthesized(env, init), Content(env, last).value, LenOf(segs[..i]), LenOf(segs[..i + 1]));
    }
  }

  // ----- Reading --------------------------------------------------------------------------------------

  /** The reader, its memo and the format layer fit the layout, which has at most one Ogg audio segment. */
  ghost predicate Ready(env: Env, segs: seq<Segment>, br: BackingReader, memo: LastPageMemo)
    reads br, br.ra, memo
  {
    br.Valid() && br.file == env.file && env.file == br.file && PatchKeeps(env.ops) && WindowedEncodes(env.b64) &&
    forall seg | seg in segs && seg.OggAudio? :: MemoFits(env, seg, memo.entry)
  }

  ghost predicate MemoFits(env: Env, seg: Segment, entry: Option<(nat, nat, seq<Byte>)>)
    requires seg.OggAudio?
  {
    MemoSound(env.ops, env.file, seg.offset, seg.seqDelta, entry) &&
    (OggRegion(env, seg.offset, seg.len) ==> MemoTrue(env.ops, env.file, seg.offset, seg.offset + seg.len, seg.seqDelta, entry))
  }

  predicate OneOggAudio(segs: seq<Segment>) {
    forall a, b | a in segs && b in segs && a.OggAudio? && b.OggAudio? :: a == b
  }

  /** `read_at_exact` on a stored blob. */
  method ReadBlob(blobs: map<int, seq<Byte>>, id: int, at: nat, len: nat) returns (r: Result<seq<Byte>, Fault>)
    ensures r.Ok? <==> Blob(blobs, id, at, len).Some?
    ensures r.Ok? ==> r.value == Blob(blobs, id, at, len).value
  {
    if id !in blobs || at + len > |blobs[id]| {
      return Err(MissingBlob);
    }
    return Ok(blobs[id][at..at + len]);
  }

  /** Append `n` bytes of a base64-encoded image from `at`, encoding only the window of it that is needed. */
  method ReadEncoded(env: Env, id: int, at: nat, n: nat, total: nat) returns (r: Result<seq<Byte>, Fault>)
    ensures WindowedEncodes(env.b64) && n >= 1 && id in env.art && |env.art[id]| == total && at + n <= |env.b64.full(env.art[id])| ==>
              r == Ok(env.b64.full(env.art[id])[at..at + n])
  {
    var w := env.b64.window(at, n, total);
    var raw := ReadBlob(env.art, id, w.inStart, w.inLen);
    if raw.Err? {
      return Err(raw.error);
    }
    var slice := env.b64.slice(raw.value, w.skip, n);
    if slice.None? {
      return Err(BackingChanged);
    }
    return Ok(slice.value);
  }

  /** `n` bytes of a segment the store holds, starting `within` it. */
  method ReadStored(env: Env, seg: Segment, within: nat, n: nat) returns (r: Result<seq<Byte>, Fault>)
    requires (seg.ArtImage? || seg.BinaryTag? || seg.OggArtSlice?) && WindowedEncodes(env.b64) && n >= 1 && within + n <= seg.Len()
    ensures Content(env, seg).Some? ==> r == Ok(Content(env, seg).value[within..within + n])
  {
    match seg {
      case ArtImage(id, len) =>
        r := ReadBlob(env.art, id, within, n);
        if id in env.art && len <= |env.art[id]| { SliceOfSlice(env.art[id], 0, len, within, within + n); }
      case BinaryTag(id, len) =>
        r := ReadBlob(env.tags, id, within, n);
        if id in env.tags && len <= |env.tags[id]| { SliceOfSlice(env.tags[id], 0, len, within, within + n); }
      case OggArtSlice(id, o, len, base64, total) =>
        if base64 {
          r := ReadEncoded(env, id, o + within, n, total);
          if id in env.art && o + len <= |env.b64.full(env.art[id])| {
            SliceOfSlice(env.b64.full(env.art[id]), o, o + len, within, within + n);
          }
        } else {
          r := ReadBlob(env.art, id, o + within, n);
          if id in env.art && o + len <= |env.art[id]| { SliceOfSlice(env.art[id], o, o + len, within, within + n); }
        }
    }
  }

  /** Append `n` bytes of one segment, starting `within` it. */
  method ReadSegment(env: Env, seg: Segment, within: nat, n: nat, out: seq<Byte>, br: BackingReader, memo: LastPageMemo, luck: Luck)
    returns (r: Result<(), Fault>, more: seq<Byte>)
    requires Ready(env, [seg], br, memo) && n >= 1 && within + n <= seg.Len()
    modifies br, br.ra, memo
    ensures Ready(env, [seg], br, memo) && (!seg.OggAudio? ==> memo.entry == old(memo.entry))
    ensures Content(env, seg).Some? && r.Ok? ==>
              within + n <= |Content(env, seg).value| && more == out + Content(env, seg).value[within..within + n]
    ensures Content(env, seg).Some? && Scannable(env, seg) && Steady(br, luck) ==> r.Ok?
  {
    hide MemoFits, PatchKeeps, WindowedEncodes, OggRegion, OggScannable, Sorted, Total, Agrees, PatchedStream, Tiled, Region;
    more := out;
    match seg {
      case Inline(bytes) =>
        return Ok(()), more + bytes[within..within + n];
      case BackingAudio(o, len) =>
        var read := br.Read(o + within, n, luck.ring(0));
        if read.Err? {
          return Err(BackingFault(read.error)), more;
        }
        if o + len <= |env.file| { SliceOfSlice(env.file, o, o + len, within, within + n); }
        return Ok(()), more + read.value;
      case OggAudio(o, len, delta) =>
        r, more := ReadOggAudio(env, o, len, delta, within, n, out, br, memo, luck);
      case _ =>
        var bytes := ReadStored(env, seg, within, n);
        if bytes.Err? {
          return Err(bytes.error), more;
        }
        return Ok(()), more + bytes.value;
    }
  }

  method ReadOggAudio(env: Env, o: nat, len: nat, delta: int, within: nat, n: nat, out: seq<Byte>, br: BackingReader, memo: LastPageMemo,
                      luck: Luck)
    returns (r: Result<(), Fault>, more: seq<Byte>)
    requires Ready(env, [OggAudio(o, len, delta)], br, memo) && n >= 1 && within + n <= len
    modifies memo, br, br.ra
    ensures Ready(env, [OggAudio(o, len, delta)], br, memo)
    ensures OggRegion(env, o, len) && r.Ok? ==>
              within + n <= |PatchedStream(env.ops, env.file, o, o + len, delta)| &&
              more == out + PatchedStream(env.ops, env.file, o, o + len, delta)[within..within + n]
    ensures OggScannable(env, o, len) && Steady(br, luck) ==> r.Ok?
  {
    hide PatchKeeps, WindowedEncodes, MemoSound, MemoTrue, RoomyPages, AffordableEverywhere, Region, Findable;
    ghost var seg := OggAudio(o, len, delta);
    assert seg in [seg] && MemoFits(env, seg, memo.entry);
    PatchLengths(env.ops);
    if OggScannable(env, o, len) {
      EveryWindowFindable(env.ops, env.file, o, o + len, o + within, memo.entry) by { RegionBounds(env, o, len); }
    }
    var served;
    served, more := ServeOggWindow(env.ops, br, o, len, delta, within, within + n, out, memo, luck);
    if served.Err? {
      return Err(OggFault(served.error)), more;
    }
    return Ok(()), more;
  }

  lemma PatchLengths(ops: PageOps)
    requires PatchKeeps(ops)
    ensures PatchKeepsLength(ops)
  {
  }

  lemma RegionBounds(env: Env, o: nat, len: nat)
    requires Region(env.ops, env.file, o, o + len)
    ensures len > 0
  {
  }

  /**
    Append `size` bytes at `offset` of the synthesized file to `out`.  Success always gives
    the clamped slice; on a sound device it succeeds, provided the Ogg scan can find a page
    from every offset.
   */
  method ReadSegmentsInto(env: Env, segs: seq<Segment>, totalLen: nat, br: BackingReader, memo: LastPageMemo,
                          offset: nat, size: nat, out: seq<Byte>, lucks: nat -> Luck)
    returns (r: Result<(), Fault>, more: seq<Byte>)
    requires Ready(env, segs, br, memo) && OneOggAudio(segs) && totalLen == LenOf(segs) < U64_LIMIT
    modifies br, br.ra, memo
    ensures Ready(env, segs, br, memo)
    ensures Present(env, segs) && r.Ok? ==>
              |Synthesized(env, segs)| == totalLen &&
              more == out + if offset < totalLen then Synthesized(env, segs)[offset..Min(offset + size, totalLen)] else []
    ensures Present(env, segs) && AllScannable(env, segs) && (forall i: nat :: Steady(br, lucks(i))) ==> r.Ok?
  {
    hide Content, MemoFits, PatchKeeps, WindowedEncodes, OggRegion, Scannable, Ready, Overlap, Served, Present, Synthesized;
    more := out;
    ghost var present := Present(env, segs);
    if present {
      SynthesizedLength(env, segs);
      NothingServed(Synthesized(env, segs), offset, Min(SaturatingAdd(offset, size), totalLen), out);
    }
    if offset >= totalLen || size == 0 {
      return Ok(()), more;
    }
    var end := Min(SaturatingAdd(offset, size), totalLen);
    var segStart, i := 0, 0;
    while i < |segs| && segStart < end
      invariant i <= |segs| && segStart == LenOf(segs[..i]) && Ready(env, segs, br, memo)
      invariant present ==> segStart <= totalLen && more == out + Served(Synthesized(env, segs), offset, end, segStart)
      decreases |segs| - i
    {
      var seg := segs[i];
      LenStep(segs, i);
      var segEnd := segStart + seg.Len();
      if present {
        SegmentStands(env, segs, i);
        ServedPart(Synthesized(env, segs), offset, end, segStart, segEnd, out, more);
        PresentSegment(env, segs, i);
      }
      var from, to := Max(offset, segStart), Min(end, segEnd);
      if from < to {
        OnlySegment(env, segs, seg, br, memo);
        label before:
        var served;
        served, more := ReadSegment(env, seg, from - segStart, to - from, more, br, memo, lucks(i));
        AllSegments(env, segs, seg, br, memo, old@before(memo.entry));
        if served.Err? {
          return Err(served.error), more;
        }
      }
      segStart, i := segEnd, i + 1;
    }
    assert segs[..|segs|] == segs;
    if present { AllServed(Synthesized(env, segs), offset, end, segStart); }
    return Ok(()), more;
  }

  lemma PresentSegment(env: Env, segs: seq<Segment>, i: nat)
    requires Present(env, segs) && i < |segs|
    ensures Content(env, segs[i]).Some?
  {
    hide Content;
  }

  lemma NothingServed<T>(stream: seq<T>, a: nat, b: nat, out: seq<T>)
    ensures out + Served(stream, a, b, 0) == out
  {
  }

  lemma AllServed<T>(stream: seq<T>, a: nat, b: nat, n: nat)
    requires n <= |stream| && b <= |stream| && a < b && (n == |stream| || b <= n)
    ensures Served(stream, a, b, n) == stream[a..b]
  {
  }

  /** One segment's share of the window, appended, is what has been served after it. */
  lemma ServedPart<T>(stream: seq<T>, a: nat, b: nat, n: nat, m: nat, out: seq<T>, more: seq<T>)
    requires n <= m <= |stream| && more == out + Served(stream, a, b, n)
    ensures var lo, hi := Max(a, n), Min(b, m);
            out + Served(stream, a, b, m) == if lo < hi then more + stream[n..m][lo - n..hi - n] else more
  {
    hide Served, Overlap;
    ServedStep(stream, a, b, n, m);
    OverlapIs(stream[n..m], n, a, b);
    assert (out + Served(stream, a, b, n)) + Overlap(stream[n..m], n, a, b) == out + (Served(stream, a, b, n) + Overlap(stream[n..m], n, a, b));
  }

  lemma LenStep(segs: seq<Segment>, i: nat)
    requires i < |segs|
    ensures LenOf(segs[..i + 1]) == LenOf(segs[..i]) + segs[i].Len()
  {
    assert segs[..i + 1][..i] == segs[..i];
  }

  lemma OnlySegment(env: Env, segs: seq<Segment>, seg: Segment, br: BackingReader, memo: LastPageMemo)
    requires Ready(env, segs, br, memo) && seg in segs
    ensures Ready(env, [seg], br, memo) && forall s | s in segs && s.OggAudio? :: MemoFits(env, s, memo.entry)
  {
    hide MemoFits, PatchKeeps, WindowedEncodes;
  }

  lemma AllSegments(env: Env, segs: seq<Segment>, seg: Segment, br: BackingReader, memo: LastPageMemo, was: Option<(nat, nat, seq<Byte>)>)
    requires Ready(env, [seg], br, memo) && seg in segs && OneOggAudio(segs)
    requires !seg.OggAudio? ==> memo.entry == was
    requires forall s | s in segs && s.OggAudio? :: MemoFits(env, s, was)
    ensures Ready(env, segs, br, memo)
  {
    hide MemoFits, PatchKeeps, WindowedEncodes;
    assert seg in [seg];
  }

  /**
    Two reads of adjacent ranges and one of both together, one after another through the same
    ring and memo: whatever each leaves there for the next, the pieces join to the whole.
   */
  method AdjacentReads(env: Env, segs: seq<Segment>, totalLen: nat, br: BackingReader, memo: LastPageMemo,
                       offset: nat, a: nat, b: nat, lucks: nat -> nat -> Luck)
    returns (r: Result<(), Fault>, left: seq<Byte>, right: seq<Byte>, both: seq<Byte>)
    requires Ready(env, segs, br, memo) && OneOggAudio(segs) && totalLen == LenOf(segs) < U64_LIMIT
    modifies br, br.ra, memo
    ensures Ready(env, segs, br, memo)
    ensures Present(env, segs) && r.Ok? ==> left + right == both
    ensures Present(env, segs) && AllScannable(env, segs) && (forall i: nat, j: nat :: Steady(br, lucks(i)(j))) ==> r.Ok?
  {
    hide Content, MemoFits, PatchKeeps, WindowedEncodes, Ready, Present, AllScannable, Synthesized, OneOggAudio;
    right, both := [], [];
    r, left := ReadSegmentsInto(env, segs, totalLen, br, memo, offset, a, [], lucks(0));
    if r.Err? {
      return;
    }
    r, right := ReadSegmentsInto(env, segs, totalLen, br, memo, offset + a, b, [], lucks(1));
    if r.Err? {
      return;
    }
    r, both := ReadSegmentsInto(env, segs, totalLen, br, memo, offset, a + b, [], lucks(2));
    if Present(env, segs) && offset < totalLen && r.Ok? {
      SliceJoin(Synthesized(env, segs), offset, Min(offset + a, totalLen), Min(offset + a + b, totalLen));
    }
  }
}
