/**
  The layout of an Ogg page (section 6 of RFC 3533), as a writer: what the geometry of
  `OggPages` reads is what stands in a page written field by field.
 */
module OggLayout {
  import opened Bytes
  import opened OggPages

  datatype Fields = Fields(headerType: Byte, granule: nat, serial: nat, number: nat, crc: nat, lacing: seq<Byte>, payload: seq<Byte>)

  /** `n` in `width` bytes, least significant first. */
  function LeBytes(n: nat, width: nat): (b: seq<Byte>)
    ensures |b| == width
  {
    if width == 0 then [] else [n % 256] + LeBytes(n / 256, width - 1)
  }

  /** The four bytes of a number below 2^32 are its digits in base 256, least first. */
  lemma Le32Digits(s: seq<Byte>, n: nat)
    requires |s| == 4 && n < 0x1_0000_0000
    ensures Le32(s) == n <==> s == LeBytes(n, 4)
  {
    var a, b, c := n / 256, n / 256 / 256, n / 256 / 256 / 256;
    assert LeBytes(n, 4) == [n % 256] + LeBytes(a, 3);
    assert LeBytes(a, 3) == [a % 256] + LeBytes(b, 2);
    assert LeBytes(b, 2) == [b % 256] + LeBytes(c, 1);
    assert LeBytes(c, 1) == [c % 256] + LeBytes(c / 256, 0);
    assert LeBytes(n, 4) == [n % 256, a % 256, b % 256, c % 256];
    DigitsAre(s, n);
    if Le32(s) == n { assert s == [s[0], s[1], s[2], s[3]]; }
  }

  lemma DigitsAre(s: seq<Byte>, n: nat)
    requires |s| == 4 && n < 0x1_0000_0000
    ensures Le32(s) == n <==> s[0] == n % 256 && s[1] == n / 256 % 256 && s[2] == n / 256 / 256 % 256 && s[3] == n / 256 / 256 / 256 % 256
  {
    var a := n / 256;
    var b := a / 256;
    var c := b / 256;
    assert c == c % 256 by { assert n == 256 * a + n % 256 && a == 256 * b + a % 256 && b == 256 * c + b % 256; }
    LowDigit(n, s[0], s[1] as int + 256 * s[2] as int + 65536 * s[3] as int);
    LowDigit(a, s[1], s[2] as int + 256 * s[3] as int);
    LowDigit(b, s[2], s[3]);
  }

  lemma LowDigit(n: nat, digit: Byte, rest: int)
    ensures n == digit + 256 * rest <==> digit == n % 256 && rest == n / 256
  {
  }

  function Front(f: Fields): (b: seq<Byte>)
    requires |f.lacing| < 256
    ensures |b| == 27
  {
    ['O' as int, 'g' as int, 'g' as int, 'S' as int] + [0] + [f.headerType] + LeBytes(f.granule, 8) + LeBytes(f.serial, 4) +
    LeBytes(f.number, 4) + LeBytes(f.crc, 4) + [|f.lacing|]
  }

  /** A page can be written: the lacing values add up to the payload, and every field has room. */
  predicate Writable(f: Fields) {
    |f.lacing| < 256 && Sum(f.lacing) == |f.payload| && f.headerType < 8 && f.number < 0x1_0000_0000
  }

  /** The page, field by field. */
  function Written(f: Fields): seq<Byte>
    requires Writable(f)
  {
    Front(f) + f.lacing + f.payload
  }

  lemma FrontReads(f: Fields)
    requires |f.lacing| < 256
    ensures Front(f)[..4] == CAPTURE && Front(f)[4] == 0 && Front(f)[5] == f.headerType
    ensures Front(f)[18..22] == LeBytes(f.number, 4) && Front(f)[26] == |f.lacing|
  {
    var head := ['O' as int, 'g' as int, 'g' as int, 'S' as int] + [0] + [f.headerType] + LeBytes(f.granule, 8) + LeBytes(f.serial, 4);
    assert |head| == 18;
    assert Front(f) == head + LeBytes(f.number, 4) + (LeBytes(f.crc, 4) + [|f.lacing|]);
  }

  /** Wherever a written page stands, the geometry reads its fields. */
  lemma WrittenReads(f: Fields, before: seq<Byte>, after: seq<Byte>)
    requires Writable(f)
    ensures var s, p := before + Written(f) + after, |before|;
            LooksLikePage(s, p) && HasHeader(s, p) && HeaderLen(s, p) == 27 + |f.lacing| && Header(s, p) == Front(f) + f.lacing &&
            PayloadLen(s, p) == |f.payload| && WholePage(s, p) && Page(s, p) == Written(f) &&
            Le32(Header(s, p)[18..22]) == f.number
  {
    var s, p, n := before + Written(f) + after, |before|, |Written(f)|;
    hide Sum, Front;
    FrontReads(f);
    SliceIn(before, Written(f), after, 0, n);
    assert before + Written(f) + after == s;
    forall i | 0 <= i < n
      ensures s[p + i] == Written(f)[i]
    {
    }
    assert s[p..p + 4] == Written(f)[..4] == Front(f)[..4];
    assert s[p + 26] == Front(f)[26];
    assert Header(s, p) == s[p..p + 27 + |f.lacing|] == Front(f) + f.lacing;
    assert (Front(f) + f.lacing)[27..] == f.lacing;
    assert (Front(f) + f.lacing)[18..22] == Front(f)[18..22];
    assert Page(s, p) == s[p..p + n] == Written(f);
    Le32Digits(LeBytes(f.number, 4), f.number);
  }

  /** Pages one behind another. */
  function Laid(pages: seq<Fields>): seq<Byte>
    requires forall f | f in pages :: Writable(f)
  {
    if pages == [] then [] else Written(pages[0]) + Laid(pages[1..])
  }

  /** Any written pages under which the checksum holds are a tiling, wherever they stand. */
  lemma {:induction false} LaidTiled(ops: PageOps, pages: seq<Fields>, before: seq<Byte>, after: seq<Byte>)
    requires forall f | f in pages :: Writable(f)
    requires forall f | f in pages :: ops.crcOk(Written(f))
    ensures Tiled(ops, before + Laid(pages) + after, |before|, |before| + |Laid(pages)|)
    decreases |pages|
  {
    hide Written, Writable, Tiled;
    var s := before + Laid(pages) + after;
    if pages == [] {
      NothingTiled(ops, s, |before|);
    } else {
      var f, rest := pages[0], Laid(pages[1..]);
      LaidTiled(ops, pages[1..], before + Written(f), after);
      assert (before + Written(f)) + rest + after == s && before + Written(f) + (rest + after) == s;
      assert |before + Written(f)| == |before| + |Written(f)|;
      PageTiled(ops, f, before, rest + after, |before| + |Laid(pages)|);
    }
  }

  lemma NothingTiled(ops: PageOps, file: seq<Byte>, p: nat)
    ensures Tiled(ops, file, p, p)
  {
  }

  lemma PageTiled(ops: PageOps, f: Fields, before: seq<Byte>, after: seq<Byte>, end: nat)
    requires Writable(f) && ops.crcOk(Written(f)) && |before| + |Written(f)| <= end
    requires Tiled(ops, before + Written(f) + after, |before| + |Written(f)|, end)
    ensures Tiled(ops, before + Written(f) + after, |before|, end)
  {
    WrittenReads(f, before, after);
    hide Written, Writable, LooksLikePage, HasHeader, PayloadLen, Header;
    var s, p := before + Written(f) + after, |before|;
    assert |Page(s, p)| == PageLen(s, p) == |Written(f)|;
  }

  /** The largest page: a full segment table of full segments. */
  lemma LargestPage(f: Fields)
    requires Writable(f)
    ensures |Written(f)| <= 65307 && (|f.lacing| == 255 && Sum(f.lacing) == 255 * 255 ==> |Written(f)| == MAX_OGG_PAGE_BYTES)
  {
  }
}
