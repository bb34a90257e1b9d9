/**
  What the naming functions compute, said without naming them: byte lengths, extensions,
  truncation, ranks and path components of `musefs-core/src/tree.rs`.
 */
module NameFacts {
  import opened Outcomes
  import opened Names

  // ----- Byte lengths -------------------------------------------------------------------------------

  /** The UTF-8 encoding of a character (section 3 of RFC 3629). */
  function Utf8(c: char): seq<int> {
    var n := c as int;
    if n < 0x80 then [n]
    else if n < 0x800 then [0xC0 + n / 64, 0x80 + n % 64]
    else if n < 0x10000 then [0xE0 + n / 64 / 64, 0x80 + n / 64 % 64, 0x80 + n % 64]
    else [0xF0 + n / 64 / 64 / 64, 0x80 + n / 64 / 64 % 64, 0x80 + n / 64 % 64, 0x80 + n % 64]
  }

  /** What a lead byte and continuation bytes stand for, six bits to a byte. */
  function Scalar(b: seq<int>): int
    requires b != []
  {
    if |b| == 1 then b[0] else if |b| == 2 then Extend(b[0] - 0xC0, b[1])
    else if |b| == 3 then Extend(Extend(b[0] - 0xE0, b[1]), b[2])
    else if |b| == 4 then Extend(Extend(Extend(b[0] - 0xF0, b[1]), b[2]), b[3]) else 0
  }

  function Extend(n: int, b: int): int { 64 * n + (b - 0x80) }

  predicate Continues(b: int) { 0x80 <= b < 0xC0 }

  /** A lead byte of the form for that many bytes, then continuation bytes. */
  predicate WellEncoded(b: seq<int>) {
    1 <= |b| <= 4 && (forall i | 1 <= i < |b| :: Continues(b[i])) &&
    match |b|
    case 1 => 0 <= b[0] < 0x80
    case 2 => 0xC2 <= b[0] < 0xE0
    case 3 => 0xE0 <= b[0] < 0xF0
    case _ => 0xF0 <= b[0] < 0xF5
  }

  /** A character has as many bytes as its encoding, which is well formed and loses nothing. */
  lemma CharEncodes(c: char)
    ensures |Utf8(c)| == CharBytes(c) && WellEncoded(Utf8(c)) && Scalar(Utf8(c)) == c as int
  {
    var n := c as int;
    Sixty(n);
    Sixty(n / 64);
    Sixty(n / 64 / 64);
  }

  lemma Sixty(n: int)
    ensures n == 64 * (n / 64) + n % 64 && 0 <= n % 64 < 64
  {
  }

  function Utf8All(s: string): seq<int> { if s == "" then [] else Utf8(s[0]) + Utf8All(s[1..]) }

  lemma {:induction false} BytesEncode(s: string)
    ensures Bytes(s) == |Utf8All(s)|
  {
    if s != "" {
      BytesEncode(s[1..]);
      CharEncodes(s[0]);
      assert s == s[..1] + s[1..];
      BytesConcat(s[..1], s[1..]);
      assert s[..1][..0] == "";
    }
  }

  // ----- Case ---------------------------------------------------------------------------------------

  /** `l` is the small letter of `c`, or `c` itself when it is no capital letter of the alphabet. */
  predicate SmallOf(c: char, l: char) {
    if 'A' <= c <= 'Z' then 'a' <= l <= 'z' && l as int - 'a' as int == c as int - 'A' as int else l == c
  }

  predicate Lowered(s: string, low: string) { |low| == |s| && forall i | 0 <= i < |s| :: SmallOf(s[i], low[i]) }

  lemma LowercaseExactly(s: string, low: string)
    ensures Lowered(s, low) <==> low == Lowercase(s)
  {
    if Lowered(s, low) {
      forall i | 0 <= i < |s|
        ensures low[i] == Lowercase(s)[i]
      {
        assert SmallOf(s[i], low[i]);
      }
    }
  }

  // ----- Extensions ---------------------------------------------------------------------------------

  /** The extension follows the last dot that does not lead the name. */
  lemma SplitSuffixExactly(name: string, stem: string, ext: string)
    ensures SplitSuffixParts(name) == (stem, Some(ext)) <==> name == stem + "." + ext && stem != "" && '.' !in ext
    ensures SplitSuffixParts(name) == (name, None) <==> forall i | 0 < i < |name| :: name[i] != '.'
  {
    if name == stem + "." + ext && stem != "" && '.' !in ext {
      assert name == stem + ("." + ext);
      SplitWithExt(stem, ext);
    }
    if forall i | 0 < i < |name| :: name[i] != '.' { SplitWithoutExt(name); }
  }

  lemma ExtPartExactly(name: string)
    ensures SplitSuffixParts(name).0 + ExtPart(name) == name
  {
  }

  // ----- Truncation -----------------------------------------------------------------------------------

  /** `t` is the longest prefix of `s` of at most `max` bytes. */
  predicate Longest(s: string, max: int, t: string) { t <= s && Bytes(t) <= max && (t == s || Bytes(s[..|t| + 1]) > max) }

  /**
    A truncated component has at most 255 bytes and is as long as that allows: a leaf with an
    extension that leaves room keeps the extension, and everything else is a prefix.
   */
  lemma TruncatedFits(name: string, preserveExt: bool)
    ensures var r := TruncateComponent(name, preserveExt);
            Bytes(r) <= 255 && (Bytes(name) <= 255 ==> r == name) &&
            (Bytes(name) > 255 ==> if preserveExt && HasRoom(name) then KeepsExtension(name, r) else Longest(name, 255, r))
  {
    hide SplitSuffixParts, Bytes, TruncateBytes;
    if Bytes(name) > 255 && preserveExt && HasRoom(name) {
      var (stem, ext) := SplitSuffixParts(name);
      var t := TruncateBytes(stem, 254 - Bytes(ext.value));
      assert Longest(stem, 254 - Bytes(ext.value), t);
      ExtendedBytes(t, ext.value);
    }
  }

  /** The name has an extension, of less than 254 bytes. */
  predicate HasRoom(name: string) { SplitSuffixParts(name).1.Some? && Bytes(SplitSuffixParts(name).1.value) < 254 }

  /** As much of the stem as fits in front of the dot and the extension. */
  ghost predicate KeepsExtension(name: string, r: string)
    requires HasRoom(name)
  {
    var ext := SplitSuffixParts(name).1.value;
    exists t :: Longest(SplitSuffixParts(name).0, 254 - Bytes(ext), t) && r == t + "." + ext
  }

  lemma ExtendedBytes(t: string, ext: string)
    ensures Bytes(t + "." + ext) == Bytes(t) + 1 + Bytes(ext)
  {
    BytesConcat(t, ".");
    BytesConcat(t + ".", ext);
    BytesAscii(".");
  }

  /** A ranked candidate fits 255 bytes exactly when its rank and extension leave any room at all. */
  lemma CandidateFits(name: string, k: nat)
    ensures Bytes(SuffixCandidate(name, k)) <= 255 <==> Bytes(RankSuffix(k)) + Bytes(ExtPart(name)) <= 255
  {
    hide SplitSuffixParts, Digits;
    BytesConcat(RankedStem(name, k), RankSuffix(k));
    BytesConcat(RankedStem(name, k) + RankSuffix(k), ExtPart(name));
  }

  /** A candidate is the stem, as much as fits, then the rank in brackets, then the extension. */
  lemma CandidateReads(name: string, k: nat)
    ensures exists t, d, x ::
              SuffixCandidate(name, k) == t + " (" + d + ")" + x && IsDecimal(d, k) && SplitSuffixParts(name).0 + x == name &&
              Longest(SplitSuffixParts(name).0, Room(d, x), t)
  {
    hide SplitSuffixParts, TruncateBytes;
    var t, d, x := RankedStem(name, k), Digits(k), ExtPart(name);
    ExtPartExactly(name);
    DecimalDigits(k);
    DecimalBytes(k);
    assert Longest(SplitSuffixParts(name).0, Room(d, x), t);
    assert t + RankSuffix(k) + x == t + " (" + d + ")" + x;
  }

  /** What rank and extension leave for the stem. */
  function Room(d: string, x: string): nat { if 3 + |d| + Bytes(x) <= 255 then 255 - (3 + |d| + Bytes(x)) else 0 }

  /** `d` writes `k` in decimal, without leading zeros. */
  predicate IsDecimal(d: string, k: nat) {
    d != "" && (forall i | 0 <= i < |d| :: '0' <= d[i] <= '9') && DigitsValue(d) == k && (|d| > 1 ==> d[0] != '0')
  }

  lemma {:induction false} DecimalDigits(k: nat)
    ensures IsDecimal(Digits(k), k)
  {
    DigitsValueOfDigits(k);
    if k >= 10 {
      DecimalDigits(k / 10);
      LeadingDigit(k / 10);
    }
  }

  lemma {:induction false} LeadingDigit(k: nat)
    requires k > 0
    ensures Digits(k)[0] != '0'
  {
    if k >= 10 { LeadingDigit(k / 10); }
  }

  lemma DecimalBytes(k: nat)
    ensures Bytes(RankSuffix(k)) == 3 + |Digits(k)|
  {
    BytesAscii(RankSuffix(k));
  }

  lemma OneMoreDigit(n: nat)
    ensures |Digits(n)| == if n < 10 then 1 else 1 + |Digits(n / 10)|
  {
  }

  /** The largest 32-bit rank has ten digits. */
  lemma LongestRank()
    ensures |Digits(4294967295)| == 10
  {
    hide Digits;
    OneMoreDigit(4294967295);
    OneMoreDigit(429496729);
    OneMoreDigit(42949672);
    OneMoreDigit(4294967);
    OneMoreDigit(429496);
    OneMoreDigit(42949);
    OneMoreDigit(4294);
    OneMoreDigit(429);
    OneMoreDigit(42);
    OneMoreDigit(4);
  }

  /** A name fits exactly when no 32-bit rank has to cut it. */
  lemma FitsExactly(name: string)
    ensures Fits(name) <==> name != "" && forall k: nat | k < 0x1_0000_0000 :: Bytes(name) + Bytes(RankSuffix(k)) <= 255
  {
    hide Digits, Bytes;
    forall k: nat | k < 0x1_0000_0000
      ensures Bytes(RankSuffix(k)) <= 13
    {
      DecimalBytes(k);
      RankDigits(k);
    }
    LongestRank();
    DecimalBytes(4294967295);
  }

  /** The value of digits, place by place. */
  lemma DigitsValuePlaces(d: string, c: char)
    requires (forall i | 0 <= i < |d| :: IsDigit(d[i])) && IsDigit(c)
    ensures DigitsValue("") == 0 && DigitsValue(d + [c]) == 10 * DigitsValue(d) + (c as int - '0' as int)
  {
    assert (d + [c])[..|d|] == d;
  }

  // ----- Names shaped like a rank -----------------------------------------------------------------------

  /** A number as `u32` parses it: digits with an optional plus, below 2^32. */
  ghost predicate Writes(s: string, v: nat) { exists d :: WritesAs(s, d, v) }

  predicate WritesAs(s: string, d: string, v: nat) {
    (s == d || s == "+" + d) && d != "" && (forall i | 0 <= i < |d| :: '0' <= d[i] <= '9') && DigitsValue(d) == v < 4294967296
  }

  lemma ParseExactly(s: string, v: nat)
    ensures ParseU32(s) == Some(v) <==> Writes(s, v)
  {
    hide DigitsValue;
    if |s| > 1 && s[0] == '+' { ParseDigits(s, s[1..], v); } else { ParseDigits(s, s, v); }
    if Writes(s, v) {
      var d :| WritesAs(s, d, v);
      assert ("+" + d)[1..] == d;
      assert d == if |s| > 1 && s[0] == '+' then s[1..] else s;
    }
  }

  lemma ParseDigits(s: string, digits: string, v: nat)
    requires digits == if |s| > 1 && s[0] == '+' then s[1..] else s
    ensures ParseU32(s) == Some(v) <==> WritesAs(s, digits, v)
  {
    hide DigitsValue;
    assert s == digits || s == "+" + digits;
  }

  /** A name is shaped like a rank exactly when its stem ends in a bracketed number of at least 2. */
  lemma ShapedExactly(name: string)
    ensures IsSuffixShaped(name) <==> exists a, n, v :: EndsInRank(SplitSuffixParts(name).0, a, n, v)
  {
    hide SplitSuffixParts, LastOpen, ParseU32, Writes;
    var stem := SplitSuffixParts(name).0;
    if IsSuffixShaped(name) {
      var open := LastOpen(stem).value;
      var tail := stem[open + 2..];
      var n := tail[..|tail| - 1];
      assert OpensAt(stem, open);
      ParseExactly(n, ParseU32(n).value);
      assert stem == stem[..open] + " (" + n + ")";
      assert EndsInRank(stem, stem[..open], n, ParseU32(n).value);
    }
    if a, n, v :| EndsInRank(stem, a, n, v) {
      ParseExactly(n, v);
      NumberUnspaced(n, v);
      var tail := " (" + n + ")";
      assert stem == a + tail;
      assert forall i | 0 < i < |tail| :: tail[i] != ' ';
      OpensOnce(a, tail);
      assert stem[|a| + 2..] == n + ")";
      assert (n + ")")[..|n|] == n;
    }
  }

  ghost predicate EndsInRank(stem: string, a: string, n: string, v: nat) { stem == a + " (" + n + ")" && Writes(n, v) && v >= 2 }

  lemma NumberUnspaced(n: string, v: nat)
    requires Writes(n, v)
    ensures ' ' !in n
  {
    hide DigitsValue;
  }

  // ----- Path components --------------------------------------------------------------------------------

  /** The pieces with the separator between them. */
  function Joined(pieces: seq<string>, sep: char): string
    requires pieces != []
  {
    if |pieces| == 1 then pieces[0] else Joined(pieces[..|pieces| - 1], sep) + [sep] + pieces[|pieces| - 1]
  }

  /** Splitting cuts a string at its separators, */
  lemma {:induction false} SplitJoined(s: string, sep: char)
    ensures Joined(SplitOn(s, sep), sep) == s
    decreases |s|
  {
    if s != "" {
      var n := |s| - 1;
      SplitJoined(s[..n], sep);
      var init := SplitOn(s[..n], sep);
      var m := |init| - 1;
      assert s == s[..n] + [s[n]];
      if s[n] == sep {
        assert (init + [""])[..|init|] == init;
        assert s == s[..n] + [sep] + "";
      } else {
        var more := init[..m] + [init[m] + [s[n]]];
        assert more[..m] == init[..m] && more[m] == init[m] + [s[n]];
        if m > 0 { assert Joined(init[..m], sep) + [sep] + (init[m] + [s[n]]) == (Joined(init[..m], sep) + [sep] + init[m]) + [s[n]]; }
      }
    }
  }

  /** and there is no other way to cut it. */
  lemma {:induction false} SplitUnique(pieces: seq<string>, sep: char)
    requires pieces != [] && forall i | 0 <= i < |pieces| :: sep !in pieces[i]
    ensures SplitOn(Joined(pieces, sep), sep) == pieces
  {
    var m := |pieces| - 1;
    assert pieces == pieces[..m] + [pieces[m]];
    if m == 0 {
      SplitOnAppend("", pieces[0], sep);
      assert "" + pieces[0] == pieces[0];
    } else {
      SplitUnique(pieces[..m], sep);
      SplitMore(Joined(pieces[..m], sep), pieces[m], sep);
    }
  }

  lemma SplitMore(s: string, piece: string, sep: char)
    requires sep !in piece
    ensures SplitOn(s + [sep] + piece, sep) == SplitOn(s, sep) + [piece]
  {
    var t := s + [sep];
    assert t[..|t| - 1] == s;
    assert SplitOn(t, sep) == SplitOn(s, sep) + [""];
    SplitOnAppend(t, piece, sep);
    assert "" + piece == piece;
  }

  const NAMELESS: set<string> := {"", ".", ".."}

  /** Of the pieces between slashes, all stay but the empty ones, `.` and `..`, in order. */
  lemma {:induction false} FilterConcat(a: seq<string>, b: seq<string>)
    ensures FilterComponents(a + b) == FilterComponents(a) + FilterComponents(b)
    ensures forall c :: FilterComponents([c]) == if c in NAMELESS then [] else [c]
  {
    assert forall c: string :: [c][..0] == [];
    if b == [] {
      assert a + b == a;
    } else {
      assert (a + b)[..|a + b| - 1] == a + b[..|b| - 1];
      FilterConcat(a, b[..|b| - 1]);
    }
  }

  /**
    The keys of a rendered path: its components, in order, each within 255 bytes; a directory
    keeps as long a prefix as fits, and so does a leaf's stem in front of an extension.
   */
  lemma TreeKeysFit(path: string, i: nat)
    requires i < |PathComponents(path)|
    ensures |TreeKeys(path)| == |PathComponents(path)| && Bytes(TreeKeys(path)[i]) <= 255
    ensures var c, key, leaf := PathComponents(path)[i], TreeKeys(path)[i], i + 1 == |PathComponents(path)|;
            (Bytes(c) <= 255 ==> key == c) &&
            (Bytes(c) > 255 ==> if leaf && HasRoom(c) then KeepsExtension(c, key) else Longest(c, 255, key))
  {
    hide TruncateComponent, Longest, HasRoom, KeepsExtension, PathComponents, Bytes;
    TruncatedFits(PathComponents(path)[i], i + 1 == |PathComponents(path)|);
  }
}
