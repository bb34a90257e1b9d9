/**
  Component names: splitting and joining rendered paths, NAME_MAX truncation and
  the ` (k)` rank format of `musefs-core/src/tree.rs`.  A `string` is a sequence of
  Unicode scalar values; the source's byte lengths are the UTF-8 lengths of those.
 */
module Names {
  import opened Outcomes

  type Name = string

  // ----- UTF-8 length and truncation ------------------------------------------

  /** Linux NAME_MAX, in bytes. */
  const NAME_MAX: nat := 255

  function CharBytes(c: char): (n: nat)
    ensures 1 <= n <= 4
  {
    if c as int < 0x80 then 1 else if c as int < 0x800 then 2 else if c as int < 0x10000 then 3 else 4
  }

  function Bytes(s: string): (n: nat)
    ensures |s| <= n
  {
    if s == "" then 0 else Bytes(s[..|s| - 1]) + CharBytes(s[|s| - 1])
  }

  /** Largest prefix of `s` that is at most `max` bytes and ends on a character boundary. */
  function TruncateBytes(s: string, max: nat): (r: string)
    ensures r <= s && Bytes(r) <= max
    ensures r == s || Bytes(s[..|r| + 1]) > max
  {
    if Bytes(s) <= max then s
    else
      var r := TruncateBytes(s[..|s| - 1], max);
      assert r != s[..|s| - 1] ==> s[..|s| - 1][..|r| + 1] == s[..|r| + 1];
      assert s[..|s|] == s;
      r
  }

  // ----- ASCII case ------------------------------------------------------------

  function AsciiLower(c: char): char { if 'A' <= c <= 'Z' then (c as int + 32) as char else c }

  function Lowercase(s: string): string { seq(|s|, i requires 0 <= i < |s| => AsciiLower(s[i])) }

  // ----- Searching -------------------------------------------------------------

  /** Index of the last `c` in `s`, if any. */
  function LastIndexOf(s: string, c: char): (r: Option<nat>)
    ensures r.Some? ==> r.value < |s| && s[r.value] == c && forall i | r.value < i < |s| :: s[i] != c
    ensures r.None? ==> c !in s
  {
    if s == "" then None
    else if s[|s| - 1] == c then Some(|s| - 1)
    else LastIndexOf(s[..|s| - 1], c)
  }

  predicate OpensAt(s: string, i: nat) {
    i + 1 < |s| && s[i] == ' ' && s[i + 1] == '('
  }

  /** Start of the last ` (` in `s`, if any. */
  function LastOpen(s: string): (r: Option<nat>)
    ensures r.Some? ==> OpensAt(s, r.value) && forall i: nat | i > r.value :: !OpensAt(s, i)
    ensures r.None? ==> forall i: nat :: !OpensAt(s, i)
  {
    if |s| < 2 then None
    else if OpensAt(s, |s| - 2) then Some(|s| - 2)
    else
      var r := LastOpen(s[..|s| - 1]);
      assert forall i: nat | i < |s| - 2 :: OpensAt(s, i) == OpensAt(s[..|s| - 1], i);
      r
  }

  /** Stem and extension: the extension follows the last `.`, unless that dot leads the name. */
  function SplitSuffixParts(name: string): (r: (string, Option<string>))
    ensures r.1.Some? ==> name == r.0 + "." + r.1.value && '.' !in r.1.value && r.0 != ""
    ensures r.1.None? ==> r.0 == name
  {
    match LastIndexOf(name, '.')
    case Some(i) => if i > 0 then (name[..i], Some(name[i + 1..])) else (name, None)
    case None => (name, None)
  }

  /** Truncate a rendered component to NAME_MAX bytes, keeping a leaf's extension when it fits. */
  function TruncateComponent(name: string, preserveExt: bool): (r: string)
    ensures Bytes(name) <= NAME_MAX ==> r == name
  {
    if Bytes(name) <= NAME_MAX then name
    else
      var (stem, ext) := SplitSuffixParts(name);
      if preserveExt && ext.Some? && Bytes(ext.value) + 1 < NAME_MAX then
        TruncateBytes(stem, NAME_MAX - (Bytes(ext.value) + 1)) + "." + ext.value
      else TruncateBytes(name, NAME_MAX)
  }

  // ----- Decimal ranks ----------------------------------------------------------

  predicate IsDigit(c: char) { '0' <= c <= '9' }

  function DigitChar(d: nat): (c: char)
    requires d < 10
    ensures IsDigit(c) && c as int == '0' as int + d
  {
    ('0' as int + d) as char
  }

  function Digits(n: nat): (s: string)
    ensures s != "" && forall i | 0 <= i < |s| :: IsDigit(s[i])
  {
    if n < 10 then [DigitChar(n)] else Digits(n / 10) + [DigitChar(n % 10)]
  }

  function DigitValue(c: char): nat
    requires IsDigit(c)
  {
    c as int - '0' as int
  }

  function DigitsValue(s: string): nat
    requires forall i | 0 <= i < |s| :: IsDigit(s[i])
  {
    if s == "" then 0 else DigitsValue(s[..|s| - 1]) * 10 + DigitValue(s[|s| - 1])
  }

  lemma {:induction false} DigitsValueOfDigits(n: nat)
    ensures DigitsValue(Digits(n)) == n
  {
    if n >= 10 {
      DigitsValueOfDigits(n / 10);
      assert Digits(n)[..|Digits(n)| - 1] == Digits(n / 10);
    } else {
      assert Digits(n)[..0] == "";
    }
  }

  function Pow10(d: nat): (p: nat)
    ensures p >= 1
  {
    if d == 0 then 1 else 10 * Pow10(d - 1)
  }

  lemma {:induction false} DigitsShort(n: nat, d: nat)
    requires d >= 1 && n < Pow10(d)
    ensures |Digits(n)| <= d
  {
    if n >= 10 {
      assert d >= 2;
      DigitsShort(n / 10, d - 1);
    }
  }

  /** Ranks are `u32`s in the source. */
  const RANK_LIMIT: nat := 0x1_0000_0000

  lemma RankDigits(k: nat)
    requires k < RANK_LIMIT
    ensures |Digits(k)| <= 10
  {
    assert Pow10(2) == 100;
    assert Pow10(4) == 10000;
    assert Pow10(6) == 1000000;
    assert Pow10(8) == 100000000;
    assert Pow10(10) == 10000000000;
    DigitsShort(k, 10);
  }

  predicate AllDigits(s: string) { forall i | 0 <= i < |s| :: IsDigit(s[i]) }

  /** `str::parse::<u32>`: an optional `+`, then at least one digit, below 2^32. */
  function ParseU32(s: string): Option<nat> {
    var digits := if |s| > 1 && s[0] == '+' then s[1..] else s;
    if digits == "" || !AllDigits(digits) then None
    else if DigitsValue(digits) < RANK_LIMIT then Some(DigitsValue(digits)) else None
  }

  // ----- Disambiguation ranks ---------------------------------------------------

  function RankSuffix(k: nat): string { " (" + Digits(k) + ")" }

  function ExtPart(name: string): string {
    match SplitSuffixParts(name).1
    case Some(e) => "." + e
    case None => ""
  }

  /** The stem a rank-`k` candidate keeps: trimmed so that stem, rank and extension fit NAME_MAX. */
  function RankedStem(name: string, k: nat): (r: string)
    ensures r <= SplitSuffixParts(name).0
  {
    var used := Bytes(RankSuffix(k)) + Bytes(ExtPart(name));
    TruncateBytes(SplitSuffixParts(name).0, if used <= NAME_MAX then NAME_MAX - used else 0)
  }

  /** The rank-`k` disambiguated candidate for `name`. */
  function SuffixCandidate(name: string, k: nat): string {
    RankedStem(name, k) + RankSuffix(k) + ExtPart(name)
  }

  /** Could `name` be the output of `SuffixCandidate`? */
  predicate IsSuffixShaped(name: string) {
    var stem := SplitSuffixParts(name).0;
    match LastOpen(stem)
    case None => false
    case Some(open) =>
      var tail := stem[open + 2..];
      tail != "" && tail[|tail| - 1] == ')' &&
      var rank := ParseU32(tail[..|tail| - 1]);
      rank.Some? && rank.value >= 2
  }

  /** The name a member of rank `k` takes: its rendered name at rank 1, a candidate above. */
  function SlotName(rendered: string, k: nat): string {
    if k <= 1 then rendered else SuffixCandidate(rendered, k)
  }

  /** Digits after an opening parenthesis are found from the end of the string alone. */
  lemma TrailingDigits(a: string, d1: string, b: string, d2: string)
    requires a != "" && a[|a| - 1] == '(' && b != "" && b[|b| - 1] == '('
    requires forall i | 0 <= i < |d1| :: IsDigit(d1[i])
    requires forall i | 0 <= i < |d2| :: IsDigit(d2[i])
    requires a + d1 == b + d2
    ensures a == b && d1 == d2
  {
    var s := a + d1;
    assert s[|a| - 1] == '(' && s[|b| - 1] == '(' by { assert s == b + d2; }
    assert forall i | |a| <= i < |s| :: s[i] == d1[i - |a|];
    assert forall i | |b| <= i < |s| :: s[i] == d2[i - |b|] by { assert s == b + d2; }
    assert |a| == |b|;
    assert s[..|a|] == a && s[|a|..] == d1;
    assert s[..|b|] == b && s[|b|..] == d2 by { assert s == b + d2; }
  }

  lemma SameSuffix(a: string, b: string, t: string)
    requires a + t == b + t
    ensures a == b
  {
    assert |a| == |b|;
    assert a == (a + t)[..|a|];
    assert b == (b + t)[..|b|];
  }

  lemma Regroup(stem: string, open: string, digits: string, close: string, ext: string)
    ensures stem + (open + digits + close) + ext == ((stem + open) + digits) + (close + ext)
  {
  }

  /** Two ranks of one name never give the same candidate, truncated or not. */
  lemma CandidateRankInjective(name: string, k1: nat, k2: nat)
    requires SuffixCandidate(name, k1) == SuffixCandidate(name, k2)
    ensures k1 == k2
  {
    var a, b := RankedStem(name, k1) + " (", RankedStem(name, k2) + " (";
    var tail := ")" + ExtPart(name);
    Regroup(RankedStem(name, k1), " (", Digits(k1), ")", ExtPart(name));
    Regroup(RankedStem(name, k2), " (", Digits(k2), ")", ExtPart(name));
    SameSuffix(a + Digits(k1), b + Digits(k2), tail);
    TrailingDigits(a, Digits(k1), b, Digits(k2));
    DigitsValueOfDigits(k1);
    DigitsValueOfDigits(k2);
  }

  // ----- Short names, and sets of them that ranks do not confuse -----------------------------

  /** Short enough that no candidate of rank below 2^32 is truncated (` (` + 10 digits + `)`). */
  predicate Fits(name: string) { name != "" && Bytes(name) + 13 <= NAME_MAX }

  /** A short component that the tree materializes. */
  predicate Short(name: string) { Fits(name) && '/' !in name && name != "." && name != ".." }

  /** A short component that is not shaped like a ranked name. */
  predicate Plain(name: string) { Short(name) && !IsSuffixShaped(name) }

  /** Short names of which none is a ranked candidate of another. */
  ghost predicate Unambiguous(vocab: iset<Name>) {
    (forall n | n in vocab :: Short(n)) &&
    forall r, k | r in vocab && 2 <= k < RANK_LIMIT :: SuffixCandidate(r, k) !in vocab
  }

  lemma {:induction false} BytesConcat(a: string, b: string)
    ensures Bytes(a + b) == Bytes(a) + Bytes(b)
  {
    if b == "" {
      assert a + b == a;
    } else {
      assert (a + b)[..|a + b| - 1] == a + b[..|b| - 1];
      BytesConcat(a, b[..|b| - 1]);
    }
  }

  lemma {:induction false} BytesAscii(s: string)
    requires forall i | 0 <= i < |s| :: s[i] as int < 0x80
    ensures Bytes(s) == |s|
  {
    if s != "" {
      BytesAscii(s[..|s| - 1]);
    }
  }

  lemma CandidateUntruncated(name: string, k: nat)
    requires Fits(name) && k < RANK_LIMIT
    ensures SuffixCandidate(name, k) == SplitSuffixParts(name).0 + RankSuffix(k) + ExtPart(name)
    ensures name == SplitSuffixParts(name).0 + ExtPart(name)
  {
    hide SplitSuffixParts, Digits;
    var stem, ext := SplitSuffixParts(name).0, ExtPart(name);
    assert name == stem + ext;
    BytesConcat(stem, ext);
    RankDigits(k);
    BytesAscii(RankSuffix(k));
  }

  lemma LastIndexUnique(s: string, c: char, i: nat)
    requires i < |s| && s[i] == c && forall j | i < j < |s| :: s[j] != c
    ensures LastIndexOf(s, c) == Some(i)
  {
    assert c in s;
  }

  lemma SplitWithExt(head: string, ext: string)
    requires head != "" && '.' !in ext
    ensures SplitSuffixParts(head + ("." + ext)) == (head, Some(ext))
  {
    var c := head + ("." + ext);
    assert c[|head|] == '.' && c[|head| + 1..] == ext && c[..|head|] == head;
    assert forall j | |head| < j < |c| :: c[j] == ext[j - |head| - 1];
    LastIndexUnique(c, '.', |head|);
  }

  lemma SplitWithoutExt(head: string)
    requires forall i | 0 < i < |head| :: head[i] != '.'
    ensures SplitSuffixParts(head) == (head, None)
  {
  }

  lemma RankSuffixChars(k: nat)
    ensures forall i | 0 <= i < |RankSuffix(k)| :: RankSuffix(k)[i] != '.'
    ensures forall i | 0 < i < |RankSuffix(k)| :: RankSuffix(k)[i] != ' '
    ensures |RankSuffix(k)| == |Digits(k)| + 3
    ensures RankSuffix(k)[0] == ' ' && RankSuffix(k)[1] == '('
    ensures RankSuffix(k)[2..] == Digits(k) + ")"
  {
    var r, d := RankSuffix(k), Digits(k);
    assert forall i | 2 <= i < |r| - 1 :: r[i] == d[i - 2];
  }

  /** Splitting a candidate gives back the stem with its rank, and the same extension. */
  lemma CandidateSplit(name: string, k: nat)
    requires Fits(name) && k < RANK_LIMIT
    ensures SplitSuffixParts(SuffixCandidate(name, k)) == (SplitSuffixParts(name).0 + RankSuffix(k), SplitSuffixParts(name).1)
  {
    CandidateUntruncated(name, k);
    RankSuffixChars(k);
    var (stem, ext) := SplitSuffixParts(name);
    var head := stem + RankSuffix(k);
    match ext {
      case Some(e) =>
        SplitWithExt(head, e);
      case None =>
        assert SuffixCandidate(name, k) == head;
        assert forall i | |stem| <= i < |head| :: head[i] == RankSuffix(k)[i - |stem|];
        assert forall i | 0 < i < |stem| :: stem[i] != '.';
        SplitWithoutExt(head);
    }
  }

  lemma OpensOnce(stem: string, tail: string)
    requires |tail| >= 2 && tail[0] == ' ' && tail[1] == '(' && forall i | 0 < i < |tail| :: tail[i] != ' '
    ensures LastOpen(stem + tail) == Some(|stem|)
  {
    hide LastOpen;
    var s := stem + tail;
    assert s[|stem|] == tail[0] && s[|stem| + 1] == tail[1];
    assert OpensAt(s, |stem|);
    forall i: nat | i > |stem|
      ensures !OpensAt(s, i)
    {
      if i < |s| { assert s[i] == tail[i - |stem|]; }
    }
  }

  lemma RankOpen(stem: string, k: nat)
    ensures LastOpen(stem + RankSuffix(k)) == Some(|stem|)
  {
    hide LastOpen, RankSuffix, Digits;
    RankSuffixChars(k);
    OpensOnce(stem, RankSuffix(k));
  }

  /** A stem ending in a rank of at least 2 is suffix-shaped, whatever the extension. */
  lemma RankedStemShaped(c: string, stem: string, k: nat)
    requires SplitSuffixParts(c).0 == stem + RankSuffix(k) && 2 <= k < RANK_LIMIT
    ensures IsSuffixShaped(c)
  {
    RankOpen(stem, k);
    RankSuffixChars(k);
    var tail := (stem + RankSuffix(k))[|stem| + 2..];
    assert tail == RankSuffix(k)[2..];
    assert tail[..|tail| - 1] == Digits(k);
    DigitsValueOfDigits(k);
  }

  /** Every candidate of a short name is recognised as one. */
  lemma CandidateIsSuffixShaped(name: string, k: nat)
    requires Fits(name) && 2 <= k < RANK_LIMIT
    ensures IsSuffixShaped(SuffixCandidate(name, k))
  {
    CandidateSplit(name, k);
    RankedStemShaped(SuffixCandidate(name, k), SplitSuffixParts(name).0, k);
  }

  /** The plain names are such a set. */
  lemma PlainUnambiguous()
    ensures Unambiguous(iset n: Name | Plain(n))
  {
    hide IsSuffixShaped;
    forall r, k | Plain(r) && 2 <= k < RANK_LIMIT
      ensures !Plain(SuffixCandidate(r, k))
    {
      CandidateIsSuffixShaped(r, k);
    }
  }

  /** In such a set rendered name and rank can be read off the ranked name. */
  lemma SlotNameInjective(vocab: iset<Name>, r1: string, k1: nat, r2: string, k2: nat)
    requires Unambiguous(vocab) && r1 in vocab && r2 in vocab && 1 <= k1 < RANK_LIMIT && 1 <= k2 < RANK_LIMIT
    requires SlotName(r1, k1) == SlotName(r2, k2)
    ensures r1 == r2 && k1 == k2
  {
    assert Fits(r1) && Fits(r2);
    if k1 >= 2 && k2 >= 2 {
      CandidateSplit(r1, k1);
      CandidateSplit(r2, k2);
      CandidateUntruncated(r1, k1);
      CandidateUntruncated(r2, k2);
      var s1, s2 := SplitSuffixParts(r1).0, SplitSuffixParts(r2).0;
      RankOpen(s1, k1);
      RankOpen(s2, k2);
      assert s1 == (s1 + RankSuffix(k1))[..|s1|];
      assert s2 == (s2 + RankSuffix(k2))[..|s2|];
      CandidateRankInjective(r1, k1, k2);
    }
  }

  /** For short names, unambiguous is what it takes: exactly then ranked names determine name and rank. */
  lemma UnambiguousIsInjective(vocab: iset<Name>)
    requires forall n | n in vocab :: Short(n)
    ensures Unambiguous(vocab) <==>
            forall r1, k1, r2, k2 | r1 in vocab && r2 in vocab && 1 <= k1 < RANK_LIMIT && 1 <= k2 < RANK_LIMIT &&
                                    SlotName(r1, k1) == SlotName(r2, k2) :: r1 == r2 && k1 == k2
  {
    hide SuffixCandidate, Short;
    if Unambiguous(vocab) {
      forall r1, k1: nat, r2, k2: nat | r1 in vocab && r2 in vocab && 1 <= k1 < RANK_LIMIT && 1 <= k2 < RANK_LIMIT &&
                                        SlotName(r1, k1) == SlotName(r2, k2)
        ensures r1 == r2 && k1 == k2
      {
        SlotNameInjective(vocab, r1, k1, r2, k2);
      }
    } else {
      var r, k: nat :| r in vocab && 2 <= k < RANK_LIMIT && SuffixCandidate(r, k) in vocab;
      assert SlotName(SuffixCandidate(r, k), 1) == SlotName(r, k);
    }
  }

  // ----- Paths ------------------------------------------------------------------

  /** `str::split`: the pieces between separators. */
  function SplitOn(s: string, sep: char): (r: seq<string>)
    ensures r != [] && forall i | 0 <= i < |r| :: sep !in r[i]
  {
    if s == "" then [""]
    else
      var init := SplitOn(s[..|s| - 1], sep);
      if s[|s| - 1] == sep then init + [""]
      else init[..|init| - 1] + [init[|init| - 1] + [s[|s| - 1]]]
  }

  function Split(s: string): (r: seq<string>)
    ensures r != [] && forall i | 0 <= i < |r| :: '/' !in r[i]
  {
    SplitOn(s, '/')
  }

  predicate Materializes(c: string) { c != "" && c != "." && c != ".." }

  function FilterComponents(cs: seq<string>): (r: seq<string>)
    ensures forall i | 0 <= i < |r| :: Materializes(r[i]) && r[i] in cs
  {
    if cs == [] then []
    else
      var init := FilterComponents(cs[..|cs| - 1]);
      if Materializes(cs[|cs| - 1]) then init + [cs[|cs| - 1]] else init
  }

  /** The components of a rendered path that the tree materializes. */
  function PathComponents(path: string): (r: seq<string>)
    ensures forall i | 0 <= i < |r| :: Materializes(r[i]) && '/' !in r[i]
  {
    FilterComponents(Split(path))
  }

  /** The tree keys of a rendered path: every component truncated, the leaf keeping its extension. */
  function TreeKeys(path: string): (r: seq<Name>)
    ensures |r| == |PathComponents(path)|
  {
    var cs := PathComponents(path);
    seq(|cs|, i requires 0 <= i < |cs| => TruncateComponent(cs[i], i + 1 == |cs|))
  }

  function JoinPath(parent: string, name: string): string {
    if parent == "" then name else parent + "/" + name
  }

  function JoinNames(names: seq<Name>): string {
    if names == [] then "" else JoinPath(JoinNames(names[..|names| - 1]), names[|names| - 1])
  }

  predicate IsComponent(c: string) { c != "" && '/' !in c }

  predicate AreComponents(names: seq<Name>) { forall i | 0 <= i < |names| :: IsComponent(names[i]) }

  lemma {:induction false} SplitOnAppend(s: string, t: string, sep: char)
    requires sep !in t
    ensures var r := SplitOn(s, sep); SplitOn(s + t, sep) == r[..|r| - 1] + [r[|r| - 1] + t]
  {
    var r := SplitOn(s, sep);
    if t == "" {
      assert s + t == s;
      assert r[|r| - 1] + t == r[|r| - 1];
    } else {
      assert (s + t)[..|s + t| - 1] == s + t[..|t| - 1];
      SplitOnAppend(s, t[..|t| - 1], sep);
      assert t == t[..|t| - 1] + [t[|t| - 1]];
      assert (r[|r| - 1] + t[..|t| - 1]) + [t[|t| - 1]] == r[|r| - 1] + t;
    }
  }

  lemma SplitAppend(s: string, t: string)
    requires '/' !in t
    ensures Split(s + t) == Split(s)[..|Split(s)| - 1] + [Split(s)[|Split(s)| - 1] + t]
  {
    SplitOnAppend(s, t, '/');
  }

  lemma {:induction false} JoinNonempty(names: seq<Name>)
    requires names != [] && AreComponents(names)
    ensures JoinNames(names) != ""
  {
  }

  /** Splitting a joined path gives back exactly its components. */
  lemma {:induction false} SplitJoin(names: seq<Name>)
    requires names != [] && AreComponents(names)
    ensures Split(JoinNames(names)) == names
  {
    var init, last := names[..|names| - 1], names[|names| - 1];
    assert names == init + [last];
    if init == [] {
      assert JoinNames(names) == "" + last;
      SplitAppend("", last);
    } else {
      SplitJoin(init);
      JoinNonempty(init);
      var s := JoinNames(init) + "/";
      assert s[..|s| - 1] == JoinNames(init);
      assert Split(s) == init + [""];
      assert JoinNames(names) == s + last;
      SplitAppend(s, last);
      assert "" + last == last;
    }
  }

  lemma JoinInjective(a: seq<Name>, b: seq<Name>)
    requires AreComponents(a) && AreComponents(b) && JoinNames(a) == JoinNames(b)
    ensures a == b
  {
    if a == [] && b != [] { JoinNonempty(b); }
    if b == [] && a != [] { JoinNonempty(a); }
    if a != [] && b != [] {
      SplitJoin(a);
      SplitJoin(b);
    }
  }

  lemma {:induction false} FilterIdentity(cs: seq<string>)
    requires forall i | 0 <= i < |cs| :: Materializes(cs[i])
    ensures FilterComponents(cs) == cs
  {
    if cs != [] {
      FilterIdentity(cs[..|cs| - 1]);
      assert cs == cs[..|cs| - 1] + [cs[|cs| - 1]];
    }
  }

  lemma NoSlash(a: string, b: string)
    requires '/' !in a && '/' !in b
    ensures '/' !in a + b
  {
  }

  /** The ranks of a path component are path components. */
  lemma SlotNameComponent(rendered: string, k: nat)
    requires IsComponent(rendered)
    ensures IsComponent(SlotName(rendered, k))
  {
    hide RankedStem, RankSuffix, ExtPart;
    if k >= 2 {
      StemNoSlash(rendered, k);
      NoSlash(RankedStem(rendered, k), RankSuffix(k));
      NoSlash(RankedStem(rendered, k) + RankSuffix(k), ExtPart(rendered));
      assert |RankSuffix(k)| > 0 by { RankSuffixChars(k); }
    }
  }

  lemma StemNoSlash(rendered: string, k: nat)
    requires '/' !in rendered
    ensures '/' !in RankedStem(rendered, k) && '/' !in RankSuffix(k) && '/' !in ExtPart(rendered)
  {
    hide TruncateBytes, Digits, SplitSuffixParts, RankedStem;
    assert rendered == SplitSuffixParts(rendered).0 + ExtPart(rendered);
    PartsNoSlash(SplitSuffixParts(rendered).0, ExtPart(rendered));
    PrefixNoSlash(RankedStem(rendered, k), SplitSuffixParts(rendered).0);
  }

  lemma PartsNoSlash(a: string, b: string)
    requires '/' !in a + b
    ensures '/' !in a && '/' !in b
  {
    assert forall c | c in a || c in b :: c in a + b;
  }

  lemma PrefixNoSlash(a: string, b: string)
    requires a <= b && '/' !in b
    ensures '/' !in a
  {
    assert b == a + b[|a|..];
    PartsNoSlash(a, b[|a|..]);
  }

  /** Above rank 1 the name is too long to be `.` or `..`. */
  lemma RankedMaterializes(rendered: string, k: nat)
    requires k >= 2
    ensures Materializes(SlotName(rendered, k))
  {
    assert |RankSuffix(k)| >= 4;
  }

  lemma NonemptyTruncation(s: string, max: nat)
    requires s != "" && max >= 4
    ensures TruncateBytes(s, max) != ""
  {
    var r := TruncateBytes(s, max);
    assert s[..1][..0] == "";
    assert Bytes(s[..1]) <= 4;
  }

  lemma TruncatedComponent(name: string, preserveExt: bool)
    requires IsComponent(name)
    ensures IsComponent(TruncateComponent(name, preserveExt))
  {
    hide Bytes;
    NonemptyTruncation(name, NAME_MAX);
    var (stem, ext) := SplitSuffixParts(name);
    assert forall i | 0 <= i < |stem| :: stem[i] == name[i];
    if ext.Some? {
      assert forall i | 0 <= i < |ext.value| :: ext.value[i] == name[|stem| + 1 + i];
      NoSlash(".", ext.value);
    }
  }

  lemma TreeKeysComponents(path: string)
    ensures AreComponents(TreeKeys(path))
  {
    hide TruncateComponent;
    var cs := PathComponents(path);
    forall i | 0 <= i < |cs|
      ensures IsComponent(TreeKeys(path)[i])
    {
      TruncatedComponent(cs[i], i + 1 == |cs|);
    }
  }
}
