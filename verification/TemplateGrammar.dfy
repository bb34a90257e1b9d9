/**
  The language of path templates, as a relation between parts and the text that writes them,
  with one rule for each way to write something: parsing finds the parts exactly.
 */
module TemplateGrammar {
  import opened Outcomes
  import opened Names
  import opened NameFacts
  import opened Templates
  import opened TemplateParse

  // ----- The rules ----------------------------------------------------------------------------------

  predicate Bracket(c: char) { c == '[' || c == ']' }

  /** In front of `rest` a `$` means nothing but itself. */
  predicate Lone(rest: string) { rest == "" || !(Bracket(rest[0]) || rest[0] == '{' || rest[0] == '!' || FieldChar(rest[0])) }

  predicate Follows(rest: string, c: char) { rest != "" && rest[0] == c }

  /**
    The characters `u`, in front of `rest`, stand for `text`: an escaped bracket; `$!` when no
    brace follows; a lone `$`; or a character that begins nothing.
   */
  predicate Unit(text: string, u: string, rest: string, inSection: bool) {
    (|u| == 2 && u[0] == '$' && Bracket(u[1]) && text == [u[1]]) ||
    (u == "$!" && text == "$!" && !Follows(rest, '{')) ||
    (u == "$" && text == "$" && Lone(rest)) ||
    (|u| == 1 && u[0] != '$' && u[0] != '[' && !(u[0] == ']' && inSection) && u[0] as int >= 0x20 && text == u)
  }

  ghost predicate WritesText(text: string, source: string, rest: string, inSection: bool)
    decreases |source|
  {
    if source == "" then text == "" else exists n, m :: UnitFirst(text, source, rest, inSection, n, m)
  }

  ghost predicate UnitFirst(text: string, source: string, rest: string, inSection: bool, n: nat, m: nat)
    decreases |source|, 0
  {
    1 <= n <= |source| && m <= |text| && Unit(text[..m], source[..n], source[n..] + rest, inSection) &&
    WritesText(text[m..], source[n..], rest, inSection)
  }

  /** The names, small letters for capitals, with bars between them. */
  ghost predicate WritesNames(names: seq<string>, content: string) { exists pieces :: NamesFrom(names, pieces, content) }

  predicate NamesFrom(names: seq<string>, pieces: seq<string>, content: string) {
    pieces != [] && |pieces| == |names| && Joined(pieces, '|') == content &&
    forall i | 0 <= i < |pieces| :: '|' !in pieces[i] && Lowered(pieces[i], names[i])
  }

  ghost predicate WritesBraced(names: seq<string>, source: string, open: string) {
    |source| > |open| && source[..|open|] == open && source[|source| - 1] == '}' &&
    '}' !in source[|open|..|source| - 1] && WritesNames(names, source[|open|..|source| - 1])
  }

  /** A field of one name without braces takes in every field character there is. */
  predicate WritesBare(names: seq<string>, source: string, rest: string) {
    |source| > 1 && source[0] == '$' && (forall i | 1 <= i < |source| :: FieldChar(source[i])) && (rest == "" || !FieldChar(rest[0])) &&
    |names| == 1 && Lowered(source[1..], names[0])
  }

  ghost predicate WritesField(names: seq<string>, raw: bool, source: string, rest: string) {
    if raw then WritesBraced(names, source, "$!{") else WritesBraced(names, source, "${") || WritesBare(names, source, rest)
  }

  ghost predicate WritesPart(part: Part, source: string, rest: string, inSection: bool)
    decreases part, 0
  {
    match part
    case Literal(text) => text != "" && WritesText(text, source, rest, inSection)
    case Field(names, raw) => WritesField(names, raw, source, rest)
    case Section(inner) =>
      |source| >= 2 && source[0] == '[' && source[|source| - 1] == ']' && WritesParts(inner, source[1..|source| - 1], "]" + rest, true)
  }

  /** `source`, in front of `rest`, writes the parts one after another. */
  ghost predicate WritesParts(parts: seq<Part>, source: string, rest: string, inSection: bool)
    decreases parts, 1
  {
    if parts == [] then source == ""
    else exists k :: 0 <= k <= |source| && WritesPart(parts[0], source[..k], source[k..] + rest, inSection) &&
                     WritesParts(parts[1..], source[k..], rest, inSection)
  }

  // ----- Tokens are what the rules say ------------------------------------------------------------------

  lemma TokenUnit(s: string, inSection: bool, text: string, n: nat)
    requires s != "" && n <= |s|
    ensures NextToken(s, inSection) == (Text(text), n) <==> Unit(text, s[..n], s[n..], inSection)
  {
    hide SplitOn, Lowercase, NameLength, CloseAt;
    if n >= 1 { assert s[..n][0] == s[0] && (n == 2 ==> s[..2] == [s[0], s[1]]) && (n == 1 ==> s[..1] == [s[0]]); }
    if n < |s| { assert s[n..][0] == s[n]; }
  }

  lemma NamesExactly(names: seq<string>, content: string)
    ensures NamesOf(content) == names <==> WritesNames(names, content)
  {
    hide SplitOn, Joined, Lowercase, Lowered;
    var pieces := SplitOn(content, '|');
    SplitJoined(content, '|');
    if NamesOf(content) == names {
      forall i | 0 <= i < |pieces|
        ensures Lowered(pieces[i], names[i])
      {
        LowercaseExactly(pieces[i], names[i]);
      }
      assert NamesFrom(names, pieces, content);
    }
    if WritesNames(names, content) {
      var qs :| NamesFrom(names, qs, content);
      SplitUnique(qs, '|');
      forall i | 0 <= i < |qs|
        ensures names[i] == Lowercase(qs[i])
      {
        LowercaseExactly(qs[i], names[i]);
      }
      assert NamesOf(content) == names;
    }
  }

  lemma BodySlice(s: string, skip: nat, i: nat)
    requires skip + i < |s|
    ensures var whole := s[..skip + i + 1];
            whole[skip..skip + i] == s[skip..][..i] == s[skip..skip + i] && whole[..skip] == s[..skip] &&
            whole[skip + i] == s[skip..][i] && (forall j | 0 <= j < i :: s[skip..][..i][j] == s[skip..][j])
  {
  }

  lemma BracedExactly(s: string, skip: nat, open: string, names: seq<string>, raw: bool, n: nat)
    requires skip == |open| <= |s| && s[..skip] == open && n <= |s|
    ensures BracedField(s, skip, raw) == (FieldToken(names, raw), n) <==> WritesBraced(names, s[..n], open)
  {
    hide NamesOf, WritesNames, CloseAt;
    var content := s[skip..];
    if BracedField(s, skip, raw) == (FieldToken(names, raw), n) {
      var i := CloseAt(content).value;
      BodySlice(s, skip, i);
      NamesExactly(names, content[..i]);
    }
    if WritesBraced(names, s[..n], open) {
      var i := n - 1 - skip;
      BodySlice(s, skip, i);
      CloseUnique(content, i) by {
        assert forall j | 0 <= j < i :: content[j] == content[..i][j];
      }
      NamesExactly(names, content[..i]);
    }
  }

  lemma CloseUnique(s: string, i: nat)
    requires i < |s| && s[i] == '}' && forall j | 0 <= j < i :: s[j] != '}'
    ensures CloseAt(s) == Some(i)
  {
    assert '}' in s;
  }

  lemma NameLengthUnique(s: string, n: nat)
    requires n <= |s| && (forall i | 0 <= i < n :: FieldChar(s[i])) && (n < |s| ==> !FieldChar(s[n]))
    ensures NameLength(s) == n
  {
  }

  lemma BareExactly(s: string, names: seq<string>, n: nat)
    requires |s| > 1 && s[0] == '$' && FieldChar(s[1]) && n <= |s|
    ensures (FieldToken([Lowercase(s[1..1 + NameLength(s[1..])])], false), 1 + NameLength(s[1..])) == (FieldToken(names, false), n) <==>
            WritesBare(names, s[..n], s[n..])
  {
    hide Lowercase, Lowered;
    var body := s[1..];
    var len := NameLength(body);
    BareLength(s, n);
    if n == 1 + len {
      assert s[..n][1..] == s[1..n] == body[..len];
      OneName(names, s[1..n]);
    }
  }

  lemma OneName(names: seq<string>, source: string)
    ensures names == [Lowercase(source)] <==> |names| == 1 && Lowered(source, names[0])
  {
    hide Lowercase, Lowered;
    LowercaseExactly(source, Lowercase(source));
    if |names| == 1 {
      LowercaseExactly(source, names[0]);
      assert names == [names[0]];
    }
  }

  /** A bare field ends where its field characters do. */
  lemma BareLength(s: string, n: nat)
    requires |s| > 1 && s[0] == '$' && FieldChar(s[1]) && n <= |s|
    ensures n == 1 + NameLength(s[1..]) <==>
            n > 1 && (forall i | 1 <= i < n :: FieldChar(s[..n][i])) && (n == |s| || !FieldChar(s[n..][0]))
  {
    var body := s[1..];
    assert body[0] == s[1];
    assert forall i | 1 <= i < |s| :: s[i] == body[i - 1];
    if n > 1 && (forall i | 1 <= i < n :: FieldChar(s[..n][i])) && (n == |s| || !FieldChar(s[n..][0])) {
      forall i | 0 <= i < n - 1
        ensures FieldChar(body[i])
      {
        assert s[..n][i + 1] == body[i];
      }
      NameLengthUnique(body, n - 1);
    }
  }

  lemma TokenField(s: string, inSection: bool, names: seq<string>, raw: bool, n: nat)
    requires s != "" && n <= |s|
    ensures NextToken(s, inSection) == (FieldToken(names, raw), n) <==> WritesField(names, raw, s[..n], s[n..])
  {
    hide BracedField, WritesBraced, WritesBare, Lowercase, NameLength;
    if |s| > 1 && s[0] == '$' && s[1] == '{' {
      assert s[..2] == "${";
      assert NextToken(s, inSection) == BracedField(s, 2, false);
      BracedExactly(s, 2, "${", names, false, n);
      BracedRaw(s, 2, false);
      NotBraced(s[..n], "$!{", names) by { OtherOpening(s, n, "$!{"); }
      NotBare(s, n, names);
    } else if |s| > 2 && s[0] == '$' && s[1] == '!' && s[2] == '{' {
      assert s[..3] == "$!{";
      assert NextToken(s, inSection) == BracedField(s, 3, true);
      BracedExactly(s, 3, "$!{", names, true, n);
      BracedRaw(s, 3, true);
      NotBraced(s[..n], "${", names) by { OtherOpening(s, n, "${"); }
      NotBare(s, n, names);
    } else {
      NotBraced(s[..n], "$!{", names) by { OtherOpening(s, n, "$!{"); }
      NotBraced(s[..n], "${", names) by { OtherOpening(s, n, "${"); }
      if |s| > 1 && s[0] == '$' && FieldChar(s[1]) { BareExactly(s, names, n); } else { NotBare(s, n, names); }
    }
  }

  lemma BracedRaw(s: string, skip: nat, raw: bool)
    requires skip <= |s|
    ensures BracedField(s, skip, raw).0.FieldToken? ==> BracedField(s, skip, raw).0.raw == raw
  {
  }

  predicate Opens(s: string, open: string) { |open| <= |s| && s[..|open|] == open }

  lemma OtherOpening(s: string, n: nat, open: string)
    requires n <= |s| && !Opens(s, open)
    ensures !Opens(s[..n], open)
  {
    if |open| <= n { assert s[..n][..|open|] == s[..|open|]; }
  }

  lemma NotBraced(source: string, open: string, names: seq<string>)
    requires !Opens(source, open)
    ensures !WritesBraced(names, source, open)
  {
  }

  lemma NotBare(s: string, n: nat, names: seq<string>)
    requires n <= |s| && !(|s| > 1 && s[0] == '$' && FieldChar(s[1]))
    ensures !WritesBare(names, s[..n], s[n..])
  {
    if 1 < n { assert s[..n][1] == s[1] && s[..n][0] == s[0]; }
  }

  lemma TokenBracket(s: string, inSection: bool)
    requires s != ""
    ensures NextToken(s, inSection) == (Open, 1) <==> s[0] == '['
    ensures NextToken(s, inSection) == (Close, 1) <==> s[0] == ']' && inSection
    ensures NextToken(s, inSection).0.Open? ==> NextToken(s, inSection).1 == 1
  {
    hide SplitOn, Lowercase, NameLength, CloseAt;
  }

  // ----- Putting sources together ---------------------------------------------------------------------

  lemma UnitNonempty(text: string, u: string, rest: string, inSection: bool)
    requires Unit(text, u, rest, inSection)
    ensures text != "" && u != ""
  {
  }

  lemma {:induction false} TextConcat(a: string, p: string, b: string, q: string, rest: string, inSection: bool)
    requires WritesText(a, p, q + rest, inSection) && WritesText(b, q, rest, inSection)
    ensures WritesText(a + b, p + q, rest, inSection)
    decreases |p|
  {
    hide Unit;
    if p == "" {
      assert a + b == b && p + q == q;
    } else {
      var n: nat, m: nat :| UnitFirst(a, p, q + rest, inSection, n, m);
      TextConcat(a[m..], p[n..], b, q, rest, inSection);
      assert (a + b)[..m] == a[..m] && (a + b)[m..] == a[m..] + b;
      assert (p + q)[..n] == p[..n] && (p + q)[n..] == p[n..] + q;
      assert p[n..] + (q + rest) == p[n..] + q + rest;
      assert UnitFirst(a + b, p + q, rest, inSection, n, m);
    }
  }

  lemma OneUnit(text: string, u: string, rest: string, inSection: bool)
    requires Unit(text, u, rest, inSection)
    ensures WritesText(text, u, rest, inSection)
  {
    UnitNonempty(text, u, rest, inSection);
    hide Unit;
    assert text[..|text|] == text && text[|text|..] == "" && u[..|u|] == u && u[|u|..] == "" && "" + rest == rest;
    assert UnitFirst(text, u, rest, inSection, |u|, |text|);
  }

  lemma EmptyText(source: string, rest: string, inSection: bool)
    requires WritesText("", source, rest, inSection)
    ensures source == ""
  {
    if source != "" {
      forall n: nat, m: nat
        ensures !UnitFirst("", source, rest, inSection, n, m)
      {
        if 1 <= n <= |source| && m == 0 { NoEmptyUnit(source[..n], source[n..] + rest, inSection); }
      }
    }
  }

  lemma NoEmptyUnit(u: string, rest: string, inSection: bool)
    ensures !Unit("", u, rest, inSection)
  {
  }

  lemma PartsCons(part: Part, piece: string, parts: seq<Part>, more: string, rest: string, inSection: bool)
    requires WritesPart(part, piece, more + rest, inSection) && WritesParts(parts, more, rest, inSection)
    ensures WritesParts([part] + parts, piece + more, rest, inSection)
  {
    hide WritesPart;
    var source := piece + more;
    assert source[..|piece|] == piece && source[|piece|..] == more;
    assert ([part] + parts)[1..] == parts && ([part] + parts)[0] == part;
  }

  /** A pending literal can be closed off in front of anything. */
  lemma PartsFlush(literal: string, source: string, parts: seq<Part>, more: string, rest: string, inSection: bool)
    requires WritesText(literal, source, more + rest, inSection) && WritesParts(parts, more, rest, inSection)
    ensures WritesParts(Flush(literal) + parts, source + more, rest, inSection)
  {
    hide WritesParts, WritesText;
    if literal == "" {
      EmptyText(source, more + rest, inSection);
      assert source + more == more && Flush(literal) + parts == parts;
    } else {
      LiteralPart(literal, source, more + rest, inSection);
      PartsCons(Literal(literal), source, parts, more, rest, inSection);
    }
  }

  lemma LiteralPart(text: string, source: string, rest: string, inSection: bool)
    requires text != "" && WritesText(text, source, rest, inSection)
    ensures WritesPart(Literal(text), source, rest, inSection)
  {
    hide WritesText;
  }

  // ----- What is parsed was written --------------------------------------------------------------------

  /** How much of `s` its parts take: all but the rest and the closing bracket. */
  function Taken(s: string, depth: nat, rest: string): int { |s| - |rest| - if depth > 0 then 1 else 0 }

  /** What a successful parse of `s` after a pending literal has read. */
  ghost predicate Accounted(s: string, depth: nat, parts: seq<Part>, rest: string, source: string) {
    var k := Taken(s, depth, rest);
    0 <= k <= |s| && (if depth > 0 then k < |s| && s[k] == ']' && rest == s[k + 1..] else rest == "") &&
    WritesParts(parts, source + s[..k], s[k..], depth > 0)
  }

  lemma SliceBehind(s: string, n: nat, k: nat)
    requires n + k <= |s|
    ensures s[..n] + s[n..][..k] == s[..n + k] && s[n..][k..] == s[n + k..]
    ensures s[n..][..k] + s[n + k..] == s[n..] && s[..n + k] + s[n + k..] == s
    ensures n + k < |s| ==> s[n..][k] == s[n + k] && s[n..][k + 1..] == s[n + k + 1..]
  {
  }

  /** Adding a piece in front of what was accounted for. */
  lemma AccountedMore(s: string, n: nat, depth: nat, parts: seq<Part>, rest: string, literal: string, source: string, part: Part)
    requires n <= |s| && Accounted(s[n..], depth, parts, rest, "")
    requires WritesText(literal, source, s, depth > 0) && WritesPart(part, s[..n], s[n..], depth > 0)
    ensures Accounted(s, depth, Flush(literal) + [part] + parts, rest, source)
  {
    hide WritesParts, WritesPart, WritesText, Flush;
    var k := Taken(s[n..], depth, rest);
    var more, after := s[n..][..k], s[n + k..];
    assert Taken(s, depth, rest) == n + k && "" + more == more;
    SliceBehind(s, n, k);
    PartsCons(part, s[..n], parts, more, after, depth > 0);
    PartsFlush(literal, source, [part] + parts, s[..n + k], after, depth > 0);
    assert Flush(literal) + ([part] + parts) == Flush(literal) + [part] + parts;
  }

  /** A literal takes in one more unit. */
  lemma AccountedText(s: string, n: nat, depth: nat, parts: seq<Part>, rest: string, source: string)
    requires n <= |s| && Accounted(s[n..], depth, parts, rest, source + s[..n])
    ensures Accounted(s, depth, parts, rest, source)
  {
    hide WritesParts;
    var k := Taken(s[n..], depth, rest);
    SliceBehind(s, n, k);
    assert (source + s[..n]) + s[n..][..k] == source + s[..n + k];
  }

  lemma AccountedEnd(s: string, depth: nat, literal: string, source: string)
    requires WritesText(literal, source, s, depth > 0)
    requires if depth > 0 then s != "" && s[0] == ']' else s == ""
    ensures Accounted(s, depth, Flush(literal), if depth > 0 then s[1..] else s, source)
  {
    hide WritesText, WritesPart;
    assert WritesParts([], "", s, depth > 0);
    assert "" + s == s;
    PartsFlush(literal, source, [], "", s, depth > 0);
    assert Flush(literal) + [] == Flush(literal);
    assert source + s[..0] == source + "" && s[0..] == s;
  }

  lemma TextGrows(s: string, depth: nat, literal: string, source: string)
    requires s != "" && NextToken(s, depth > 0).0.Text? && WritesText(literal, source, s, depth > 0)
    ensures var (token, n) := NextToken(s, depth > 0);
            WritesText(literal + token.text, source + s[..n], s[n..], depth > 0)
  {
    hide NextToken, WritesText, Unit;
    var (token, n) := NextToken(s, depth > 0);
    TokenUnit(s, depth > 0, token.text, n);
    OneUnit(token.text, s[..n], s[n..], depth > 0);
    assert s[..n] + s[n..] == s;
    TextConcat(literal, source, token.text, s[..n], s[n..], depth > 0);
  }

  lemma SectionPart(s: string, depth: nat, inner: seq<Part>, rest: string)
    requires s != "" && s[0] == '[' && Accounted(s[1..], depth + 1, inner, rest, "")
    ensures var n := |s| - |rest|; 2 <= n <= |s| && s[n..] == rest && WritesPart(Section(inner), s[..n], rest, depth > 0)
  {
    hide WritesParts, WritesPart, Accounted;
    var inside := s[1..];
    assert s == "[" + inside;
    var k := Inside(inside, depth, inner, rest);
    Bracketed(s, inside, k);
    SectionWritten(inner, inside[..k], rest, depth > 0);
  }

  lemma Inside(t: string, depth: nat, inner: seq<Part>, rest: string) returns (k: nat)
    requires Accounted(t, depth + 1, inner, rest, "")
    ensures |t| == k + 1 + |rest| && t[k] == ']' && rest == t[k + 1..] && WritesParts(inner, t[..k], "]" + rest, true)
  {
    hide WritesParts;
    k := Taken(t, depth + 1, rest);
    assert "" + t[..k] == t[..k] && t[k..] == "]" + rest;
  }

  /** A section's text is its inside between brackets. */
  lemma Bracketed(s: string, inside: string, k: nat)
    requires k < |inside| && s == "[" + inside && inside[k] == ']'
    ensures s[..k + 2] == "[" + inside[..k] + "]" && s[k + 2..] == inside[k + 1..]
  {
  }

  lemma SectionWritten(inner: seq<Part>, mid: string, rest: string, inSection: bool)
    requires WritesParts(inner, mid, "]" + rest, true)
    ensures WritesPart(Section(inner), "[" + mid + "]", rest, inSection)
  {
    hide WritesParts;
    var source := "[" + mid + "]";
    assert source[1..|source| - 1] == mid;
  }

  lemma {:induction false} ParseWrites(s: string, depth: nat, literal: string, source: string)
    requires WritesText(literal, source, s, depth > 0)
    ensures var r := Parse(s, depth, literal);
            r.Ok? ==> Accounted(s, depth, r.value.parts, r.value.rest, source)
    decreases |s|, 1
  {
    hide NextToken, WritesText, WritesPart, WritesParts, Accounted, Flush, Parse;
    if s == "" {
      ParseEnd(depth, literal);
      if depth == 0 { AccountedEnd(s, depth, literal, source); }
    } else {
      var (token, n) := NextToken(s, depth > 0);
      ParseStep(s, depth, literal);
      TokenBracket(s, depth > 0);
      match token {
        case Bad(_) =>
        case Close => AccountedEnd(s, depth, literal, source);
        case Text(text) =>
          TextGrows(s, depth, literal, source);
          ParseWrites(s[n..], depth, literal + text, source + s[..n]);
          var r := Parse(s, depth, literal);
          if r.Ok? { AccountedText(s, n, depth, r.value.parts, r.value.rest, source); }
        case FieldToken(names, raw) =>
          TokenField(s, depth > 0, names, raw, n);
          FieldPart(names, raw, s[..n], s[n..], depth > 0);
          Continue(s, n, depth, literal, source, Field(names, raw));
        case Open =>
          if depth + 1 <= MAX_SECTION_DEPTH {
            NoText(s[1..], true);
            ParseWrites(s[1..], depth + 1, "", "");
            var inner := Parse(s[1..], depth + 1, "");
            if inner.Ok? {
              SectionPart(s, depth, inner.value.parts, inner.value.rest);
              Continue(s, |s| - |inner.value.rest|, depth, literal, source, Section(inner.value.parts));
            }
          }
      }
    }
  }

  lemma NoText(rest: string, inSection: bool)
    ensures WritesText("", "", rest, inSection)
  {
  }

  lemma FieldPart(names: seq<string>, raw: bool, source: string, rest: string, inSection: bool)
    ensures WritesField(names, raw, source, rest) <==> WritesPart(Field(names, raw), source, rest, inSection)
  {
    hide WritesField;
  }

  /** After a part has been read, parsing goes on behind it. */
  lemma {:induction false} Continue(s: string, n: nat, depth: nat, literal: string, source: string, part: Part)
    requires 1 <= n <= |s| && WritesText(literal, source, s, depth > 0) && WritesPart(part, s[..n], s[n..], depth > 0)
    ensures var tail := Parse(s[n..], depth, "");
            tail.Ok? ==> Accounted(s, depth, Flush(literal) + [part] + tail.value.parts, tail.value.rest, source)
    decreases |s|, 0
  {
    hide WritesText, WritesPart, WritesParts, Accounted, Flush, Parse;
    NoText(s[n..], depth > 0);
    ParseWrites(s[n..], depth, "", "");
    var tail := Parse(s[n..], depth, "");
    if tail.Ok? { AccountedMore(s, n, depth, tail.value.parts, tail.value.rest, literal, source, part); }
  }

  // ----- What is written is parsed ----------------------------------------------------------------------

  lemma {:induction false} TextParses(text: string, source: string, rest: string, depth: nat, literal: string)
    requires WritesText(text, source, rest, depth > 0)
    ensures Parse(source + rest, depth, literal) == Parse(rest, depth, literal + text)
    decreases |source|
  {
    hide NextToken, Unit, Parse, Flush;
    if source == "" {
      assert source + rest == rest && literal + text == literal;
    } else {
      var n: nat, m: nat :| UnitFirst(text, source, rest, depth > 0, n, m);
      var s := source + rest;
      assert s[..n] == source[..n] && s[n..] == source[n..] + rest;
      TokenUnit(s, depth > 0, text[..m], n);
      ParseStep(s, depth, literal);
      TextParses(text[m..], source[n..], rest, depth, literal + text[..m]);
      assert (literal + text[..m]) + text[m..] == literal + text;
    }
  }

  /** The end of the parts: of the text, or of the section. */
  predicate Ends(rest: string, depth: nat) { if depth > 0 then rest != "" && rest[0] == ']' else rest == "" }

  function Behind(rest: string, depth: nat): string { if depth > 0 && rest != "" then rest[1..] else "" }

  lemma EndParses(rest: string, depth: nat, literal: string)
    requires Ends(rest, depth)
    ensures Parse(rest, depth, literal) == Ok(Parsed(Flush(literal), Behind(rest, depth)))
  {
    hide NextToken, Flush, Parse;
    if depth > 0 {
      TokenBracket(rest, true);
      ParseStep(rest, depth, literal);
    } else {
      ParseEnd(depth, literal);
    }
  }

  /** Parts that can follow a pending literal. */
  predicate Separated(literal: string, parts: seq<Part>) { literal == "" || parts == [] || !parts[0].Literal? }

  ghost predicate Written(parts: seq<Part>, source: string, rest: string, depth: nat) {
    WritesParts(parts, source, rest, depth > 0) && Clean(parts) && depth + Nesting(parts) <= 64 && Ends(rest, depth)
  }

  lemma {:induction false} WrittenParses(parts: seq<Part>, source: string, rest: string, depth: nat, literal: string)
    requires Written(parts, source, rest, depth) && Separated(literal, parts)
    ensures Parse(source + rest, depth, literal) == Ok(Parsed(Flush(literal) + parts, Behind(rest, depth)))
    decreases |source|, 2
  {
    hide NextToken, Parse, Flush, WritesPart, WritesText, Ends, Behind;
    if parts == [] {
      assert source + rest == rest && Flush(literal) + parts == Flush(literal);
      EndParses(rest, depth, literal);
    } else {
      var k :| 0 <= k <= |source| && WritesPart(parts[0], source[..k], source[k..] + rest, depth > 0) &&
               WritesParts(parts[1..], source[k..], rest, depth > 0);
      PartNonempty(parts[0], source[..k], source[k..] + rest, depth > 0);
      TailWritten(parts, source[k..], rest, depth);
      PartParses(parts, source, rest, depth, literal, k);
    }
  }

  lemma PartNonempty(part: Part, source: string, rest: string, inSection: bool)
    requires WritesPart(part, source, rest, inSection)
    ensures source != ""
  {
    hide Unit, WritesNames, WritesParts;
  }

  lemma TailWritten(parts: seq<Part>, source: string, rest: string, depth: nat)
    requires parts != [] && Clean(parts) && depth + Nesting(parts) <= 64 && Ends(rest, depth)
    requires WritesParts(parts[1..], source, rest, depth > 0)
    ensures Written(parts[1..], source, rest, depth) && PartClean(parts[0]) && depth + PartDepth(parts[0]) <= 64
    ensures parts[0].Literal? ==> Separated(parts[0].text, parts[1..])
  {
    hide WritesParts;
  }

  lemma {:induction false} PartParses(parts: seq<Part>, source: string, rest: string, depth: nat, literal: string, k: nat)
    requires parts != [] && 0 < k <= |source| && Separated(literal, parts) && Ends(rest, depth)
    requires WritesPart(parts[0], source[..k], source[k..] + rest, depth > 0) && Written(parts[1..], source[k..], rest, depth)
    requires PartClean(parts[0]) && depth + PartDepth(parts[0]) <= 64 && (parts[0].Literal? ==> Separated(parts[0].text, parts[1..]))
    ensures Parse(source + rest, depth, literal) == Ok(Parsed(Flush(literal) + parts, Behind(rest, depth)))
    decreases |source|, 1
  {
    hide NextToken, Parse, WritesText, WritesField, Ends, Behind, Written, Clean;
    var s, tail := source + rest, source[k..] + rest;
    assert s[..k] == source[..k] && s[k..] == tail && source[..k] + tail == s;
    assert parts == [parts[0]] + parts[1..];
    match parts[0] {
      case Literal(text) =>
        TextParses(text, source[..k], tail, depth, literal);
        WrittenParses(parts[1..], source[k..], rest, depth, text);
        assert literal + text == text && Flush(literal) + parts == parts && Flush(text) == [parts[0]];
      case Field(names, raw) =>
        FieldPart(names, raw, source[..k], tail, depth > 0);
        TokenField(s, depth > 0, names, raw, k);
        ParseStep(s, depth, literal);
        WrittenParses(parts[1..], source[k..], rest, depth, "");
        Regroup(Flush(literal), parts);
      case Section(inner) =>
        SectionParses(inner, source[..k], tail, depth);
        TokenBracket(s, depth > 0);
        ParseStep(s, depth, literal);
        assert s[1..] == source[..k][1..] + tail;
        WrittenParses(parts[1..], source[k..], rest, depth, "");
        Regroup(Flush(literal), parts);
    }
  }

  lemma Regroup(before: seq<Part>, parts: seq<Part>)
    requires parts != []
    ensures (before + [parts[0]]) + (Flush("") + parts[1..]) == before + parts
  {
    assert Flush("") + parts[1..] == parts[1..];
  }

  lemma {:induction false} SectionParses(inner: seq<Part>, piece: string, rest: string, depth: nat)
    requires WritesPart(Section(inner), piece, rest, depth > 0) && Clean(inner) && depth + 1 + Nesting(inner) <= 64
    ensures piece != "" && Parse(piece[1..] + rest, depth + 1, "") == Ok(Parsed(inner, rest))
    decreases |piece|, 0
  {
    hide NextToken, Parse, Clean;
    var mid := piece[1..|piece| - 1];
    assert piece[1..] + rest == mid + ("]" + rest);
    assert ("]" + rest)[1..] == rest;
    WrittenParses(inner, mid, "]" + rest, depth + 1, "");
    assert Flush("") + inner == inner;
  }

  /**
    The parser is exact: a template parses to the parts that it writes, when literals are as
    long as can be, no field is without a name, and sections nest at most 64 deep; and it
    writes no other such parts.
   */
  lemma ParsesExactly(template: string, parts: seq<Part>)
    ensures Parse(template, 0, "") == Ok(Parsed(parts, "")) <==>
            WritesParts(parts, template, "", false) && Clean(parts) && Nesting(parts) <= 64
  {
    hide Parse, WritesParts, Clean, Nesting;
    if Parse(template, 0, "") == Ok(Parsed(parts, "")) {
      NoText(template, false);
      ParseWrites(template, 0, "", "");
      assert "" + template[..|template|] == template && template[|template|..] == "";
      ParseShape(template, 0, "") by { EmptyClean(); }
    }
    if WritesParts(parts, template, "", false) && Clean(parts) && Nesting(parts) <= 64 {
      WrittenParses(parts, template, "", 0, "");
      assert template + "" == template && Flush("") + parts == parts;
    }
  }

  // ----- Errors -------------------------------------------------------------------------------------------

  ghost predicate StandsForText(u: string, rest: string, inSection: bool) { exists text :: Unit(text, u, rest, inSection) }

  /** The cursor passes the first `m` characters of `s`: a unit of text, a field, or a bracket. */
  ghost predicate Passes(s: string, depth: nat, m: nat, next: nat) {
    1 <= m <= |s| &&
    ((next == depth && StandsForText(s[..m], s[m..], depth > 0)) ||
     (next == depth && exists names, raw :: WritesField(names, raw, s[..m], s[m..])) ||
     (next == depth + 1 <= 64 && m == 1 && s[0] == '[') ||
     (next + 1 == depth && m == 1 && s[0] == ']'))
  }

  /** Starting `depth` sections deep, the cursor comes to stand behind `n` characters, `d` sections deep. */
  ghost predicate Reaches(s: string, depth: nat, n: nat, d: nat)
    decreases n
  {
    n <= |s| && if n == 0 then d == depth else exists m: nat, next: nat :: Onward(s, depth, m, next, n, d)
  }

  ghost predicate Onward(s: string, depth: nat, m: nat, next: nat, n: nat, d: nat)
    decreases n, 0
  {
    1 <= m <= n <= |s| && Passes(s, depth, m, next) && Reaches(s[m..], next, n - m, d)
  }

  /** Where no parser can go on, and why. */
  predicate Stops(s: string, depth: nat, e: TemplateError) {
    match e
    case NestingTooDeep(limit) => s != "" && s[0] == '[' && limit == depth == 64
    case ControlByte(b) => s != "" && s[0] as int == b < 0x20
    case UnterminatedField => (Opens(s, "${") || Opens(s, "$!{")) && '}' !in s
    case UnclosedSection => s == "" && depth > 0
  }

  ghost predicate StopsAt(s: string, depth: nat, n: nat, d: nat, e: TemplateError) { Reaches(s, depth, n, d) && Stops(s[n..], d, e) }

  /** A parse comes out of its section behind what it took, or stops at an error. */
  ghost predicate Traced(s: string, depth: nat, r: Result<Parsed, TemplateError>) {
    match r
    case Ok(p) => depth > 0 ==> |p.rest| < |s| && s[|s| - |p.rest|..] == p.rest && Reaches(s, depth, |s| - |p.rest|, depth - 1)
    case Err(e) => exists n: nat, d: nat :: StopsAt(s, depth, n, d, e)
  }

  lemma {:induction false} ReachesMore(s: string, depth: nat, n: nat, d: nat, k: nat, end: nat)
    requires Reaches(s, depth, n, d) && Reaches(s[n..], d, k, end)
    ensures Reaches(s, depth, n + k, end)
    decreases n
  {
    hide Passes;
    if n > 0 {
      var m: nat, next: nat :| Onward(s, depth, m, next, n, d);
      assert s[m..][n - m..] == s[n..];
      ReachesMore(s[m..], next, n - m, d, k, end);
      assert Onward(s, depth, m, next, n + k, end);
    } else {
      assert s[n..] == s;
    }
  }

  lemma Passed(s: string, depth: nat, m: nat, next: nat)
    requires Passes(s, depth, m, next)
    ensures Reaches(s, depth, m, next)
  {
    assert Reaches(s[m..], next, 0, next);
    assert Onward(s, depth, m, next, m, next);
  }

  /** What is traced behind a reached place is traced from the start. */
  lemma TracedBehind(s: string, depth: nat, n: nat, d: nat, r: Result<Parsed, TemplateError>, out: Result<Parsed, TemplateError>)
    requires Reaches(s, depth, n, d) && Traced(s[n..], d, r)
    requires if r.Err? then out == r else out.Ok? && out.value.rest == r.value.rest && d == depth
    ensures Traced(s, depth, out)
  {
    hide Reaches, Stops;
    ReachesWithin(s, depth, n, d);
    if r.Err? {
      var k: nat, end: nat :| StopsAt(s[n..], d, k, end, r.error);
      ReachesWithin(s[n..], d, k, end);
      assert s[n..][k..] == s[n + k..];
      ReachesMore(s, depth, n, d, k, end);
      assert StopsAt(s, depth, n + k, end, r.error);
    } else if depth > 0 {
      var k := |s[n..]| - |r.value.rest|;
      assert s[n..][k..] == s[n + k..];
      ReachesMore(s, depth, n, d, k, depth - 1);
    }
  }

  lemma ReachesWithin(s: string, depth: nat, n: nat, d: nat)
    requires Reaches(s, depth, n, d)
    ensures n <= |s|
  {
  }

  lemma StopsHere(s: string, depth: nat, e: TemplateError)
    requires Stops(s, depth, e)
    ensures Traced(s, depth, Err(e))
  {
    hide Stops;
    assert s[0..] == s;
    assert StopsAt(s, depth, 0, depth, e);
  }

  lemma BadToken(s: string, depth: nat)
    requires s != "" && NextToken(s, depth > 0).0.Bad?
    ensures Stops(s, depth, NextToken(s, depth > 0).0.error)
  {
    hide NamesOf, Lowercase, NameLength, CloseAt;
    if s[0] == '$' {
      assert |s| > 1;
      if s[1] == '{' {
        BadBrace(s, 2, false);
        assert s[..2] == "${";
      } else {
        assert s[1] == '!' && |s| > 2 && s[2] == '{';
        BadBrace(s, 3, true);
        assert s[..3] == "$!{";
      }
    }
  }

  lemma BadBrace(s: string, skip: nat, raw: bool)
    requires skip <= |s| && BracedField(s, skip, raw).0.Bad? && forall i | 0 <= i < skip :: s[i] != '}'
    ensures BracedField(s, skip, raw).0.error == UnterminatedField && '}' !in s
  {
    forall i | 0 <= i < |s|
      ensures s[i] != '}'
    {
      if i >= skip { assert s[i] == s[skip..][i - skip]; }
    }
  }

  /** A token that is no error lets the cursor pass. */
  lemma TokenPasses(s: string, depth: nat)
    requires s != ""
    ensures var (token, n) := NextToken(s, depth > 0);
            match token
            case Bad(_) => true
            case Close => Passes(s, depth, 1, depth - 1) && n == 1
            case Open => n == 1 && (depth < 64 ==> Passes(s, depth, 1, depth + 1)) && s[0] == '['
            case _ => Passes(s, depth, n, depth)
  {
    hide NextToken, Unit, WritesField;
    var (token, n) := NextToken(s, depth > 0);
    TokenBracket(s, depth > 0);
    match token {
      case Text(text) => TokenUnit(s, depth > 0, text, n);
      case FieldToken(names, raw) => TokenField(s, depth > 0, names, raw, n);
      case _ =>
    }
  }

  lemma {:induction false} ParseTraced(s: string, depth: nat, literal: string)
    requires depth <= 64
    ensures Traced(s, depth, Parse(s, depth, literal))
    decreases |s|, 1
  {
    hide NextToken, Parse, Traced, Reaches, Passes, Stops;
    if s == "" {
      ParseEnd(depth, literal);
      Ended(s, depth, literal);
    } else {
      ParseStep(s, depth, literal);
      TokenPasses(s, depth);
      var (token, n) := NextToken(s, depth > 0);
      match token {
        case Bad(e) =>
          BadToken(s, depth);
          StopsHere(s, depth, e);
        case Close => Closed(s, depth, literal);
        case Text(text) => TracedOn(s, depth, n, depth, literal + text, Parse(s, depth, literal));
        case FieldToken(_, _) => TracedOn(s, depth, n, depth, "", Parse(s, depth, literal));
        case Open =>
          if depth == 64 {
            TooDeep(s);
          } else {
            var inner := Parse(s[1..], depth + 1, "");
            if inner.Err? {
              TracedOn(s, depth, 1, depth + 1, "", inner);
            } else {
              SectionTraced(s, depth, literal, inner.value);
            }
          }
      }
    }
  }

  lemma Ended(s: string, depth: nat, literal: string)
    requires s == ""
    ensures Traced(s, depth, if depth > 0 then Err(UnclosedSection) else Ok(Parsed(Flush(literal), "")))
  {
    if depth > 0 { StopsHere(s, depth, UnclosedSection); }
  }

  lemma TooDeep(s: string)
    requires s != "" && s[0] == '['
    ensures Traced(s, 64, Err(NestingTooDeep(64)))
  {
    StopsHere(s, 64, NestingTooDeep(64));
  }

  lemma Closed(s: string, depth: nat, literal: string)
    requires depth > 0 && Passes(s, depth, 1, depth - 1)
    ensures Traced(s, depth, Ok(Parsed(Flush(literal), s[1..])))
  {
    Passed(s, depth, 1, depth - 1);
  }

  lemma {:induction false} TracedOn(s: string, depth: nat, n: nat, d: nat, literal: string, out: Result<Parsed, TemplateError>)
    requires Passes(s, depth, n, d) && d <= 64 && 1 <= n <= |s|
    requires var r := Parse(s[n..], d, literal);
             if r.Err? then out == r else out.Ok? && out.value.rest == r.value.rest && d == depth
    ensures Traced(s, depth, out)
    decreases |s|, 0
  {
    hide Parse, Traced, Reaches, Passes;
    ParseTraced(s[n..], d, literal);
    Passed(s, depth, n, d);
    TracedBehind(s, depth, n, d, Parse(s[n..], d, literal), out);
  }

  lemma {:induction false} SectionTraced(s: string, depth: nat, literal: string, inner: Parsed)
    requires s != "" && Passes(s, depth, 1, depth + 1) && depth < 64 && Parse(s[1..], depth + 1, "") == Ok(inner)
    requires Parse(s, depth, literal) == Then(Flush(literal) + [Section(inner.parts)], Parse(inner.rest, depth, ""))
    ensures Traced(s, depth, Parse(s, depth, literal))
    decreases |s|, 0
  {
    hide Parse, Reaches, Passes, Stops;
    ParseTraced(s[1..], depth + 1, "");
    Passed(s, depth, 1, depth + 1);
    var k := |s[1..]| - |inner.rest|;
    ReachesMore(s, depth, 1, depth + 1, k, depth);
    assert s[1 + k..] == s[1..][k..] == inner.rest;
    ParseTraced(inner.rest, depth, "");
    TracedBehind(s, depth, 1 + k, depth, Parse(inner.rest, depth, ""), Parse(s, depth, literal));
  }

  /** `Template::parse`: the parts that the template writes when there are any, or why and where the cursor stops. */
  method ParseTemplate(template: string) returns (r: Result<seq<Part>, TemplateError>)
    ensures r.Ok? ==> WritesParts(r.value, template, "", false) && Clean(r.value) && Nesting(r.value) <= 64
    ensures forall parts | WritesParts(parts, template, "", false) && Clean(parts) && Nesting(parts) <= 64 :: r == Ok(parts)
    ensures r.Err? ==> exists n: nat, d: nat :: StopsAt(template, 0, n, d, r.error)
  {
    hide Parse, WritesParts, Clean, Nesting, StopsAt;
    var pos;
    r, pos := ParseParts(template, 0, 0);
    assert template[0..] == template;
    TopConsumesAll(template, "");
    if r.Ok? { ParsesExactly(template, r.value); } else { ParseTraced(template, 0, ""); }
    forall parts | WritesParts(parts, template, "", false) && Clean(parts) && Nesting(parts) <= 64
      ensures r == Ok(parts)
    {
      ParsesExactly(template, parts);
    }
  }
}
