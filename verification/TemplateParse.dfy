/** Parsing path templates: the cursor loop, and the shape of what it makes. */
module TemplateParse {
  import opened Outcomes
  import opened Names
  import opened Templates

  const MAX_SECTION_DEPTH: nat := 64

  datatype TemplateError = NestingTooDeep(limit: nat) | ControlByte(byte: nat) | UnterminatedField | UnclosedSection

  predicate FieldChar(c: char) { 'a' <= c <= 'z' || 'A' <= c <= 'Z' || '0' <= c <= '9' || c == '_' }

  function LowerAll(names: seq<string>): seq<string> { seq(|names|, i requires 0 <= i < |names| => Lowercase(names[i])) }

  /** The candidate names of a braced field. */
  function NamesOf(content: string): seq<string> { LowerAll(SplitOn(content, '|')) }

  /** Length of the longest prefix of field characters. */
  function NameLength(s: string): (n: nat)
    ensures n <= |s| && (forall i | 0 <= i < n :: FieldChar(s[i])) && (n < |s| ==> !FieldChar(s[n]))
  {
    if s == "" || !FieldChar(s[0]) then 0 else 1 + NameLength(s[1..])
  }

  /** Index of the first `}`, if any. */
  function CloseAt(s: string): (r: Option<nat>)
    ensures r.Some? ==> r.value < |s| && s[r.value] == '}' && forall i | 0 <= i < r.value :: s[i] != '}'
    ensures r.None? ==> '}' !in s
  {
    if s == "" then None
    else if s[0] == '}' then Some(0)
    else match CloseAt(s[1..]) case None => None case Some(i) => Some(i + 1)
  }

  // ----- One step of the lexer ---------------------------------------------------------------

  /** What the template says next, and how many characters that takes. */
  datatype Token = Close | Open | Text(text: string) | FieldToken(names: seq<string>, raw: bool) | Bad(error: TemplateError)

  function BracedField(s: string, skip: nat, raw: bool): (Token, nat)
    requires skip <= |s|
  {
    match CloseAt(s[skip..])
    case None => (Bad(UnterminatedField), |s|)
    case Some(i) => (FieldToken(NamesOf(s[skip..skip + i]), raw), skip + i + 1)
  }

  function Dollar(s: string): (Token, nat)
    requires s != "" && s[0] == '$'
  {
    if |s| == 1 then (Text("$"), 1)
    else if s[1] == '[' then (Text("["), 2)
    else if s[1] == ']' then (Text("]"), 2)
    else if s[1] == '{' then BracedField(s, 2, false)
    else if s[1] == '!' then (if |s| > 2 && s[2] == '{' then BracedField(s, 3, true) else (Text("$!"), 2))
    else if FieldChar(s[1]) then (FieldToken([Lowercase(s[1..1 + NameLength(s[1..])])], false), 1 + NameLength(s[1..]))
    else (Text("$"), 1)
  }

  function NextToken(s: string, inSection: bool): (r: (Token, nat))
    requires s != ""
    ensures 1 <= r.1 <= |s| && (r.0.Close? ==> inSection && s[0] == ']' && r.1 == 1)
  {
    if s[0] == ']' && inSection then (Close, 1)
    else if s[0] == '[' then (Open, 1)
    else if s[0] == '$' then Dollar(s)
    else if Control(s[0]) then (Bad(ControlByte(s[0] as nat)), 1)
    else (Text([s[0]]), 1)
  }

  // ----- The grammar --------------------------------------------------------------------------

  function Flush(literal: string): seq<Part> { if literal == "" then [] else [Literal(literal)] }

  datatype Parsed = Parsed(parts: seq<Part>, rest: string)

  /** Parts up to the closing bracket of a section, or to the end at the top level; `literal` is the text pending. */
  function Parse(s: string, depth: nat, literal: string): (r: Result<Parsed, TemplateError>)
    ensures r.Ok? ==> |r.value.rest| <= |s| && (depth > 0 ==> |r.value.rest| < |s|)
    decreases |s|
  {
    if s == "" then if depth > 0 then Err(UnclosedSection) else Ok(Parsed(Flush(literal), ""))
    else
      var (token, n) := NextToken(s, depth > 0);
      match token
      case Bad(e) => Err(e)
      case Close => Ok(Parsed(Flush(literal), s[n..]))
      case Text(text) => Parse(s[n..], depth, literal + text)
      case FieldToken(names, raw) =>
        var tail := Parse(s[n..], depth, "");
        if tail.Err? then tail else Ok(Parsed(Flush(literal) + [Field(names, raw)] + tail.value.parts, tail.value.rest))
      case Open =>
        if depth + 1 > MAX_SECTION_DEPTH then Err(NestingTooDeep(MAX_SECTION_DEPTH))
        else
          var inner := Parse(s[n..], depth + 1, "");
          if inner.Err? then inner
          else
            var tail := Parse(inner.value.rest, depth, "");
            if tail.Err? then tail
            else Ok(Parsed(Flush(literal) + [Section(inner.value.parts)] + tail.value.parts, tail.value.rest))
  }

  // ----- The parser -----------------------------------------------------------------------------

  /** Parts already made, followed by the outcome of parsing on. */
  function Then(parts: seq<Part>, r: Result<Parsed, TemplateError>): Result<Parsed, TemplateError> {
    if r.Err? then r else Ok(Parsed(parts + r.value.parts, r.value.rest))
  }

  lemma ThenMore(parts: seq<Part>, more: seq<Part>, r: Result<Parsed, TemplateError>)
    ensures Then(parts, Then(more, r)) == Then(parts + more, r)
  {
    if r.Ok? { assert parts + (more + r.value.parts) == (parts + more) + r.value.parts; }
  }

  /** One token's worth of parsing. */
  lemma ParseStep(s: string, depth: nat, literal: string)
    requires s != ""
    ensures var (token, n) := NextToken(s, depth > 0);
            Parse(s, depth, literal) ==
            match token
            case Bad(e) => Err(e)
            case Close => Ok(Parsed(Flush(literal), s[n..]))
            case Text(text) => Parse(s[n..], depth, literal + text)
            case FieldToken(names, raw) => Then(Flush(literal) + [Field(names, raw)], Parse(s[n..], depth, ""))
            case Open =>
              if depth + 1 > MAX_SECTION_DEPTH then Err(NestingTooDeep(MAX_SECTION_DEPTH))
              else
                var inner := Parse(s[n..], depth + 1, "");
                if inner.Err? then inner
                else Then(Flush(literal) + [Section(inner.value.parts)], Parse(inner.value.rest, depth, ""))
  {
    hide NextToken;
  }

  lemma ParseEnd(depth: nat, literal: string)
    ensures Parse("", depth, literal) == if depth > 0 then Err(UnclosedSection) else Ok(Parsed(Flush(literal), ""))
  {
  }

  lemma ThenDone(parts: seq<Part>, flushed: seq<Part>, rest: string)
    ensures Then(parts, Ok(Parsed(flushed, rest))) == Ok(Parsed(parts + flushed, rest))
    ensures forall e: TemplateError :: Then(parts, Err(e)) == Err(e)
  {
  }

  lemma ThenNothing(r: Result<Parsed, TemplateError>)
    ensures Then([], r) == r
  {
    if r.Ok? { assert [] + r.value.parts == r.value.parts; }
  }

  lemma Appended(before: seq<Part>, flushed: seq<Part>, part: Part)
    ensures (before + flushed) + [part] == before + (flushed + [part])
  {
  }

  method PushLiteral(parts: seq<Part>, literal: string) returns (more: seq<Part>)
    ensures more == parts + Flush(literal)
  {
    more := parts;
    if literal != "" {
      more := more + [Literal(literal)];
    }
  }

  function Shifted(r: Option<nat>, n: nat): Option<nat> { if r.Some? then Some(r.value + n) else None }

  lemma CloseStep(s: string, pos: nat)
    requires pos < |s|
    ensures CloseAt(s[pos..]) == if s[pos] == '}' then Some(0) else Shifted(CloseAt(s[pos + 1..]), 1)
  {
    assert s[pos..][1..] == s[pos + 1..];
  }

  /** Read names up to the closing brace; `pos` ends behind it. */
  method ParseBracedNames(s: string, from: nat) returns (r: Result<seq<string>, TemplateError>, pos: nat)
    requires from <= |s|
    ensures r == match CloseAt(s[from..]) case None => Err(UnterminatedField) case Some(i) => Ok(NamesOf(s[from..from + i]))
    ensures CloseAt(s[from..]).Some? ==> pos == from + CloseAt(s[from..]).value + 1 <= |s|
  {
    hide NamesOf, CloseAt;
    var content := "";
    pos := from;
    while pos < |s|
      invariant from <= pos <= |s| && content == s[from..pos]
      invariant CloseAt(s[from..]) == Shifted(CloseAt(s[pos..]), pos - from)
    {
      var c := s[pos];
      CloseStep(s, pos);
      pos := pos + 1;
      if c == '}' {
        return Ok(NamesOf(content)), pos;
      }
      content := content + [c];
    }
    return Err(UnterminatedField), pos;
  }

  method ParseUnbracedName(s: string, from: nat) returns (name: string, pos: nat)
    requires from <= |s|
    ensures pos == from + NameLength(s[from..]) && name == Lowercase(s[from..pos])
  {
    pos := from;
    while pos < |s| && FieldChar(s[pos])
      invariant from <= pos <= |s| && NameLength(s[from..]) == NameLength(s[pos..]) + (pos - from)
    {
      assert s[pos..][1..] == s[pos + 1..];
      pos := pos + 1;
    }
    name := Lowercase(s[from..pos]);
  }

  /** The character cursor's view of one token. */
  method TakeToken(s: string, at: nat, inSection: bool) returns (token: Token, pos: nat)
    requires at < |s|
    ensures (token, pos - at) == NextToken(s[at..], inSection) && at < pos <= |s|
  {
    hide NamesOf, Lowercase;
    var rest := s[at..];
    var c := s[at];
    if c == ']' && inSection {
      return Close, at + 1;
    }
    if c == '[' {
      return Open, at + 1;
    }
    if c != '$' {
      if Control(c) {
        return Bad(ControlByte(c as nat)), at + 1;
      }
      return Text([c]), at + 1;
    }
    if at + 1 == |s| {
      return Text("$"), at + 1;
    }
    var next := s[at + 1];
    assert next == rest[1];
    if next == '[' || next == ']' {
      return Text([next]), at + 2;
    }
    if next == '{' {
      token, pos := TakeBraced(s, at, 2, false);
      return;
    }
    if next == '!' {
      if at + 2 < |s| && s[at + 2] == '{' {
        token, pos := TakeBraced(s, at, 3, true);
        return;
      }
      return Text("$!"), at + 2;
    }
    if FieldChar(next) {
      var name;
      assert rest[1..] == s[at + 1..];
      name, pos := ParseUnbracedName(s, at + 1);
      assert rest[1..1 + NameLength(rest[1..])] == s[at + 1..pos];
      return FieldToken([name], false), pos;
    }
    return Text("$"), at + 1;
  }

  method TakeBraced(s: string, at: nat, skip: nat, raw: bool) returns (token: Token, pos: nat)
    requires at + skip <= |s| && skip >= 1
    ensures (token, pos - at) == BracedField(s[at..], skip, raw) && at < pos <= |s|
  {
    hide NamesOf;
    var rest := s[at..];
    assert rest[skip..] == s[at + skip..];
    var names, end := ParseBracedNames(s, at + skip);
    if names.Err? {
      return Bad(UnterminatedField), |s|;
    }
    assert rest[skip..skip + CloseAt(rest[skip..]).value] == s[at + skip..end - 1];
    return FieldToken(names.value, raw), end;
  }

  /** `parse_parts`: the loop over the character cursor, recursing into sections. */
  method ParseParts(s: string, from: nat, depth: nat) returns (r: Result<seq<Part>, TemplateError>, pos: nat)
    requires from <= |s| && depth <= MAX_SECTION_DEPTH
    ensures var spec := Parse(s[from..], depth, "");
            (spec.Err? ==> r == Err(spec.error)) &&
            (spec.Ok? ==> r == Ok(spec.value.parts) && from <= pos <= |s| && s[pos..] == spec.value.rest)
    decreases |s| - from
  {
    hide NextToken, Parse, Then, Flush;
    var parts: seq<Part>, literal, closed := [], "", false;
    pos := from;
    ghost var spec := Parse(s[from..], depth, "");
    ThenNothing(spec);
    while pos < |s| && !closed
      invariant from <= pos <= |s| && (!closed ==> spec == Then(parts, Parse(s[pos..], depth, literal)))
      invariant closed ==> depth > 0 && spec == Ok(Parsed(parts + Flush(literal), s[pos..]))
      decreases |s| - pos
    {
      ghost var at := pos;
      var token;
      token, pos := TakeToken(s, pos, depth > 0);
      assert s[at..][pos - at..] == s[pos..];
      ParseStep(s[at..], depth, literal);
      ThenDone(parts, Flush(literal), s[pos..]);
      match token {
        case Bad(e) => return Err(e), pos;
        case Close => closed := true;
        case Text(text) => literal := literal + text;
        case FieldToken(names, raw) =>
          ghost var before := parts;
          parts := PushLiteral(parts, literal);
          ThenMore(before, Flush(literal) + [Field(names, raw)], Parse(s[pos..], depth, ""));
          Appended(before, Flush(literal), Field(names, raw));
          parts, literal := parts + [Field(names, raw)], "";
        case Open =>
          ghost var before := parts;
          parts := PushLiteral(parts, literal);
          if depth + 1 > MAX_SECTION_DEPTH {
            return Err(NestingTooDeep(MAX_SECTION_DEPTH)), pos;
          }
          var inner;
          inner, pos := ParseParts(s, pos, depth + 1);
          if inner.Err? {
            return Err(inner.error), pos;
          }
          ThenMore(before, Flush(literal) + [Section(inner.value)], Parse(s[pos..], depth, ""));
          Appended(before, Flush(literal), Section(inner.value));
          parts, literal := parts + [Section(inner.value)], "";
      }
    }
    ParseEnd(depth, literal);
    ThenDone(parts, Flush(literal), "");
    parts := PushLiteral(parts, literal);
    if depth > 0 && !closed {
      return Err(UnclosedSection), pos;
    }
    return Ok(parts), pos;
  }

  lemma {:induction false} TopConsumesAll(s: string, literal: string)
    ensures Parse(s, 0, literal).Ok? ==> Parse(s, 0, literal).value.rest == ""
    decreases |s|
  {
    hide NextToken;
    if s != "" {
      var (token, n) := NextToken(s, false);
      match token {
        case Text(text) => TopConsumesAll(s[n..], literal + text);
        case FieldToken(_, _) => TopConsumesAll(s[n..], "");
        case Open =>
          var inner := Parse(s[n..], 1, "");
          if inner.Ok? { TopConsumesAll(inner.value.rest, ""); }
        case _ =>
      }
    }
  }

  // ----- What a parsed template looks like ---------------------------------------------------------

  function Deeper(a: nat, b: nat): nat { if a < b then b else a }

  function PartDepth(part: Part): nat
    decreases part, 0
  {
    if part.Section? then 1 + Nesting(part.inner) else 0
  }

  /** How deep sections nest. */
  function Nesting(parts: seq<Part>): nat
    decreases parts, 1
  {
    if parts == [] then 0 else Deeper(PartDepth(parts[0]), Nesting(parts[1..]))
  }

  predicate CleanText(s: string) { forall i | 0 <= i < |s| :: !Control(s[i]) }

  predicate PartClean(part: Part)
    decreases part, 0
  {
    match part
    case Literal(text) => text != "" && CleanText(text)
    case Field(names, _) => names != []
    case Section(inner) => Clean(inner)
  }

  /** Literals are not empty, hold no control characters, and never stand side by side. */
  predicate Clean(parts: seq<Part>)
    decreases parts, 1
  {
    parts == [] || (PartClean(parts[0]) && Clean(parts[1..]) && (|parts| > 1 ==> !(parts[0].Literal? && parts[1].Literal?)))
  }

  lemma NestingCons(literal: string, part: Part, tail: seq<Part>)
    ensures var parts := Flush(literal) + [part] + tail;
            Nesting(parts) == Deeper(PartDepth(part), Nesting(tail))
  {
    var parts := Flush(literal) + [part] + tail;
    assert ([part] + tail)[1..] == tail;
    if literal == "" {
      assert parts == [part] + tail;
    } else {
      assert parts[1..] == [part] + tail;
    }
  }

  lemma CleanCons(literal: string, part: Part, tail: seq<Part>)
    requires CleanText(literal) && PartClean(part) && Clean(tail) && !part.Literal?
    ensures Clean(Flush(literal) + [part] + tail)
  {
    var parts, short := Flush(literal) + [part] + tail, [part] + tail;
    assert short[1..] == tail && Clean(short);
    if literal == "" {
      assert parts == short;
    } else {
      assert parts[1..] == short && parts[1] == part;
    }
  }

  lemma FlushedAlone(literal: string)
    requires CleanText(literal)
    ensures Clean(Flush(literal)) && Nesting(Flush(literal)) == 0
  {
    if literal != "" { assert Flush(literal)[1..] == []; }
  }

  lemma TokenText(s: string, inSection: bool)
    requires s != ""
    ensures var token := NextToken(s, inSection).0;
            (token.Text? ==> CleanText(token.text)) && (token.FieldToken? ==> token.names != [])
  {
    hide Lowercase, SplitOn;
  }

  /** Whatever parses is clean, and nests no deeper than the limit leaves. */
  lemma {:induction false} ParseShape(s: string, depth: nat, literal: string)
    requires depth <= MAX_SECTION_DEPTH && CleanText(literal)
    ensures var r := Parse(s, depth, literal);
            r.Ok? ==> Clean(r.value.parts) && depth + Nesting(r.value.parts) <= MAX_SECTION_DEPTH
    decreases |s|
  {
    hide NextToken, Clean, Nesting, CleanText;
    FlushedAlone(literal);
    EmptyClean();
    if s != "" {
      var (token, n) := NextToken(s, depth > 0);
      TokenText(s, depth > 0);
      match token {
        case Text(text) =>
          CleanJoin(literal, text);
          ParseShape(s[n..], depth, literal + text);
        case FieldToken(names, raw) =>
          ParseShape(s[n..], depth, "");
          var tail := Parse(s[n..], depth, "");
          if tail.Ok? {
            NestingCons(literal, Field(names, raw), tail.value.parts);
            CleanCons(literal, Field(names, raw), tail.value.parts);
          }
        case Open =>
          if depth + 1 <= MAX_SECTION_DEPTH {
            ParseShape(s[n..], depth + 1, "");
            var inner := Parse(s[n..], depth + 1, "");
            if inner.Ok? {
              ParseShape(inner.value.rest, depth, "");
              var tail := Parse(inner.value.rest, depth, "");
              if tail.Ok? {
                NestingCons(literal, Section(inner.value.parts), tail.value.parts);
                CleanCons(literal, Section(inner.value.parts), tail.value.parts);
              }
            }
          }
        case _ =>
      }
    }
  }

  lemma CleanJoin(a: string, b: string)
    requires CleanText(a) && CleanText(b)
    ensures CleanText(a + b)
  {
  }

  lemma EmptyClean()
    ensures CleanText("") && Clean([]) && Nesting([]) == 0
  {
  }
}
