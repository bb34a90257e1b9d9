/** Path templates of `musefs-core/src/template.rs`: rendering, and what a rendered path depends on. */
module Templates {
  import opened Outcomes
  import opened Names

  const MAX_PATH_FIELD_SEGMENTS: nat := 64

  datatype Part = Literal(text: string) | Field(names: seq<string>, raw: bool) | Section(inner: seq<Part>)

  type Fields = map<string, string>

  // ----- Sanitizing ------------------------------------------------------------------------

  predicate Control(c: char) { c as int < 0x20 }

  function SafeChar(c: char): char { if c == '/' || Control(c) then '_' else c }

  /** `/` and control characters become `_`. */
  function Sanitized(value: string): (r: string)
    ensures |r| == |value| && '/' !in r && forall i | 0 <= i < |r| :: !Control(r[i])
  {
    seq(|value|, i requires 0 <= i < |value| => SafeChar(value[i]))
  }

  method SanitizeInto(out: string, value: string) returns (more: string)
    ensures more == out + Sanitized(value)
  {
    more := out;
    var i := 0;
    while i < |value|
      invariant i <= |value| && more == out + Sanitized(value)[..i]
    {
      var c := value[i];
      if c == '/' || c as int < 0x20 {
        more := more + "_";
      } else {
        more := more + [c];
      }
      i := i + 1;
    }
  }

  function SanitizedAll(segments: seq<string>): (r: seq<string>)
    ensures |r| == |segments| && forall i | 0 <= i < |r| :: r[i] == Sanitized(segments[i])
  {
    seq(|segments|, i requires 0 <= i < |segments| => Sanitized(segments[i]))
  }

  function First<T>(n: nat, s: seq<T>): seq<T> { if |s| <= n then s else s[..n] }

  /** The first 64 segments that materialize, each sanitized, joined with `/`. */
  function PathOf(value: string): string {
    JoinNames(SanitizedAll(First(MAX_PATH_FIELD_SEGMENTS, FilterComponents(Split(value)))))
  }

  lemma FilterStep(segments: seq<string>, i: nat)
    requires i < |segments|
    ensures FilterComponents(segments[..i + 1]) ==
            FilterComponents(segments[..i]) + if Materializes(segments[i]) then [segments[i]] else []
  {
    assert segments[..i + 1][..i] == segments[..i];
  }

  lemma {:induction false} FilterPrefix(segments: seq<string>, i: nat)
    requires i <= |segments|
    ensures FilterComponents(segments[..i]) <= FilterComponents(segments)
    decreases |segments| - i
  {
    if i < |segments| {
      FilterStep(segments, i);
      FilterPrefix(segments, i + 1);
    } else {
      assert segments[..i] == segments;
    }
  }

  lemma JoinGrows(names: seq<string>, name: string)
    requires forall i | 0 <= i < |names| :: names[i] != ""
    ensures JoinNames(names + [name]) == JoinPath(JoinNames(names), name)
    ensures JoinNames(names) == "" <==> names == []
  {
    assert (names + [name])[..|names|] == names;
  }

  method SanitizePath(value: string) returns (path: string)
    ensures path == PathOf(value)
  {
    hide Sanitized, SanitizedAll, JoinNames, FilterComponents, First;
    var segments := Split(value);
    var count, i := 0, 0;
    path := "";
    ghost var kept: seq<string> := [];
    NothingKept(segments);
    while i < |segments| && count < MAX_PATH_FIELD_SEGMENTS
      invariant i <= |segments| && count == |kept| <= MAX_PATH_FIELD_SEGMENTS
      invariant kept == FilterComponents(segments[..i]) && path == JoinNames(SanitizedAll(kept))
    {
      FilterStep(segments, i);
      var segment := segments[i];
      if segment != "" && segment != "." && segment != ".." {
        ghost var before := SanitizedAll(kept);
        KeptNonempty(kept);
        JoinGrows(before, Sanitized(segment));
        if path != "" {
          path := path + "/";
        }
        path := SanitizeInto(path, segment);
        SanitizedPush(kept, segment);
        kept := kept + [segment];
        count := count + 1;
      }
      i := i + 1;
    }
    FilterPrefix(segments, i);
    assert segments[..|segments|] == segments;
    FirstIsPrefix(kept, FilterComponents(segments), count == MAX_PATH_FIELD_SEGMENTS);
  }

  lemma FirstIsPrefix(kept: seq<string>, all: seq<string>, full: bool)
    requires kept <= all && |kept| <= MAX_PATH_FIELD_SEGMENTS
    requires if full then |kept| == MAX_PATH_FIELD_SEGMENTS else kept == all
    ensures First(MAX_PATH_FIELD_SEGMENTS, all) == kept
  {
  }

  lemma NothingKept(segments: seq<string>)
    ensures FilterComponents(segments[..0]) == [] && JoinNames(SanitizedAll([])) == ""
  {
  }

  lemma SanitizedPush(kept: seq<string>, segment: string)
    ensures SanitizedAll(kept + [segment]) == SanitizedAll(kept) + [Sanitized(segment)]
  {
  }

  lemma KeptNonempty(kept: seq<string>)
    requires forall i | 0 <= i < |kept| :: Materializes(kept[i])
    ensures forall i | 0 <= i < |kept| :: SanitizedAll(kept)[i] != ""
  {
    forall i | 0 <= i < |kept|
      ensures SanitizedAll(kept)[i] != ""
    {
      assert |Sanitized(kept[i])| == |kept[i]|;
    }
  }

  // ----- Resolving fields ---------------------------------------------------------------------

  function PlainValue(name: string, fields: Fields, fallbacks: Fields): Option<string> {
    if name in fields && fields[name] != "" then Some(fields[name])
    else if name in fallbacks && fallbacks[name] != "" then Some(fallbacks[name])
    else None
  }

  function PathValue(name: string, fields: Fields, fallbacks: Fields): Option<string> {
    var value := if name in fields then Some(fields[name]) else if name in fallbacks then Some(fallbacks[name]) else None;
    if value.Some? && PathOf(value.value) != "" then Some(PathOf(value.value)) else None
  }

  function ValueOf(name: string, raw: bool, fields: Fields, fallbacks: Fields): Option<string> {
    if raw then PathValue(name, fields, fallbacks) else PlainValue(name, fields, fallbacks)
  }

  /** The first candidate with a value. */
  function Resolved(names: seq<string>, raw: bool, fields: Fields, fallbacks: Fields): Option<string> {
    if names == [] then None
    else if ValueOf(names[0], raw, fields, fallbacks).Some? then ValueOf(names[0], raw, fields, fallbacks)
    else Resolved(names[1..], raw, fields, fallbacks)
  }

  method ResolvePlain(names: seq<string>, fields: Fields, fallbacks: Fields) returns (r: Option<string>)
    ensures r == Resolved(names, false, fields, fallbacks)
  {
    var i := 0;
    while i < |names|
      invariant i <= |names| && Resolved(names, false, fields, fallbacks) == Resolved(names[i..], false, fields, fallbacks)
    {
      var name := names[i];
      if name in fields && fields[name] != "" {
        return Some(fields[name]);
      }
      if name in fallbacks && fallbacks[name] != "" {
        return Some(fallbacks[name]);
      }
      assert names[i..][1..] == names[i + 1..];
      i := i + 1;
    }
    return None;
  }

  method ResolvePath(names: seq<string>, fields: Fields, fallbacks: Fields) returns (r: Option<string>)
    ensures r == Resolved(names, true, fields, fallbacks)
  {
    hide PathOf;
    var i := 0;
    while i < |names|
      invariant i <= |names| && Resolved(names, true, fields, fallbacks) == Resolved(names[i..], true, fields, fallbacks)
    {
      var name := names[i];
      if name in fields || name in fallbacks {
        var path := SanitizePath(if name in fields then fields[name] else fallbacks[name]);
        if path != "" {
          return Some(path);
        }
      }
      assert names[i..][1..] == names[i + 1..];
      i := i + 1;
    }
    return None;
  }

  // ----- Rendering ------------------------------------------------------------------------------

  datatype Rendering = Rendering(text: string, anyPresent: bool, complete: bool)

  /** The text a resolved field adds: a plain value is sanitized, a path already is. */
  function FieldText(value: string, raw: bool): string { if raw then value else Sanitized(value) }

  function RenderPart(part: Part, fields: Fields, fallbacks: Fields, default: string, inSection: bool): Rendering
    decreases part, 0
  {
    match part
    case Literal(text) => Rendering(text, false, true)
    case Field(names, raw) =>
      var value := Resolved(names, raw, fields, fallbacks);
      if value.Some? then Rendering(FieldText(value.value, raw), true, true)
      else if inSection then Rendering("", false, true)
      else Rendering(Sanitized(default), false, false)
    case Section(inner) =>
      var r := Rendered(inner, fields, fallbacks, default, true);
      if r.anyPresent then Rendering(r.text, true, true) else Rendering("", false, true)
  }

  /** All parts in order: texts concatenated, presence of any, completeness of all. */
  function Rendered(parts: seq<Part>, fields: Fields, fallbacks: Fields, default: string, inSection: bool): Rendering
    decreases parts, 1
  {
    if parts == [] then Rendering("", false, true)
    else
      var before := Rendered(parts[..|parts| - 1], fields, fallbacks, default, inSection);
      var last := RenderPart(parts[|parts| - 1], fields, fallbacks, default, inSection);
      Rendering(before.text + last.text, before.anyPresent || last.anyPresent, before.complete && last.complete)
  }

  method RenderParts(parts: seq<Part>, fields: Fields, fallbacks: Fields, default: string, inSection: bool)
    returns (out: string, anyPresent: bool, complete: bool)
    ensures Rendering(out, anyPresent, complete) == Rendered(parts, fields, fallbacks, default, inSection)
    decreases parts
  {
    hide Resolved, Sanitized;
    out, anyPresent, complete := "", false, true;
    var i := 0;
    assert parts[..0] == [];
    while i < |parts|
      invariant i <= |parts|
      invariant Rendering(out, anyPresent, complete) == Rendered(parts[..i], fields, fallbacks, default, inSection)
    {
      assert parts[..i + 1][..i] == parts[..i];
      match parts[i] {
        case Literal(text) => out := out + text;
        case Field(names, raw) =>
          var value;
          if raw {
            value := ResolvePath(names, fields, fallbacks);
          } else {
            value := ResolvePlain(names, fields, fallbacks);
          }
          if value.Some? {
            if raw {
              out := out + value.value;
            } else {
              out := SanitizeInto(out, value.value);
            }
            anyPresent := true;
          } else if !inSection {
            out := SanitizeInto(out, default);
            complete := false;
          }
        case Section(inner) =>
          var text, present, _ := RenderParts(inner, fields, fallbacks, default, true);
          if present {
            out := out + text;
            anyPresent := true;
          }
      }
      i := i + 1;
    }
    assert parts[..i] == parts;
  }

  /** `render`. */
  function Render(parts: seq<Part>, fields: Fields, fallbacks: Fields, default: string, ext: string): string {
    Rendered(parts, fields, fallbacks, default, false).text + "." + ext
  }

  /** `render_checked`. */
  function RenderChecked(parts: seq<Part>, fields: Fields, fallbacks: Fields, ext: string): Option<string> {
    var r := Rendered(parts, fields, fallbacks, "", false);
    if r.complete then Some(r.text + "." + ext) else None
  }

  // ----- What rendering depends on --------------------------------------------------------------------

  function PartFields(part: Part): set<string>
    decreases part, 0
  {
    match part
    case Literal(_) => {}
    case Field(names, _) => set n | n in names
    case Section(inner) => ReferencedFields(inner)
  }

  /** `referenced_fields`. */
  function ReferencedFields(parts: seq<Part>): set<string>
    decreases parts, 1
  {
    if parts == [] then {} else ReferencedFields(parts[..|parts| - 1]) + PartFields(parts[|parts| - 1])
  }

  predicate Agree(a: Fields, b: Fields, names: set<string>) {
    forall n | n in names :: (n in a <==> n in b) && (n in a && n in b ==> a[n] == b[n])
  }

  lemma {:induction false} ResolvedAgree(names: seq<string>, raw: bool, a: Fields, b: Fields, fallbacks: Fields)
    requires Agree(a, b, set n | n in names)
    ensures Resolved(names, raw, a, fallbacks) == Resolved(names, raw, b, fallbacks)
  {
    hide PathOf;
    if names != [] {
      assert names[0] in names;
      ResolvedAgree(names[1..], raw, a, b, fallbacks);
    }
  }

  lemma {:induction false} PartAgree(part: Part, a: Fields, b: Fields, fallbacks: Fields, default: string, inSection: bool)
    requires Agree(a, b, PartFields(part))
    ensures RenderPart(part, a, fallbacks, default, inSection) == RenderPart(part, b, fallbacks, default, inSection)
    decreases part, 0
  {
    match part {
      case Literal(_) =>
      case Field(names, raw) => ResolvedAgree(names, raw, a, b, fallbacks);
      case Section(inner) => NonInterference(inner, a, b, fallbacks, default, true);
    }
  }

  /** Tag maps that agree on the referenced fields render the same. */
  lemma {:induction false} NonInterference(parts: seq<Part>, a: Fields, b: Fields, fallbacks: Fields, default: string, inSection: bool)
    requires Agree(a, b, ReferencedFields(parts))
    ensures Rendered(parts, a, fallbacks, default, inSection) == Rendered(parts, b, fallbacks, default, inSection)
    decreases parts, 1
  {
    hide Agree, RenderPart, PartFields;
    if parts != [] {
      var init, last := parts[..|parts| - 1], parts[|parts| - 1];
      AgreeLess(a, b, ReferencedFields(init), PartFields(last));
      NonInterference(init, a, b, fallbacks, default, inSection);
      PartAgree(last, a, b, fallbacks, default, inSection);
    }
  }

  lemma AgreeLess(a: Fields, b: Fields, m: set<string>, n: set<string>)
    requires Agree(a, b, m + n)
    ensures Agree(a, b, m) && Agree(a, b, n)
  {
  }

  // ----- Complete and present ----------------------------------------------------------------------------

  /** Every field outside sections has a value. */
  predicate TopResolves(parts: seq<Part>, fields: Fields, fallbacks: Fields) {
    forall i | 0 <= i < |parts| && parts[i].Field? :: Resolved(parts[i].names, parts[i].raw, fields, fallbacks).Some?
  }

  predicate PartPresent(part: Part, fields: Fields, fallbacks: Fields)
    decreases part, 0
  {
    match part
    case Literal(_) => false
    case Field(names, raw) => Resolved(names, raw, fields, fallbacks).Some?
    case Section(inner) => SomeResolves(inner, fields, fallbacks)
  }

  /** Some field, however deep in sections, has a value. */
  predicate SomeResolves(parts: seq<Part>, fields: Fields, fallbacks: Fields)
    decreases parts, 1
  {
    exists i :: 0 <= i < |parts| && PartPresent(parts[i], fields, fallbacks)
  }

  /** Text is only ever marked present because some nested field has a value. */
  lemma {:induction false} PresenceIsResolution(parts: seq<Part>, fields: Fields, fallbacks: Fields, default: string, inSection: bool)
    ensures Rendered(parts, fields, fallbacks, default, inSection).anyPresent <==> SomeResolves(parts, fields, fallbacks)
    decreases parts, 1
  {
    hide Resolved;
    if parts != [] {
      var init, last := parts[..|parts| - 1], parts[|parts| - 1];
      PresenceIsResolution(init, fields, fallbacks, default, inSection);
      if last.Section? { PresenceIsResolution(last.inner, fields, fallbacks, default, true); }
      assert forall i | 0 <= i < |init| :: init[i] == parts[i];
    }
  }

  /** A section appears exactly when some field nested in it has a value; its text then never uses the default. */
  lemma SectionAppears(inner: seq<Part>, fields: Fields, fallbacks: Fields, default: string, inSection: bool)
    ensures RenderPart(Section(inner), fields, fallbacks, default, inSection).text ==
            if SomeResolves(inner, fields, fallbacks) then Rendered(inner, fields, fallbacks, "", true).text else ""
  {
    PresenceIsResolution(inner, fields, fallbacks, default, true);
    DefaultUnused(inner, fields, fallbacks, default, true);
  }

  /** Inside sections, or where every top-level field resolves, the default plays no part. */
  lemma {:induction false} DefaultUnused(parts: seq<Part>, fields: Fields, fallbacks: Fields, default: string, inSection: bool)
    requires inSection || TopResolves(parts, fields, fallbacks)
    ensures Rendered(parts, fields, fallbacks, default, inSection) == Rendered(parts, fields, fallbacks, "", inSection)
    ensures Rendered(parts, fields, fallbacks, default, inSection).complete
    decreases parts, 1
  {
    hide Resolved, Sanitized;
    if parts != [] {
      var init, last := parts[..|parts| - 1], parts[|parts| - 1];
      assert forall i | 0 <= i < |init| :: init[i] == parts[i];
      DefaultUnused(init, fields, fallbacks, default, inSection);
      if last.Section? { DefaultUnused(last.inner, fields, fallbacks, default, true); }
    }
  }

  lemma {:induction false} CompleteIsResolved(parts: seq<Part>, fields: Fields, fallbacks: Fields, default: string)
    ensures Rendered(parts, fields, fallbacks, default, false).complete <==> TopResolves(parts, fields, fallbacks)
  {
    hide Resolved, Sanitized;
    if parts != [] {
      var init, last := parts[..|parts| - 1], parts[|parts| - 1];
      assert forall i | 0 <= i < |init| :: init[i] == parts[i];
      CompleteIsResolved(init, fields, fallbacks, default);
      assert parts[|parts| - 1] == last;
    }
  }

  /** A checked rendering exists exactly when every top-level field has a value, and is then the rendering under any default. */
  lemma CheckedExactly(parts: seq<Part>, fields: Fields, fallbacks: Fields, ext: string, default: string)
    ensures RenderChecked(parts, fields, fallbacks, ext).Some? <==> TopResolves(parts, fields, fallbacks)
    ensures TopResolves(parts, fields, fallbacks) ==>
              RenderChecked(parts, fields, fallbacks, ext) == Some(Render(parts, fields, fallbacks, default, ext))
  {
    CompleteIsResolved(parts, fields, fallbacks, "");
    if TopResolves(parts, fields, fallbacks) { DefaultUnused(parts, fields, fallbacks, default, false); }
  }

  // ----- How many slashes ------------------------------------------------------------------------------------

  function Slashes(s: string): (n: nat)
    ensures '/' !in s ==> n == 0
  {
    if s == "" then 0 else Slashes(s[..|s| - 1]) + if s[|s| - 1] == '/' then 1 else 0
  }

  function PartBound(part: Part): nat
    decreases part, 0
  {
    match part
    case Literal(text) => Slashes(text)
    case Field(_, raw) => if raw then MAX_PATH_FIELD_SEGMENTS - 1 else 0
    case Section(inner) => SlashBound(inner)
  }

  /** The slashes of the literals, and 63 for every path field. */
  function SlashBound(parts: seq<Part>): nat
    decreases parts, 1
  {
    if parts == [] then 0 else SlashBound(parts[..|parts| - 1]) + PartBound(parts[|parts| - 1])
  }

  lemma {:induction false} SlashesConcat(a: string, b: string)
    ensures Slashes(a + b) == Slashes(a) + Slashes(b)
  {
    if b == "" {
      assert a + b == a;
    } else {
      assert (a + b)[..|a + b| - 1] == a + b[..|b| - 1];
      SlashesConcat(a, b[..|b| - 1]);
    }
  }

  lemma {:induction false} JoinSlashes(names: seq<string>)
    requires forall i | 0 <= i < |names| :: '/' !in names[i]
    ensures Slashes(JoinNames(names)) <= if names == [] then 0 else |names| - 1
  {
    if names != [] {
      var init, last := names[..|names| - 1], names[|names| - 1];
      JoinSlashes(init);
      if JoinNames(init) != "" {
        SlashesConcat(JoinNames(init), "/");
        SlashesConcat(JoinNames(init) + "/", last);
        assert "/"[..0] == "";
        assert Slashes("/") == 1;
        assert init != [];
      }
    }
  }

  lemma PathSlashes(value: string)
    ensures Slashes(PathOf(value)) <= MAX_PATH_FIELD_SEGMENTS - 1
  {
    var segments := First(MAX_PATH_FIELD_SEGMENTS, FilterComponents(Split(value)));
    JoinSlashes(SanitizedAll(segments));
  }

  lemma {:induction false} ResolvedSlashes(names: seq<string>, raw: bool, fields: Fields, fallbacks: Fields)
    ensures var v := Resolved(names, raw, fields, fallbacks);
            v.Some? ==> Slashes(FieldText(v.value, raw)) <= if raw then MAX_PATH_FIELD_SEGMENTS - 1 else 0
  {
    hide PathOf;
    if names != [] {
      ResolvedSlashes(names[1..], raw, fields, fallbacks);
      var value := if names[0] in fields then fields[names[0]] else if names[0] in fallbacks then fallbacks[names[0]] else "";
      PathSlashes(value);
    }
  }

  /** A rendered text has no more slashes than its bound, whatever the tags say. */
  lemma {:induction false} RenderedSlashes(parts: seq<Part>, fields: Fields, fallbacks: Fields, default: string, inSection: bool)
    ensures Slashes(Rendered(parts, fields, fallbacks, default, inSection).text) <= SlashBound(parts)
    decreases parts, 1
  {
    hide Resolved, Sanitized, Slashes;
    if parts == [] {
      NoSlashes();
    } else {
      var init, last := parts[..|parts| - 1], parts[|parts| - 1];
      RenderedSlashes(init, fields, fallbacks, default, inSection);
      PartSlashes(last, fields, fallbacks, default, inSection);
      SlashesConcat(Rendered(init, fields, fallbacks, default, inSection).text,
                    RenderPart(last, fields, fallbacks, default, inSection).text);
    }
  }

  lemma NoSlashes()
    ensures Slashes("") == 0
  {
  }

  lemma {:induction false} PartSlashes(part: Part, fields: Fields, fallbacks: Fields, default: string, inSection: bool)
    ensures Slashes(RenderPart(part, fields, fallbacks, default, inSection).text) <= PartBound(part)
    decreases part, 0
  {
    hide Resolved;
    NoSlashes();
    match part {
      case Literal(_) =>
      case Field(names, raw) => ResolvedSlashes(names, raw, fields, fallbacks);
      case Section(inner) => RenderedSlashes(inner, fields, fallbacks, default, true);
    }
  }

  /** The rendered path, with an extension free of slashes, stays within the template's bound. */
  lemma PathDepthBounded(parts: seq<Part>, fields: Fields, fallbacks: Fields, default: string, ext: string)
    requires '/' !in ext
    ensures Slashes(Render(parts, fields, fallbacks, default, ext)) <= SlashBound(parts)
  {
    var text := Rendered(parts, fields, fallbacks, default, false).text;
    RenderedSlashes(parts, fields, fallbacks, default, false);
    SlashesConcat(text, ".");
    SlashesConcat(text + ".", ext);
  }
}
