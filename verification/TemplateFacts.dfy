/** What rendering computes, said without naming it: which value a field takes, and what each part adds. */
module TemplateFacts {
  import opened Outcomes
  import opened Names
  import opened Templates

  /** `r` is `value` with an underscore for each slash and each control character. */
  predicate Cleaned(value: string, r: string) {
    |r| == |value| && forall i | 0 <= i < |r| :: r[i] == if value[i] == '/' || value[i] as int < 0x20 then '_' else value[i]
  }

  lemma SanitizedExactly(value: string, r: string)
    ensures Sanitized(value) == r <==> Cleaned(value, r)
  {
    hide Sanitized;
    SanitizedCleaned(value);
    if Cleaned(value, r) { assert Sanitized(value) == r; }
  }

  lemma SanitizedCleaned(value: string)
    ensures Cleaned(value, Sanitized(value))
  {
  }

  /** A path value keeps its first 64 named segments, cleaned, with slashes between them. */
  lemma PathOfExactly(value: string)
    ensures var kept := FilterComponents(Split(value));
            if kept == [] then PathOf(value) == ""
            else
              var segments := Split(PathOf(value));
              |segments| == (if |kept| < 64 then |kept| else 64) && forall i | 0 <= i < |segments| :: Cleaned(kept[i], segments[i])
  {
    hide SplitOn, Sanitized, JoinNames, FilterComponents;
    var kept := First(64, FilterComponents(Split(value)));
    var segments := SanitizedAll(kept);
    if kept != [] {
      KeptNonempty(kept);
      SplitJoin(segments);
      forall i | 0 <= i < |segments|
        ensures Cleaned(kept[i], segments[i])
      {
        SanitizedCleaned(kept[i]);
      }
    } else {
      NothingKept([]);
    }
  }

  /** The fields come first; a fallback counts when the field has no text. */
  lemma PlainExactly(name: string, fields: Fields, fallbacks: Fields, v: string)
    ensures PlainValue(name, fields, fallbacks) == Some(v) <==>
            v != "" && ((name in fields && fields[name] == v) ||
                        ((name in fields ==> fields[name] == "") && name in fallbacks && fallbacks[name] == v))
  {
  }

  /** A path field never looks behind a field that is there, even one of which nothing remains. */
  lemma PathExactly(name: string, fields: Fields, fallbacks: Fields, v: string)
    ensures PathValue(name, fields, fallbacks) == Some(v) <==>
            v != "" && ((name in fields && PathOf(fields[name]) == v) || (name !in fields && name in fallbacks && PathOf(fallbacks[name]) == v))
  {
    hide PathOf;
  }

  /** The first candidate with a value decides. */
  lemma {:induction false} ResolvedExactly(names: seq<string>, raw: bool, fields: Fields, fallbacks: Fields, v: string)
    ensures Resolved(names, raw, fields, fallbacks) == Some(v) <==>
            exists i :: 0 <= i < |names| && Decides(names, raw, fields, fallbacks, i, v)
  {
    hide PlainValue, PathValue;
    if names != [] {
      var rest := names[1..];
      ResolvedExactly(rest, raw, fields, fallbacks, v);
      if ValueOf(names[0], raw, fields, fallbacks).Some? {
        assert Decides(names, raw, fields, fallbacks, 0, ValueOf(names[0], raw, fields, fallbacks).value);
      } else {
        assert forall i | 0 <= i < |rest| :: rest[i] == names[i + 1];
        assert forall i | 0 <= i < |rest| && Decides(rest, raw, fields, fallbacks, i, v) :: Decides(names, raw, fields, fallbacks, i + 1, v);
        assert forall i | 0 < i < |names| && Decides(names, raw, fields, fallbacks, i, v) :: Decides(rest, raw, fields, fallbacks, i - 1, v);
      }
    }
  }

  predicate Decides(names: seq<string>, raw: bool, fields: Fields, fallbacks: Fields, i: nat, v: string)
    requires i < |names|
  {
    (if raw then PathValue(names[i], fields, fallbacks) else PlainValue(names[i], fields, fallbacks)) == Some(v) &&
    forall j | 0 <= j < i :: (if raw then PathValue(names[j], fields, fallbacks) else PlainValue(names[j], fields, fallbacks)).None?
  }

  /** What one part shows: its text, whether a field of it has a value, and whether nothing is missing. */
  ghost predicate Shows(part: Part, fields: Fields, fallbacks: Fields, default: string, inSection: bool, r: Rendering) {
    match part
    case Literal(text) => r == Rendering(text, false, true)
    case Field(names, raw) =>
      var value := Resolved(names, raw, fields, fallbacks);
      if value.None? then !r.anyPresent && (if inSection then r.text == "" && r.complete else Cleaned(default, r.text) && !r.complete)
      else r.anyPresent && r.complete && if raw then r.text == value.value else Cleaned(value.value, r.text)
    case Section(inner) =>
      r.complete && (r.anyPresent <==> SomeResolves(inner, fields, fallbacks)) &&
      r.text == if r.anyPresent then Rendered(inner, fields, fallbacks, "", true).text else ""
  }

  lemma PartShows(part: Part, fields: Fields, fallbacks: Fields, default: string, inSection: bool)
    ensures Shows(part, fields, fallbacks, default, inSection, RenderPart(part, fields, fallbacks, default, inSection))
  {
    hide Resolved, Sanitized, Rendered, SomeResolves;
    match part {
      case Literal(_) =>
      case Field(names, raw) =>
        SanitizedCleaned(default);
        var value := Resolved(names, raw, fields, fallbacks);
        if value.Some? { SanitizedCleaned(value.value); }
      case Section(inner) =>
        PresenceIsResolution(inner, fields, fallbacks, default, true);
        DefaultUnused(inner, fields, fallbacks, default, true);
    }
  }

  /** Templates are rendered part by part, and reference what their parts do. */
  lemma {:induction false} RenderedConcat(a: seq<Part>, b: seq<Part>, fields: Fields, fallbacks: Fields, default: string, inSection: bool)
    ensures var (x, y) := (Rendered(a, fields, fallbacks, default, inSection), Rendered(b, fields, fallbacks, default, inSection));
            Rendered(a + b, fields, fallbacks, default, inSection) ==
            Rendering(x.text + y.text, x.anyPresent || y.anyPresent, x.complete && y.complete)
    ensures ReferencedFields(a + b) == ReferencedFields(a) + ReferencedFields(b)
    decreases b
  {
    hide RenderPart, PartFields;
    if b == [] {
      assert a + b == a;
    } else {
      var init := b[..|b| - 1];
      assert (a + b)[..|a + b| - 1] == a + init;
      RenderedConcat(a, init, fields, fallbacks, default, inSection);
    }
  }

  /** A field is referenced exactly by the parts that name it, however deep in sections. */
  lemma {:induction false} ReferencedExactly(parts: seq<Part>, name: string)
    ensures name in ReferencedFields(parts) <==> exists i :: 0 <= i < |parts| && Mentions(parts[i], name)
    decreases parts
  {
    if parts != [] {
      var init, last := parts[..|parts| - 1], parts[|parts| - 1];
      ReferencedExactly(init, name);
      assert forall i | 0 <= i < |init| :: init[i] == parts[i];
      if last.Section? { ReferencedExactly(last.inner, name); }
    }
  }

  predicate Mentions(part: Part, name: string)
    decreases part
  {
    (part.Field? && name in part.names) || (part.Section? && exists i :: 0 <= i < |part.inner| && Mentions(part.inner[i], name))
  }

  /** A rendered path is one part rendered behind another, and then a dot and the extension. */
  lemma RenderAppends(parts: seq<Part>, part: Part, fields: Fields, fallbacks: Fields, default: string, ext: string)
    ensures Render([], fields, fallbacks, default, ext) == "." + ext
    ensures var before := Render(parts, fields, fallbacks, default, ext);
            var r := RenderPart(part, fields, fallbacks, default, false);
            Render(parts + [part], fields, fallbacks, default, ext) == before[..|before| - |ext| - 1] + r.text + "." + ext
    ensures RenderChecked(parts, fields, fallbacks, ext).Some? ==>
              RenderChecked(parts, fields, fallbacks, ext).value == Render(parts, fields, fallbacks, "", ext)
  {
    hide RenderPart;
    assert (parts + [part])[..|parts|] == parts;
    var text := Rendered(parts, fields, fallbacks, default, false).text;
    assert (text + "." + ext)[..|text|] == text;
  }
}
