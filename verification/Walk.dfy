/**
  The directory walk of `musefs-core/src/scan.rs` when it follows symlinks: a search of a
  finite graph of directory identities, cycles included, that collects supported files.
 */
module Walk {
  import opened Outcomes
  import opened Names
  import opened NameFacts
  import opened Collections

  /** What a symlink resolves to. */
  datatype Target = ToDir(dir: nat) | ToFile(file: nat) | ToOther | Broken

  /** One entry as the walk sees it; `stat` says whether the target's metadata can be read. */
  datatype Kind = Directory(dir: nat, stat: bool) | Regular(file: nat, stat: bool) | Symlink(target: Target) | Special | Unreadable

  datatype Entry = Entry(name: string, kind: Kind)

  /** Directory identities with their listings; `None` is a directory that cannot be listed. */
  type Graph = map<nat, Option<seq<Entry>>>

  datatype Found = Found(path: string, key: Option<nat>)

  /** What an entry gives: a file by identity, or, when it cannot be statted, by directory and name. */
  datatype Find = Keyed(file: nat) | Blind(dir: nat, name: string)

  // ----- Supported names -----------------------------------------------------------------------

  const SUPPORTED: set<string> := {"flac", "mp3", "m4a", "m4b", "ogg", "oga", "opus", "wav"}

  predicate SupportedAudio(name: string) {
    var ext := SplitSuffixParts(name).1;
    ext.Some? && Lowercase(ext.value) in SUPPORTED
  }

  // ----- Reachability ---------------------------------------------------------------------------

  /** The directory an entry leads into, when it can be entered. */
  function Leads(e: Entry): Option<nat> {
    match e.kind
    case Directory(d, stat) => if stat then Some(d) else None
    case Symlink(ToDir(d)) => Some(d)
    case _ => None
  }

  /** The file an entry of directory `d` gives under a supported name. */
  function Gives(d: nat, e: Entry): Option<Find> {
    if !SupportedAudio(e.name) then None
    else
      match e.kind
      case Regular(f, stat) => Some(if stat then Keyed(f) else Blind(d, e.name))
      case Symlink(ToFile(f)) => Some(Keyed(f))
      case _ => None
  }

  /** Directories that can be statted and symlinks to directories are entered, and nothing else. */
  lemma LeadsExactly(e: Entry, d: nat)
    ensures Leads(e) == Some(d) <==> e.kind == Directory(d, true) || e.kind == Symlink(ToDir(d))
  {
  }

  /** What a supported name gives: the identity of a regular file or of a symlink's target, or the bare entry when it cannot be statted. */
  lemma GivesExactly(d: nat, e: Entry, f: Find)
    ensures Gives(d, e) == Some(f) <==>
            SupportedAudio(e.name) &&
            ((exists x :: (e.kind == Regular(x, true) || e.kind == Symlink(ToFile(x))) && f == Keyed(x)) ||
             (f == Blind(d, e.name) && exists x :: e.kind == Regular(x, false)))
  {
  }

  /** Supported names: a stem, a dot, and one of eight extensions in any casing. */
  lemma SupportedExactly(name: string)
    ensures SupportedAudio(name) <==>
            exists stem, ext, low :: name == stem + "." + ext && stem != "" && Lowered(ext, low) &&
              (low == "flac" || low == "mp3" || low == "m4a" || low == "m4b" || low == "ogg" || low == "oga" || low == "opus" || low == "wav")
  {
    hide SplitSuffixParts;
    if SupportedAudio(name) {
      var (stem, ext) := SplitSuffixParts(name);
      LowercaseExactly(ext.value, Lowercase(ext.value));
      SplitSuffixExactly(name, stem, ext.value);
    }
    forall stem, ext, low | name == stem + "." + ext && stem != "" && Lowered(ext, low) && low in SUPPORTED
      ensures SupportedAudio(name)
    {
      LowercaseExactly(ext, low);
      Undotted(ext, low);
      SplitSuffixExactly(name, stem, ext);
    }
  }

  lemma Undotted(ext: string, low: string)
    requires Lowered(ext, low) && low in SUPPORTED
    ensures '.' !in ext
  {
    assert forall i | 0 <= i < |low| :: low[i] != '.';
    assert forall i | 0 <= i < |ext| :: SmallOf(ext[i], low[i]);
  }

  function Listing(g: Graph, d: nat): seq<Entry> { if d in g && g[d].Some? then g[d].value else [] }

  /** Whatever can be entered is a directory of the graph. */
  ghost predicate Complete(g: Graph) { forall a: nat, b: nat | Edge(g, a, b) :: b in g }

  ghost predicate Edge(g: Graph, a: nat, b: nat) { exists i :: 0 <= i < |Listing(g, a)| && Leads(Listing(g, a)[i]) == Some(b) }

  ghost predicate GivesIn(g: Graph, d: nat, f: Find) { exists i :: 0 <= i < |Listing(g, d)| && Gives(d, Listing(g, d)[i]) == Some(f) }

  ghost predicate Path(g: Graph, p: seq<nat>) { p != [] && forall i | 0 <= i < |p| - 1 :: Edge(g, p[i], p[i + 1]) }

  ghost predicate Reachable(g: Graph, root: nat, d: nat) { exists p: seq<nat> :: Path(g, p) && p[0] == root && p[|p| - 1] == d }

  lemma ReachableStep(g: Graph, root: nat, a: nat, b: nat)
    requires Reachable(g, root, a) && Edge(g, a, b)
    ensures Reachable(g, root, b)
  {
    hide Edge;
    var p :| Path(g, p) && p[0] == root && p[|p| - 1] == a;
    var q := p + [b];
    forall i | 0 <= i < |q| - 1
      ensures Edge(g, q[i], q[i + 1])
    {
      if i < |p| - 1 { assert Edge(g, p[i], p[i + 1]); }
    }
    assert Path(g, q);
  }

  lemma ReachableRoot(g: Graph, root: nat)
    ensures Reachable(g, root, root)
  {
    assert Path(g, [root]);
  }

  /** Every edge out of a closed set stays in it. */
  ghost predicate Closed(g: Graph, d: nat, visited: set<nat>, finds: set<Find>) {
    (forall b: nat | Edge(g, d, b) :: b in visited) && forall f | GivesIn(g, d, f) :: f in finds
  }

  lemma {:induction false} PathStaysIn(g: Graph, visited: set<nat>, finds: set<Find>, p: seq<nat>, n: nat)
    requires Path(g, p) && n < |p| && p[0] in visited && forall d | d in visited :: Closed(g, d, visited, finds)
    ensures p[n] in visited
  {
    if n > 0 {
      PathStaysIn(g, visited, finds, p, n - 1);
      assert Edge(g, p[n - 1], p[n]);
    }
  }

  /** More visited, more found: what was closed stays closed. */
  lemma ClosedGrows(g: Graph, d: nat, v1: set<nat>, f1: set<Find>, v2: set<nat>, f2: set<Find>)
    requires Closed(g, d, v1, f1) && v1 <= v2 && f1 <= f2
    ensures Closed(g, d, v2, f2)
  {
    hide Edge, GivesIn;
  }

  /** Everything visited beyond `before` is closed. */
  ghost predicate NewClosed(g: Graph, before: set<nat>, visited: set<nat>, finds: set<Find>) {
    forall v | v in visited && v !in before :: Closed(g, v, visited, finds)
  }

  lemma NewClosedChain(g: Graph, v0: set<nat>, v1: set<nat>, f1: set<Find>, v2: set<nat>, f2: set<Find>)
    requires NewClosed(g, v0, v1, f1) && NewClosed(g, v1, v2, f2) && v1 <= v2 && f1 <= f2
    ensures NewClosed(g, v0, v2, f2)
  {
    hide Closed;
    forall v | v in v2 && v !in v0
      ensures Closed(g, v, v2, f2)
    {
      if v in v1 { ClosedGrows(g, v, v1, f1, v2, f2); }
    }
  }

  /** The entries of a listing handled so far lead into visited directories and give found files. */
  ghost predicate Handled(d: nat, entries: seq<Entry>, n: nat, visited: set<nat>, finds: set<Find>)
    requires n <= |entries|
  {
    (forall j | 0 <= j < n && Leads(entries[j]).Some? :: Leads(entries[j]).value in visited) &&
    forall j | 0 <= j < n && Gives(d, entries[j]).Some? :: Gives(d, entries[j]).value in finds
  }

  lemma HandledMore(d: nat, entries: seq<Entry>, n: nat, v1: set<nat>, f1: set<Find>, v2: set<nat>, f2: set<Find>)
    requires n < |entries| && Handled(d, entries, n, v1, f1) && v1 <= v2 && f1 <= f2
    requires (Leads(entries[n]).Some? ==> Leads(entries[n]).value in v2) && (Gives(d, entries[n]).Some? ==> Gives(d, entries[n]).value in f2)
    ensures Handled(d, entries, n + 1, v2, f2)
  {
    hide Leads, Gives;
  }

  lemma HandledAll(g: Graph, dir: nat, visited: set<nat>, finds: set<Find>)
    requires Handled(dir, Listing(g, dir), |Listing(g, dir)|, visited, finds)
    ensures Closed(g, dir, visited, finds)
  {
    hide Leads, Gives;
  }

  /** Everything found is reachable. */
  ghost predicate Sound(g: Graph, root: nat, visited: set<nat>, finds: set<Find>) {
    (forall d: nat | d in visited :: Reachable(g, root, d)) &&
    forall f | f in finds :: exists d: nat :: d in visited && GivesIn(g, d, f)
  }

  lemma SoundEnter(g: Graph, root: nat, visited: set<nat>, finds: set<Find>, d: nat)
    requires Sound(g, root, visited, finds) && Reachable(g, root, d)
    ensures Sound(g, root, visited + {d}, finds)
  {
    hide Reachable, GivesIn;
    forall f | f in finds
      ensures exists x: nat :: x in visited + {d} && GivesIn(g, x, f)
    {
      var x: nat :| x in visited && GivesIn(g, x, f);
      assert x in visited + {d};
    }
  }

  lemma SoundFile(g: Graph, root: nat, visited: set<nat>, finds: set<Find>, dir: nat, i: nat)
    requires Sound(g, root, visited, finds) && dir in visited && i < |Listing(g, dir)| && Gives(dir, Listing(g, dir)[i]).Some?
    ensures Sound(g, root, visited, finds + {Gives(dir, Listing(g, dir)[i]).value})
  {
    hide Reachable, Gives;
    assert GivesIn(g, dir, Gives(dir, Listing(g, dir)[i]).value);
  }

  lemma EntryReachable(g: Graph, root: nat, visited: set<nat>, finds: set<Find>, dir: nat, i: nat)
    requires Sound(g, root, visited, finds) && dir in visited && i < |Listing(g, dir)| && Leads(Listing(g, dir)[i]).Some?
    requires Complete(g)
    ensures Reachable(g, root, Leads(Listing(g, dir)[i]).value) && Leads(Listing(g, dir)[i]).value in g
  {
    hide Reachable, Leads;
    assert Edge(g, dir, Leads(Listing(g, dir)[i]).value);
    ReachableStep(g, root, dir, Leads(Listing(g, dir)[i]).value);
  }

  // ----- Paths ----------------------------------------------------------------------------------

  /** The path of an entry of the directory at `path`. */
  function Under(path: string, name: string): string {
    if path == "" || path[|path| - 1] == '/' then path + name else path + "/" + name
  }

  /** The components a path gives to what is under it: an empty last one, as of `/` or of nothing, is not kept. */
  function Stem(base: string): seq<string> {
    var pieces := Split(base);
    if pieces[|pieces| - 1] == "" then pieces[..|pieces| - 1] else pieces
  }

  lemma {:induction false} SplitUnder(path: string, name: string)
    requires '/' !in name
    ensures Split(Under(path, name)) == Stem(path) + [name]
  {
    SplitAppend("", name);
    assert "" + name == name;
    if path == "" {
      assert Under(path, name) == name;
    } else if path[|path| - 1] == '/' {
      SplitAppend(path, name);
    } else {
      LastPiece(path);
      var s := path + "/";
      assert s[..|s| - 1] == path;
      assert Split(s) == Split(path) + [""];
      SplitAppend(s, name);
      assert Under(path, name) == s + name;
    }
  }

  lemma LastPiece(path: string)
    requires path != "" && path[|path| - 1] != '/'
    ensures Split(path)[|Split(path)| - 1] != ""
  {
  }

  /** A spelled path has the components of its base, and then the names. */
  lemma {:induction false} SpellComponents(base: string, names: seq<string>)
    requires names != [] && AreComponents(names)
    ensures Split(Spell(base, names)) == Stem(base) + names
  {
    var n := |names| - 1;
    var front, name := names[..n], names[n];
    SplitUnder(Spell(base, front), name);
    assert names == front + [name];
    if n > 0 {
      SpellComponents(base, front);
      assert (Stem(base) + front)[|Stem(base) + front| - 1] == front[n - 1];
    }
  }

  function Spell(base: string, names: seq<string>): string {
    if names == [] then base else Under(Spell(base, names[..|names| - 1]), names[|names| - 1])
  }

  predicate StepAt(g: Graph, a: nat, i: nat, name: string, d: nat) {
    i < |Listing(g, a)| && Listing(g, a)[i].name == name && Leads(Listing(g, a)[i]) == Some(d)
  }

  ghost predicate StepTo(g: Graph, a: nat, name: string, d: nat) { exists i: nat :: StepAt(g, a, i, name, d) }

  /** The entries called `names` lead one after another from the root to `d`. */
  ghost predicate Trail(g: Graph, root: nat, names: seq<string>, d: nat)
    decreases |names|
  {
    if names == [] then d == root
    else
      var front, name := names[..|names| - 1], names[|names| - 1];
      exists a: nat :: Trail(g, root, front, a) && StepTo(g, a, name, d)
  }

  lemma TrailOn(g: Graph, root: nat, names: seq<string>, a: nat, i: nat, d: nat)
    requires Trail(g, root, names, a) && i < |Listing(g, a)| && Leads(Listing(g, a)[i]) == Some(d)
    ensures Trail(g, root, names + [Listing(g, a)[i].name], d)
  {
    hide Leads, Listing;
    var more, name := names + [Listing(g, a)[i].name], Listing(g, a)[i].name;
    assert StepAt(g, a, i, name, d);
    assert more[..|more| - 1] == names;
    assert Trail(g, root, more[..|more| - 1], a) && StepTo(g, a, more[|more| - 1], d);
  }

  lemma SpellOn(base: string, names: seq<string>, name: string)
    ensures Spell(base, names + [name]) == Under(Spell(base, names), name)
  {
    assert (names + [name])[..|names|] == names;
  }

  predicate GivesAs(d: nat, e: Entry, key: Option<nat>) {
    Gives(d, e) == Some(if key.Some? then Keyed(key.value) else Blind(d, e.name))
  }

  predicate GivenAt(g: Graph, base: string, names: seq<string>, d: nat, i: nat, x: Found) {
    i < |Listing(g, d)| && GivesAs(d, Listing(g, d)[i], x.key) && x.path == Spell(base, names + [Listing(g, d)[i].name])
  }

  /** `x` is a supported file of the graph, under a path that leads to it. */
  ghost predicate FoundAt(g: Graph, root: nat, base: string, x: Found) {
    exists names, d: nat, i: nat :: Trail(g, root, names, d) && GivenAt(g, base, names, d, i, x)
  }

  /** The unstattable file `name` of directory `d` is in `out`, under a path that leads to it. */
  ghost predicate BlindListed(g: Graph, root: nat, base: string, d: nat, name: string, out: seq<Found>) {
    exists names :: Trail(g, root, names, d) && Found(Spell(base, names + [name]), None) in out
  }

  /** `x` is a supported file of the graph; the components of its path are the base's and then names that lead to it. */
  ghost predicate LocatedAt(g: Graph, root: nat, base: string, x: Found) {
    exists names, d: nat, i: nat :: LocatedBy(g, root, base, names, d, i, x)
  }

  ghost predicate LocatedBy(g: Graph, root: nat, base: string, names: seq<string>, d: nat, i: nat, x: Found) {
    Trail(g, root, names, d) && i < |Listing(g, d)| && GivesAs(d, Listing(g, d)[i], x.key) &&
    Split(x.path) == Stem(base) + names + [Listing(g, d)[i].name]
  }

  ghost predicate BlindLocated(g: Graph, root: nat, base: string, d: nat, name: string, out: seq<Found>) {
    exists names, path :: Trail(g, root, names, d) && Found(path, None) in out && Split(path) == Stem(base) + names + [name]
  }

  /** Entries are called by names as directories can hold. */
  predicate ProperNames(g: Graph) { forall d | d in g :: forall i | 0 <= i < |Listing(g, d)| :: IsComponent(Listing(g, d)[i].name) }

  lemma {:induction false} TrailProper(g: Graph, root: nat, names: seq<string>, d: nat)
    requires ProperNames(g) && Trail(g, root, names, d)
    ensures AreComponents(names)
    decreases |names|
  {
    hide StepTo, ProperNames, IsComponent;
    if names != [] {
      var n := |names| - 1;
      var a: nat :| Trail(g, root, names[..n], a) && StepTo(g, a, names[n], d);
      TrailProper(g, root, names[..n], a);
      StepProper(g, a, names[n], d);
      assert names == names[..n] + [names[n]];
    }
  }

  lemma StepProper(g: Graph, a: nat, name: string, d: nat)
    requires ProperNames(g) && StepTo(g, a, name, d)
    ensures IsComponent(name)
  {
    hide Leads;
    var i: nat :| StepAt(g, a, i, name, d);
    assert a in g;
  }

  lemma FoundLocated(g: Graph, root: nat, base: string, x: Found)
    requires ProperNames(g) && FoundAt(g, root, base, x)
    ensures LocatedAt(g, root, base, x)
  {
    hide Trail, Spell, Split, GivesAs, Stem;
    var names, d: nat, i: nat :| Trail(g, root, names, d) && GivenAt(g, base, names, d, i, x);
    var name := Listing(g, d)[i].name;
    TrailProper(g, root, names, d);
    assert d in g;
    SpellComponents(base, names + [name]);
    assert Stem(base) + (names + [name]) == Stem(base) + names + [name];
    assert LocatedBy(g, root, base, names, d, i, x);
  }

  lemma BlindFoundLocated(g: Graph, root: nat, base: string, d: nat, name: string, out: seq<Found>)
    requires ProperNames(g) && BlindListed(g, root, base, d, name, out) && IsComponent(name)
    ensures BlindLocated(g, root, base, d, name, out)
  {
    hide Trail, Spell, Split, Stem;
    var names :| Trail(g, root, names, d) && Found(Spell(base, names + [name]), None) in out;
    TrailProper(g, root, names, d);
    SpellComponents(base, names + [name]);
    assert Stem(base) + (names + [name]) == Stem(base) + names + [name];
  }

  lemma BlindNamed(g: Graph, d: nat, name: string)
    requires ProperNames(g) && GivesIn(g, d, Blind(d, name))
    ensures IsComponent(name)
  {
    var i :| 0 <= i < |Listing(g, d)| && Gives(d, Listing(g, d)[i]) == Some(Blind(d, name));
    assert d in g;
  }

  /** Everything in `out` is under its own path, and nothing found blindly is missing. */
  ghost predicate WellListed(g: Graph, root: nat, base: string, out: seq<Found>, finds: set<Find>) {
    (forall x | x in out :: FoundAt(g, root, base, x)) &&
    forall f | f in finds && f.Blind? :: BlindListed(g, root, base, f.dir, f.name, out)
  }

  lemma ListedMore(g: Graph, root: nat, base: string, out: seq<Found>, finds: set<Find>, x: Found, f: Find)
    requires WellListed(g, root, base, out, finds) && FoundAt(g, root, base, x)
    requires f.Blind? ==> BlindListed(g, root, base, f.dir, f.name, out + [x])
    ensures WellListed(g, root, base, out + [x], finds + {f})
  {
    hide FoundAt, Trail, Spell;
    forall h | h in finds + {f} && h.Blind?
      ensures BlindListed(g, root, base, h.dir, h.name, out + [x])
    {
      if h != f {
        var names :| Trail(g, root, names, h.dir) && Found(Spell(base, names + [h.name]), None) in out;
        assert Found(Spell(base, names + [h.name]), None) in out + [x];
      }
    }
  }

  lemma ListedAgain(g: Graph, root: nat, base: string, out: seq<Found>, finds: set<Find>, f: Find)
    requires WellListed(g, root, base, out, finds) && f.Keyed?
    ensures WellListed(g, root, base, out, finds + {f})
  {
    hide FoundAt, BlindListed;
  }

  function Keys(out: seq<Found>): seq<nat> {
    if out == [] then []
    else Keys(out[..|out| - 1]) + if out[|out| - 1].key.Some? then [out[|out| - 1].key.value] else []
  }

  lemma KeysPush(out: seq<Found>, f: Found)
    ensures Keys(out + [f]) == if f.key.Some? then Keys(out) + [f.key.value] else Keys(out)
  {
    assert (out + [f])[..|out|] == out;
  }

  lemma DistinctPush(s: seq<nat>, k: nat)
    requires Distinct(s) && k !in s
    ensures Distinct(s + [k])
  {
    forall i, j | 0 <= i < j < |s| + 1
      ensures (s + [k])[i] != (s + [k])[j]
    {
      if j == |s| { assert s[i] in s; }
    }
  }

  class Walker {
    const graph: Graph
    var visited: set<nat>
    var filesVisited: set<nat>
    var out: seq<Found>
    /** Directories whose listings were read, in order. */
    ghost var expanded: seq<nat>
    /** What was pushed, or would have been but for its identity. */
    ghost var finds: set<Find>

    constructor (g: Graph)
      ensures graph == g && visited == {} && filesVisited == {} && out == [] && expanded == [] && finds == {}
    {
      graph, visited, filesVisited, out, expanded, finds := g, {}, {}, [], [], {};
    }

    /** Files are collected once each, directories expanded once each. */
    ghost predicate Valid()
      reads this
    {
      Distinct(Keys(out)) && (forall f :: f in Keys(out) <==> f in filesVisited) &&
      (forall f: nat :: Keyed(f) in finds <==> f in filesVisited) &&
      Distinct(expanded) && forall d | d in expanded :: d in visited
    }

    /** `push_file`: one entry of `out` per file identity; a target that cannot be statted is pushed unkeyed. */
    method PushFile(path: string, key: Option<nat>, ghost dir: nat, ghost i: nat, ghost root: nat, ghost base: string,
                    ghost names: seq<string>)
      requires Valid() && WellListed(graph, root, base, out, finds) && Trail(graph, root, names, dir)
      requires GivenAt(graph, base, names, dir, i, Found(path, key))
      modifies `out, `filesVisited, `finds
      ensures Valid() && WellListed(graph, root, base, out, finds)
      ensures finds == old(finds) + {Gives(dir, Listing(graph, dir)[i]).value}
      ensures out == old(out) + if key.Some? && key.value in old(filesVisited) then [] else [Found(path, key)]
    {
      hide Keys, Distinct, WellListed, Trail, Listing, Gives, Spell;
      ghost var f := Gives(dir, Listing(graph, dir)[i]).value;
      if key.Some? && key.value in filesVisited {
        ListedAgain(graph, root, base, out, finds, f);
        finds := finds + {f};
        return;
      }
      KeysPush(out, Found(path, key));
      if key.Some? { DistinctPush(Keys(out), key.value); }
      assert FoundAt(graph, root, base, Found(path, key));
      assert Found(path, key) in out + [Found(path, key)];
      ListedMore(graph, root, base, out, finds, Found(path, key), f);
      out, finds := out + [Found(path, key)], finds + {f};
      if key.Some? {
        filesVisited := filesVisited + {key.value};
      }
    }

    /** Every visited directory has been expanded. */
    ghost predicate Expanded()
      reads `visited, `expanded
    {
      forall v | v in visited :: v in expanded
    }

    /** Nothing visited, found or pushed so far is anything but what the graph has below `root`. */
    ghost predicate Right(root: nat, base: string)
      reads this
    {
      Complete(graph) && Sound(graph, root, visited, finds) && WellListed(graph, root, base, out, finds)
    }

    /** `descend`: enter a directory unless its identity was seen before. */
    method Descend(d: nat, path: string, ghost root: nat, ghost base: string, ghost names: seq<string>)
      requires Valid() && Expanded() && Right(root, base)
      requires Reachable(graph, root, d) && d in graph && Trail(graph, root, names, d) && path == Spell(base, names)
      modifies this
      ensures Valid() && Expanded() && Right(root, base)
      ensures old(visited) <= visited && old(finds) <= finds && d in visited
      ensures NewClosed(graph, old(visited), visited, finds)
      decreases |graph.Keys - visited|, 1
    {
      hide Complete, Sound, Reachable, Closed, Keys, WellListed, Trail, Spell;
      if d in visited {
        return;
      }
      SoundEnter(graph, root, visited, finds, d);
      FewerLeft(graph.Keys, visited, d);
      visited := visited + {d};
      CollectAudio(d, path, root, base, names);
      assert forall v | v in visited && v !in old(visited) :: v == d || v !in old(visited) + {d};
    }

    /** `collect_audio_inner`: list a directory, descend into what leads on, push what is supported. */
    method CollectAudio(dir: nat, path: string, ghost root: nat, ghost base: string, ghost names: seq<string>)
      requires Valid() && Right(root, base) && Trail(graph, root, names, dir) && path == Spell(base, names)
      requires dir in visited && dir !in expanded && forall v | v in visited && v != dir :: v in expanded
      modifies this
      ensures Valid() && Expanded() && Right(root, base)
      ensures old(visited) <= visited && old(finds) <= finds
      ensures Closed(graph, dir, visited, finds) && NewClosed(graph, old(visited), visited, finds)
      decreases |graph.Keys - visited|, 3
    {
      hide Right, Reachable, Closed, Keys, Handled, NewClosed, Leads, Gives, Valid, Expanded, Trail, Spell;
      Expand(dir, root, base);
      ghost var listing := Listing(graph, dir);
      NothingHandled(dir, listing, visited, finds);
      NothingNew(graph, visited, finds);
      if dir in graph && graph[dir].Some? {
        var entries, i := graph[dir].value, 0;
        while i < |entries|
          invariant i <= |entries| && Valid() && Expanded() && Right(root, base)
          invariant old(visited) <= visited && old(finds) <= finds
          invariant Handled(dir, listing, i, visited, finds) && NewClosed(graph, old(visited), visited, finds)
        {
          ghost var v1, f1 := visited, finds;
          NoMoreLeft(graph.Keys, old(visited), visited);
          Handle(entries[i], dir, i, Under(path, entries[i].name), root, base, names);
          NewClosedChain(graph, old(visited), v1, f1, visited, finds);
          HandledMore(dir, listing, i, v1, f1, visited, finds);
          i := i + 1;
        }
      }
      HandledAll(graph, dir, visited, finds);
    }

    /** One entry of a listing. */
    method Handle(e: Entry, ghost dir: nat, ghost i: nat, here: string, ghost root: nat, ghost base: string, ghost names: seq<string>)
      requires Valid() && Expanded() && Right(root, base) && Trail(graph, root, names, dir)
      requires dir in visited && i < |Listing(graph, dir)| && Listing(graph, dir)[i] == e
      requires here == Under(Spell(base, names), e.name)
      modifies this
      ensures Valid() && Expanded() && Right(root, base)
      ensures old(visited) <= visited && old(finds) <= finds
      ensures NewClosed(graph, old(visited), visited, finds)
      ensures (Leads(e).Some? ==> Leads(e).value in visited) && (Gives(dir, e).Some? ==> Gives(dir, e).value in finds)
      decreases |graph.Keys - visited|, 2
    {
      hide Complete, Sound, Reachable, Closed, Keys, Valid, Expanded, SupportedAudio, WellListed, Trail, Spell, Listing, Under;
      SpellOn(base, names, e.name);
      if Leads(e).Some? {
        EntryReachable(graph, root, visited, finds, dir, i);
        TrailOn(graph, root, names, dir, i, Leads(e).value);
      }
      if Gives(dir, e).Some? { SoundFile(graph, root, visited, finds, dir, i); }
      match e.kind {
        case Directory(d, stat) =>
          if stat { Descend(d, here, root, base, names + [e.name]); }
        case Regular(f, stat) =>
          if SupportedAudio(e.name) { PushFile(here, if stat then Some(f) else None, dir, i, root, base, names); }
        case Symlink(target) =>
          match target {
            case ToDir(d) => Descend(d, here, root, base, names + [e.name]);
            case ToFile(f) =>
              if SupportedAudio(e.name) { PushFile(here, Some(f), dir, i, root, base, names); }
            case _ =>
          }
        case _ =>
      }
    }

    /** Note that a directory's listing is being read. */
    ghost method Expand(dir: nat, root: nat, base: string)
      requires Valid() && Right(root, base)
      requires dir in visited && dir !in expanded && forall v | v in visited && v != dir :: v in expanded
      modifies `expanded
      ensures Valid() && Expanded() && Right(root, base)
    {
      hide Keys, Complete, Sound, WellListed;
      expanded := expanded + [dir];
    }

    /**
      The whole walk from `root`, listed at `path`: exactly the reachable directories are
      expanded, each once; exactly the supported file identities in them are collected, each
      once, and every unstattable file; and each under a path that leads to it.
     */
    method CollectFrom(root: nat, path: string)
      requires Complete(graph) && root in graph
      requires visited == {} && filesVisited == {} && out == [] && expanded == [] && finds == {}
      modifies this
      ensures Distinct(expanded) && forall d: nat :: d in expanded <==> Reachable(graph, root, d)
      ensures Distinct(Keys(out))
      ensures forall f: nat :: f in Keys(out) <==> exists d: nat :: Reachable(graph, root, d) && GivesIn(graph, d, Keyed(f))
      ensures forall x | x in out :: FoundAt(graph, root, path, x)
      ensures forall d: nat, name | Reachable(graph, root, d) && GivesIn(graph, d, Blind(d, name)) ::
                BlindListed(graph, root, path, d, name, out)
      ensures ProperNames(graph) ==> forall x | x in out :: LocatedAt(graph, root, path, x)
      ensures ProperNames(graph) ==> forall d: nat, name | Reachable(graph, root, d) && GivesIn(graph, d, Blind(d, name)) ::
                BlindLocated(graph, root, path, d, name, out)
    {
      visited := {root};
      ReachableRoot(graph, root);
      NoTrail(graph, root, path);
      hide Complete, Reachable, Edge, GivesIn, FoundAt, BlindListed, LocatedAt, BlindLocated, ProperNames, Trail, Spell, Gives, Leads,
           Listing, Keys, Distinct;
      CollectAudio(root, path, root, path, []);
      forall d: nat
        ensures d in visited <==> Reachable(graph, root, d)
      {
        if Reachable(graph, root, d) { ReachableVisited(graph, root, visited, finds, d); }
      }
      if ProperNames(graph) { OutLocated(graph, root, path, out); }
    }
  }

  lemma NoTrail(g: Graph, root: nat, base: string)
    ensures base == Spell(base, []) && Trail(g, root, [], root)
  {
  }

  lemma OutLocated(g: Graph, root: nat, base: string, out: seq<Found>)
    requires ProperNames(g)
    ensures forall x | x in out && FoundAt(g, root, base, x) :: LocatedAt(g, root, base, x)
    ensures forall d: nat, name | GivesIn(g, d, Blind(d, name)) && BlindListed(g, root, base, d, name, out) ::
              BlindLocated(g, root, base, d, name, out)
  {
    hide FoundAt, BlindListed, LocatedAt, BlindLocated, ProperNames, GivesIn;
    forall x | x in out && FoundAt(g, root, base, x)
      ensures LocatedAt(g, root, base, x)
    {
      FoundLocated(g, root, base, x);
    }
    forall d: nat, name | GivesIn(g, d, Blind(d, name)) && BlindListed(g, root, base, d, name, out)
      ensures BlindLocated(g, root, base, d, name, out)
    {
      BlindNamed(g, d, name);
      BlindFoundLocated(g, root, base, d, name, out);
    }
  }

  lemma ReachableVisited(g: Graph, root: nat, visited: set<nat>, finds: set<Find>, d: nat)
    requires Reachable(g, root, d) && root in visited && forall v | v in visited :: Closed(g, v, visited, finds)
    ensures d in visited
  {
    hide Edge, Closed;
    var p: seq<nat> :| Path(g, p) && p[0] == root && p[|p| - 1] == d;
    PathStaysIn(g, visited, finds, p, |p| - 1);
  }

  lemma FewerLeft(all: set<nat>, visited: set<nat>, d: nat)
    requires d in all && d !in visited
    ensures |all - (visited + {d})| < |all - visited|
  {
    assert forall x :: x in all - (visited + {d}) <==> x in (all - visited) - {d};
    assert all - (visited + {d}) == (all - visited) - {d};
  }

  lemma NoMoreLeft(all: set<nat>, before: set<nat>, after: set<nat>)
    requires before <= after
    ensures |all - after| <= |all - before|
  {
    assert forall x :: x in all - after ==> x in all - before;
    SubsetSize(all - after, all - before);
  }

  lemma NothingHandled(d: nat, entries: seq<Entry>, visited: set<nat>, finds: set<Find>)
    ensures Handled(d, entries, 0, visited, finds)
  {
  }

  lemma NothingNew(g: Graph, visited: set<nat>, finds: set<Find>)
    ensures NewClosed(g, visited, visited, finds)
  {
  }
}
