/** The Go multi-RPC example's component generator
    (examples/go/go-multi-rpc/component-generator: `main` in main.go and
    `generate` in generator.go, the same program): it copies
    `component-template/component` into `components/<name>`, generating
    `main.go` and the component's WIT file with the placeholders replaced
    and copying every other file as it is. */
module GoGenerator {
  import opened Wrappers
  import opened Text
  import opened Disk
  import opened Catalog
  import opened Substitution
  import opened DashCase

  // ---------------------------------------------------------------------
  // `dashToPascal`

  /** `dashToPascal`: splits on `-`, capitalises each non-empty piece in
      place and joins the pieces with nothing between them. */
  method DashToPascal(s: string) returns (r: string)
    ensures r == PascalFromDashes(s)
  {
    var parts := Split(s, '-');
    ghost var original := parts;
    var i := 0;
    while i < |parts|
      invariant 0 <= i <= |parts| == |original|
      invariant forall j :: 0 <= j < i ==> parts[j] == UpperFirst(original[j])
      invariant forall j :: i <= j < |parts| ==> parts[j] == original[j]
    {
      if |parts[i]| > 0 {
        parts := parts[i := [ToUpperChar(parts[i][0])] + parts[i][1..]];
      }
      i := i + 1;
    }
    assert parts == Capitalized(original);
    r := Concat(parts);
  }

  // ---------------------------------------------------------------------
  // `generateFile`'s rewrite

  /** The replacements `generateFile` makes, in order. */
  function GoRules(org: string, name: string): (r: seq<Rule>)
    ensures TokensNonEmpty(r)
  {
    [Rule("comp-name", name), Rule("pck-ns", org),
     Rule("CompName", PascalFromDashes(name)), Rule("PckNs", PascalFromDashes(org))]
  }

  /** The contents of a generated file: the template's, rewritten step by
      step. */
  method RewriteContents(contents: string, org: string, name: string) returns (r: string)
    ensures r == ApplyRules(contents, GoRules(org, name))
  {
    var pascalOrg := DashToPascal(org);
    var pascalName := DashToPascal(name);
    ghost var rules := GoRules(org, name);
    r := ReplaceAll(contents, "comp-name", name);
    assert ApplyRules(contents, rules) == ApplyRules(r, rules[1..]);
    ghost var r1 := r;
    r := ReplaceAll(r, "pck-ns", org);
    assert ApplyRules(r1, rules[1..]) == ApplyRules(r, rules[2..]);
    ghost var r2 := r;
    r := ReplaceAll(r, "CompName", pascalName);
    assert ApplyRules(r2, rules[2..]) == ApplyRules(r, rules[3..]);
    ghost var r3 := r;
    r := ReplaceAll(r, "PckNs", pascalOrg);
    assert ApplyRules(r3, rules[3..]) == ApplyRules(r, rules[4..]);
  }

  /** Every placeholder holds a `p` or a `P`, so a text without either
      letter is generated as it is. */
  lemma RewriteWithoutP(contents: string, org: string, name: string)
    requires 'p' !in contents && 'P' !in contents
    ensures ApplyRules(contents, GoRules(org, name)) == contents
  {
    var rules := GoRules(org, name);
    forall i | 0 <= i < |rules| ensures !Contains(contents, rules[i].token) {
      if i == 0 {
        assert rules[i].token[3] == 'p';
        CharRulesOut(contents, rules[i].token, 'p');
      } else if i == 1 {
        assert rules[i].token[0] == 'p';
        CharRulesOut(contents, rules[i].token, 'p');
      } else if i == 2 {
        assert rules[i].token[3] == 'p';
        CharRulesOut(contents, rules[i].token, 'p');
      } else {
        assert rules[i].token[0] == 'P';
        CharRulesOut(contents, rules[i].token, 'P');
      }
    }
    ApplyRulesAbsent(contents, rules);
  }

  // ---------------------------------------------------------------------
  // Bytes and text

  /** Go's `string(bytes)`: one character per byte. */
  function AsText(b: Bytes): (r: string)
    ensures |r| == |b|
  {
    seq(|b|, i requires 0 <= i < |b| => (b[i] as int) as char)
  }

  /** Go's `[]byte(s)` for a string of bytes, each character one byte. A
      character beyond a byte keeps only its low byte here, where Go would
      write its UTF-8 encoding. */
  function AsBytes(s: string): (r: Bytes)
    ensures |r| == |s|
  {
    seq(|s|, i requires 0 <= i < |s| => (s[i] as int % 256) as byte)
  }

  /** Reading a file as text and writing the text back gives the same
      bytes. */
  lemma BytesRoundTrip(b: Bytes)
    ensures AsBytes(AsText(b)) == b
  {
  }

  // ---------------------------------------------------------------------
  // The walk

  /** The template the generator copies. */
  const TemplateRoot: Path := ["component-template", "component"]

  /** `filepath.Join("components", name)`: the empty name is dropped. */
  function ComponentDir(name: string): (r: Path)
    ensures |r| >= 1 && r[0] == "components"
    ensures name == "" <==> r == ["components"]
    ensures name != "" <==> r == ["components", name]
  {
    if name == "" then ["components"] else ["components", name]
  }

  /** What happens to the template entry at `rel`. */
  datatype Route = Skip | GenerateTo(dst: Path) | CopyTo(dst: Path)

  /** The routing rule of the walk: directories are skipped, `main.go` and
      `wit/component.wit` are generated, the latter as `wit/<name>.wit`,
      and every other file is copied to the same place. The walk's root
      `.` is the template directory itself and is skipped too. */
  function RouteOf(rel: Path, isDir: bool, name: string): (r: Route)
    ensures !r.Skip? ==> |r.dst| > |ComponentDir(name)| && ComponentDir(name) <= r.dst
  {
    if isDir || rel == [] then Skip
    else if rel == ["main.go"] then GenerateTo(ComponentDir(name) + rel)
    else if rel == ["wit", "component.wit"] then GenerateTo(ComponentDir(name) + ["wit", name + ".wit"])
    else CopyTo(ComponentDir(name) + rel)
  }

  /** The parent directory of a path of two components or more. */
  function Parent(p: Path): Path
    requires |p| >= 2
  {
    p[..|p| - 1]
  }

  /** What the walk does for one entry: create the destination's directory,
      then write the generated or copied contents. */
  function EntryActions(rel: Path, n: Node, org: string, name: string): seq<Action>
  {
    match RouteOf(rel, n.Dir?, name)
    case Skip => []
    case GenerateTo(dst) =>
      [MkDirAll(Parent(dst)), WriteFile(dst, AsBytes(ApplyRules(AsText(n.contents), GoRules(org, name))))]
    case CopyTo(dst) => [MkDirAll(Parent(dst)), WriteFile(dst, n.contents)]
  }

  /** The walk over the entries `visits`: each entry's actions in turn,
      stopping at the first that fails, with the path of the template file
      that failed. */
  function WalkRun(s: FsState, denied: set<Path>, visits: seq<(Path, Node)>, org: string, name: string)
    : (FsState, Option<(Path, Failure)>)
    decreases |visits|
  {
    if visits == [] then (s, None)
    else
      var (s1, e) := WalkRun(s, denied, visits[..|visits| - 1], org, name);
      if e.Some? then (s1, e)
      else
        var (rel, n) := visits[|visits| - 1];
        var (s2, o) := Run(s1, denied, EntryActions(rel, n, org, name));
        if o.Fail? then (s2, Some((TemplateRoot + rel, o.error))) else (s2, None)
  }

  /** How the generator ends. The usage text ends the program with status
      0; every other stop is an exit with status 1. */
  datatype Ending =
    | Generated
    | Usage(message: string)
    | AlreadyExists(message: string)
    | StatFailed(message: string)
    | CreateFailed(failure: Failure)
    | TemplateFailed(source: Path, failure: Failure)

  function ExitCode(e: Ending): int
  {
    if e.Generated? || e.Usage? then 0 else 1
  }

  const UsageLead: string := "Usage: "
  const UsageArgs: string := " <package-org> <component-name>"
  const ExistsLead: string := "Target component directory already exists: "

  /** The generator's whole run, for the arguments after the program
      name. `statError` is the error `os.Stat` reports for a component
      directory that is not there, when it is not "does not exist" (a
      directory on the way that cannot be searched, say). */
  function GenerateRun(s: FsState, denied: set<Path>, program: string, args: seq<string>, template: Node,
                       statError: Option<string>): (FsState, Ending)
  {
    if |args| != 2 then (s, Usage(UsageLead + program + UsageArgs))
    else
      var org := args[0];
      var name := args[1];
      if Exists(s, ComponentDir(name)) then
        (s, AlreadyExists(ExistsLead + Shown(ComponentDir(name))))
      else if statError.Some? then
        (s, StatFailed(statError.value))
      else
        var (s1, o) := Step(s, denied, MkDirAll(ComponentDir(name)));
        if o.Fail? then (s1, CreateFailed(o.error))
        else
          var (s2, e) := WalkRun(s1, denied, Visit(template, []), org, name);
          if e.Some? then (s2, TemplateFailed(e.value.0, e.value.1)) else (s2, Generated)
  }

  /** `generateFile`. */
  method GenerateFile(fs: FileSystem, org: string, name: string, contents: Bytes, dst: Path) returns (o: Outcome<Failure>)
    requires |dst| >= 2
    modifies fs
    ensures (fs.State(), o) == Run(old(fs.State()), fs.denied,
      [MkDirAll(Parent(dst)), WriteFile(dst, AsBytes(ApplyRules(AsText(contents), GoRules(org, name))))])
  {
    var text := RewriteContents(AsText(contents), org, name);
    RunPair(fs.State(), fs.denied, MkDirAll(Parent(dst)), WriteFile(dst, AsBytes(text)));
    o := fs.CreateDirAll(Parent(dst));
    if o.Fail? {
      return;
    }
    o := fs.WriteFile(dst, AsBytes(text));
  }

  /** `copyFile`. */
  method CopyFile(fs: FileSystem, contents: Bytes, dst: Path) returns (o: Outcome<Failure>)
    requires |dst| >= 2
    modifies fs
    ensures (fs.State(), o) == Run(old(fs.State()), fs.denied, [MkDirAll(Parent(dst)), WriteFile(dst, contents)])
  {
    RunPair(fs.State(), fs.denied, MkDirAll(Parent(dst)), WriteFile(dst, contents));
    o := fs.CreateDirAll(Parent(dst));
    if o.Fail? {
      return;
    }
    o := fs.WriteFile(dst, contents);
  }

  /** The `WalkDir` callback for one entry. */
  method GenerateEntry(fs: FileSystem, rel: Path, n: Node, org: string, name: string) returns (o: Outcome<Failure>)
    modifies fs
    ensures (fs.State(), o) == Run(old(fs.State()), fs.denied, EntryActions(rel, n, org, name))
  {
    var route := RouteOf(rel, n.Dir?, name);
    if route.Skip? {
      return Pass;
    } else if route.GenerateTo? {
      o := GenerateFile(fs, org, name, n.contents, route.dst);
    } else {
      o := CopyFile(fs, n.contents, route.dst);
    }
  }

  /** `main` (and `generate`): check the arguments, refuse an existing
      component, create its directory and walk the template. */
  method Generate(fs: FileSystem, program: string, args: seq<string>, template: Node, statError: Option<string>)
    returns (r: Ending)
    modifies fs
    ensures (fs.State(), r) == GenerateRun(old(fs.State()), fs.denied, program, args, template, statError)
  {
    if |args| != 2 {
      return Usage(UsageLead + program + UsageArgs);
    }
    var org := args[0];
    var name := args[1];
    var componentDir := ComponentDir(name);
    if componentDir in fs.dirs || componentDir in fs.files {
      return AlreadyExists(ExistsLead + Shown(componentDir));
    }
    if statError.Some? {
      return StatFailed(statError.value);
    }
    var o := fs.CreateDirAll(componentDir);
    if o.Fail? {
      return CreateFailed(o.error);
    }
    var visits := Visit(template, []);
    var failed := WalkTemplate(fs, visits, org, name);
    if failed.Some? {
      return TemplateFailed(failed.value.0, failed.value.1);
    }
    return Generated;
  }

  /** The walk of the template: each entry in the order visited, up to the
      first that fails. */
  method WalkTemplate(fs: FileSystem, visits: seq<(Path, Node)>, org: string, name: string)
    returns (failed: Option<(Path, Failure)>)
    modifies fs
    ensures (fs.State(), failed) == WalkRun(old(fs.State()), fs.denied, visits, org, name)
  {
    ghost var s1 := fs.State();
    var i := 0;
    while i < |visits|
      invariant 0 <= i <= |visits|
      invariant WalkRun(s1, fs.denied, visits[..i], org, name) == (fs.State(), None)
    {
      var o := WalkEntry(fs, s1, visits, i, org, name);
      if o.Fail? {
        WalkStops(s1, fs.denied, visits, i + 1, org, name);
        assert visits[..|visits|] == visits;
        return Some((TemplateRoot + visits[i].0, o.error));
      }
      i := i + 1;
    }
    assert visits[..i] == visits;
    return None;
  }

  /** One entry of the walk, after the entries before it went through. */
  method WalkEntry(fs: FileSystem, ghost s1: FsState, visits: seq<(Path, Node)>, i: nat, org: string, name: string)
    returns (o: Outcome<Failure>)
    requires i < |visits|
    requires WalkRun(s1, fs.denied, visits[..i], org, name) == (fs.State(), None)
    modifies fs
    ensures o.Pass? ==> WalkRun(s1, fs.denied, visits[..i + 1], org, name) == (fs.State(), None)
    ensures (o.Fail? ==>
      WalkRun(s1, fs.denied, visits[..i + 1], org, name) == (fs.State(), Some((TemplateRoot + visits[i].0, o.error))))
  {
    assert visits[..i + 1][..i] == visits[..i];
    var (rel, n) := visits[i];
    o := GenerateEntry(fs, rel, n, org, name);
  }

  /** Once a file fails, the rest of the walk is not done. */
  lemma WalkStops(s: FsState, denied: set<Path>, visits: seq<(Path, Node)>, i: nat, org: string, name: string)
    requires i <= |visits| && WalkRun(s, denied, visits[..i], org, name).1.Some?
    ensures WalkRun(s, denied, visits[..|visits|], org, name) == WalkRun(s, denied, visits[..i], org, name)
    decreases |visits| - i
  {
    if i < |visits| {
      assert visits[..i + 1][..i] == visits[..i];
      WalkStops(s, denied, visits, i + 1, org, name);
    }
  }

  // ---------------------------------------------------------------------
  // Properties

  /** All actions of the walk, one entry after the other. */
  function WalkActions(visits: seq<(Path, Node)>, org: string, name: string): seq<Action>
    decreases |visits|
  {
    if visits == [] then []
    else WalkActions(visits[..|visits| - 1], org, name) + EntryActions(visits[|visits| - 1].0, visits[|visits| - 1].1, org, name)
  }

  /** The walk has the effect of running all its actions; it fails exactly
      when they do, with their failure, naming a template file. */
  lemma {:induction false} WalkIsRun(s: FsState, denied: set<Path>, visits: seq<(Path, Node)>, org: string, name: string)
    ensures WalkRun(s, denied, visits, org, name).0 == Run(s, denied, WalkActions(visits, org, name)).0
    ensures WalkRun(s, denied, visits, org, name).1.None? <==> Run(s, denied, WalkActions(visits, org, name)).1.Pass?
    ensures WalkRun(s, denied, visits, org, name).1.Some? ==>
      Run(s, denied, WalkActions(visits, org, name)).1 == Fail(WalkRun(s, denied, visits, org, name).1.value.1) &&
      exists k :: 0 <= k < |visits| && WalkRun(s, denied, visits, org, name).1.value.0 == TemplateRoot + visits[k].0 && visits[k].1.File?
    decreases |visits|
  {
    if visits != [] {
      var init := visits[..|visits| - 1];
      var last := visits[|visits| - 1];
      WalkIsRun(s, denied, init, org, name);
      RunAppend(s, denied, WalkActions(init, org, name), EntryActions(last.0, last.1, org, name));
      var (s1, e) := WalkRun(s, denied, init, org, name);
      if e.Some? {
        var k :| 0 <= k < |init| && e.value.0 == TemplateRoot + init[k].0 && init[k].1.File?;
        assert visits[k] == init[k];
      } else {
        assert visits[|visits| - 1] == last;
      }
    }
  }

  lemma {:induction false} WalkActionsInside(visits: seq<(Path, Node)>, org: string, name: string)
    ensures Inside(WalkActions(visits, org, name), ComponentDir(name))
    decreases |visits|
  {
    if visits != [] {
      WalkActionsInside(visits[..|visits| - 1], org, name);
    }
  }

  /** The generator writes nothing outside `components/<name>`: files
      elsewhere are as they were, and the only new directories elsewhere
      are `components` itself. */
  lemma GenerateInside(s: FsState, denied: set<Path>, program: string, args: seq<string>, template: Node,
                       statError: Option<string>)
    requires |args| == 2
    ensures var s' := GenerateRun(s, denied, program, args, template, statError).0;
      (forall q :: !(ComponentDir(args[1]) <= q) ==> (q in s'.files <==> q in s.files) && (q in s.files ==> s'.files[q] == s.files[q])) &&
      (forall q :: q in s'.dirs && q !in s.dirs ==> q <= ComponentDir(args[1]) || ComponentDir(args[1]) <= q)
  {
    var name := args[1];
    var visits := Visit(template, []);
    var plan := [MkDirAll(ComponentDir(name))] + WalkActions(visits, args[0], name);
    WalkActionsInside(visits, args[0], name);
    assert Inside(plan, ComponentDir(name));
    RunInside(s, denied, plan, ComponentDir(name));
    var (s1, o) := Step(s, denied, MkDirAll(ComponentDir(name)));
    RunAppend(s, denied, [MkDirAll(ComponentDir(name))], WalkActions(visits, args[0], name));
    WalkIsRun(s1, denied, visits, args[0], name);
  }

  /** With the wrong number of arguments, an existing component or a
      failing `os.Stat`, nothing is written; only the usage text exits with
      status 0. */
  lemma RefusalWritesNothing(s: FsState, denied: set<Path>, program: string, args: seq<string>, template: Node,
                             statError: Option<string>)
    requires |args| != 2 || Exists(s, ComponentDir(args[1])) || statError.Some?
    ensures GenerateRun(s, denied, program, args, template, statError).0 == s
    ensures ExitCode(GenerateRun(s, denied, program, args, template, statError).1) == (if |args| != 2 then 0 else 1)
  {
  }

  /** The empty component name names `components` itself, so once that
      directory exists the generator refuses, naming it. */
  lemma EmptyNameRefused(s: FsState, denied: set<Path>, program: string, org: string, template: Node,
                         statError: Option<string>)
    requires ["components"] in s.dirs
    ensures GenerateRun(s, denied, program, [org, ""], template, statError) ==
      (s, AlreadyExists("Target component directory already exists: components"))
  {
    assert ComponentDir("") == ["components"];
    assert Exists(s, ComponentDir(""));
    assert Shown(["components"]) == "components";
    assert ExistsLead + "components" == "Target component directory already exists: components";
  }

  /** `main.go` keeps its place and the WIT file takes the component's
      name; every other file keeps its place. */
  lemma Routing(rel: Path, name: string)
    requires rel != []
    ensures RouteOf(rel, false, name).dst ==
      if rel == ["wit", "component.wit"] then ComponentDir(name) + ["wit", name + ".wit"] else ComponentDir(name) + rel
    ensures RouteOf(rel, false, name).GenerateTo? <==> rel == ["main.go"] || rel == ["wit", "component.wit"]
  {
  }
}
