/** The build script of the TypeScript multi-RPC example
    (examples/ts/ts-multi-rpc/build.ts): generating a new component from
    the template, composing a component with the stubs of the components
    it calls, and updating the RPC stubs. Paths are sequences of
    components; `out`, `src/components` and `pack-ns` are the example's
    configuration. */
module TsBuild {
  import opened Wrappers
  import opened Text
  import opened Disk
  import opened Substitution
  import opened DashCase
  import opened Deps
  import opened Compose
  import opened BuildTools

  const PckNs: string := "pack-ns"
  const OutDir: Path := ["out"]
  const ComponentsDir: Path := ["src", "components"]

  /** `src/components/<name>`. */
  function ComponentDir(name: string): Path
  {
    ComponentsDir + [name]
  }

  /** `path.join(componentsDir, name)` for the name given on the command
      line, which may be empty: `path.join` drops the empty name. Names
      read from the components directory are never empty, and for them
      this is `ComponentDir`. */
  function TargetDir(name: string): (r: Path)
    ensures name != "" ==> r == ComponentDir(name)
    ensures name == "" ==> r == ComponentsDir
  {
    if name == "" then ComponentsDir else ComponentDir(name)
  }

  // ---------------------------------------------------------------------
  // `getComponentNameFromArgs`

  const ArgCountLead: string := "generateNewComponents expected exactly one argument (component-name), got: ["

  /** The one argument, or the error thrown for any other number of
      arguments. */
  function ComponentNameFromArgs(args: seq<string>): (r: Result<string, string>)
    ensures r.Ok? <==> |args| == 1
    ensures r.Ok? ==> r.value == args[0]
    ensures r.Err? ==>
      r.error == ArgCountLead + Join(args, ", ") + "]"
  {
    if |args| != 1 then
      Err(ArgCountLead + Join(args, ", ") + "]")
    else Ok(args[0])
  }

  // ---------------------------------------------------------------------
  // The template rewrite of `generateNewComponents`

  /** The replacements made in a template file, in order. */
  function TemplateRules(name: string): (r: seq<Rule>)
    ensures TokensNonEmpty(r)
  {
    [Rule("pck-ns", PckNs), Rule("comp-name", name),
     Rule("componentName", CamelFromDashes(name)), Rule("CompName", PascalFromDashes(name))]
  }

  /** The template text, reassigned after each replacement. */
  method RewriteTemplate(template: string, name: string) returns (r: string)
    ensures r == ApplyRules(template, TemplateRules(name))
  {
    var componentNamePascal := PascalFromDashes(name);
    var componentNameCamel := LowerFirst(componentNamePascal);
    ghost var rules := TemplateRules(name);
    r := ReplaceAll(template, "pck-ns", PckNs);
    assert ApplyRules(template, rules) == ApplyRules(r, rules[1..]);
    ghost var r1 := r;
    r := ReplaceAll(r, "comp-name", name);
    assert ApplyRules(r1, rules[1..]) == ApplyRules(r, rules[2..]);
    ghost var r2 := r;
    r := ReplaceAll(r, "componentName", componentNameCamel);
    assert ApplyRules(r2, rules[2..]) == ApplyRules(r, rules[3..]);
    ghost var r3 := r;
    r := ReplaceAll(r, "CompName", componentNamePascal);
    assert ApplyRules(r3, rules[3..]) == ApplyRules(r, rules[4..]);
  }

  /** Every placeholder holds a `p`, so a text without one is written as
      it is. */
  lemma TemplateWithoutP(template: string, name: string)
    requires 'p' !in template
    ensures ApplyRules(template, TemplateRules(name)) == template
  {
    var rules := TemplateRules(name);
    forall i | 0 <= i < |rules| ensures !Contains(template, rules[i].token) {
      if i == 0 {
        assert rules[i].token[0] == 'p';
      } else if i == 1 || i == 3 {
        assert rules[i].token[3] == 'p';
      } else {
        assert rules[i].token[3] == 'p';
      }
      CharRulesOut(template, rules[i].token, 'p');
    }
    ApplyRulesAbsent(template, rules);
  }

  /** The placeholder `CompName` becomes the Pascal-case name: the earlier
      placeholders do not occur in it. */
  lemma CompNameBecomesPascal(name: string)
    ensures ApplyRules("CompName", TemplateRules(name)) == PascalFromDashes(name)
  {
    var rules := TemplateRules(name);
    var t := "CompName";
    assert forall i :: 0 <= i < 3 ==> !Contains(t, rules[i].token) by {
      EarlierTokensNotInCompName();
    }
    assert ReplaceAll(t, rules[3].token, rules[3].rendering) == PascalFromDashes(name) by {
      ReplaceAllWhole(t, PascalFromDashes(name));
    }
    OnlyRuleApplies(t, rules, 3, PascalFromDashes(name));
  }

  lemma EarlierTokensNotInCompName()
    ensures !Contains("CompName", "pck-ns") && !Contains("CompName", "comp-name")
    ensures !Contains("CompName", "componentName")
  {
    CharRulesOut("CompName", "pck-ns", '-');
    CharRulesOut("CompName", "comp-name", '-');
    CharRulesOut("CompName", "componentName", 't');
  }

  /** The placeholder `pck-ns` becomes the package namespace, in which no
      later placeholder occurs. */
  lemma PckNsBecomesNamespace(name: string)
    ensures ApplyRules("pck-ns", TemplateRules(name)) == PckNs
  {
    var rules := TemplateRules(name);
    assert forall i :: 1 <= i < 4 ==> !Contains(PckNs, rules[i].token) by {
      LaterTokensNotInNamespace();
    }
    assert ReplaceAll("pck-ns", rules[0].token, rules[0].rendering) == PckNs by {
      ReplaceAllWhole("pck-ns", PckNs);
    }
    OnlyRuleApplies("pck-ns", rules, 0, PckNs);
  }

  lemma LaterTokensNotInNamespace()
    ensures !Contains(PckNs, "comp-name") && !Contains(PckNs, "componentName") && !Contains(PckNs, "CompName")
  {
    CharRulesOut(PckNs, "comp-name", 'o');
    CharRulesOut(PckNs, "componentName", 'o');
    CharRulesOut(PckNs, "CompName", 'C');
  }

  // ---------------------------------------------------------------------
  // Output names

  const TemplateSuffix: string := ".template"

  predicate EndsWith(s: string, suffix: string)
  {
    |suffix| <= |s| && s[|s| - |suffix|..] == suffix
  }

  /** The name a file is written under: a name ending in `.template` loses
      every `.template` it holds; any other name is kept. */
  function TargetName(n: string): (r: string)
    ensures !EndsWith(n, TemplateSuffix) ==> r == n
  {
    if EndsWith(n, TemplateSuffix) then ReplaceAll(n, TemplateSuffix, "") else n
  }

  /** A name `<stem>.template` in which `.template` starts nowhere before
      the suffix is written as `<stem>`. */
  lemma TemplateSuffixDropped(stem: string)
    requires forall p :: 0 <= p < |stem| ==> !OccursAt(stem + TemplateSuffix, TemplateSuffix, p)
    ensures EndsWith(stem + TemplateSuffix, TemplateSuffix)
    ensures ReplaceAll(stem + TemplateSuffix, TemplateSuffix, "") == stem
    ensures TargetName(stem + TemplateSuffix) == stem
  {
    assert (stem + TemplateSuffix)[|stem|..] == TemplateSuffix;
    SuffixDropped(stem, TemplateSuffix);
  }

  /** Removing every `t` from `stem + t`, where `t` starts nowhere in the
      stem, leaves the stem. */
  lemma {:induction false} SuffixDropped(stem: string, t: string)
    requires t != []
    requires forall p :: 0 <= p < |stem| ==> !OccursAt(stem + t, t, p)
    ensures ReplaceAll(stem + t, t, "") == stem
  {
    var s := stem + t;
    if stem == [] {
      assert s == t;
      ReplaceAllWhole(t, "");
    } else {
      assert !OccursAt(s, t, 0);
      assert s[..|t|] != t;
      assert s[1..] == stem[1..] + t;
      SuffixShifted(stem, t);
      SuffixDropped(stem[1..], t);
      assert [s[0]] + stem[1..] == stem;
    }
  }

  /** No occurrence before the suffix in `stem + t` means none in the
      string with the first character removed. */
  lemma SuffixShifted(stem: string, t: string)
    requires stem != []
    requires forall p :: 0 <= p < |stem| ==> !OccursAt(stem + t, t, p)
    ensures forall p :: 0 <= p < |stem| - 1 ==> !OccursAt(stem[1..] + t, t, p)
  {
    var s := stem + t;
    var r := stem[1..] + t;
    assert s[1..] == r;
    forall p | 0 <= p < |stem| - 1 ensures !OccursAt(r, t, p) {
      assert !OccursAt(s, t, p + 1);
      if p + |t| <= |r| {
        SliceOfTail(s, p, |t|);
      }
    }
  }

  /** A slice of `s[1..]` is the slice of `s` one position further on. */
  lemma SliceOfTail(s: string, p: nat, n: nat)
    requires 1 + p + n <= |s|
    ensures s[1..][p..p + n] == s[p + 1..p + 1 + n]
  {
    var a := s[1..][p..p + n];
    var b := s[p + 1..p + 1 + n];
    assert forall k :: 0 <= k < n ==> a[k] == b[k];
  }

  /** A stem without a dot qualifies. */
  lemma DotlessStem(stem: string)
    requires '.' !in stem
    ensures forall p :: 0 <= p < |stem| ==> !OccursAt(stem + TemplateSuffix, TemplateSuffix, p)
  {
    FirstCharAbsent(stem, TemplateSuffix);
  }

  /** A pattern whose first character is not in the stem starts nowhere
      in it. */
  lemma FirstCharAbsent(stem: string, t: string)
    requires t != [] && t[0] !in stem
    ensures forall p :: 0 <= p < |stem| ==> !OccursAt(stem + t, t, p)
  {
    var s := stem + t;
    forall p | 0 <= p < |stem| ensures !OccursAt(s, t, p) {
      assert s[p] == stem[p];
      if p + |t| <= |s| {
        assert s[p..p + |t|][0] == s[p];
      }
    }
  }

  // ---------------------------------------------------------------------
  // `generateNewComponents`

  /** An entry of the recursive `readdirSync` listing of the template: the
      directory it is in, relative to the template, its name, whether it
      is a directory and, for a file, its bytes. */
  datatype Entry = Entry(parent: Path, name: string, isDir: bool, contents: Bytes)

  /** `toString` on a buffer and `Buffer.from` on a string: UTF-8
      decoding, which replaces malformed input instead of failing, and
      encoding. */
  datatype TextCodec = TextCodec(decode: Bytes -> string, encode: string -> Bytes)

  /** Where an entry is created: at its place below the component
      directory, under its output name. */
  function EntryTarget(dir: Path, e: Entry): (r: Path)
    ensures dir <= r && |r| == |dir| + |e.parent| + 1
  {
    dir + e.parent + [if e.isDir then e.name else TargetName(e.name)]
  }

  /** What is done for one entry: a directory is created, a template is
      rewritten, any other file is copied as it is. */
  function EntryAction(dir: Path, e: Entry, name: string, codec: TextCodec): Action
  {
    if e.isDir then MkDir(EntryTarget(dir, e))
    else if EndsWith(e.name, TemplateSuffix) then
      WriteFile(EntryTarget(dir, e), codec.encode(ApplyRules(codec.decode(e.contents), TemplateRules(name))))
    else WriteFile(EntryTarget(dir, e), e.contents)
  }

  /** The component directory, then every entry in the order listed. */
  function GeneratePlan(dir: Path, entries: seq<Entry>, name: string, codec: TextCodec): (r: seq<Action>)
    ensures |r| == |entries| + 1 && r[0] == MkDirAll(dir)
    ensures forall i :: 0 <= i < |entries| ==> r[i + 1] == EntryAction(dir, entries[i], name, codec)
  {
    [MkDirAll(dir)] + seq(|entries|, i requires 0 <= i < |entries| => EntryAction(dir, entries[i], name, codec))
  }

  /** What the script throws: an error of its own, or a file system
      error. */
  datatype Thrown = Thrown(message: string) | FsError(failure: Failure)

  /** The whole of `generateNewComponents`. */
  function GenerateRun(s: FsState, denied: set<Path>, args: seq<string>, entries: seq<Entry>, codec: TextCodec)
    : (FsState, Outcome<Thrown>)
  {
    match ComponentNameFromArgs(args)
    case Err(m) => (s, Fail(Thrown(m)))
    case Ok(name) =>
      var dir := TargetDir(name);
      if Exists(s, dir) then (s, Fail(Thrown(Shown(dir) + " already exists!")))
      else
        var (s1, o) := Run(s, denied, GeneratePlan(dir, entries, name, codec));
        (s1, if o.Fail? then Fail(FsError(o.error)) else Pass)
  }

  /** `generateNewComponents`, over the listing of the template. */
  method GenerateNewComponents(fs: FileSystem, args: seq<string>, entries: seq<Entry>, codec: TextCodec)
    returns (o: Outcome<Thrown>)
    modifies fs
    ensures (fs.State(), o) == GenerateRun(old(fs.State()), fs.denied, args, entries, codec)
  {
    var nameOrError := ComponentNameFromArgs(args);
    if nameOrError.Err? {
      return Fail(Thrown(nameOrError.error));
    }
    var name := nameOrError.value;
    var dir := TargetDir(name);
    if dir in fs.dirs || dir in fs.files {
      return Fail(Thrown(Shown(dir) + " already exists!"));
    }
    ghost var s0 := fs.State();
    ghost var plan := GeneratePlan(dir, entries, name, codec);
    var r := fs.CreateDirAll(dir);
    assert plan[..1] == [MkDirAll(dir)];
    RunSingle(s0, fs.denied, MkDirAll(dir));
    if r.Fail? {
      RunPrefixFails(s0, fs.denied, plan[..1], plan);
      return Fail(FsError(r.error));
    }
    r := WriteEntries(fs, dir, entries, name, codec, s0, plan);
    if r.Fail? {
      return Fail(FsError(r.error));
    }
    return Pass;
  }

  /** The loop of `generateNewComponents` over the listing, after the
      component directory is made. */
  method WriteEntries(fs: FileSystem, dir: Path, entries: seq<Entry>, name: string, codec: TextCodec,
                      ghost s0: FsState, ghost plan: seq<Action>)
    returns (r: Outcome<Failure>)
    requires plan == GeneratePlan(dir, entries, name, codec)
    requires Run(s0, fs.denied, plan[..1]) == (fs.State(), Pass)
    modifies fs
    ensures (fs.State(), r) == Run(s0, fs.denied, plan)
  {
    for i := 0 to |entries|
      invariant Run(s0, fs.denied, plan[..i + 1]) == (fs.State(), Pass)
    {
      ghost var mid := fs.State();
      r := WriteEntry(fs, dir, entries[i], name, codec);
      assert plan[..i + 2] == plan[..i + 1] + [plan[i + 1]];
      RunStep(s0, fs.denied, plan[..i + 1], [plan[i + 1]], plan, mid, (fs.State(), r));
      if r.Fail? {
        return;
      }
    }
    assert plan[..|entries| + 1] == plan;
    r := Pass;
  }

  /** One entry of the listing: a directory made, a template rewritten or
      a file copied. */
  method WriteEntry(fs: FileSystem, dir: Path, e: Entry, name: string, codec: TextCodec) returns (r: Outcome<Failure>)
    modifies fs
    ensures (fs.State(), r) == Run(old(fs.State()), fs.denied, [EntryAction(dir, e, name, codec)])
  {
    RunSingle(fs.State(), fs.denied, EntryAction(dir, e, name, codec));
    var target := EntryTarget(dir, e);
    if e.isDir {
      r := fs.CreateDir(target);
    } else if EndsWith(e.name, TemplateSuffix) {
      var template := RewriteTemplate(codec.decode(e.contents), name);
      r := fs.WriteFile(target, codec.encode(template));
    } else {
      r := fs.WriteFile(target, e.contents);
    }
  }

  /** With the wrong number of arguments, or a component directory that
      already exists, nothing is created and the script throws. */
  lemma GenerateRefusals(s: FsState, denied: set<Path>, args: seq<string>, entries: seq<Entry>, codec: TextCodec)
    requires |args| != 1 || Exists(s, TargetDir(args[0]))
    ensures GenerateRun(s, denied, args, entries, codec).0 == s
    ensures GenerateRun(s, denied, args, entries, codec).1.Fail?
    ensures |args| == 1 ==>
      GenerateRun(s, denied, args, entries, codec).1.error == Thrown(Shown(TargetDir(args[0])) + " already exists!")
  {
  }

  /** The empty name names `src/components` itself, which holds every
      component; once that directory exists, the script refuses and
      names it. */
  lemma EmptyNameRefused(s: FsState, denied: set<Path>, entries: seq<Entry>, codec: TextCodec)
    requires ComponentsDir in s.dirs
    ensures GenerateRun(s, denied, [""], entries, codec) == (s, Fail(Thrown("src/components already exists!")))
  {
    assert TargetDir("") == ["src", "components"];
    assert Shown(["src", "components"]) == "src/components";
    assert "src/components" + " already exists!" == "src/components already exists!";
  }

  /** Nothing is written outside `src/components/<name>`: files elsewhere
      are as they were, and the only new directories elsewhere lead to
      it. */
  lemma GenerateInside(s: FsState, denied: set<Path>, name: string, entries: seq<Entry>, codec: TextCodec)
    ensures var s' := GenerateRun(s, denied, [name], entries, codec).0;
      (forall q :: !(TargetDir(name) <= q) ==>
        (q in s'.files <==> q in s.files) && (q in s.files ==> s'.files[q] == s.files[q])) &&
      (forall q :: q in s'.dirs && q !in s.dirs ==> q <= TargetDir(name) || TargetDir(name) <= q)
  {
    var dir := TargetDir(name);
    var plan := GeneratePlan(dir, entries, name, codec);
    assert Inside(plan, dir) by {
      forall k | 0 <= k < |plan| && !plan[k].Abort? ensures dir <= plan[k].path {
        if k > 0 {
          assert plan[k] == EntryAction(dir, entries[k - 1], name, codec);
        }
      }
    }
    RunInside(s, denied, plan, dir);
  }

  /** After a complete run, a template file holds its rewritten text under
      its output name, and any other file its own bytes, unless a later
      entry is written at the same place. */
  lemma GeneratedFile(s: FsState, denied: set<Path>, name: string, entries: seq<Entry>, codec: TextCodec, i: nat)
    requires GenerateRun(s, denied, [name], entries, codec).1.Pass?
    requires i < |entries| && !entries[i].isDir
    requires forall j :: i < j < |entries| && !entries[j].isDir ==>
      EntryTarget(TargetDir(name), entries[j]) != EntryTarget(TargetDir(name), entries[i])
    ensures var s' := GenerateRun(s, denied, [name], entries, codec).0;
      var e := entries[i];
      var target := TargetDir(name) + e.parent + [TargetName(e.name)];
      target in s'.files &&
      s'.files[target] ==
        if EndsWith(e.name, TemplateSuffix) then codec.encode(ApplyRules(codec.decode(e.contents), TemplateRules(name)))
        else e.contents
  {
    var dir := TargetDir(name);
    var plan := GeneratePlan(dir, entries, name, codec);
    assert !Exists(s, dir);
    forall j | i + 1 < j < |plan| && plan[j].WriteFile? ensures plan[j].path != plan[i + 1].path {
      assert plan[j] == EntryAction(dir, entries[j - 1], name, codec);
    }
    RunLastWrite(s, denied, plan, i + 1);
  }

  /** After a complete run, every directory of the template is there. */
  lemma GeneratedDirectory(s: FsState, denied: set<Path>, name: string, entries: seq<Entry>, codec: TextCodec, i: nat)
    requires GenerateRun(s, denied, [name], entries, codec).1.Pass?
    requires i < |entries| && entries[i].isDir
    ensures TargetDir(name) + entries[i].parent + [entries[i].name] in GenerateRun(s, denied, [name], entries, codec).0.dirs
  {
    var plan := GeneratePlan(TargetDir(name), entries, name, codec);
    assert !Exists(s, TargetDir(name));
    RunMadeDir(s, denied, plan, i + 1);
  }

  // ---------------------------------------------------------------------
  // `stubCompose`

  /** `out/stub/<dep>/stub.wasm`. */
  function StubWasm(dep: string): Path
  {
    OutDir + ["stub", dep, "stub.wasm"]
  }

  function StubWasms(deps: seq<string>): (r: seq<Path>)
    ensures |r| == |deps| && forall i :: 0 <= i < |deps| ==> r[i] == StubWasm(deps[i])
  {
    seq(|deps|, i requires 0 <= i < |deps| => StubWasm(deps[i]))
  }

  /** `out/build/<component>`. */
  function BuildDir(component: string): Path
  {
    OutDir + ["build", component]
  }

  function ComponentWasm(component: string): Path
  {
    BuildDir(component) + ["component.wasm"]
  }

  /** `out/components/<component>.wasm`, the composed result. */
  function TargetWasm(component: string): Path
  {
    OutDir + ["components", component + ".wasm"]
  }

  function ComposeDests(component: string, deps: seq<string>): (r: seq<Path>)
    ensures |r| == |deps|
    ensures forall i :: 0 <= i < |deps| ==> r[i] == BuildDir(component) + [ComposeName(i + 1, deps[i])]
  {
    seq(|deps|, i requires 0 <= i < |deps| => BuildDir(component) + [ComposeName(i + 1, deps[i])])
  }

  /** How `runCapture` reports the run of `golem-cli stubgen compose`:
      the exit code (`null` when there is none), the output, and the
      command line. */
  datatype Capture = Capture(code: Option<nat>, stdout: string, stderr: string, cmd: string)

  /** The tool, run on the current file, a stub and the destination. */
  type Composer = (Path, Path, Path) -> Capture

  function CodeText(code: Option<nat>): string
  {
    match code
    case None => "null"
    case Some(c) => NatToString(c)
  }

  /** How a step ends: exit code 0 composes, the unused-stub message
      skips the stub, and anything else fails. */
  function Classify(c: Capture): (r: StepResult)
    ensures r.Composed? <==> c.code == Some(0)
    ensures r.Unused? <==> c.code != Some(0) && UnusedStub(c.stderr)
    ensures r.Broken? ==> r.message == "Command [" + c.cmd + "] failed with code: " + CodeText(c.code)
  {
    if c.code == Some(0) then Composed
    else if UnusedStub(c.stderr) then Unused
    else Broken("Command [" + c.cmd + "] failed with code: " + CodeText(c.code))
  }

  function Lift(run: Composer): Tool
  {
    (src, stub, dst) => Classify(run(src, stub, dst))
  }

  /** The `run` callback of `stubCompose` up to its final copy: the file
      to copy, or the error thrown. */
  method ComposeStubs(component: string, deps: seq<string>, run: Composer) returns (r: Result<Path, string>)
    ensures r == Chain(ComponentWasm(component), StubWasms(deps), ComposeDests(component, deps), Lift(run), |deps|)
  {
    ghost var stubs := StubWasms(deps);
    ghost var dests := ComposeDests(component, deps);
    var componentWasm := ComponentWasm(component);
    var composeWasm := componentWasm;
    var srcWasm := componentWasm;
    var i := 0;
    while i < |deps|
      invariant 0 <= i <= |deps|
      invariant srcWasm == composeWasm
      invariant Chain(componentWasm, stubs, dests, Lift(run), i) == Ok(composeWasm)
    {
      var stubWasm := StubWasm(deps[i]);
      i := i + 1;
      var prevComposeWasm := composeWasm;
      composeWasm := BuildDir(component) + [ComposeName(i, deps[i - 1])];
      var result := run(srcWasm, stubWasm, composeWasm);
      if result.code != Some(0) {
        if UnusedStub(result.stderr) {
          composeWasm := prevComposeWasm;
          continue;
        }
        ChainStaysFailed(componentWasm, stubs, dests, Lift(run), i, |deps|);
        return Err("Command [" + result.cmd + "] failed with code: " + CodeText(result.code));
      }
      srcWasm := composeWasm;
    }
    return Ok(composeWasm);
  }

  /** The dependencies listed for `c` (the first entry of that name), none
      when it has no entry. */
  function DepsOf(deps: DependencyList, c: string): (r: seq<string>)
    ensures (forall k :: 0 <= k < |deps| ==> deps[k].0 != c) ==> r == []
    ensures forall k :: 0 <= k < |deps| && deps[k].0 == c && (forall j :: 0 <= j < k ==> deps[j].0 != c) ==> r == deps[k].1
  {
    if deps == [] then []
    else if deps[0].0 == c then deps[0].1
    else
      assert forall k :: 1 <= k < |deps| ==> deps[1..][k - 1] == deps[k];
      DepsOf(deps[1..], c)
  }

  /** The task of `stubCompose`: the composed file depends on the
      component and on every stub. */
  function ComposeTask(component: string, deps: seq<string>): Task
  {
    var stubs := StubWasms(deps);
    Task("Composing stubs [" + Join(seq(|stubs|, i requires 0 <= i < |stubs| => Shown(stubs[i])), ", ") +
         "] into component: " + component,
         "stub compose", [TargetWasm(component)], [ComponentWasm(component)] + stubs)
  }

  /** How `stubCompose` ends: the file copied to the target, the target up
      to date, or what was thrown. */
  datatype ComposeEnd = Copied(from: Path, to: Path) | UpToDate | StatThrew(path: Path, code: string) | ComposeThrew(message: string)

  function StubComposeRun(component: string, deps: DependencyList, stats: Stats, run: Composer): ComposeEnd
  {
    var ds := DepsOf(deps, component);
    match Decide(ComposeTask(component, ds), stats)
    case StatFailed(p, code) => StatThrew(p, code)
    case Skip => UpToDate
    case RunIt =>
      match Chain(ComponentWasm(component), StubWasms(ds), ComposeDests(component, ds), Lift(run), |ds|)
      case Err(m) => ComposeThrew(m)
      case Ok(w) => Copied(w, TargetWasm(component))
  }

  /** `stubCompose`: the stub list, the up-to-date check, and the
      composition chain. Returns how it ends and the line printed by the
      check. */
  method StubCompose(component: string, deps: DependencyList, stats: Stats, run: Composer) returns (end: ComposeEnd, line: string)
    ensures end == StubComposeRun(component, deps, stats, run)
    ensures end.UpToDate? ==> line == SkipLine(ComposeTask(component, DepsOf(deps, component)))
    ensures end.Copied? || end.ComposeThrew? ==> line == ComposeTask(component, DepsOf(deps, component)).runMessage
  {
    var ds := DepsOf(deps, component);
    var stubWasms: seq<Path> := [];
    for i := 0 to |ds|
      invariant |stubWasms| == i
      invariant forall k :: 0 <= k < i ==> stubWasms[k] == StubWasm(ds[k])
    {
      stubWasms := stubWasms + [StubWasm(ds[i])];
    }
    assert stubWasms == StubWasms(ds);
    var task := Task("Composing stubs [" + Join(seq(|stubWasms|, i requires 0 <= i < |stubWasms| => Shown(stubWasms[i])), ", ") +
                     "] into component: " + component,
                     "stub compose", [TargetWasm(component)], [ComponentWasm(component)] + stubWasms);
    assert task == ComposeTask(component, ds);
    var d;
    d, line := RunTask(task, stats);
    if d.StatFailed? {
      return StatThrew(d.path, d.code), line;
    }
    if d.Skip? {
      return UpToDate, line;
    }
    var composed := ComposeStubs(component, ds, run);
    if composed.Err? {
      return ComposeThrew(composed.error), line;
    }
    return Copied(composed.value, TargetWasm(component)), line;
  }

  /** A component without dependencies is copied as it is. */
  lemma NoStubsCopiesComponent(component: string, deps: DependencyList, stats: Stats, run: Composer)
    requires DepsOf(deps, component) == []
    requires Decide(ComposeTask(component, []), stats) == RunIt
    ensures StubComposeRun(component, deps, stats, run) == Copied(ComponentWasm(component), TargetWasm(component))
  {
  }

  /** A stub rebuilt after the composed file makes the component be
      composed again. */
  lemma NewerStubRecomposes(component: string, deps: DependencyList, stats: Stats, run: Composer, k: nat)
    requires k < |DepsOf(deps, component)|
    requires Readable(ComposeTask(component, DepsOf(deps, component)), stats)
    requires stats(TargetWasm(component)).FileStat? && stats(StubWasm(DepsOf(deps, component)[k])).FileStat?
    requires stats(StubWasm(DepsOf(deps, component)[k])).mtime > stats(TargetWasm(component)).mtime
    ensures !StubComposeRun(component, deps, stats, run).UpToDate?
    ensures !StubComposeRun(component, deps, stats, run).StatThrew?
  {
    var ds := DepsOf(deps, component);
    var task := ComposeTask(component, ds);
    DecideMeaning(task, stats);
    assert task.sources[k + 1] == StubWasm(ds[k]);
    assert SourceTimes(stats(task.sources[k + 1]))[0] > TargetTime(stats(task.targets[0]));
    assert Stale(task, stats, 0);
  }

  // ---------------------------------------------------------------------
  // `updateRpcStubs`

  /** The additions of `updateRpcStubs`, entry by entry in the order of
      `Object.entries`. */
  function AddOps(deps: DependencyList): seq<StubOp>
    decreases |deps|
  {
    if deps == [] then [] else AddOps(deps[..|deps| - 1]) + Adds(deps[|deps| - 1].0, deps[|deps| - 1].1)
  }

  /** The steps of `updateRpcStubs`: every stub built, in ascending order,
      then every dependency added. */
  ghost function UpdatePlan(deps: DependencyList): seq<StubOp>
  {
    Builds(SortedElements(DependencyUnion(deps))) + AddOps(deps)
  }

  lemma {:induction false} AddOpsPrefix(deps: DependencyList, c: nat)
    requires c <= |deps|
    ensures AddOps(deps[..c]) <= AddOps(deps)
    decreases |deps| - c
  {
    if c < |deps| {
      AddOpsPrefix(deps, c + 1);
      assert deps[..c + 1][..c] == deps[..c];
    } else {
      assert deps[..c] == deps;
    }
  }

  /** Every addition is of a listed dependency of a listed component, and
      every listed dependency is added. */
  lemma {:induction false} AddOpsMembers(deps: DependencyList, c: string, d: string)
    ensures forall op :: op in AddOps(deps) ==> op.AddStub?
    ensures AddStub(c, d) in AddOps(deps) <==> exists k :: 0 <= k < |deps| && deps[k].0 == c && d in deps[k].1
    decreases |deps|
  {
    if deps != [] {
      var init := deps[..|deps| - 1];
      var last := deps[|deps| - 1];
      AddOpsMembers(init, c, d);
      if AddStub(c, d) in AddOps(init) {
        var k :| 0 <= k < |init| && init[k].0 == c && d in init[k].1;
        assert deps[k] == init[k];
      }
      if AddStub(c, d) in Adds(last.0, last.1) {
        var j :| 0 <= j < |last.1| && Adds(last.0, last.1)[j] == AddStub(c, d);
        assert last.1[j] == d;
      }
      if exists k :: 0 <= k < |deps| && deps[k].0 == c && d in deps[k].1 {
        var k :| 0 <= k < |deps| && deps[k].0 == c && d in deps[k].1;
        if k < |init| {
          assert init[k] == deps[k];
        } else {
          var j :| 0 <= j < |last.1| && last.1[j] == d;
          assert Adds(last.0, last.1)[j] == AddStub(c, d);
        }
      }
    }
  }

  /** Every stub is built before it is added to a component. */
  lemma UpdateBuildsFirst(deps: DependencyList)
    ensures BuiltBeforeAdded(UpdatePlan(deps))
  {
    var stubs := SortedElements(DependencyUnion(deps));
    var adds := AddOps(deps);
    AddOpsMembers(deps, "", "");
    forall j | 0 <= j < |adds| ensures adds[j].AddStub? && adds[j].dependency in stubs {
      var op := adds[j];
      assert op in adds;
      AddOpsMembers(deps, op.component, op.dependency);
      DependencyUnionMembers(deps, op.dependency);
    }
    BuildsThenAdds(stubs, adds);
  }

  /** `updateRpcStubs`: returns the steps run and the error that stopped
      them. What a step does, including its own up-to-date check, is
      `attempt`. */
  method UpdateRpcStubs(deps: DependencyList, attempt: Attempt) returns (done: seq<StubOp>, err: Option<string>)
    ensures (done, err) == RunOps(UpdatePlan(deps), attempt)
  {
    var stubs := AllDepsSorted(deps);
    ghost var plan := UpdatePlan(deps);
    done, err := BuildStubs(deps, stubs, attempt);
    if err.None? {
      done, err := AddDependencies(deps, stubs, attempt, done);
    }
  }

  /** The first loop of `updateRpcStubs`: every stub built in turn. */
  method BuildStubs(deps: DependencyList, stubs: seq<string>, attempt: Attempt) returns (done: seq<StubOp>, err: Option<string>)
    requires stubs == SortedElements(DependencyUnion(deps))
    ensures err.Some? ==> (done, err) == RunOps(UpdatePlan(deps), attempt)
    ensures err.None? ==> RanCleanly(UpdatePlan(deps), attempt, done, |stubs|)
  {
    ghost var plan := UpdatePlan(deps);
    done := [];
    for i := 0 to |stubs|
      invariant RanCleanly(plan, attempt, done, i)
    {
      var op := BuildStub(stubs[i]);
      assert plan[i] == op;
      Advance(plan, attempt, done, i);
      done := done + [op];
      var o := attempt(op);
      if o.Fail? {
        return done, Some(o.error);
      }
    }
    return done, None;
  }

  /** The second loop of `updateRpcStubs`: every dependency of every
      component added in turn. */
  method AddDependencies(deps: DependencyList, stubs: seq<string>, attempt: Attempt, built: seq<StubOp>)
    returns (done: seq<StubOp>, err: Option<string>)
    requires stubs == SortedElements(DependencyUnion(deps))
    requires RanCleanly(UpdatePlan(deps), attempt, built, |stubs|)
    ensures (done, err) == RunOps(UpdatePlan(deps), attempt)
  {
    ghost var plan := UpdatePlan(deps);
    done := built;
    assert deps[..0] == [];
    for c := 0 to |deps|
      invariant RanCleanly(plan, attempt, done, |stubs| + |AddOps(deps[..c])|)
    {
      ghost var from := |stubs| + |AddOps(deps[..c])|;
      AddsInPlan(deps, c, stubs, from);
      done, err := AddComponentDeps(plan, from, deps[c].0, deps[c].1, attempt, done);
      if err.Some? {
        return;
      }
    }
    assert deps[..|deps|] == deps;
    assert |plan| == |stubs| + |AddOps(deps)|;
    assert done == plan;
    RunOpsAllPass(plan, attempt);
    return done, None;
  }

  /** The inner loop of `updateRpcStubs`: the dependencies of one
      component, which are the steps of `plan` from `from` on, added in
      turn. */
  method AddComponentDeps(ghost plan: seq<StubOp>, ghost from: nat, comp: string, list: seq<string>,
                          attempt: Attempt, before: seq<StubOp>)
    returns (done: seq<StubOp>, err: Option<string>)
    requires RanCleanly(plan, attempt, before, from) && from + |list| <= |plan|
    requires forall j :: 0 <= j < |list| ==> plan[from + j] == AddStub(comp, list[j])
    ensures err.None? ==> RanCleanly(plan, attempt, done, from + |list|)
    ensures err.Some? ==> (done, err) == RunOps(plan, attempt)
  {
    done := before;
    for j := 0 to |list|
      invariant RanCleanly(plan, attempt, done, from + j)
    {
      var op := AddStub(comp, list[j]);
      assert plan[from + j] == op;
      Advance(plan, attempt, done, from + j);
      done := done + [op];
      var o := attempt(op);
      if o.Fail? {
        return done, Some(o.error);
      }
    }
    return done, None;
  }

  /** The additions for entry `c` follow those of the entries before it in
      the plan. */
  lemma AddsInPlan(deps: DependencyList, c: nat, stubs: seq<string>, from: nat)
    requires c < |deps| && stubs == SortedElements(DependencyUnion(deps))
    requires from == |stubs| + |AddOps(deps[..c])|
    ensures from + |deps[c].1| == |stubs| + |AddOps(deps[..c + 1])|
    ensures from + |deps[c].1| <= |UpdatePlan(deps)|
    ensures forall j :: 0 <= j < |deps[c].1| ==> UpdatePlan(deps)[from + j] == AddStub(deps[c].0, deps[c].1[j])
  {
    assert deps[..c + 1][..c] == deps[..c];
    assert AddOps(deps[..c + 1]) == AddOps(deps[..c]) + Adds(deps[c].0, deps[c].1);
    AddOpsPrefix(deps, c + 1);
    AddsAt(UpdatePlan(deps), Builds(stubs), AddOps(deps[..c]), AddOps(deps), deps[c].0, deps[c].1, from);
  }


  /** The steps run by `updateRpcStubs` add no stub before building it,
      even when a step fails. */
  lemma UpdateRunBuildsFirst(deps: DependencyList, attempt: Attempt)
    ensures BuiltBeforeAdded(RunOps(UpdatePlan(deps), attempt).0)
  {
    UpdateBuildsFirst(deps);
    BuiltBeforeAddedPrefix(UpdatePlan(deps), RunOps(UpdatePlan(deps), attempt).0);
  }

  // ---------------------------------------------------------------------
  // `addStubDependency`'s targets

  /** `src/components/<component>/wit`. */
  function WitDir(component: string): Path
  {
    ComponentDir(component) + ["wit"]
  }

  /** The targets as the script computes them: the component directory
      joined with the WIT directory, which already starts with the
      component directory. */
  function AddStubTargetsAsWritten(component: string): seq<Path>
  {
    [ComponentDir(component) + WitDir(component) + ["deps", PckNs + "_" + component],
     ComponentDir(component) + WitDir(component) + ["deps", PckNs + "_" + component + "-stub"]]
  }

  function AddStubTaskAsWritten(component: string, dep: string): Task
  {
    Task("Adding stub dependency for " + dep + " to " + component, "add stub dependency",
         AddStubTargetsAsWritten(component), [OutDir + ["stub", dep, "wit"]])
  }

  /** The targets as written lie outside the WIT directory the tool writes
      into, below a second copy of the component path. */
  lemma AddStubTargetsMisplaced(component: string)
    ensures forall t :: t in AddStubTargetsAsWritten(component) ==>
      !(WitDir(component) <= t) && t[..3] == t[3..6] == ComponentDir(component)
  {
    forall t | t in AddStubTargetsAsWritten(component)
      ensures !(WitDir(component) <= t) && t[..3] == t[3..6] == ComponentDir(component)
    {
      assert t[3] == "src" != "wit";
    }
  }

  /** Since nothing creates them, the step is never skipped: its check
      finds the first target missing. */
  lemma AddStubAlwaysRuns(component: string, dep: string, stats: Stats)
    requires stats(AddStubTargetsAsWritten(component)[0]).Missing?
    ensures Decide(AddStubTaskAsWritten(component, dep), stats) == RunIt
  {
    FirstTargetMissing(AddStubTaskAsWritten(component, dep), stats);
  }

  /** The targets intended: the dependency's package directories inside the
      component's `wit/deps`. */
  function AddStubTargets(component: string, dep: string): seq<Path>
  {
    [WitDir(component) + ["deps", PckNs + "_" + dep], WitDir(component) + ["deps", PckNs + "_" + dep + "-stub"]]
  }

  function AddStubTask(component: string, dep: string): Task
  {
    Task("Adding stub dependency for " + dep + " to " + component, "add stub dependency",
         AddStubTargets(component, dep), [OutDir + ["stub", dep, "wit"]])
  }

  /** The intended targets lie in the component's `wit/deps` and differ
      from one dependency to the next, so a step is skipped once its own
      stub is in place and up to date. */
  lemma AddStubTargetsPlaced(component: string, dep: string, other: string)
    requires dep != other
    ensures forall t :: t in AddStubTargets(component, dep) ==> WitDir(component) + ["deps"] <= t && |t| == 6
    ensures AddStubTargets(component, dep)[0] != AddStubTargets(component, other)[0]
    ensures AddStubTargets(component, dep)[1] != AddStubTargets(component, other)[1]
  {
    var p := PckNs + "_";
    var a := AddStubTargets(component, dep);
    var b := AddStubTargets(component, other);
    assert a[0][5][|p|..] == dep && b[0][5][|p|..] == other;
    assert a[0][5] != b[0][5];
    assert a[1][5][|p|..|a[1][5]| - 5] == dep && b[1][5][|p|..|b[1][5]| - 5] == other;
    assert a[1][5] != b[1][5];
  }

  /** With the intended targets, a step whose outputs are newer than the
      stub is skipped. */
  lemma AddStubSkipsWhenCurrent(component: string, dep: string, stats: Stats)
    requires Readable(AddStubTask(component, dep), stats)
    requires forall i :: 0 <= i < 2 ==> stats(AddStubTargets(component, dep)[i]).FileStat?
    requires stats(OutDir + ["stub", dep, "wit"]).DirStat?
    requires forall i, j :: 0 <= i < 2 && 0 <= j < |stats(OutDir + ["stub", dep, "wit"]).fileTimes| ==>
      stats(OutDir + ["stub", dep, "wit"]).fileTimes[j] <= stats(AddStubTargets(component, dep)[i]).mtime
    ensures Decide(AddStubTask(component, dep), stats) == Skip
  {
    var task := AddStubTask(component, dep);
    DecideMeaning(task, stats);
    forall i | 0 <= i < 2 ensures !Stale(task, stats, i) {
      assert task.sources == [OutDir + ["stub", dep, "wit"]];
    }
  }
}
