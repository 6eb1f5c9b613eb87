/** Creating a component from an example (`instantiate` and the helpers
    `instantiate_directory`, `instantiate_file`, `copy`, `copy_all` in
    src/lib.rs): the example's tree is copied under
    `<target>/<component name>` with names and contents rewritten, then the
    WASI adapter and the WIT dependency packages are copied beside it.

    Each operation is a plan function (what it does, as actions) and a
    method that does it on a `FileSystem`, proved to have exactly the effect
    of running the plan. */
module Instantiation {
  import opened Wrappers
  import opened Text
  import opened Disk
  import opened Catalog
  import opened Substitution
  import opened Languages
  import opened Examples

  /** What stays fixed during one walk over an example's tree. */
  datatype Walk = Walk(params: Params, excludes: set<string>, transformExcludes: set<string>, codec: Codec)

  /** The panic message of a failed catalog lookup (the path in `Debug`
      form). */
  function NotFound(p: Path): string
  {
    "Could not find entry \"" + Join(p, "/") + "\""
  }

  /** The panic message of `unwrap` on a path without a file name. */
  const NoFileName := "called `Option::unwrap()` on a `None` value"

  /** An entry is skipped when its name is excluded, or when it is the
      metadata file and the walk is at the example's root. */
  predicate Skipped(name: string, w: Walk, filterMetadata: bool)
  {
    name in w.excludes || (filterMetadata && name == "metadata.json")
  }

  /** The bytes written for a file: its text rewritten when rewriting is on
      and the bytes decode, otherwise the bytes as they are. */
  function FileContents(raw: Bytes, transformContents: bool, w: Walk): Bytes
  {
    if transformContents then
      match w.codec.decode(raw)
      case Some(text) => w.codec.encode(Transform(text, w.params))
      case None => raw
    else raw
  }

  /** A bound on how deep the walk can still go below `source`. */
  function Depth(root: Node, source: Path): nat
  {
    if |source| <= Height(root) then Height(root) - |source| else 0
  }

  // ---------------------------------------------------------------------
  // Plans

  /** `instantiate_directory`: create the target, look the source up (a
      panic if it is missing), then each entry in order. */
  function DirectoryPlan(root: Node, source: Path, target: Path, w: Walk, filterMetadata: bool): seq<Action>
    decreases Depth(root, source), 3, 0
  {
    [MkDirAll(target)] +
    match GetDir(root, source)
    case None => [Abort(NotFound(source))]
    case Some(d) => EntriesPlan(root, source, d, |d.children|, target, w, filterMetadata)
  }

  /** The first `i` entries of the directory `d` found at `source`. */
  function EntriesPlan(root: Node, source: Path, d: Node, i: nat, target: Path, w: Walk, filterMetadata: bool): seq<Action>
    requires GetDir(root, source) == Some(d) && i <= |d.children|
    decreases Depth(root, source), 2, i
  {
    if i == 0 then []
    else EntriesPlan(root, source, d, i - 1, target, w, filterMetadata) + EntryPlan(root, source, d, i - 1, target, w, filterMetadata)
  }

  /** Entry `i` of `d`: nothing when skipped; otherwise it is created under
      its rewritten name, a directory recursively and a file by
      `FilePlan`. */
  function EntryPlan(root: Node, source: Path, d: Node, i: nat, target: Path, w: Walk, filterMetadata: bool): seq<Action>
    requires GetDir(root, source) == Some(d) && i < |d.children|
    decreases Depth(root, source), 1, 0
  {
    var e := d.children[i];
    if Skipped(e.name, w, filterMetadata) then []
    else
      var name := FileNameTransform(e.name, w.params);
      match e
      case Dir(_, _) =>
        LookupHeight(root, source);
        DirectoryPlan(root, source + [e.name], target + [name], w, false)
      case File(_, _) =>
        FilePlan(root, source + [e.name], target + [name], name !in w.transformExcludes, w)
  }

  /** `instantiate_file`: look the file up (a panic if it is missing), then
      write it, rewritten or not. */
  function FilePlan(root: Node, source: Path, target: Path, transformContents: bool, w: Walk): seq<Action>
  {
    match GetFile(root, source)
    case None => [Abort(NotFound(source))]
    case Some(f) => [WriteFile(target, FileContents(f.contents, transformContents, w))]
  }

  /** `copy`: look the file up, create the target's parent directory, write
      the bytes unchanged. */
  function CopyPlan(root: Node, source: Path, target: Path): seq<Action>
  {
    match GetFile(root, source)
    case None => [Abort(NotFound(source))]
    case Some(f) =>
      (if |target| > 1 then [MkDirAll(target[..|target| - 1])] else []) + [WriteFile(target, f.contents)]
  }

  /** The files (not the subdirectories) among `entries`, each written into
      `target` under its own name. */
  function FilesPlan(entries: seq<Node>, target: Path): seq<Action>
  {
    if entries == [] then []
    else
      (if entries[0].File? then [WriteFile(target + [entries[0].name], entries[0].contents)] else []) +
      FilesPlan(entries[1..], target)
  }

  /** `copy_all`: create the target, look the source directory up, copy its
      files. */
  function CopyAllPlan(root: Node, source: Path, target: Path): seq<Action>
  {
    [MkDirAll(target)] +
    match GetDir(root, source)
    case None => [Abort(NotFound(source))]
    case Some(d) => FilesPlan(d.children, target)
  }

  // ---------------------------------------------------------------------
  // The operations

  /** `instantiate_directory`. */
  method InstantiateDirectory(fs: FileSystem, root: Node, source: Path, target: Path, w: Walk, filterMetadata: bool)
    returns (o: Outcome<Failure>)
    modifies fs
    ensures (fs.State(), o) == Run(old(fs.State()), fs.denied, DirectoryPlan(root, source, target, w, filterMetadata))
    decreases Depth(root, source), 3, 0
  {
    ghost var s0 := fs.State();
    ghost var rest := match GetDir(root, source)
      case None => [Abort(NotFound(source))]
      case Some(d) => EntriesPlan(root, source, d, |d.children|, target, w, filterMetadata);
    assert DirectoryPlan(root, source, target, w, filterMetadata) == [MkDirAll(target)] + rest;
    o := fs.CreateDirAll(target);
    RunAppend(s0, fs.denied, [MkDirAll(target)], rest);
    if o.Fail? {
      return;
    }
    var found := GetDir(root, source);
    if found.None? {
      return Fail(Panicked(NotFound(source)));
    }
    o := InstantiateEntries(fs, root, source, found.value, target, w, filterMetadata);
  }

  /** The loop over the entries in `instantiate_directory`. */
  method InstantiateEntries(fs: FileSystem, root: Node, source: Path, d: Node, target: Path, w: Walk, filterMetadata: bool)
    returns (o: Outcome<Failure>)
    requires GetDir(root, source) == Some(d)
    modifies fs
    ensures (fs.State(), o) == Run(old(fs.State()), fs.denied, EntriesPlan(root, source, d, |d.children|, target, w, filterMetadata))
    decreases Depth(root, source), 2, 0
  {
    ghost var s0 := fs.State();
    var i := 0;
    while i < |d.children|
      invariant 0 <= i <= |d.children|
      invariant (fs.State(), Pass) == Run(s0, fs.denied, EntriesPlan(root, source, d, i, target, w, filterMetadata))
    {
      ghost var before := EntriesPlan(root, source, d, i, target, w, filterMetadata);
      ghost var step := EntryPlan(root, source, d, i, target, w, filterMetadata);
      ghost var mid := fs.State();
      EntriesPrefix(root, source, d, i + 1, |d.children|, target, w, filterMetadata);
      o := InstantiateEntry(fs, root, source, d, i, target, w, filterMetadata);
      RunStep(s0, fs.denied, before, step, EntriesPlan(root, source, d, |d.children|, target, w, filterMetadata), mid, (fs.State(), o));
      if o.Fail? {
        return;
      }
      i := i + 1;
    }
    o := Pass;
  }

  /** One entry of the loop in `instantiate_directory`. */
  method InstantiateEntry(fs: FileSystem, root: Node, source: Path, d: Node, i: nat, target: Path, w: Walk, filterMetadata: bool)
    returns (o: Outcome<Failure>)
    requires GetDir(root, source) == Some(d) && i < |d.children|
    modifies fs
    ensures (fs.State(), o) == Run(old(fs.State()), fs.denied, EntryPlan(root, source, d, i, target, w, filterMetadata))
    decreases Depth(root, source), 1, 0
  {
    var e := d.children[i];
    if Skipped(e.name, w, filterMetadata) {
      return Pass;
    }
    var name := FileNameTransform(e.name, w.params);
    if e.Dir? {
      LookupHeight(root, source);
      o := InstantiateDirectory(fs, root, source + [e.name], target + [name], w, false);
    } else {
      o := InstantiateFile(fs, root, source + [e.name], target + [name], name !in w.transformExcludes, w);
    }
  }

  /** `instantiate_file`. */
  method InstantiateFile(fs: FileSystem, root: Node, source: Path, target: Path, transformContents: bool, w: Walk)
    returns (o: Outcome<Failure>)
    modifies fs
    ensures (fs.State(), o) == Run(old(fs.State()), fs.denied, FilePlan(root, source, target, transformContents, w))
  {
    var found := GetFile(root, source);
    if found.None? {
      return Fail(Panicked(NotFound(source)));
    }
    var contents := FileContents(found.value.contents, transformContents, w);
    o := fs.WriteFile(target, contents);
  }

  /** `copy`. */
  method Copy(fs: FileSystem, root: Node, source: Path, target: Path) returns (o: Outcome<Failure>)
    modifies fs
    ensures (fs.State(), o) == Run(old(fs.State()), fs.denied, CopyPlan(root, source, target))
  {
    ghost var s0 := fs.State();
    var found := GetFile(root, source);
    if found.None? {
      return Fail(Panicked(NotFound(source)));
    }
    var contents := found.value.contents;
    ghost var write := [WriteFile(target, contents)];
    if |target| > 1 {
      o := fs.CreateDirAll(target[..|target| - 1]);
      RunAppend(s0, fs.denied, [MkDirAll(target[..|target| - 1])], write);
      if o.Fail? {
        return;
      }
    }
    o := fs.WriteFile(target, contents);
  }

  /** `copy_all`. */
  method CopyAll(fs: FileSystem, root: Node, source: Path, target: Path) returns (o: Outcome<Failure>)
    modifies fs
    ensures (fs.State(), o) == Run(old(fs.State()), fs.denied, CopyAllPlan(root, source, target))
  {
    ghost var s0 := fs.State();
    ghost var rest := match GetDir(root, source)
      case None => [Abort(NotFound(source))]
      case Some(d) => FilesPlan(d.children, target);
    assert CopyAllPlan(root, source, target) == [MkDirAll(target)] + rest;
    o := fs.CreateDirAll(target);
    RunAppend(s0, fs.denied, [MkDirAll(target)], rest);
    if o.Fail? {
      return;
    }
    var found := GetDir(root, source);
    if found.None? {
      return Fail(Panicked(NotFound(source)));
    }
    var entries := found.value.children;
    ghost var s1 := fs.State();
    assert entries[..0] == [];
    var i := 0;
    while i < |entries|
      invariant 0 <= i <= |entries|
      invariant (fs.State(), Pass) == Run(s1, fs.denied, FilesPlan(entries[..i], target))
    {
      ghost var before := FilesPlan(entries[..i], target);
      FilesPlanAppend(entries[..i], entries[i], target);
      assert entries[..i + 1] == entries[..i] + [entries[i]];
      if entries[i].File? {
        o := fs.WriteFile(target + [entries[i].name], entries[i].contents);
        RunAppend(s1, fs.denied, before, [WriteFile(target + [entries[i].name], entries[i].contents)]);
        if o.Fail? {
          FilesPlanPrefix(entries, i + 1, target);
          RunPrefixFails(s1, fs.denied, FilesPlan(entries[..i + 1], target), FilesPlan(entries, target));
          return;
        }
      } else {
        assert before + [] == before;
      }
      i := i + 1;
    }
    assert entries[..i] == entries;
    o := Pass;
  }

  // ---------------------------------------------------------------------
  // Plan algebra used by the loops

  lemma {:induction false} EntriesPrefix(root: Node, source: Path, d: Node, i: nat, n: nat, target: Path, w: Walk, filterMetadata: bool)
    requires GetDir(root, source) == Some(d) && i <= n <= |d.children|
    ensures EntriesPlan(root, source, d, i, target, w, filterMetadata) <= EntriesPlan(root, source, d, n, target, w, filterMetadata)
    decreases n - i
  {
    if i < n {
      EntriesPrefix(root, source, d, i, n - 1, target, w, filterMetadata);
    }
  }

  lemma {:induction false} FilesPlanAppend(entries: seq<Node>, e: Node, target: Path)
    ensures FilesPlan(entries + [e], target) ==
      FilesPlan(entries, target) + (if e.File? then [WriteFile(target + [e.name], e.contents)] else [])
  {
    var last := if e.File? then [WriteFile(target + [e.name], e.contents)] else [];
    if entries == [] {
      assert entries + [e] == [e];
      assert [e][1..] == [];
    } else {
      var head := if entries[0].File? then [WriteFile(target + [entries[0].name], entries[0].contents)] else [];
      var rest := FilesPlan(entries[1..], target);
      assert (entries + [e])[0] == entries[0];
      assert (entries + [e])[1..] == entries[1..] + [e];
      calc {
        FilesPlan(entries + [e], target);
        head + FilesPlan(entries[1..] + [e], target);
        { FilesPlanAppend(entries[1..], e, target); }
        head + (rest + last);
        (head + rest) + last;
      }
    }
  }

  lemma FilesPlanPrefix(entries: seq<Node>, i: nat, target: Path)
    requires i <= |entries|
    ensures FilesPlan(entries[..i], target) <= FilesPlan(entries, target)
    decreases |entries| - i
  {
    if i < |entries| {
      FilesPlanPrefix(entries, i + 1, target);
      FilesPlanAppend(entries[..i], entries[i], target);
      assert entries[..i + 1] == entries[..i] + [entries[i]];
    } else {
      assert entries[..i] == entries;
    }
  }

  // ---------------------------------------------------------------------
  // Instantiating an example

  /** The three trees compiled into the binary: the examples, the WASI
      adapters and the WIT dependency packages. */
  datatype Catalogs = Catalogs(examples: Node, adapters: Node, wit: Node)

  /** `<target>/<component name>`: where the component is created. */
  function ComponentDir(p: Params): (r: Path)
    ensures r != [] && p.targetPath <= r
  {
    p.targetPath + [p.componentName]
  }

  /** `Path::file_name`: the last component, if there is one. */
  function FileName(p: Path): (r: Option<string>)
    ensures r.Some? <==> p != []
  {
    if p == [] then None else Some(p[|p| - 1])
  }

  /** The adapter, for an example that needs one, copied to
      `adapters/<tier>/<file name>` in the component. */
  function AdapterPlan(adapters: Node, e: Example, p: Params): seq<Action>
  {
    match e.adapter
    case None => []
    case Some(ap) =>
      match FileName(ap)
      case None => [Abort(NoFileName)]
      case Some(f) => CopyPlan(adapters, ap, ComponentDir(p) + ["adapters", TierName(LanguageTier(e.language)), f])
  }

  /** The directories the WIT packages are copied into: the example's own
      choice, relative to the component, or `wit/deps`. */
  function WitTargets(e: Example, p: Params): seq<Path>
  {
    match e.witDepsTargets
    case None => [ComponentDir(p) + ["wit", "deps"]]
    case Some(ps) => seq(|ps|, i requires 0 <= i < |ps| => ComponentDir(p) + ps[i])
  }

  /** One WIT package copied into one target directory, under its own
      name. */
  function WitCopyPlan(wit: Node, dep: Path, target: Path): seq<Action>
  {
    match FileName(dep)
    case None => [Abort(NoFileName)]
    case Some(f) => CopyAllPlan(wit, dep, target + [f])
  }

  /** One WIT package copied into each target in turn. */
  function WitDepPlan(wit: Node, dep: Path, targets: seq<Path>): seq<Action>
    decreases |targets|
  {
    if targets == [] then []
    else WitDepPlan(wit, dep, targets[..|targets| - 1]) + WitCopyPlan(wit, dep, targets[|targets| - 1])
  }

  /** Each WIT package in turn, into every target. */
  function WitPlan(wit: Node, deps: seq<Path>, targets: seq<Path>): seq<Action>
    decreases |deps|
  {
    if deps == [] then []
    else WitPlan(wit, deps[..|deps| - 1], targets) + WitDepPlan(wit, deps[|deps| - 1], targets)
  }

  /** `instantiate`: the example's tree (without its metadata), then the
      adapter, then the WIT packages. */
  function InstantiatePlan(c: Catalogs, e: Example, p: Params, codec: Codec): seq<Action>
  {
    DirectoryPlan(c.examples, e.examplePath, ComponentDir(p), Walk(p, e.exclude, e.transformExclude, codec), true) +
    AdapterPlan(c.adapters, e, p) +
    WitPlan(c.wit, e.witDeps, WitTargets(e, p))
  }

  /** `instructions`: the example's instructions with the placeholders
      substituted. */
  function Instructions(e: Example, p: Params): string
  {
    Transform(e.instructions, p)
  }

  /** Copying the adapter in `instantiate`. */
  method CopyAdapter(fs: FileSystem, adapters: Node, e: Example, p: Params) returns (o: Outcome<Failure>)
    modifies fs
    ensures (fs.State(), o) == Run(old(fs.State()), fs.denied, AdapterPlan(adapters, e, p))
  {
    if e.adapter.None? {
      return Pass;
    }
    var ap := e.adapter.value;
    var f := FileName(ap);
    if f.None? {
      return Fail(Panicked(NoFileName));
    }
    o := Copy(fs, adapters, ap, ComponentDir(p) + ["adapters", TierName(LanguageTier(e.language)), f.value]);
  }

  /** One WIT package into one target, in `instantiate`. */
  method CopyWit(fs: FileSystem, wit: Node, dep: Path, target: Path) returns (o: Outcome<Failure>)
    modifies fs
    ensures (fs.State(), o) == Run(old(fs.State()), fs.denied, WitCopyPlan(wit, dep, target))
  {
    var f := FileName(dep);
    if f.None? {
      return Fail(Panicked(NoFileName));
    }
    o := CopyAll(fs, wit, dep, target + [f.value]);
  }

  /** The inner loop of `instantiate`: one WIT package into every target. */
  method CopyWitDep(fs: FileSystem, wit: Node, dep: Path, targets: seq<Path>) returns (o: Outcome<Failure>)
    modifies fs
    ensures (fs.State(), o) == Run(old(fs.State()), fs.denied, WitDepPlan(wit, dep, targets))
  {
    ghost var s0 := fs.State();
    var i := 0;
    while i < |targets|
      invariant 0 <= i <= |targets|
      invariant (fs.State(), Pass) == Run(s0, fs.denied, WitDepPlan(wit, dep, targets[..i]))
    {
      ghost var before := WitDepPlan(wit, dep, targets[..i]);
      ghost var mid := fs.State();
      WitDepSnoc(wit, dep, targets, i);
      WitDepPrefix(wit, dep, targets, i + 1);
      o := CopyWit(fs, wit, dep, targets[i]);
      RunStep(s0, fs.denied, before, WitCopyPlan(wit, dep, targets[i]), WitDepPlan(wit, dep, targets), mid, (fs.State(), o));
      if o.Fail? {
        return;
      }
      i := i + 1;
    }
    assert targets[..i] == targets;
    o := Pass;
  }

  /** The outer loop of `instantiate`: every WIT package. */
  method CopyWitDeps(fs: FileSystem, wit: Node, deps: seq<Path>, targets: seq<Path>) returns (o: Outcome<Failure>)
    modifies fs
    ensures (fs.State(), o) == Run(old(fs.State()), fs.denied, WitPlan(wit, deps, targets))
  {
    ghost var s0 := fs.State();
    var i := 0;
    while i < |deps|
      invariant 0 <= i <= |deps|
      invariant (fs.State(), Pass) == Run(s0, fs.denied, WitPlan(wit, deps[..i], targets))
    {
      ghost var before := WitPlan(wit, deps[..i], targets);
      ghost var step := WitDepPlan(wit, deps[i], targets);
      ghost var mid := fs.State();
      assert deps[..i + 1][..i] == deps[..i];
      assert WitPlan(wit, deps[..i + 1], targets) == before + step;
      WitPrefix(wit, deps, i + 1, targets);
      o := CopyWitDep(fs, wit, deps[i], targets);
      RunStep(s0, fs.denied, before, step, WitPlan(wit, deps, targets), mid, (fs.State(), o));
      if o.Fail? {
        return;
      }
      i := i + 1;
    }
    assert deps[..i] == deps;
    o := Pass;
  }

  /** `instantiate`: on success the instructions, rewritten; on failure
      the failure, with the file system as the plan left it. */
  method Instantiate(fs: FileSystem, c: Catalogs, e: Example, p: Params, codec: Codec) returns (r: Result<string, Failure>)
    modifies fs
    ensures (fs.State(), if r.Ok? then Pass else Fail(r.error)) == Run(old(fs.State()), fs.denied, InstantiatePlan(c, e, p, codec))
    ensures r.Ok? ==> r.value == Instructions(e, p)
  {
    ghost var s0 := fs.State();
    var comp := ComponentDir(p);
    ghost var walk := DirectoryPlan(c.examples, e.examplePath, comp, Walk(p, e.exclude, e.transformExclude, codec), true);
    ghost var rest := AdapterPlan(c.adapters, e, p) + WitPlan(c.wit, e.witDeps, WitTargets(e, p));
    assert InstantiatePlan(c, e, p, codec) == walk + rest;
    var o := InstantiateDirectory(fs, c.examples, e.examplePath, comp, Walk(p, e.exclude, e.transformExclude, codec), true);
    RunAppend(s0, fs.denied, walk, rest);
    if o.Fail? {
      return Err(o.error);
    }
    o := CopyExtras(fs, c, e, p);
    if o.Fail? {
      return Err(o.error);
    }
    return Ok(Instructions(e, p));
  }

  /** The adapter, then the WIT dependencies, once the example is
      copied. */
  method CopyExtras(fs: FileSystem, c: Catalogs, e: Example, p: Params) returns (o: Outcome<Failure>)
    modifies fs
    ensures (fs.State(), o) == Run(old(fs.State()), fs.denied,
      AdapterPlan(c.adapters, e, p) + WitPlan(c.wit, e.witDeps, WitTargets(e, p)))
  {
    ghost var s1 := fs.State();
    var targets := WitTargets(e, p);
    RunAppend(s1, fs.denied, AdapterPlan(c.adapters, e, p), WitPlan(c.wit, e.witDeps, targets));
    o := CopyAdapter(fs, c.adapters, e, p);
    if o.Fail? {
      return;
    }
    o := CopyWitDeps(fs, c.wit, e.witDeps, targets);
  }

  lemma WitDepSnoc(wit: Node, dep: Path, targets: seq<Path>, i: nat)
    requires i < |targets|
    ensures WitDepPlan(wit, dep, targets[..i + 1]) == WitDepPlan(wit, dep, targets[..i]) + WitCopyPlan(wit, dep, targets[i])
  {
    assert targets[..i + 1][..i] == targets[..i];
  }

  lemma WitDepPrefix(wit: Node, dep: Path, targets: seq<Path>, i: nat)
    requires i <= |targets|
    ensures WitDepPlan(wit, dep, targets[..i]) <= WitDepPlan(wit, dep, targets)
    decreases |targets| - i
  {
    if i < |targets| {
      WitDepPrefix(wit, dep, targets, i + 1);
      assert targets[..i + 1][..i] == targets[..i];
    } else {
      assert targets[..i] == targets;
    }
  }

  lemma WitPrefix(wit: Node, deps: seq<Path>, i: nat, targets: seq<Path>)
    requires i <= |deps|
    ensures WitPlan(wit, deps[..i], targets) <= WitPlan(wit, deps, targets)
    decreases |deps| - i
  {
    if i < |deps| {
      WitPrefix(wit, deps, i + 1, targets);
      assert deps[..i + 1][..i] == deps[..i];
    } else {
      assert deps[..i] == deps;
    }
  }

  // ---------------------------------------------------------------------
  // Properties of the walk

  /** How a run below `t` may end: well, at a denied path under `t`, or
      (only when `mayPanic`) by a panic. Never at a missing parent
      directory. */
  predicate FailsOnlyAt(o: Outcome<Failure>, denied: set<Path>, t: Path, mayPanic: bool)
  {
    o.Fail? ==> (o.error.IoError? && o.error.path in denied && t <= o.error.path) || (mayPanic && o.error.Panicked?)
  }

  /** The catalog holds the directory `source`, and no directory holds two
      entries of the same name: every lookup of the walk succeeds. */
  predicate Found(root: Node, source: Path)
  {
    UniqueNames(root) && GetDir(root, source).Some?
  }

  /** With unique names, the path of a directory's entry finds that
      entry. */
  lemma ChildFound(root: Node, source: Path, d: Node, i: nat)
    requires UniqueNames(root) && GetDir(root, source) == Some(d) && i < |d.children|
    ensures Lookup(root, source + [d.children[i].name]) == Some(d.children[i])
  {
    LookupAppend(root, source, [d.children[i].name]);
    LookupUnique(root, source);
    ChildUnique(d.children, i);
  }

  /** The walk creates each directory before anything inside it, so it
      fails only where creating something is denied, or by a panic when the
      catalog lacks an entry it looks up. */
  lemma {:induction false} DirectoryFails(root: Node, source: Path, target: Path, w: Walk, filterMetadata: bool, s: FsState, denied: set<Path>)
    ensures FailsOnlyAt(Run(s, denied, DirectoryPlan(root, source, target, w, filterMetadata)).1, denied, target, !Found(root, source))
    decreases Depth(root, source), 3, 0
  {
    var rest := match GetDir(root, source)
      case None => [Abort(NotFound(source))]
      case Some(d) => EntriesPlan(root, source, d, |d.children|, target, w, filterMetadata);
    assert DirectoryPlan(root, source, target, w, filterMetadata) == [MkDirAll(target)] + rest;
    RunAppend(s, denied, [MkDirAll(target)], rest);
    var (s1, o1) := Step(s, denied, MkDirAll(target));
    if o1.Pass? && GetDir(root, source).Some? {
      var d := GetDir(root, source).value;
      EntriesFails(root, source, d, |d.children|, target, w, filterMetadata, s1, denied);
    }
  }

  lemma {:induction false} EntriesFails(root: Node, source: Path, d: Node, i: nat, target: Path, w: Walk, filterMetadata: bool, s: FsState, denied: set<Path>)
    requires GetDir(root, source) == Some(d) && i <= |d.children|
    requires target == [] || target in s.dirs
    ensures FailsOnlyAt(Run(s, denied, EntriesPlan(root, source, d, i, target, w, filterMetadata)).1, denied, target, !Found(root, source))
    decreases Depth(root, source), 2, i
  {
    if i > 0 {
      var a := EntriesPlan(root, source, d, i - 1, target, w, filterMetadata);
      var b := EntryPlan(root, source, d, i - 1, target, w, filterMetadata);
      EntriesFails(root, source, d, i - 1, target, w, filterMetadata, s, denied);
      EntryFailsAfter(root, source, d, i - 1, target, w, filterMetadata, s, denied);
      FailsOnlyAtAppend(s, denied, a, b, target, !Found(root, source));
    }
  }

  /** Entry `i`, run after the entries before it went through, fails only
      where `EntryFails` allows. */
  lemma {:induction false} EntryFailsAfter(root: Node, source: Path, d: Node, i: nat, target: Path, w: Walk, filterMetadata: bool,
                                           s: FsState, denied: set<Path>)
    requires GetDir(root, source) == Some(d) && i < |d.children|
    requires target == [] || target in s.dirs
    ensures Run(s, denied, EntriesPlan(root, source, d, i, target, w, filterMetadata)).1.Pass? ==>
      FailsOnlyAt(Run(Run(s, denied, EntriesPlan(root, source, d, i, target, w, filterMetadata)).0, denied,
                      EntryPlan(root, source, d, i, target, w, filterMetadata)).1, denied, target, !Found(root, source))
    decreases Depth(root, source), 1, 1
  {
    var a := Run(s, denied, EntriesPlan(root, source, d, i, target, w, filterMetadata));
    if a.1.Pass? {
      RunGrows(s, denied, EntriesPlan(root, source, d, i, target, w, filterMetadata));
      EntryFails(root, source, d, i, target, w, filterMetadata, a.0, denied);
    }
  }

  /** A plan made of two parts fails only where its first part may fail or,
      after a first part that passes, where its second part may. */
  lemma FailsOnlyAtAppend(s: FsState, denied: set<Path>, a: seq<Action>, b: seq<Action>, t: Path, mayPanic: bool)
    requires FailsOnlyAt(Run(s, denied, a).1, denied, t, mayPanic)
    requires Run(s, denied, a).1.Pass? ==> FailsOnlyAt(Run(Run(s, denied, a).0, denied, b).1, denied, t, mayPanic)
    ensures FailsOnlyAt(Run(s, denied, a + b).1, denied, t, mayPanic)
  {
    RunAppend(s, denied, a, b);
  }

  lemma {:induction false} EntryFails(root: Node, source: Path, d: Node, i: nat, target: Path, w: Walk, filterMetadata: bool, s: FsState, denied: set<Path>)
    requires GetDir(root, source) == Some(d) && i < |d.children|
    requires target == [] || target in s.dirs
    ensures FailsOnlyAt(Run(s, denied, EntryPlan(root, source, d, i, target, w, filterMetadata)).1, denied, target, !Found(root, source))
    decreases Depth(root, source), 1, 0
  {
    var e := d.children[i];
    if !Skipped(e.name, w, filterMetadata) {
      var t := target + [FileNameTransform(e.name, w.params)];
      var plan := EntryPlan(root, source, d, i, target, w, filterMetadata);
      if e.Dir? {
        LookupHeight(root, source);
        assert plan == DirectoryPlan(root, source + [e.name], t, w, false);
        DirectoryFails(root, source + [e.name], t, w, false, s, denied);
        ChildDirFound(root, source, d, i);
        FailsOnlyAtWiden(Run(s, denied, plan).1, denied, t, target, !Found(root, source + [e.name]), !Found(root, source));
      } else {
        assert plan == FilePlan(root, source + [e.name], t, t[|t| - 1] !in w.transformExcludes, w);
        FileFails(root, source + [e.name], t, t[|t| - 1] !in w.transformExcludes, w, s, denied);
        ChildFileFound(root, source, d, i);
        FailsOnlyAtWiden(Run(s, denied, plan).1, denied, t, target, GetFile(root, source + [e.name]).None?, !Found(root, source));
      }
    }
  }

  /** A failure allowed below `t` is allowed below any prefix of `t`, and a
      panic allowed under a stronger condition is allowed under a weaker
      one. */
  lemma FailsOnlyAtWiden(o: Outcome<Failure>, denied: set<Path>, t: Path, target: Path, mayPanic: bool, mayPanic': bool)
    requires target <= t && (mayPanic ==> mayPanic')
    requires FailsOnlyAt(o, denied, t, mayPanic)
    ensures FailsOnlyAt(o, denied, target, mayPanic')
  {
  }

  /** When every lookup from `source` succeeds, so does every lookup from a
      sub-directory of it. */
  lemma ChildDirFound(root: Node, source: Path, d: Node, i: nat)
    requires GetDir(root, source) == Some(d) && i < |d.children| && d.children[i].Dir?
    ensures Found(root, source) ==> Found(root, source + [d.children[i].name])
  {
    if Found(root, source) {
      ChildFound(root, source, d, i);
    }
  }

  /** When every lookup from `source` succeeds, the file entries of `d` are
      found. */
  lemma ChildFileFound(root: Node, source: Path, d: Node, i: nat)
    requires GetDir(root, source) == Some(d) && i < |d.children| && d.children[i].File?
    ensures Found(root, source) ==> GetFile(root, source + [d.children[i].name]).Some?
  {
    if Found(root, source) {
      ChildFound(root, source, d, i);
    }
  }

  /** A file is written into a directory that exists, so it fails only where
      denied, or by a panic when the catalog lacks it. */
  lemma FileFails(root: Node, source: Path, target: Path, transformContents: bool, w: Walk, s: FsState, denied: set<Path>)
    requires target != [] && (|target| == 1 || target[..|target| - 1] in s.dirs)
    ensures FailsOnlyAt(Run(s, denied, FilePlan(root, source, target, transformContents, w)).1, denied, target, GetFile(root, source).None?)
  {
  }

  /** With every lookup succeeding and no path under the target denied, the
      walk succeeds. */
  lemma DirectorySucceeds(root: Node, source: Path, target: Path, w: Walk, filterMetadata: bool, s: FsState, denied: set<Path>)
    requires Found(root, source)
    requires forall q :: q in denied ==> !(target <= q)
    ensures Run(s, denied, DirectoryPlan(root, source, target, w, filterMetadata)).1 == Pass
  {
    DirectoryFails(root, source, target, w, filterMetadata, s, denied);
  }

  /** The walk creates nothing outside its target. */
  lemma {:induction false} DirectoryInside(root: Node, source: Path, target: Path, w: Walk, filterMetadata: bool)
    ensures Inside(DirectoryPlan(root, source, target, w, filterMetadata), target)
    decreases Depth(root, source), 3, 0
  {
    match GetDir(root, source)
    case None =>
    case Some(d) => EntriesInside(root, source, d, |d.children|, target, w, filterMetadata);
  }

  lemma {:induction false} EntriesInside(root: Node, source: Path, d: Node, i: nat, target: Path, w: Walk, filterMetadata: bool)
    requires GetDir(root, source) == Some(d) && i <= |d.children|
    ensures Inside(EntriesPlan(root, source, d, i, target, w, filterMetadata), target)
    decreases Depth(root, source), 2, i
  {
    if i > 0 {
      var a := EntriesPlan(root, source, d, i - 1, target, w, filterMetadata);
      var b := EntryPlan(root, source, d, i - 1, target, w, filterMetadata);
      EntriesInside(root, source, d, i - 1, target, w, filterMetadata);
      EntryInside(root, source, d, i - 1, target, w, filterMetadata);
      InsideAppend(a, b, target);
    }
  }

  lemma {:induction false} EntryInside(root: Node, source: Path, d: Node, i: nat, target: Path, w: Walk, filterMetadata: bool)
    requires GetDir(root, source) == Some(d) && i < |d.children|
    ensures Inside(EntryPlan(root, source, d, i, target, w, filterMetadata), target)
    decreases Depth(root, source), 1, 0
  {
    var e := d.children[i];
    if !Skipped(e.name, w, filterMetadata) && e.Dir? {
      LookupHeight(root, source);
      DirectoryInside(root, source + [e.name], target + [FileNameTransform(e.name, w.params)], w, false);
    }
  }

  /** An entry that is not skipped creates nothing outside its own target,
      `<target>/<rewritten name>`. */
  lemma EntryInsideOwn(root: Node, source: Path, d: Node, i: nat, target: Path, w: Walk, filterMetadata: bool)
    requires GetDir(root, source) == Some(d) && i < |d.children|
    requires !Skipped(d.children[i].name, w, filterMetadata)
    ensures Inside(EntryPlan(root, source, d, i, target, w, filterMetadata),
                   target + [FileNameTransform(d.children[i].name, w.params)])
  {
    var e := d.children[i];
    if e.Dir? {
      LookupHeight(root, source);
      DirectoryInside(root, source + [e.name], target + [FileNameTransform(e.name, w.params)], w, false);
    }
  }

  /** An entry whose rewritten name differs from `name`, or that is
      skipped, writes no file at `<target>/<name>`. */
  lemma EntryAvoids(root: Node, source: Path, d: Node, i: nat, target: Path, w: Walk, filterMetadata: bool, name: string)
    requires GetDir(root, source) == Some(d) && i < |d.children|
    requires !Skipped(d.children[i].name, w, filterMetadata) ==> FileNameTransform(d.children[i].name, w.params) != name
    ensures WritesNot(EntryPlan(root, source, d, i, target, w, filterMetadata), target + [name])
  {
    var e := d.children[i];
    if Skipped(e.name, w, filterMetadata) {
      SkippedIffNothing(root, source, d, i, target, w, filterMetadata);
    } else {
      var own := target + [FileNameTransform(e.name, w.params)];
      EntryInsideOwn(root, source, d, i, target, w, filterMetadata);
      assert own[|target|] != (target + [name])[|target|];
      InsideWritesNot(EntryPlan(root, source, d, i, target, w, filterMetadata), own, target + [name]);
    }
  }

  /** A file entry that is not skipped, in a catalog with unique names, is
      written at its target. */
  lemma FileEntryPlan(root: Node, source: Path, d: Node, i: nat, target: Path, w: Walk, filterMetadata: bool)
    requires UniqueNames(root) && GetDir(root, source) == Some(d) && i < |d.children|
    requires !Skipped(d.children[i].name, w, filterMetadata) && d.children[i].File?
    ensures var e := d.children[i];
      var name := FileNameTransform(e.name, w.params);
      EntryPlan(root, source, d, i, target, w, filterMetadata) ==
        [WriteFile(target + [name], FileContents(e.contents, name !in w.transformExcludes, w))]
  {
    ChildFound(root, source, d, i);
  }

  /** A directory entry that is not skipped starts by creating its
      target. */
  lemma DirEntryPlan(root: Node, source: Path, d: Node, i: nat, target: Path, w: Walk, filterMetadata: bool)
    requires GetDir(root, source) == Some(d) && i < |d.children|
    requires !Skipped(d.children[i].name, w, filterMetadata) && d.children[i].Dir?
    ensures var plan := EntryPlan(root, source, d, i, target, w, filterMetadata);
      plan != [] && plan[0] == MkDirAll(target + [FileNameTransform(d.children[i].name, w.params)])
  {
    LookupHeight(root, source);
  }

  lemma DirectoryFound(root: Node, source: Path, d: Node, target: Path, w: Walk, filterMetadata: bool)
    requires GetDir(root, source) == Some(d)
    ensures DirectoryPlan(root, source, target, w, filterMetadata) ==
      [MkDirAll(target)] + EntriesPlan(root, source, d, |d.children|, target, w, filterMetadata)
  {
  }

  /** The plans of the entries of `d`, one per entry. */
  function EntryPlans(root: Node, source: Path, d: Node, target: Path, w: Walk, filterMetadata: bool): (r: seq<seq<Action>>)
    requires GetDir(root, source) == Some(d)
    ensures |r| == |d.children|
    ensures forall j :: 0 <= j < |r| ==> r[j] == EntryPlan(root, source, d, j, target, w, filterMetadata)
  {
    seq(|d.children|, j requires 0 <= j < |d.children| => EntryPlan(root, source, d, j, target, w, filterMetadata))
  }

  /** The first `n` entries are their plans run one after the other. */
  lemma {:induction false} EntriesFlatten(root: Node, source: Path, d: Node, n: nat, target: Path, w: Walk, filterMetadata: bool)
    requires GetDir(root, source) == Some(d) && n <= |d.children|
    ensures EntriesPlan(root, source, d, n, target, w, filterMetadata) ==
      Flatten(EntryPlans(root, source, d, target, w, filterMetadata)[..n])
    decreases n
  {
    var ps := EntryPlans(root, source, d, target, w, filterMetadata);
    if n > 0 {
      EntriesFlatten(root, source, d, n - 1, target, w, filterMetadata);
      assert ps[..n][..n - 1] == ps[..n - 1];
    }
  }

  /** What a walk that succeeds leaves behind, entry by entry: a file of
      the directory that is not skipped holds its contents, rewritten or
      not, at `<target>/<rewritten name>`, unless a later entry has the
      same rewritten name; a subdirectory that is not skipped is a
      directory at `<target>/<rewritten name>`. */
  lemma DirectoryEntryPlaced(root: Node, source: Path, d: Node, i: nat, target: Path, w: Walk, filterMetadata: bool,
                             s: FsState, denied: set<Path>)
    requires UniqueNames(root) && GetDir(root, source) == Some(d) && i < |d.children|
    requires !Skipped(d.children[i].name, w, filterMetadata)
    requires forall j :: i < j < |d.children| && !Skipped(d.children[j].name, w, filterMetadata) ==>
      FileNameTransform(d.children[j].name, w.params) != FileNameTransform(d.children[i].name, w.params)
    requires Run(s, denied, DirectoryPlan(root, source, target, w, filterMetadata)).1.Pass?
    ensures var e := d.children[i];
      var name := FileNameTransform(e.name, w.params);
      var s' := Run(s, denied, DirectoryPlan(root, source, target, w, filterMetadata)).0;
      && (e.File? ==> target + [name] in s'.files && s'.files[target + [name]] == FileContents(e.contents, name !in w.transformExcludes, w))
      && (e.Dir? ==> target + [name] in s'.dirs)
  {
    var e := d.children[i];
    var name := FileNameTransform(e.name, w.params);
    var ps := EntryPlans(root, source, d, target, w, filterMetadata);
    DirectoryFound(root, source, d, target, w, filterMetadata);
    EntriesFlatten(root, source, d, |d.children|, target, w, filterMetadata);
    assert ps[..|d.children|] == ps;
    RunAppendPass(s, denied, [MkDirAll(target)], Flatten(ps));
    var s1 := Run(s, denied, [MkDirAll(target)]).0;
    if e.File? {
      FileEntryPlan(root, source, d, i, target, w, filterMetadata);
      forall j | i < j < |ps| ensures WritesNot(ps[j], target + [name]) {
        EntryAvoids(root, source, d, j, target, w, filterMetadata, name);
      }
      FlattenWrites(s1, denied, ps, i, target + [name], FileContents(e.contents, name !in w.transformExcludes, w));
    } else {
      DirEntryPlan(root, source, d, i, target, w, filterMetadata);
      FlattenMakesDir(s1, denied, ps, i, target + [name]);
    }
  }

  /** An entry produces no action exactly when it is skipped. */
  lemma SkippedIffNothing(root: Node, source: Path, d: Node, i: nat, target: Path, w: Walk, filterMetadata: bool)
    requires GetDir(root, source) == Some(d) && i < |d.children|
    ensures EntryPlan(root, source, d, i, target, w, filterMetadata) == [] <==> Skipped(d.children[i].name, w, filterMetadata)
  {
  }

  /** With a lawful codec, a file whose text holds no placeholder is
      written byte for byte as it is in the catalog. */
  lemma FileContentsUnchanged(raw: Bytes, transformContents: bool, w: Walk)
    requires Lawful(w.codec)
    requires w.codec.decode(raw).Some? ==> forall i :: 0 <= i < |Tokens| ==> !Contains(w.codec.decode(raw).value, Tokens[i])
    ensures FileContents(raw, transformContents, w) == raw
  {
    if transformContents && w.codec.decode(raw).Some? {
      TransformWithoutTokens(w.codec.decode(raw).value, w.params);
    }
  }

  /** With a lawful codec, a rewritten file reads back as the rewritten
      text, and a file that is not text is written unchanged. */
  lemma FileContentsRewritten(raw: Bytes, w: Walk)
    requires Lawful(w.codec)
    ensures w.codec.decode(raw).Some? ==>
      w.codec.decode(FileContents(raw, true, w)) == Some(Transform(w.codec.decode(raw).value, w.params))
    ensures w.codec.decode(raw).None? ==> FileContents(raw, true, w) == raw
  {
  }

  // ---------------------------------------------------------------------
  // Properties of `instantiate`

  /** Every WIT target lies in the component; without the example's own
      choice there is one, `wit/deps`. */
  lemma WitTargetsInside(e: Example, p: Params)
    ensures forall k :: 0 <= k < |WitTargets(e, p)| ==> ComponentDir(p) <= WitTargets(e, p)[k]
    ensures e.witDepsTargets.None? ==> WitTargets(e, p) == [ComponentDir(p) + ["wit", "deps"]]
  {
  }

  lemma {:induction false} WitInside(wit: Node, deps: seq<Path>, targets: seq<Path>, t: Path)
    requires forall k :: 0 <= k < |targets| ==> t <= targets[k]
    ensures Inside(WitPlan(wit, deps, targets), t)
    decreases |deps|
  {
    if deps != [] {
      WitInside(wit, deps[..|deps| - 1], targets, t);
      WitDepInside(wit, deps[|deps| - 1], targets, t);
    }
  }

  lemma {:induction false} WitDepInside(wit: Node, dep: Path, targets: seq<Path>, t: Path)
    requires forall k :: 0 <= k < |targets| ==> t <= targets[k]
    ensures Inside(WitDepPlan(wit, dep, targets), t)
    decreases |targets|
  {
    if targets != [] {
      WitDepInside(wit, dep, targets[..|targets| - 1], t);
      FilesInside(GetDir(wit, dep), targets[|targets| - 1], dep, t);
    }
  }

  lemma FilesInside(found: Option<Node>, target: Path, dep: Path, t: Path)
    requires t <= target
    ensures found.Some? && found.value.Dir? && FileName(dep).Some? ==>
      Inside(FilesPlan(found.value.children, target + [FileName(dep).value]), t)
  {
    if found.Some? && found.value.Dir? && FileName(dep).Some? {
      FilesPlanInside(found.value.children, target + [FileName(dep).value]);
    }
  }

  lemma {:induction false} FilesPlanInside(entries: seq<Node>, target: Path)
    ensures Inside(FilesPlan(entries, target), target)
  {
    if entries != [] {
      FilesPlanInside(entries[1..], target);
    }
  }

  /** `instantiate` creates nothing outside `<target>/<component name>`. */
  lemma InstantiateInside(c: Catalogs, e: Example, p: Params, codec: Codec)
    ensures Inside(InstantiatePlan(c, e, p, codec), ComponentDir(p))
  {
    DirectoryInside(c.examples, e.examplePath, ComponentDir(p), Walk(p, e.exclude, e.transformExclude, codec), true);
    WitTargetsInside(e, p);
    WitInside(c.wit, e.witDeps, WitTargets(e, p), ComponentDir(p));
  }

  /** So, whatever happens, files outside the component are untouched and
      the only new directories outside it are the component's ancestors. */
  lemma InstantiateTouchesOnlyComponent(c: Catalogs, e: Example, p: Params, codec: Codec, s: FsState, denied: set<Path>)
    ensures var s' := Run(s, denied, InstantiatePlan(c, e, p, codec)).0;
      (forall q :: !(ComponentDir(p) <= q) ==> (q in s'.files <==> q in s.files) && (q in s.files ==> s'.files[q] == s.files[q])) &&
      (forall q :: q in s'.dirs && q !in s.dirs ==> q <= ComponentDir(p) || ComponentDir(p) <= q)
  {
    InstantiateInside(c, e, p, codec);
    RunInside(s, denied, InstantiatePlan(c, e, p, codec), ComponentDir(p));
  }
}
