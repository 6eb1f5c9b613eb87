/** The build script of the Go multi-RPC example (`magefile.go`): the
    up-to-date check every build step goes through (`opRun`), steps run one
    after the other (`serialRun`), the list of components that need an RPC
    stub, building every component, building and adding the stubs, and
    composing a component with the stubs it calls.

    The external tools (`golem-cli`, `tinygo`, `wasm-tools`) are parameters:
    a step is given by how it ends. mage's `target.Dir` is a parameter too
    (`DirCheck`). Paths are sequences of components, as in `Disk`. */
module Magefile {
  import opened Wrappers
  import opened Text
  import opened Disk
  import opened Deps
  import opened Compose

  const PkgNs: string := "pack-ns"
  const TargetDir: Path := ["target"]
  const ComponentsDir: Path := ["components"]

  /** `components/<name>`. */
  function ComponentDir(name: string): Path
  {
    ComponentsDir + [name]
  }

  // ---------------------------------------------------------------------
  // `serialRun` and `BuildAllComponents`

  const StepFailed: string := "serialRun: step "
  const BuildFailed: string := "build all components: build component failed for "

  /** `serialRun`: runs the steps in order up to the first that fails and
      reports that step, counted from 1. `steps[k]` is how step `k` ends
      when it is run; `ran` is how many steps were run. */
  method SerialRun(steps: seq<Outcome<string>>) returns (ran: nat, r: Outcome<string>)
    ensures ran <= |steps| && forall k :: 0 <= k < ran - 1 ==> steps[k].Pass?
    ensures r.Pass? <==> ran == |steps| && forall k :: 0 <= k < |steps| ==> steps[k].Pass?
    ensures r.Fail? ==> (0 < ran && steps[ran - 1].Fail? &&
      r.error == StepFailed + NatToString(ran) + " failed: " + steps[ran - 1].error)
  {
    ran := 0;
    for i := 0 to |steps|
      invariant ran == i
      invariant forall k :: 0 <= k < i ==> steps[k].Pass?
    {
      ran := ran + 1;
      var err := steps[i];
      if err.Fail? {
        return ran, Fail(StepFailed + NatToString(i + 1) + " failed: " + err.error);
      }
    }
    return ran, Pass;
  }

  /** `BuildAllComponents`: builds the components in order up to the first
      that fails. `names` is what `componentNames` lists (nothing when the
      components directory cannot be read); `build` is how building a
      component ends; `ran` is how many builds were started. */
  method BuildAllComponents(names: seq<string>, build: string -> Outcome<string>) returns (ran: nat, r: Outcome<string>)
    ensures ran <= |names| && forall k :: 0 <= k < ran - 1 ==> build(names[k]).Pass?
    ensures r.Pass? <==> ran == |names| && forall k :: 0 <= k < |names| ==> build(names[k]).Pass?
    ensures r.Fail? ==> (0 < ran && build(names[ran - 1]).Fail? &&
      r.error == BuildFailed + names[ran - 1] + ", " + build(names[ran - 1]).error)
  {
    ran := 0;
    for i := 0 to |names|
      invariant ran == i
      invariant forall k :: 0 <= k < i ==> build(names[k]).Pass?
    {
      var componentName := names[i];
      ran := ran + 1;
      var err := build(componentName);
      if err.Fail? {
        return ran, Fail(BuildFailed + componentName + ", " + err.error);
      }
    }
    return ran, Pass;
  }

  // ---------------------------------------------------------------------
  // `opRun`

  /** mage's `target.Dir`: whether a target is older than its sources (or
      missing), or the error it reports. */
  type DirCheck = (Path, seq<Path>) -> Result<bool, string>

  /** A build step: its messages, what it produces and what it reads. */
  datatype Op = Op(runMessage: string, skipMessage: string, targets: seq<Path>, sources: seq<Path>)

  /** The targets checked in order, up to the first stale one or the first
      error. */
  function CheckTargets(targets: seq<Path>, sources: seq<Path>, dir: DirCheck): Result<bool, string>
  {
    if targets == [] then Ok(false)
    else
      match dir(targets[0], sources)
      case Err(e) => Err(e)
      case Ok(stale) => if stale then Ok(true) else CheckTargets(targets[1..], sources, dir)
  }

  /** Whether `opRun` runs a step: always when it has no targets, otherwise
      as the check of its targets says. */
  function OpDecision(op: Op, dir: DirCheck): Result<bool, string>
  {
    if op.targets == [] then Ok(true) else CheckTargets(op.targets, op.sources, dir)
  }

  /** Target `i` is the first one found stale. */
  predicate FirstStale(targets: seq<Path>, sources: seq<Path>, dir: DirCheck, i: nat)
    requires i < |targets|
  {
    dir(targets[i], sources) == Ok(true) && forall j :: 0 <= j < i ==> dir(targets[j], sources) == Ok(false)
  }

  /** Target `i` is the first one whose check fails, with error `e`. */
  predicate FirstError(targets: seq<Path>, sources: seq<Path>, dir: DirCheck, i: nat, e: string)
    requires i < |targets|
  {
    dir(targets[i], sources) == Err(e) && forall j :: 0 <= j < i ==> dir(targets[j], sources) == Ok(false)
  }

  /** The check of the targets reports stale exactly when some target is
      found stale before any error, up to date exactly when every target
      is, and otherwise the first error. */
  lemma {:induction false} CheckTargetsMeaning(targets: seq<Path>, sources: seq<Path>, dir: DirCheck)
    ensures CheckTargets(targets, sources, dir) == Ok(true) <==>
      exists i :: 0 <= i < |targets| && FirstStale(targets, sources, dir, i)
    ensures CheckTargets(targets, sources, dir) == Ok(false) <==>
      forall i :: 0 <= i < |targets| ==> dir(targets[i], sources) == Ok(false)
    ensures CheckTargets(targets, sources, dir).Err? ==>
      exists i :: 0 <= i < |targets| && FirstError(targets, sources, dir, i, CheckTargets(targets, sources, dir).error)
  {
    if targets != [] {
      var rest := targets[1..];
      var r := CheckTargets(targets, sources, dir);
      CheckTargetsMeaning(rest, sources, dir);
      assert forall i :: 0 <= i < |rest| ==> rest[i] == targets[i + 1];
      if dir(targets[0], sources) == Ok(false) {
        assert r == CheckTargets(rest, sources, dir);
        if exists i :: 0 <= i < |rest| && FirstStale(rest, sources, dir, i) {
          var i :| 0 <= i < |rest| && FirstStale(rest, sources, dir, i);
          assert FirstStale(targets, sources, dir, i + 1);
        }
        if exists i :: 0 <= i < |targets| && FirstStale(targets, sources, dir, i) {
          var i :| 0 <= i < |targets| && FirstStale(targets, sources, dir, i);
          assert FirstStale(rest, sources, dir, i - 1);
        }
        if forall i :: 0 <= i < |rest| ==> dir(rest[i], sources) == Ok(false) {
          assert forall i :: 0 <= i < |targets| ==> dir(targets[i], sources) == Ok(false);
        }
        if r.Err? {
          var i :| 0 <= i < |rest| && FirstError(rest, sources, dir, i, r.error);
          assert FirstError(targets, sources, dir, i + 1, r.error);
        }
      } else {
        assert dir(targets[0], sources) != Ok(false);
        if r == Ok(true) {
          assert FirstStale(targets, sources, dir, 0);
        } else {
          assert FirstError(targets, sources, dir, 0, r.error);
          forall i | 0 <= i < |targets|
            ensures !FirstStale(targets, sources, dir, i)
          {
            assert dir(targets[0], sources) != Ok(false) && dir(targets[0], sources) != Ok(true);
          }
        }
      }
    }
  }

  /** The loop of `opRun`: the targets checked in order, stopping at the
      first stale one; an error of the check is passed on. */
  method CheckOp(op: Op, dir: DirCheck) returns (run: Result<bool, string>)
    ensures run == OpDecision(op, dir)
  {
    if |op.targets| == 0 {
      return Ok(true);
    }
    var stale := false;
    var i := 0;
    while i < |op.targets|
      invariant 0 <= i <= |op.targets|
      invariant !stale
      invariant CheckTargets(op.targets, op.sources, dir) == CheckTargets(op.targets[i..], op.sources, dir)
    {
      assert op.targets[i..][1..] == op.targets[i + 1..];
      var checked := dir(op.targets[i], op.sources);
      if checked.Err? {
        return Err(checked.error);
      }
      stale := checked.value;
      if stale {
        return Ok(true);
      }
      i := i + 1;
    }
    return Ok(false);
  }

  /** Each path as it is printed. */
  function ShownAll(ps: seq<Path>): (r: seq<string>)
    ensures |r| == |ps| && forall i :: 0 <= i < |ps| ==> r[i] == Shown(ps[i])
  {
    seq(|ps|, i requires 0 <= i < |ps| => Shown(ps[i]))
  }

  /** The targets as the skip message prints them: one bare, several in
      parentheses separated by commas. */
  function SkipTargets(targets: seq<Path>): (r: string)
    ensures |targets| == 1 ==> r == Shown(targets[0])
    ensures |targets| != 1 ==> (|r| >= 2 && r[0] == '(' && r[|r| - 1] == ')' &&
      r[1..|r| - 1] == Join(ShownAll(targets), ", "))
  {
    if |targets| == 1 then Shown(targets[0])
    else "(" + Join(ShownAll(targets), ", ") + ")"
  }

  /** The line printed for a step that is skipped. */
  function SkipLine(op: Op): string
  {
    SkipTargets(op.targets) + " is up to date, skipping " + op.skipMessage
  }

  /** How `opRun` ends: it ran the step, with the step's own outcome; it
      skipped the step; or the check of the targets failed. */
  datatype OpEnd = Ran(result: Outcome<string>) | Skipped | CheckFailed(error: string)

  /** `opRun`: checks the targets and runs the step (ending as `run`) or
      skips it; returns how it ends and the line it prints (none when the
      check fails). */
  method OpRun(op: Op, dir: DirCheck, run: Outcome<string>) returns (end: OpEnd, line: string)
    ensures OpDecision(op, dir).Err? ==> end == CheckFailed(OpDecision(op, dir).error) && line == ""
    ensures OpDecision(op, dir) == Ok(false) ==> end == Skipped && line == SkipLine(op)
    ensures OpDecision(op, dir) == Ok(true) ==> end == Ran(run) && line == op.runMessage
  {
    var decided := CheckOp(op, dir);
    if decided.Err? {
      return CheckFailed(decided.error), "";
    }
    if !decided.value {
      var targets;
      if |op.targets| == 1 {
        targets := Shown(op.targets[0]);
      } else {
        targets := "(" + Join(ShownAll(op.targets), ", ") + ")";
      }
      return Skipped, targets + " is up to date, skipping " + op.skipMessage;
    }
    return Ran(run), op.runMessage;
  }

  /** A step without targets is always run. */
  lemma NoTargetsRuns(op: Op, dir: DirCheck)
    requires op.targets == []
    ensures OpDecision(op, dir) == Ok(true)
  {
  }

  /** A step is skipped exactly when the check finds every target up to
      date. */
  lemma SkippedWhenAllCurrent(op: Op, dir: DirCheck)
    ensures OpDecision(op, dir) == Ok(false) <==>
      op.targets != [] && forall i :: 0 <= i < |op.targets| ==> dir(op.targets[i], op.sources) == Ok(false)
  {
    CheckTargetsMeaning(op.targets, op.sources, dir);
  }

  // ---------------------------------------------------------------------
  // `stubComponentNames`

  /** `stubComponentNames`: every component some component depends on, once
      each and in ascending order. The keys of the map are visited in no
      particular order, as Go's map iteration does, and so are those of the
      set built from them. */
  method StubComponentNames(componentDeps: map<string, seq<string>>) returns (r: seq<string>)
    ensures r == SortedElements(MapUnion(componentDeps))
  {
    var seen: set<string> := {};
    var keys := componentDeps.Keys;
    while keys != {}
      invariant keys <= componentDeps.Keys
      invariant forall x :: x in seen <==> exists k :: k in componentDeps && k !in keys && x in componentDeps[k]
      decreases keys
    {
      var key :| key in keys;
      var deps := componentDeps[key];
      for j := 0 to |deps|
        invariant forall x :: x in seen <==>
          (exists k :: k in componentDeps && k !in keys && x in componentDeps[k]) || x in deps[..j]
      {
        seen := seen + {deps[j]};
      }
      assert deps[..|deps|] == deps;
      keys := keys - {key};
    }
    var listed: seq<string> := [];
    var rest := seen;
    while rest != {}
      invariant rest <= seen
      invariant Distinct(listed)
      invariant forall x :: x in listed <==> x in seen && x !in rest
      decreases rest
    {
      var name :| name in rest;
      listed := listed + [name];
      rest := rest - {name};
    }
    r := SortStrings(listed);
    SortedUnique(r, SortedElements(MapUnion(componentDeps)));
  }

  // ---------------------------------------------------------------------
  // `UpdateRpcStubs`

  /** The dependencies the map lists for `c`; none when it has no entry,
      as indexing a Go map gives for a missing key. */
  function DepsIn(componentDeps: map<string, seq<string>>, c: string): (r: seq<string>)
    ensures c in componentDeps ==> r == componentDeps[c]
    ensures c !in componentDeps ==> r == []
  {
    if c in componentDeps then componentDeps[c] else []
  }

  /** The additions of `UpdateRpcStubs`: for each component found in the
      components directory, each of its dependencies in order. */
  function AddSteps(names: seq<string>, componentDeps: map<string, seq<string>>): seq<StubOp>
    decreases |names|
  {
    if names == [] then []
    else AddSteps(names[..|names| - 1], componentDeps) + Adds(names[|names| - 1], DepsIn(componentDeps, names[|names| - 1]))
  }

  /** The steps of `UpdateRpcStubs`: every stub built, in ascending order,
      then every dependency added. */
  ghost function UpdatePlan(names: seq<string>, componentDeps: map<string, seq<string>>): seq<StubOp>
  {
    Builds(SortedElements(MapUnion(componentDeps))) + AddSteps(names, componentDeps)
  }

  const BuildStubFailed: string := "update RPC stubs: build stub component failed for "
  const AddStubFailed: string := "update RPC stubs: add stub dependecy failed for "

  /** The error `UpdateRpcStubs` returns when step `op` fails with `e`. */
  function UpdateMessage(op: StubOp, e: string): string
  {
    match op
    case BuildStub(c) => BuildStubFailed + c + ", " + e
    case AddStub(c, d) => AddStubFailed + d + " to " + c + ", " + e
  }

  /** Each addition adds a dependency listed for a component in the
      directory, and each such dependency is added. */
  lemma {:induction false} AddStepsMembers(names: seq<string>, componentDeps: map<string, seq<string>>, c: string, d: string)
    ensures forall op :: op in AddSteps(names, componentDeps) ==> op.AddStub?
    ensures AddStub(c, d) in AddSteps(names, componentDeps) <==> c in names && c in componentDeps && d in componentDeps[c]
    decreases |names|
  {
    if names != [] {
      var init := names[..|names| - 1];
      var last := names[|names| - 1];
      AddStepsMembers(init, componentDeps, c, d);
      var adds := Adds(last, DepsIn(componentDeps, last));
      if AddStub(c, d) in adds {
        var j :| 0 <= j < |adds| && adds[j] == AddStub(c, d);
        assert DepsIn(componentDeps, last)[j] == d;
      }
      if c in names && c in componentDeps && d in componentDeps[c] {
        if c == last {
          var j :| 0 <= j < |componentDeps[c]| && componentDeps[c][j] == d;
          assert adds[j] == AddStub(c, d);
        } else {
          var k :| 0 <= k < |names| && names[k] == c;
          assert init[k] == c;
        }
      }
    }
  }

  /** Every stub is built before it is added to a component. */
  lemma UpdateBuildsFirst(names: seq<string>, componentDeps: map<string, seq<string>>)
    ensures BuiltBeforeAdded(UpdatePlan(names, componentDeps))
  {
    var stubs := SortedElements(MapUnion(componentDeps));
    var adds := AddSteps(names, componentDeps);
    AddStepsMembers(names, componentDeps, "", "");
    forall j | 0 <= j < |adds| ensures adds[j].AddStub? && adds[j].dependency in stubs {
      var op := adds[j];
      assert op in adds;
      AddStepsMembers(names, componentDeps, op.component, op.dependency);
    }
    BuildsThenAdds(stubs, adds);
  }

  /** The steps run by `UpdateRpcStubs` add no stub before building it,
      even when a step fails. */
  lemma UpdateRunBuildsFirst(names: seq<string>, componentDeps: map<string, seq<string>>, attempt: Attempt)
    ensures BuiltBeforeAdded(RunOps(UpdatePlan(names, componentDeps), attempt).0)
  {
    UpdateBuildsFirst(names, componentDeps);
    BuiltBeforeAddedPrefix(UpdatePlan(names, componentDeps), RunOps(UpdatePlan(names, componentDeps), attempt).0);
  }

  /** The additions for the component at `c` follow those of the components
      before it. */
  lemma AddStepsInPlan(names: seq<string>, componentDeps: map<string, seq<string>>, c: nat,
                       stubs: seq<string>, from: nat, ds: seq<string>)
    requires c < |names| && stubs == SortedElements(MapUnion(componentDeps))
    requires from == |stubs| + |AddSteps(names[..c], componentDeps)| && ds == DepsIn(componentDeps, names[c])
    ensures from + |ds| == |stubs| + |AddSteps(names[..c + 1], componentDeps)|
    ensures from + |ds| <= |UpdatePlan(names, componentDeps)|
    ensures forall j :: 0 <= j < |ds| ==> UpdatePlan(names, componentDeps)[from + j] == AddStub(names[c], ds[j])
  {
    assert names[..c + 1][..c] == names[..c];
    assert AddSteps(names[..c + 1], componentDeps) == AddSteps(names[..c], componentDeps) + Adds(names[c], ds);
    AddStepsPrefix(names, componentDeps, c + 1);
    AddsAt(UpdatePlan(names, componentDeps), Builds(stubs), AddSteps(names[..c], componentDeps),
           AddSteps(names, componentDeps), names[c], ds, from);
  }

  lemma {:induction false} AddStepsPrefix(names: seq<string>, componentDeps: map<string, seq<string>>, c: nat)
    requires c <= |names|
    ensures AddSteps(names[..c], componentDeps) <= AddSteps(names, componentDeps)
    decreases |names| - c
  {
    if c < |names| {
      AddStepsPrefix(names, componentDeps, c + 1);
      assert names[..c + 1][..c] == names[..c];
    } else {
      assert names[..c] == names;
    }
  }

  /** `UpdateRpcStubs`: builds every stub, then adds every dependency of
      every component in the directory (`names`), stopping at the first
      step that fails; returns the steps run and the error returned.
      What a step does, including its own up-to-date check, is
      `attempt`. */
  method UpdateRpcStubs(names: seq<string>, componentDeps: map<string, seq<string>>, attempt: Attempt)
    returns (done: seq<StubOp>, err: Option<string>)
    ensures done == RunOps(UpdatePlan(names, componentDeps), attempt).0
    ensures RunOps(UpdatePlan(names, componentDeps), attempt).1.None? ==> err.None?
    ensures RunOps(UpdatePlan(names, componentDeps), attempt).1.Some? ==>
      err == Some(UpdateMessage(done[|done| - 1], RunOps(UpdatePlan(names, componentDeps), attempt).1.value))
  {
    var stubs := StubComponentNames(componentDeps);
    done, err := BuildStubs(names, componentDeps, stubs, attempt);
    if err.None? {
      done, err := AddDependencies(names, componentDeps, stubs, attempt, done);
    }
  }

  /** The first loop of `UpdateRpcStubs`: every stub built in turn. */
  method BuildStubs(names: seq<string>, componentDeps: map<string, seq<string>>, stubs: seq<string>, attempt: Attempt)
    returns (done: seq<StubOp>, err: Option<string>)
    requires stubs == SortedElements(MapUnion(componentDeps))
    ensures err.Some? ==> (done == RunOps(UpdatePlan(names, componentDeps), attempt).0 &&
      RunOps(UpdatePlan(names, componentDeps), attempt).1.Some? &&
      err == Some(UpdateMessage(done[|done| - 1], RunOps(UpdatePlan(names, componentDeps), attempt).1.value)))
    ensures err.None? ==> RanCleanly(UpdatePlan(names, componentDeps), attempt, done, |stubs|)
  {
    ghost var plan := UpdatePlan(names, componentDeps);
    done := [];
    for i := 0 to |stubs|
      invariant RanCleanly(plan, attempt, done, i)
    {
      var componentName := stubs[i];
      var op := BuildStub(componentName);
      assert plan[i] == op;
      Advance(plan, attempt, done, i);
      done := done + [op];
      var o := attempt(op);
      if o.Fail? {
        return done, Some(BuildStubFailed + componentName + ", " + o.error);
      }
    }
    return done, None;
  }

  /** The second loop of `UpdateRpcStubs`: every dependency of every
      component added in turn. */
  method AddDependencies(names: seq<string>, componentDeps: map<string, seq<string>>, stubs: seq<string>,
                         attempt: Attempt, built: seq<StubOp>)
    returns (done: seq<StubOp>, err: Option<string>)
    requires stubs == SortedElements(MapUnion(componentDeps))
    requires RanCleanly(UpdatePlan(names, componentDeps), attempt, built, |stubs|)
    ensures done == RunOps(UpdatePlan(names, componentDeps), attempt).0
    ensures RunOps(UpdatePlan(names, componentDeps), attempt).1.None? ==> err.None?
    ensures RunOps(UpdatePlan(names, componentDeps), attempt).1.Some? ==>
      err == Some(UpdateMessage(done[|done| - 1], RunOps(UpdatePlan(names, componentDeps), attempt).1.value))
  {
    ghost var plan := UpdatePlan(names, componentDeps);
    done := built;
    assert names[..0] == [];
    ghost var from := |stubs|;
    for c := 0 to |names|
      invariant from == |stubs| + |AddSteps(names[..c], componentDeps)|
      invariant RanCleanly(plan, attempt, done, from)
    {
      var componentName := names[c];
      var deps := DepsIn(componentDeps, componentName);
      AddStepsInPlan(names, componentDeps, c, stubs, from, deps);
      done, err := AddComponentDeps(plan, from, componentName, deps, attempt, done);
      if err.Some? {
        return;
      }
      from := from + |deps|;
    }
    assert names[..|names|] == names;
    assert from == |plan|;
    RanAll(plan, attempt, done);
    return done, None;
  }

  /** The inner loop of `UpdateRpcStubs`: the dependencies of one
      component, which are the steps of `plan` from `from` on, added in
      turn. */
  method AddComponentDeps(ghost plan: seq<StubOp>, ghost from: nat, componentName: string, deps: seq<string>,
                          attempt: Attempt, before: seq<StubOp>)
    returns (done: seq<StubOp>, err: Option<string>)
    requires RanCleanly(plan, attempt, before, from) && from + |deps| <= |plan|
    requires forall j :: 0 <= j < |deps| ==> plan[from + j] == AddStub(componentName, deps[j])
    ensures err.None? ==> RanCleanly(plan, attempt, done, from + |deps|)
    ensures err.Some? ==> (done == RunOps(plan, attempt).0 && RunOps(plan, attempt).1.Some? &&
      err == Some(UpdateMessage(done[|done| - 1], RunOps(plan, attempt).1.value)))
  {
    done := before;
    for j := 0 to |deps|
      invariant RanCleanly(plan, attempt, done, from + j)
    {
      var dependency := deps[j];
      var op := AddStub(componentName, dependency);
      assert plan[from + j] == op;
      Advance(plan, attempt, done, from + j);
      done := done + [op];
      var o := attempt(op);
      if o.Fail? {
        return done, Some(AddStubFailed + dependency + " to " + componentName + ", " + o.error);
      }
    }
    return done, None;
  }

  // ---------------------------------------------------------------------
  // `StubCompose`

  /** A name with its trailing slashes removed. */
  function TrimSlashes(s: string): (r: string)
    ensures r <= s && (r == [] || r[|r| - 1] != '/')
    decreases |s|
  {
    if s != [] && s[|s| - 1] == '/' then TrimSlashes(s[..|s| - 1]) else s
  }

  /** What follows the last slash of a name. */
  function AfterLastSlash(s: string): (r: string)
    ensures '/' !in r
    ensures |r| <= |s| && r == s[|s| - |r|..]
    decreases |s|
  {
    if s == [] || s[|s| - 1] == '/' then []
    else AfterLastSlash(s[..|s| - 1]) + [s[|s| - 1]]
  }

  /** `filepath.Base`: the last element of a slash-separated name, trailing
      slashes aside; `.` for the empty name and `/` for one made only of
      slashes. */
  function Base(s: string): (r: string)
  {
    if s == [] then "."
    else
      var t := TrimSlashes(s);
      if t == [] then "/" else AfterLastSlash(t)
  }

  /** A name without slashes is left as it is. */
  lemma {:induction false} AfterLastSlashOfName(s: string)
    requires '/' !in s
    ensures AfterLastSlash(s) == s
    decreases |s|
  {
    if s != [] {
      assert forall x :: x in s[..|s| - 1] ==> x in s;
      AfterLastSlashOfName(s[..|s| - 1]);
    }
  }

  /** The base of a component name, which has no slash, is the name; the
      base of a name that is not all slashes holds no slash. */
  lemma BaseOfName(s: string)
    ensures s != [] && '/' !in s ==> Base(s) == s
    ensures TrimSlashes(s) != [] ==> '/' !in Base(s)
  {
    if s != [] && '/' !in s {
      assert s[|s| - 1] in s;
      AfterLastSlashOfName(s);
    }
  }

  /** `filepath.Dir` of a file path: the directory it lies in. */
  function DirOf(p: Path): (r: Path)
    ensures p != [] ==> r + [p[|p| - 1]] == p
  {
    if p == [] then [] else p[..|p| - 1]
  }

  /** `target/stub/<dep>/stub.wasm`. */
  function StubWasm(dep: string): Path
  {
    TargetDir + ["stub", dep, "stub.wasm"]
  }

  function StubWasms(deps: seq<string>): (r: seq<Path>)
    ensures |r| == |deps| && forall i :: 0 <= i < |deps| ==> r[i] == StubWasm(deps[i])
  {
    seq(|deps|, i requires 0 <= i < |deps| => StubWasm(deps[i]))
  }

  /** The files the steps write, next to the component's file. */
  function ComposeDests(componentWasm: Path, deps: seq<string>): (r: seq<Path>)
    ensures |r| == |deps|
    ensures forall i :: 0 <= i < |deps| ==> r[i] == DirOf(componentWasm) + [ComposeName(i + 1, Base(deps[i]))]
  {
    seq(|deps|, i requires 0 <= i < |deps| => DirOf(componentWasm) + [ComposeName(i + 1, Base(deps[i]))])
  }

  /** Different steps write different files. */
  lemma ComposeDestsDistinct(componentWasm: Path, deps: seq<string>, i: nat, j: nat)
    requires i < j < |deps|
    ensures ComposeDests(componentWasm, deps)[i] != ComposeDests(componentWasm, deps)[j]
  {
    var ds := ComposeDests(componentWasm, deps);
    ComposeNamesDiffer(i + 1, j + 1, Base(deps[i]), Base(deps[j]));
    assert ds[i][|ds[i]| - 1] != ds[j][|ds[j]| - 1];
  }

  /** How `sh.Exec` reports a run of `golem-cli stubgen compose`: its error,
      if any, and what it wrote to standard error. */
  datatype Exec = Exec(err: Option<string>, stderr: string)

  /** The tool, run on the current file, a stub and the destination. */
  type Executor = (Path, Path, Path) -> Exec

  /** How a step ends: without error it composes, the unused-stub message
      skips the stub, and any other error stops the composition. */
  function ExecStep(x: Exec): (r: StepResult)
    ensures r.Composed? <==> x.err.None?
    ensures r.Unused? <==> x.err.Some? && UnusedStub(x.stderr)
    ensures r.Broken? ==> x.err.Some? && r.message == "StubCompose failed: " + x.err.value
  {
    match x.err
    case None => Composed
    case Some(e) => if UnusedStub(x.stderr) then Unused else Broken("StubCompose failed: " + e)
  }

  function Lift(exec: Executor): Tool
  {
    (src, stub, dst) => ExecStep(exec(src, stub, dst))
  }

  /** The `Run` callback of `StubCompose` up to its final copy: the file to
      copy, or the error returned. */
  method ComposeStubs(componentWasm: Path, deps: seq<string>, stubWasms: seq<Path>, exec: Executor)
    returns (r: Result<Path, string>)
    requires stubWasms == StubWasms(deps)
    ensures r == Chain(componentWasm, stubWasms, ComposeDests(componentWasm, deps), Lift(exec), |deps|)
  {
    ghost var dests := ComposeDests(componentWasm, deps);
    var buildTargetDir := DirOf(componentWasm);
    var composeWasm := componentWasm;
    if |stubWasms| > 0 {
      var srcWasm := componentWasm;
      for i := 0 to |stubWasms|
        invariant srcWasm == composeWasm
        invariant Chain(componentWasm, stubWasms, dests, Lift(exec), i) == Ok(composeWasm)
      {
        var stubWasm := stubWasms[i];
        var prevComposeWasm := composeWasm;
        composeWasm := buildTargetDir + [ComposeName(i + 1, Base(deps[i]))];
        var result := exec(srcWasm, stubWasm, composeWasm);
        if result.err.Some? {
          if UnusedStub(result.stderr) {
            composeWasm := prevComposeWasm;
            continue;
          }
          ChainStaysFailed(componentWasm, stubWasms, dests, Lift(exec), i + 1, |deps|);
          return Err("StubCompose failed: " + result.err.value);
        }
        srcWasm := composeWasm;
      }
    }
    return Ok(composeWasm);
  }

  /** The step of `StubCompose`: the composed file depends on every stub
      and on the component. */
  function ComposeOp(componentName: string, componentWasm: Path, targetWasm: Path, deps: seq<string>): Op
  {
    var stubWasms := StubWasms(deps);
    Op("Composing [" + Join(ShownAll(stubWasms), ", ") +
       "] into " + componentName,
       "composing", [targetWasm], stubWasms + [componentWasm])
  }

  /** How `StubCompose` ends: the file copied to the target, the target up
      to date, or the error returned. */
  datatype ComposeEnd = Copied(from: Path, to: Path) | UpToDate | DirFailed(error: string) | ComposeFailed(message: string)

  /** `StubCompose`: the stubs of the component's dependencies, the
      up-to-date check of `opRun`, and the composition chain, whose last
      file is copied to `targetWasm`. Returns how it ends and the line it
      prints. */
  method StubCompose(componentName: string, componentWasm: Path, targetWasm: Path,
                     componentDeps: map<string, seq<string>>, dir: DirCheck, exec: Executor)
    returns (end: ComposeEnd, line: string)
    ensures var op := ComposeOp(componentName, componentWasm, targetWasm, DepsIn(componentDeps, componentName));
      && (OpDecision(op, dir).Err? ==> end == DirFailed(OpDecision(op, dir).error) && line == "")
      && (OpDecision(op, dir) == Ok(false) ==> end == UpToDate && line == SkipLine(op))
      && (OpDecision(op, dir) == Ok(true) ==> line == op.runMessage)
    ensures var deps := DepsIn(componentDeps, componentName);
      var op := ComposeOp(componentName, componentWasm, targetWasm, deps);
      var chain := Chain(componentWasm, StubWasms(deps), ComposeDests(componentWasm, deps), Lift(exec), |deps|);
      && (OpDecision(op, dir) == Ok(true) && chain.Err? ==> end == ComposeFailed(chain.error))
      && (OpDecision(op, dir) == Ok(true) && chain.Ok? ==> end == Copied(chain.value, targetWasm))
  {
    var dependencies := DepsIn(componentDeps, componentName);
    var stubWasms := new Path[|dependencies|];
    for i := 0 to |dependencies|
      invariant forall k :: 0 <= k < i ==> stubWasms[k] == StubWasm(dependencies[k])
    {
      var stubTargetDir := TargetDir + ["stub", dependencies[i]];
      stubWasms[i] := stubTargetDir + ["stub.wasm"];
    }
    var stubs := stubWasms[..];
    assert stubs == StubWasms(dependencies);
    var op := Op("Composing [" + Join(ShownAll(stubs), ", ") +
                 "] into " + componentName,
                 "composing", [targetWasm], stubs + [componentWasm]);
    assert op == ComposeOp(componentName, componentWasm, targetWasm, dependencies);
    var decided := CheckOp(op, dir);
    if decided.Err? {
      return DirFailed(decided.error), "";
    }
    if !decided.value {
      return UpToDate, SkipTargets(op.targets) + " is up to date, skipping " + op.skipMessage;
    }
    line := op.runMessage;
    var composed := ComposeStubs(componentWasm, dependencies, stubs, exec);
    if composed.Err? {
      return ComposeFailed(composed.error), line;
    }
    return Copied(composed.value, targetWasm), line;
  }

  /** What is copied to the target is the component itself when no stub
      was composed, and otherwise the file of the last step that composed:
      a stub found unused leaves the previous file in place. */
  lemma CopiesLastComposed(componentWasm: Path, deps: seq<string>, exec: Executor)
    requires Chain(componentWasm, StubWasms(deps), ComposeDests(componentWasm, deps), Lift(exec), |deps|).Ok?
    ensures var w := Chain(componentWasm, StubWasms(deps), ComposeDests(componentWasm, deps), Lift(exec), |deps|).value;
      w == componentWasm || exists k :: 0 <= k < |deps| && w == DirOf(componentWasm) + [ComposeName(k + 1, Base(deps[k]))]
  {
    ChainIsLastComposed(componentWasm, StubWasms(deps), ComposeDests(componentWasm, deps), Lift(exec), |deps|);
  }

  /** When the component calls none of its stubs, the component itself is
      copied. */
  lemma AllUnusedCopiesComponent(componentWasm: Path, deps: seq<string>, exec: Executor)
    requires forall k :: 0 <= k < |deps| ==>
      exec(componentWasm, StubWasm(deps[k]), ComposeDests(componentWasm, deps)[k]).err.Some? &&
      UnusedStub(exec(componentWasm, StubWasm(deps[k]), ComposeDests(componentWasm, deps)[k]).stderr)
    ensures Chain(componentWasm, StubWasms(deps), ComposeDests(componentWasm, deps), Lift(exec), |deps|) == Ok(componentWasm)
  {
    ChainAllUnused(componentWasm, StubWasms(deps), ComposeDests(componentWasm, deps), Lift(exec), |deps|);
  }

  // ---------------------------------------------------------------------
  // `AddStubDependency`'s targets

  /** `components/<component>/wit`. */
  function WitDir(component: string): Path
  {
    ComponentDir(component) + ["wit"]
  }

  /** The step as the script builds it: the targets join the component
      directory with the WIT directory, which already starts with the
      component directory, and name the package after the component rather
      than after the dependency. */
  function AddStubOpAsWritten(component: string, dep: string): Op
  {
    Op("Adding stub dependecy for " + dep + " to " + component, "add stub dependency",
       [ComponentDir(component) + WitDir(component) + ["deps", PkgNs + "_" + component],
        ComponentDir(component) + WitDir(component) + ["deps", PkgNs + "_" + component + "-stub"]],
       [TargetDir + ["stub", dep, "wit"]])
  }

  /** The targets as written lie outside the WIT directory the tool writes
      into, below a second copy of the component path. */
  lemma AddStubTargetsMisplaced(component: string, dep: string)
    ensures forall t :: t in AddStubOpAsWritten(component, dep).targets ==>
      !(WitDir(component) <= t) && t[..2] == t[2..4] == ComponentDir(component)
  {
    forall t | t in AddStubOpAsWritten(component, dep).targets
      ensures !(WitDir(component) <= t) && t[..2] == t[2..4] == ComponentDir(component)
    {
      assert t[2] == "components" != "wit";
    }
  }

  /** The step as written checks the same targets for every dependency of a
      component, so the check cannot tell one dependency's stub from
      another's. */
  lemma AddStubTargetsShared(component: string, dep: string, other: string)
    requires dep != other
    ensures AddStubOpAsWritten(component, dep).targets == AddStubOpAsWritten(component, other).targets
    ensures AddStubOpAsWritten(component, dep).sources != AddStubOpAsWritten(component, other).sources
  {
    assert AddStubOpAsWritten(component, dep).sources[0][2] == dep;
  }

  /** The targets intended: the dependency's package directories inside the
      component's `wit/deps`. */
  function AddStubTargets(component: string, dep: string): seq<Path>
  {
    [WitDir(component) + ["deps", PkgNs + "_" + dep], WitDir(component) + ["deps", PkgNs + "_" + dep + "-stub"]]
  }

  function AddStubOp(component: string, dep: string): Op
  {
    Op("Adding stub dependecy for " + dep + " to " + component, "add stub dependency",
       AddStubTargets(component, dep), [TargetDir + ["stub", dep, "wit"]])
  }

  /** The intended targets lie in the component's `wit/deps` and differ
      from one dependency to the next. */
  lemma AddStubTargetsPlaced(component: string, dep: string, other: string)
    requires dep != other
    ensures forall t :: t in AddStubOp(component, dep).targets ==> WitDir(component) + ["deps"] <= t && |t| == 5
    ensures AddStubOp(component, dep).targets[0] != AddStubOp(component, other).targets[0]
    ensures AddStubOp(component, dep).targets[1] != AddStubOp(component, other).targets[1]
  {
    var p := PkgNs + "_";
    var a := AddStubTargets(component, dep);
    var b := AddStubTargets(component, other);
    assert a[0][4][|p|..] == dep && b[0][4][|p|..] == other;
    assert a[0][4] != b[0][4];
    assert a[1][4][|p|..|a[1][4]| - 5] == dep && b[1][4][|p|..|b[1][4]| - 5] == other;
    assert a[1][4] != b[1][4];
  }
}
