/** The task runner of the TypeScript multi-RPC example
    (src/build-tools/build-tools.ts): the command dispatcher `main`, the
    up-to-date check of `runTask`, and `allDepsSorted`. The file system is
    seen through `statSync`, given here as a function from paths to what it
    reports. */
module BuildTools {
  import opened Wrappers
  import opened Text
  import opened Deps
  import opened Disk

  // ---------------------------------------------------------------------
  // `allDepsSorted`

  /** `allDepsSorted`: every dependency of every component, once each, in
      ascending order. The set is filled in the order of `Object.values`,
      as a JavaScript `Set` keeps it, then listed and sorted. */
  method AllDepsSorted(deps: DependencyList) returns (r: seq<string>)
    ensures r == SortedElements(DependencyUnion(deps))
  {
    var seen: seq<string> := [];
    for i := 0 to |deps|
      invariant Distinct(seen)
      invariant Elements(seen) == DependencyUnion(deps[..i])
    {
      assert deps[..i + 1][..i] == deps[..i];
      var list := deps[i].1;
      for j := 0 to |list|
        invariant Distinct(seen)
        invariant Elements(seen) == DependencyUnion(deps[..i]) + Elements(list[..j])
      {
        assert list[..j + 1] == list[..j] + [list[j]];
        if list[j] !in seen {
          seen := seen + [list[j]];
        }
      }
      assert list[..|list|] == list;
    }
    assert deps[..|deps|] == deps;
    r := SortStrings(seen);
    SortedUnique(r, SortedElements(DependencyUnion(deps)));
  }

  /** The listing is sorted, without repeats, and holds exactly the
      components some entry depends on. */
  lemma AllDepsListing(deps: DependencyList, x: string)
    ensures StrictlySorted(SortedElements(DependencyUnion(deps)))
    ensures x in SortedElements(DependencyUnion(deps)) <==> exists k :: 0 <= k < |deps| && x in deps[k].1
  {
    DependencyUnionMembers(deps, x);
  }

  // ---------------------------------------------------------------------
  // `runTask`

  /** `Number.MAX_SAFE_INTEGER`, the time of a directory with no file. */
  const MaxSafeInteger: int := 9007199254740991

  /** What `statSync` reports for a path: that it does not exist (`ENOENT`),
      another error code, a file with its modification time, or a
      directory with the modification times of the files below it in the
      order `readdirSync` lists them. */
  datatype Stat = Missing | Unreadable(code: string) | FileStat(mtime: int) | DirStat(fileTimes: seq<int>)

  type Stats = Path -> Stat

  /** A build step: messages, what it produces and what it reads. Running
      it is up to the caller. */
  datatype Task = Task(runMessage: string, skipMessage: string, targets: seq<Path>, sources: seq<Path>)

  /** What the check decides: run the task, skip it, or throw the error
      `statSync` raised for a path. */
  datatype Decision = RunIt | Skip | StatFailed(path: Path, code: string)

  /** The earliest of `MAX_SAFE_INTEGER` and the given times. */
  function Earliest(times: seq<int>): (r: int)
    decreases |times|
  {
    if times == [] then MaxSafeInteger
    else
      var e := Earliest(times[..|times| - 1]);
      if e > times[|times| - 1] then times[|times| - 1] else e
  }

  /** A directory's time is no later than any of its files, and it is one
      of them unless it has none. */
  lemma {:induction false} EarliestBounds(times: seq<int>)
    ensures Earliest(times) <= MaxSafeInteger
    ensures forall i :: 0 <= i < |times| ==> Earliest(times) <= times[i]
    ensures Earliest(times) == MaxSafeInteger || exists i :: 0 <= i < |times| && Earliest(times) == times[i]
    ensures times == [] ==> Earliest(times) == MaxSafeInteger
    decreases |times|
  {
    if times != [] {
      var init := times[..|times| - 1];
      EarliestBounds(init);
      assert forall i :: 0 <= i < |init| ==> init[i] == times[i];
    }
  }

  /** The time of a directory target: the loop of `runTask` over the files
      below it. */
  method DirectoryTime(times: seq<int>) returns (t: int)
    ensures t == Earliest(times)
  {
    t := MaxSafeInteger;
    for i := 0 to |times|
      invariant t == Earliest(times[..i])
    {
      assert times[..i + 1][..i] == times[..i];
      if t > times[i] {
        t := times[i];
      }
    }
    assert times[..|times|] == times;
  }

  /** The time a readable target is compared against. */
  function TargetTime(st: Stat): int
  {
    match st
    case DirStat(times) => Earliest(times)
    case FileStat(m) => m
    case _ => MaxSafeInteger
  }

  /** The modification times a readable source contributes: its own, or
      those of the files below it. */
  function SourceTimes(st: Stat): seq<int>
  {
    match st
    case FileStat(m) => [m]
    case DirStat(times) => times
    case _ => []
  }

  /** Some file of the source is newer than `t`. */
  predicate NewerThan(st: Stat, t: int)
  {
    exists j :: 0 <= j < |SourceTimes(st)| && SourceTimes(st)[j] > t
  }

  /** The sources checked in order against the target time `t`: some file
      is newer, none is, or a source cannot be read. */
  function SourcesNewer(sources: seq<Path>, stats: Stats, t: int): Result<bool, (Path, string)>
    decreases |sources|
  {
    if sources == [] then Ok(false)
    else
      match SourcesNewer(sources[..|sources| - 1], stats, t)
      case Err(e) => Err(e)
      case Ok(true) => Ok(true)
      case Ok(false) =>
        var s := sources[|sources| - 1];
        match stats(s)
        case Missing => Err((s, "ENOENT"))
        case Unreadable(code) => Err((s, code))
        case _ => Ok(NewerThan(stats(s), t))
  }

  /** The targets checked in order: a missing target or a newer source
      decides for a run and ends the check. */
  function TargetsStale(targets: seq<Path>, sources: seq<Path>, stats: Stats): Result<bool, (Path, string)>
    decreases |targets|
  {
    if targets == [] then Ok(false)
    else
      match TargetsStale(targets[..|targets| - 1], sources, stats)
      case Err(e) => Err(e)
      case Ok(true) => Ok(true)
      case Ok(false) => TargetStale(targets[|targets| - 1], sources, stats)
  }

  /** One target checked: a missing target is stale, an unreadable one
      throws, and a readable one is stale when a source file is newer. */
  function TargetStale(target: Path, sources: seq<Path>, stats: Stats): Result<bool, (Path, string)>
  {
    match stats(target)
    case Missing => Ok(true)
    case Unreadable(code) => Err((target, code))
    case _ => SourcesNewer(sources, stats, TargetTime(stats(target)))
  }

  /** The decision of `runTask`: a task without targets always runs. */
  function Decide(task: Task, stats: Stats): Decision
  {
    if task.targets == [] then RunIt
    else
      match TargetsStale(task.targets, task.sources, stats)
      case Err((p, code)) => StatFailed(p, code)
      case Ok(stale) => if stale then RunIt else Skip
  }

  /** The line printed for a skipped task. */
  function SkipLine(task: Task): string
  {
    Join(seq(|task.targets|, i requires 0 <= i < |task.targets| => Shown(task.targets[i])), ",") +
    " is up to date, skipping " + task.skipMessage
  }

  /** Once the sources have decided, later sources are not looked at. */
  lemma {:induction false} SourcesDecided(sources: seq<Path>, stats: Stats, t: int, i: nat)
    requires i <= |sources|
    requires SourcesNewer(sources[..i], stats, t) != Ok(false)
    ensures SourcesNewer(sources, stats, t) == SourcesNewer(sources[..i], stats, t)
    decreases |sources| - i
  {
    if i < |sources| {
      assert sources[..i + 1][..i] == sources[..i];
      SourcesDecided(sources, stats, t, i + 1);
    } else {
      assert sources[..i] == sources;
    }
  }

  /** Once the targets have decided, later targets are not looked at. */
  lemma {:induction false} TargetsDecided(targets: seq<Path>, sources: seq<Path>, stats: Stats, i: nat)
    requires i <= |targets|
    requires TargetsStale(targets[..i], sources, stats) != Ok(false)
    ensures TargetsStale(targets, sources, stats) == TargetsStale(targets[..i], sources, stats)
    decreases |targets| - i
  {
    if i < |targets| {
      assert targets[..i + 1][..i] == targets[..i];
      TargetsDecided(targets, sources, stats, i + 1);
    } else {
      assert targets[..i] == targets;
    }
  }

  /** The sources of one target, checked in order, with the labelled
      break of `runTask` becoming an early return of `true`. */
  method CheckSources(sources: seq<Path>, stats: Stats, t: int) returns (r: Result<bool, (Path, string)>)
    ensures r == SourcesNewer(sources, stats, t)
  {
    for k := 0 to |sources|
      invariant SourcesNewer(sources[..k], stats, t) == Ok(false)
    {
      assert sources[..k + 1][..k] == sources[..k];
      var source := sources[k];
      var info := stats(source);
      if info.Missing? {
        SourcesDecided(sources, stats, t, k + 1);
        return Err((source, "ENOENT"));
      } else if info.Unreadable? {
        SourcesDecided(sources, stats, t, k + 1);
        return Err((source, info.code));
      } else if info.FileStat? {
        if info.mtime > t {
          assert SourceTimes(info)[0] > t;
          SourcesDecided(sources, stats, t, k + 1);
          return Ok(true);
        }
      } else {
        var files := info.fileTimes;
        assert SourceTimes(info) == files;
        for j := 0 to |files|
          invariant forall m :: 0 <= m < j ==> files[m] <= t
        {
          if files[j] > t {
            assert NewerThan(info, t);
            SourcesDecided(sources, stats, t, k + 1);
            return Ok(true);
          }
        }
        assert !NewerThan(info, t);
      }
    }
    assert sources[..|sources|] == sources;
    return Ok(false);
  }

  /** The check of one target in `runTask`. */
  method CheckTarget(target: Path, sources: seq<Path>, stats: Stats) returns (r: Result<bool, (Path, string)>)
    ensures r == TargetStale(target, sources, stats)
  {
    var info := stats(target);
    if info.Missing? {
      return Ok(true);
    }
    if info.Unreadable? {
      return Err((target, info.code));
    }
    var targetModified := MaxSafeInteger;
    if info.DirStat? {
      targetModified := DirectoryTime(info.fileTimes);
    } else {
      targetModified := info.mtime;
    }
    r := CheckSources(sources, stats, targetModified);
  }

  /** `runTask`'s check: returns what it decides and the line it prints
      (the run message or the skip line). */
  method RunTask(task: Task, stats: Stats) returns (d: Decision, line: string)
    ensures d == Decide(task, stats)
    ensures d == RunIt ==> line == task.runMessage
    ensures d == Skip ==> line == SkipLine(task)
  {
    var run := |task.targets| == 0;
    var i := 0;
    while i < |task.targets|
      invariant 0 <= i <= |task.targets|
      invariant run == (task.targets == [])
      invariant TargetsStale(task.targets[..i], task.sources, stats) == Ok(false)
    {
      assert task.targets[..i + 1][..i] == task.targets[..i];
      var stale := CheckTarget(task.targets[i], task.sources, stats);
      if stale.Err? {
        TargetsDecided(task.targets, task.sources, stats, i + 1);
        return StatFailed(stale.error.0, stale.error.1), "";
      }
      if stale.value {
        run := true;
        TargetsDecided(task.targets, task.sources, stats, i + 1);
        break;
      }
      i := i + 1;
    }
    if !run {
      assert task.targets[..i] == task.targets;
      return Skip, SkipLine(task);
    }
    return RunIt, task.runMessage;
  }

  /** Every target and source can be read. */
  predicate Readable(task: Task, stats: Stats)
  {
    (forall i :: 0 <= i < |task.targets| ==> !stats(task.targets[i]).Unreadable?) &&
    (forall j :: 0 <= j < |task.sources| ==> stats(task.sources[j]).FileStat? || stats(task.sources[j]).DirStat?)
  }

  /** Target `i` is missing, or some file of some source is newer than
      it. */
  predicate Stale(task: Task, stats: Stats, i: nat)
    requires i < |task.targets|
  {
    stats(task.targets[i]).Missing? ||
    exists j :: 0 <= j < |task.sources| && NewerThan(stats(task.sources[j]), TargetTime(stats(task.targets[i])))
  }

  lemma {:induction false} SourcesNewerMeaning(sources: seq<Path>, stats: Stats, t: int)
    requires forall j :: 0 <= j < |sources| ==> stats(sources[j]).FileStat? || stats(sources[j]).DirStat?
    ensures SourcesNewer(sources, stats, t) == Ok(exists j :: 0 <= j < |sources| && NewerThan(stats(sources[j]), t))
    decreases |sources|
  {
    if sources != [] {
      var init := sources[..|sources| - 1];
      assert forall j :: 0 <= j < |init| ==> init[j] == sources[j];
      SourcesNewerMeaning(init, stats, t);
      if exists j :: 0 <= j < |sources| && NewerThan(stats(sources[j]), t) {
        var j :| 0 <= j < |sources| && NewerThan(stats(sources[j]), t);
        if j < |init| {
          assert NewerThan(stats(init[j]), t);
        }
      }
    }
  }

  lemma {:induction false} TargetsStaleMeaning(task: Task, stats: Stats, n: nat)
    requires n <= |task.targets| && Readable(task, stats)
    ensures TargetsStale(task.targets[..n], task.sources, stats) == Ok(exists i :: 0 <= i < n && Stale(task, stats, i))
    decreases n
  {
    if n > 0 {
      assert task.targets[..n][..n - 1] == task.targets[..n - 1];
      TargetsStaleMeaning(task, stats, n - 1);
      var t := task.targets[n - 1];
      SourcesNewerMeaning(task.sources, stats, TargetTime(stats(t)));
      assert TargetStale(t, task.sources, stats) == Ok(Stale(task, stats, n - 1));
      if exists i :: 0 <= i < n - 1 && Stale(task, stats, i) {
        var i :| 0 <= i < n - 1 && Stale(task, stats, i);
        assert 0 <= i < n && Stale(task, stats, i);
      } else if Stale(task, stats, n - 1) {
        assert 0 <= n - 1 < n && Stale(task, stats, n - 1);
      } else {
        assert forall i :: 0 <= i < n ==> !Stale(task, stats, i);
      }
    }
  }

  /** When every path can be read, a task runs exactly when it has no
      target, or some target is missing, or some file of some source was
      modified after some target: the order of the checks and where they
      stop decide nothing but which error is thrown. */
  lemma DecideMeaning(task: Task, stats: Stats)
    requires Readable(task, stats)
    ensures Decide(task, stats) == RunIt <==>
      task.targets == [] || exists i :: 0 <= i < |task.targets| && Stale(task, stats, i)
    ensures Decide(task, stats) != RunIt ==> Decide(task, stats) == Skip
  {
    TargetsStaleMeaning(task, stats, |task.targets|);
    assert task.targets[..|task.targets|] == task.targets;
  }

  /** A target that was never built makes the task run, whatever comes
      after it. */
  lemma FirstTargetMissing(task: Task, stats: Stats)
    requires task.targets != [] && stats(task.targets[0]).Missing?
    ensures Decide(task, stats) == RunIt
  {
    assert task.targets[..1] == [task.targets[0]];
    assert task.targets[..1][..0] == [];
    TargetsDecided(task.targets, task.sources, stats, 1);
  }

  // ---------------------------------------------------------------------
  // `main`

  /** A command and which of its two callbacks it has. */
  datatype Command = Command(description: string, hasRun: bool, hasRunArgs: bool)

  /** The commands of a build script, in the order of their keys. */
  type Commands = seq<(string, Command)>

  /** A callback `main` invokes. */
  datatype Invocation = Ran(name: string) | RanWithArgs(name: string, args: seq<string>)

  /** How `main` ends: it listed the commands, returned, or threw. */
  datatype MainEnd = Listed(lines: seq<string>) | Finished | Threw(message: string)

  /** The command of a name: the first entry with that name. */
  function Find(commands: Commands, name: string): Option<Command>
  {
    if commands == [] then None
    else if commands[0].0 == name then Some(commands[0].1)
    else Find(commands[1..], name)
  }

  /** A name is found exactly when some entry has it, and what is found is
      the command of the first such entry. */
  lemma {:induction false} FindMeaning(commands: Commands, name: string)
    ensures Find(commands, name).Some? <==> exists i :: 0 <= i < |commands| && commands[i].0 == name
    ensures Find(commands, name).Some? ==> exists i :: (0 <= i < |commands| && commands[i].0 == name &&
      Find(commands, name).value == commands[i].1 && forall j :: 0 <= j < i ==> commands[j].0 != name)
  {
    if commands != [] && commands[0].0 != name {
      FindMeaning(commands[1..], name);
      assert forall i :: 1 <= i < |commands| ==> commands[1..][i - 1] == commands[i];
      if Find(commands, name).Some? {
        var i :| 0 <= i < |commands[1..]| && commands[1..][i].0 == name &&
          Find(commands, name).value == commands[1..][i].1 && forall j :: 0 <= j < i ==> commands[1..][j].0 != name;
        assert forall j :: 0 <= j < i + 1 ==> commands[j].0 != name by {
          forall j | 0 <= j < i + 1 ensures commands[j].0 != name {
            if j > 0 { assert commands[j] == commands[1..][j - 1]; }
          }
        }
      }
    } else if commands != [] {
      assert commands[0].0 == name;
    }
  }

  /** The names a plain JavaScript object inherits from `Object.prototype`.
      Indexing the commands with one of them, when no command has that
      name, yields the inherited function (or, for `__proto__`, the
      prototype itself): a value with neither `run` nor `runArgs`, whose
      description reads `undefined`. */
  const InheritedNames: set<string> := {
    "constructor", "hasOwnProperty", "isPrototypeOf", "propertyIsEnumerable",
    "toLocaleString", "toString", "valueOf", "__defineGetter__", "__defineSetter__",
    "__lookupGetter__", "__lookupSetter__", "__proto__"}

  const Inherited := Command("undefined", false, false)

  /** `commands[cmd]`: the command of that name, or else the inherited
      property of that name. */
  function Lookup(commands: Commands, name: string): Option<Command>
  {
    if Find(commands, name).Some? then Find(commands, name)
    else if name in InheritedNames then Some(Inherited)
    else None
  }

  /** A name is looked up exactly when a command has it or it is inherited;
      a command's own name wins, and an inherited name has neither
      callback. */
  lemma LookupMeaning(commands: Commands, name: string)
    ensures Lookup(commands, name).Some? <==>
      (exists i :: 0 <= i < |commands| && commands[i].0 == name) || name in InheritedNames
    ensures Lookup(commands, name).Some? && Find(commands, name).None? ==>
      name in InheritedNames && !Lookup(commands, name).value.hasRun && !Lookup(commands, name).value.hasRunArgs
  {
    FindMeaning(commands, name);
  }

  /** `padEnd`: `s` followed by spaces up to `width` characters. */
  function PadEnd(s: string, width: int): (r: string)
    ensures |r| == if width > |s| then width else |s|
    ensures r[..|s|] == s
  {
    if width > |s| then s + seq(width - |s|, _ => ' ') else s
  }

  /** The longest name. */
  function LongestName(commands: Commands): (r: nat)
    ensures forall i :: 0 <= i < |commands| ==> |commands[i].0| <= r
  {
    if commands == [] then 0
    else
      var m := LongestName(commands[1..]);
      assert forall i :: 1 <= i < |commands| ==> commands[1..][i - 1] == commands[i];
      if |commands[0].0| > m then |commands[0].0| else m
  }

  /** The listing printed without arguments: one line per command, the
      descriptions in one column. */
  function Listing(commands: Commands): (r: seq<string>)
    ensures |r| == |commands| + 1
  {
    ["Available commands:"] + CommandLines(commands, LongestName(commands) + 1)
  }

  /** One line per command: its name and colon padded to `width`, then its
      description. */
  function CommandLines(commands: Commands, width: int): (r: seq<string>)
    ensures |r| == |commands|
  {
    seq(|commands|, i requires 0 <= i < |commands| => "  " + PadEnd(commands[i].0 + ":", width) + " " + commands[i].1.description)
  }

  /** Every description starts in the same column, after the longest name
      and its colon. */
  lemma ListingAligned(commands: Commands, i: nat)
    requires i < |commands|
    ensures Listing(commands)[i + 1] ==
      "  " + PadEnd(commands[i].0 + ":", LongestName(commands) + 1) + " " + commands[i].1.description
    ensures |"  " + PadEnd(commands[i].0 + ":", LongestName(commands) + 1) + " "| == LongestName(commands) + 4
  {
    var width := LongestName(commands) + 1;
    assert Listing(commands)[i + 1] == CommandLines(commands, width)[i];
    assert |commands[i].0 + ":"| <= width;
  }

  /** Which arguments an argument-taking command receives when it stands at
      position `i`: `args.splice(1)`, everything after the first argument,
      as the code does; or everything after the command itself. */
  datatype Splice = AfterFirst | AfterCommand

  function Passed(args: seq<string>, i: nat, splice: Splice): seq<string>
    requires i < |args|
  {
    if splice == AfterFirst then args[1..] else args[i + 1..]
  }

  /** The starts of the two messages `main` throws. */
  const NotFound: string := "Command not found: "
  const IllegalState: string := "Illegal state: both command.run and command.runArgs is undefined, description: "

  /** What the callback invoked for the argument at each position throws,
      if it throws: the callbacks themselves are not modelled. */
  type Thrown = nat -> Option<string>

  /** The commands named from position `i` on, run in order: a command
      without arguments runs and, unless it throws, the loop goes on; one
      that takes arguments gets them and ends the loop; an unknown name
      throws, and so does a callback that throws. */
  function Dispatch(commands: Commands, args: seq<string>, i: nat, splice: Splice, thrown: Thrown): (seq<Invocation>, MainEnd)
    requires i <= |args|
    decreases |args| - i
  {
    if i == |args| then ([], Finished)
    else
      match Lookup(commands, args[i])
      case None => ([], Threw(NotFound + args[i]))
      case Some(c) =>
        if c.hasRun then
          if thrown(i).Some? then ([Ran(args[i])], Threw(thrown(i).value))
          else
            var (calls, end) := Dispatch(commands, args, i + 1, splice, thrown);
            ([Ran(args[i])] + calls, end)
        else if c.hasRunArgs then
          ([RanWithArgs(args[i], Passed(args, i, splice))], if thrown(i).Some? then Threw(thrown(i).value) else Finished)
        else ([], Threw(IllegalState + c.description))
  }

  /** `main`, given the arguments after the interpreter and the script. It
      returns the callbacks it invokes, in order, and how it ends. A command
      that takes arguments receives those after its own name (see
      `SpliceCounterexample` for what `args.splice(1)` hands it instead). */
  method RunCommands(commands: Commands, args: seq<string>, thrown: Thrown) returns (calls: seq<Invocation>, end: MainEnd)
    ensures args == [] ==> calls == [] && end == Listed(Listing(commands))
    ensures args != [] ==> (calls, end) == Dispatch(commands, args, 0, AfterCommand, thrown)
  {
    if |args| == 0 {
      return [], Listed(Listing(commands));
    }
    calls := [];
    ghost var whole := Dispatch(commands, args, 0, AfterCommand, thrown);
    for i := 0 to |args|
      invariant whole.0 == calls + Dispatch(commands, args, i, AfterCommand, thrown).0
      invariant whole.1 == Dispatch(commands, args, i, AfterCommand, thrown).1
    {
      ghost var here := Dispatch(commands, args, i, AfterCommand, thrown);
      var cmd := args[i];
      var command := Lookup(commands, cmd);
      if command.None? {
        assert here == ([], Threw(NotFound + cmd));
        assert calls + [] == calls;
        return calls, Threw(NotFound + cmd);
      }
      if command.value.hasRun {
        var e := thrown(i);
        if e.Some? {
          assert here == ([Ran(cmd)], Threw(e.value));
          return calls + [Ran(cmd)], Threw(e.value);
        }
        ghost var next := Dispatch(commands, args, i + 1, AfterCommand, thrown);
        assert here == ([Ran(cmd)] + next.0, next.1);
        assert calls + ([Ran(cmd)] + next.0) == (calls + [Ran(cmd)]) + next.0;
        calls := calls + [Ran(cmd)];
      } else if command.value.hasRunArgs {
        var rest := args[i + 1..];
        var e := thrown(i);
        assert here.0 == [RanWithArgs(cmd, rest)];
        if e.Some? {
          return calls + [RanWithArgs(cmd, rest)], Threw(e.value);
        }
        return calls + [RanWithArgs(cmd, rest)], Finished;
      } else {
        assert here == ([], Threw(IllegalState + command.value.description));
        assert calls + [] == calls;
        return calls, Threw(IllegalState + command.value.description);
      }
    }
    assert calls + [] == calls;
    return calls, Finished;
  }

  /** The `k`-th callback invoked is that of the `k`-th name given, a known
      command: the commands run are the names given, in order, up to the
      first that takes arguments. */
  lemma {:induction false} DispatchRunsNamed(commands: Commands, args: seq<string>, i: nat, splice: Splice, thrown: Thrown, k: nat)
    requires i <= |args|
    requires k < |Dispatch(commands, args, i, splice, thrown).0|
    ensures i + k < |args|
    ensures Dispatch(commands, args, i, splice, thrown).0[k].name == args[i + k]
    ensures Find(commands, args[i + k]).Some?
    decreases |args| - i
  {
    var d := Dispatch(commands, args, i, splice, thrown);
    assert i < |args|;
    var found := Lookup(commands, args[i]);
    assert found.Some?;
    LookupMeaning(commands, args[i]);
    if found.value.hasRun && thrown(i).None? {
      var next := Dispatch(commands, args, i + 1, splice, thrown);
      assert d.0 == [Ran(args[i])] + next.0;
      if k > 0 {
        assert d.0[k] == next.0[k - 1];
        DispatchRunsNamed(commands, args, i + 1, splice, thrown, k - 1);
        assert i + 1 + (k - 1) == i + k;
      } else {
        assert d.0[0] == Ran(args[i]);
        assert args[i + k] == args[i];
      }
    } else {
      assert |d.0| <= 1;
      assert k == 0;
      assert args[i + k] == args[i];
    }
  }

  /** A callback that throws ends `main` with its message: every callback
      invoked before the last returned normally (a callback is named by the
      position of its argument), the last one's message is
      the one `main` throws if it threw, and a `main` that finishes invoked
      no callback that threw. */
  lemma {:induction false} DispatchStopsAtThrow(commands: Commands, args: seq<string>, i: nat, splice: Splice, thrown: Thrown)
    requires i <= |args|
    ensures var (calls, end) := Dispatch(commands, args, i, splice, thrown);
      && (forall j :: i <= j < i + |calls| - 1 ==> thrown(j).None?)
      && (calls != [] && thrown(i + |calls| - 1).Some? ==> end == Threw(thrown(i + |calls| - 1).value))
      && (end == Finished ==> forall j :: i <= j < i + |calls| ==> thrown(j).None?)
    decreases |args| - i
  {
    if i < |args| && Lookup(commands, args[i]).Some? && Lookup(commands, args[i]).value.hasRun && thrown(i).None? {
      DispatchStopsAtThrow(commands, args, i + 1, splice, thrown);
      var next := Dispatch(commands, args, i + 1, splice, thrown);
      var calls := Dispatch(commands, args, i, splice, thrown).0;
      assert calls == [Ran(args[i])] + next.0;
    }
  }

  /** `build deploy` with a `build` that throws never runs `deploy`. */
  lemma FailedBuildStopsDeploy(message: string)
    ensures
      var commands := [("build", Command("Build", true, false)), ("deploy", Command("Deploy", true, false))];
      var thrown := (i: nat) => if i == 0 then Some(message) else None;
      Dispatch(commands, ["build", "deploy"], 0, AfterCommand, thrown) == ([Ran("build")], Threw(message))
  {
    var commands := [("build", Command("Build", true, false)), ("deploy", Command("Deploy", true, false))];
    assert Find(commands, "build") == Some(commands[0].1);
  }

  /** A name inherited by every JavaScript object, given as a command,
      throws the illegal-state message with an undefined description. */
  lemma InheritedNameIllegal(commands: Commands, thrown: Thrown)
    requires forall i :: 0 <= i < |commands| ==> commands[i].0 != "toString"
    ensures Dispatch(commands, ["toString"], 0, AfterCommand, thrown) == ([], Threw(IllegalState + "undefined"))
  {
    FindMeaning(commands, "toString");
  }

  /** The intended rule: a command that takes arguments receives exactly
      the arguments that follow it. */
  lemma {:induction false} ArgsAfterCommand(commands: Commands, args: seq<string>, i: nat, thrown: Thrown, k: nat)
    requires i <= |args|
    requires k < |Dispatch(commands, args, i, AfterCommand, thrown).0|
    requires Dispatch(commands, args, i, AfterCommand, thrown).0[k].RanWithArgs?
    ensures i + k < |args|
    ensures Dispatch(commands, args, i, AfterCommand, thrown).0[k].args == args[i + k + 1..]
    decreases |args| - i
  {
    if Lookup(commands, args[i]).value.hasRun && thrown(i).None? {
      ArgsAfterCommand(commands, args, i + 1, thrown, k - 1);
    }
  }

  /** The two rules agree when the argument-taking command comes first. */
  lemma SpliceAgreesFirst(commands: Commands, args: seq<string>, thrown: Thrown)
    requires args != [] && Lookup(commands, args[0]).Some?
    requires !Lookup(commands, args[0]).value.hasRun
    ensures Dispatch(commands, args, 0, AfterFirst, thrown) == Dispatch(commands, args, 0, AfterCommand, thrown)
  {
  }

  /** The discrepancy: run after a command without arguments, an
      argument-taking command receives its own name as its first
      argument. */
  lemma SpliceCounterexample(thrown: Thrown)
    requires thrown(0).None?
    ensures
      var commands := [("build", Command("Build", true, false)),
                       ("generateNewComponent", Command("Generate", false, true))];
      var args := ["build", "generateNewComponent", "x"];
      && Dispatch(commands, args, 0, AfterFirst, thrown).0 ==
         [Ran("build"), RanWithArgs("generateNewComponent", ["generateNewComponent", "x"])]
      && Dispatch(commands, args, 0, AfterCommand, thrown).0 ==
         [Ran("build"), RanWithArgs("generateNewComponent", ["x"])]
  {
    var commands := [("build", Command("Build", true, false)),
                     ("generateNewComponent", Command("Generate", false, true))];
    var args := ["build", "generateNewComponent", "x"];
    assert Find(commands, "build") == Some(commands[0].1);
    assert Find(commands, "generateNewComponent") == Some(commands[1].1) by {
      assert commands[1..] == [commands[1]];
    }
    assert args[1..] == ["generateNewComponent", "x"];
    assert args[2..] == ["x"];
  }
}
