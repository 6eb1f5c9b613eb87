/** The file system the generators write into, as a value (`FsState`) and as
    an object whose methods change it (`FileSystem`). Which operations fail
    is outside the program's control: a set `denied` of paths stands for
    every path at which creating a directory or a file fails (missing
    permissions, an entry of the other kind already there, a full disk).
    A file can only be created inside an existing directory.

    Each generator's effect is also described as a plan, a sequence of
    actions, and `Run` executes a plan up to its first failure; the
    imperative code is proved to have exactly the effect of `Run` on its
    plan. */
module Disk {
  import opened Wrappers
  import opened Text

  /** A path as its sequence of components, relative to the working
      directory. */
  type Path = seq<string>

  /** A path as it is printed, its components joined by `/`. */
  function Shown(p: Path): string
  {
    Join(p, "/")
  }

  newtype byte = x: int | 0 <= x < 256

  type Bytes = seq<byte>

  datatype FsState = FsState(files: map<Path, Bytes>, dirs: set<Path>)

  /** Why a run stopped: an I/O error at a path, or a panic (abort) with its
      message. */
  datatype Failure = IoError(path: Path) | Panicked(message: string)

  datatype Action =
    | MkDirAll(path: Path)
    | MkDir(path: Path)
    | WriteFile(path: Path, contents: Bytes)
    | Abort(message: string)

  /** The non-empty prefixes of `p`, `p` itself included: the directories
      `create_dir_all(p)` leaves behind. */
  function Ancestors(p: Path): (r: set<Path>)
    ensures p != [] ==> p in r
    ensures forall q :: q in r ==> q != [] && q <= p
  {
    assert p != [] ==> p[..|p|] == p;
    assert forall k :: 1 <= k <= |p| ==> p[..k] <= p;
    set k | 1 <= k <= |p| :: p[..k]
  }

  /** The directory a file at `p` is created in exists (the working
      directory always does). */
  predicate ParentExists(s: FsState, p: Path)
  {
    |p| == 1 || (|p| > 1 && p[..|p| - 1] in s.dirs)
  }

  /** Whether anything, file or directory, is at `p`. */
  predicate Exists(s: FsState, p: Path)
  {
    p in s.dirs || p in s.files
  }

  /** One action. `MkDirAll` creates the missing directories on the way;
      `MkDir` creates one directory, inside an existing one, where nothing
      is yet. A failing action changes nothing. */
  function Step(s: FsState, denied: set<Path>, a: Action): (r: (FsState, Outcome<Failure>))
    ensures r.1.Fail? ==> r.0 == s
    ensures r.1.Pass? ==> s.dirs <= r.0.dirs && s.files.Keys <= r.0.files.Keys
    ensures a.MkDirAll? ==> (r.1.Pass? <==> a.path !in denied)
    ensures a.MkDir? ==> (r.1.Pass? <==> a.path !in denied && ParentExists(s, a.path) && !Exists(s, a.path))
    ensures a.WriteFile? ==> (r.1.Pass? <==> a.path !in denied && ParentExists(s, a.path))
    ensures a.Abort? ==> r.1 == Fail(Panicked(a.message))
  {
    match a
    case MkDirAll(p) =>
      if p in denied then (s, Fail(IoError(p)))
      else (s.(dirs := s.dirs + Ancestors(p)), Pass)
    case MkDir(p) =>
      if p in denied || !ParentExists(s, p) || Exists(s, p) then (s, Fail(IoError(p)))
      else (s.(dirs := s.dirs + {p}), Pass)
    case WriteFile(p, c) =>
      if p in denied || !ParentExists(s, p) then (s, Fail(IoError(p)))
      else (s.(files := s.files[p := c]), Pass)
    case Abort(m) => (s, Fail(Panicked(m)))
  }

  /** Executes the actions in order and stops at the first failure. */
  function Run(s: FsState, denied: set<Path>, plan: seq<Action>): (r: (FsState, Outcome<Failure>))
    decreases |plan|
  {
    if plan == [] then (s, Pass)
    else
      var (s1, o) := Step(s, denied, plan[0]);
      if o.Fail? then (s1, o) else Run(s1, denied, plan[1..])
  }

  /** Running two plans one after the other is running their concatenation;
      the second runs only if the first succeeds. */
  lemma {:induction false} RunAppend(s: FsState, denied: set<Path>, a: seq<Action>, b: seq<Action>)
    ensures Run(s, denied, a + b) ==
      (var (s1, o) := Run(s, denied, a); if o.Fail? then (s1, o) else Run(s1, denied, b))
    decreases |a|
  {
    if a != [] {
      assert (a + b)[0] == a[0];
      assert (a + b)[1..] == a[1..] + b;
      var (s1, o) := Step(s, denied, a[0]);
      if o.Pass? {
        RunAppend(s1, denied, a[1..], b);
      }
    } else {
      assert a + b == b;
    }
  }

  /** Once a prefix of a plan fails, the rest of the plan is never run. */
  lemma RunPrefixFails(s: FsState, denied: set<Path>, a: seq<Action>, c: seq<Action>)
    requires a <= c
    requires Run(s, denied, a).1.Fail?
    ensures Run(s, denied, c) == Run(s, denied, a)
  {
    assert c == a + c[|a|..];
    RunAppend(s, denied, a, c[|a|..]);
  }

  /** One more piece of a plan run piece by piece: the run so far extends
      by the piece's run, and a failing piece ends the whole plan. */
  lemma RunStep(s0: FsState, denied: set<Path>, done: seq<Action>, piece: seq<Action>, whole: seq<Action>, mid: FsState, after: (FsState, Outcome<Failure>))
    requires Run(s0, denied, done) == (mid, Pass)
    requires Run(mid, denied, piece) == after
    requires done + piece <= whole
    ensures Run(s0, denied, done + piece) == after
    ensures after.1.Fail? ==> Run(s0, denied, whole) == after
  {
    RunAppend(s0, denied, done, piece);
    if after.1.Fail? {
      RunPrefixFails(s0, denied, done + piece, whole);
    }
  }

  /** Every directory and file `plan` creates lies under `t`. */
  predicate Inside(plan: seq<Action>, t: Path)
  {
    forall k :: 0 <= k < |plan| && !plan[k].Abort? ==> t <= plan[k].path
  }

  /** Two plans inside `t` make a plan inside `t`. */
  lemma InsideAppend(a: seq<Action>, b: seq<Action>, t: Path)
    requires Inside(a, t) && Inside(b, t)
    ensures Inside(a + b, t)
  {
    forall k | 0 <= k < |a + b| && !(a + b)[k].Abort? ensures t <= (a + b)[k].path {
      if k >= |a| {
        assert (a + b)[k] == b[k - |a|];
      }
    }
  }

  /** Going from `s` to `s'` keeps every file outside `t` as it was, and
      adds directories only inside `t` or on the way to it. */
  ghost predicate KeepsOutside(s: FsState, s': FsState, t: Path)
  {
    (forall q :: !(t <= q) ==> (q in s'.files <==> q in s.files) && (q in s.files ==> s'.files[q] == s.files[q])) &&
    (forall q :: q in s'.dirs && q !in s.dirs ==> q <= t || t <= q)
  }

  /** A plan inside `t` leaves every file outside `t` as it was, and adds
      directories only inside `t` or on the way to it. */
  lemma {:induction false} RunInside(s: FsState, denied: set<Path>, plan: seq<Action>, t: Path)
    requires Inside(plan, t)
    ensures KeepsOutside(s, Run(s, denied, plan).0, t)
    decreases |plan|
  {
    if plan != [] {
      var (s1, o) := Step(s, denied, plan[0]);
      if o.Pass? {
        InsideTail(plan, t);
        RunInside(s1, denied, plan[1..], t);
        StepInside(s, denied, plan[0], t);
        KeepsOutsideTrans(s, s1, Run(s1, denied, plan[1..]).0, t);
      }
    }
  }

  lemma InsideTail(plan: seq<Action>, t: Path)
    requires plan != [] && Inside(plan, t)
    ensures Inside(plan[1..], t) && (!plan[0].Abort? ==> t <= plan[0].path)
  {
    forall k | 0 <= k < |plan[1..]| && !plan[1..][k].Abort? ensures t <= plan[1..][k].path {
      assert plan[1..][k] == plan[k + 1];
    }
  }

  /** One action inside `t` keeps the outside of `t`. */
  lemma StepInside(s: FsState, denied: set<Path>, a: Action, t: Path)
    requires !a.Abort? ==> t <= a.path
    ensures KeepsOutside(s, Step(s, denied, a).0, t)
  {
    if a.MkDirAll? && a.path !in denied {
      AncestorsAround(a.path, t);
    }
  }

  lemma KeepsOutsideTrans(s1: FsState, s2: FsState, s3: FsState, t: Path)
    requires KeepsOutside(s1, s2, t) && KeepsOutside(s2, s3, t)
    ensures KeepsOutside(s1, s3, t)
  {
  }

  /** The directories on the way to a path inside `t` are on the way to
      `t` or inside it. */
  lemma AncestorsAround(p: Path, t: Path)
    requires t <= p
    ensures forall q :: q in Ancestors(p) ==> q <= t || t <= q
  {
    forall q | q in Ancestors(p) ensures q <= t || t <= q {
      var k :| 1 <= k <= |p| && q == p[..k];
      if k > |t| {
        assert t == p[..|t|] == q[..|t|];
      }
    }
  }

  /** A run only adds: directories and files already there stay. */
  lemma {:induction false} RunGrows(s: FsState, denied: set<Path>, plan: seq<Action>)
    ensures s.dirs <= Run(s, denied, plan).0.dirs
    ensures s.files.Keys <= Run(s, denied, plan).0.files.Keys
    decreases |plan|
  {
    if plan != [] {
      var (s1, o) := Step(s, denied, plan[0]);
      if o.Pass? {
        RunGrows(s1, denied, plan[1..]);
      }
    }
  }

  /** A run fails only at an action that fails on its own: the failure is
      one of the plan's actions, at the state reached just before it. */
  lemma {:induction false} RunFailureIsAnAction(s: FsState, denied: set<Path>, plan: seq<Action>)
    requires Run(s, denied, plan).1.Fail?
    ensures exists i :: 0 <= i < |plan| && Step(Run(s, denied, plan[..i]).0, denied, plan[i]) == Run(s, denied, plan)
    decreases |plan|
  {
    var (s1, o) := Step(s, denied, plan[0]);
    assert plan[..0] == [];
    if o.Pass? {
      RunFailureIsAnAction(s1, denied, plan[1..]);
      var i :| 0 <= i < |plan[1..]| && Step(Run(s1, denied, plan[1..][..i]).0, denied, plan[1..][i]) == Run(s1, denied, plan[1..]);
      assert plan[..i + 1] == [plan[0]] + plan[1..][..i];
      assert plan[..i + 1][1..] == plan[1..][..i];
      assert Run(s, denied, plan[..i + 1]) == Run(s1, denied, plan[1..][..i]);
    }
  }

  /** A plan of two actions: the second runs only if the first succeeds. */
  lemma RunPair(s: FsState, denied: set<Path>, a: Action, b: Action)
    ensures Run(s, denied, [a, b]) ==
      (var (s1, o) := Step(s, denied, a); if o.Fail? then (s1, o) else Step(s1, denied, b))
  {
    var (s1, o) := Step(s, denied, a);
    assert [a, b][1..] == [b];
    if o.Pass? {
      var (s2, o2) := Step(s1, denied, b);
      assert [b][1..] == [];
      assert Run(s1, denied, [b]) == (if o2.Fail? then (s2, o2) else Run(s2, denied, []));
    }
  }

  /** A plan of one action is that action. */
  lemma RunSingle(s: FsState, denied: set<Path>, a: Action)
    ensures Run(s, denied, [a]) == Step(s, denied, a)
  {
    assert [a][1..] == [];
  }

  /** No action of `plan` writes a file at `p`. */
  predicate WritesNot(plan: seq<Action>, p: Path)
  {
    forall j :: 0 <= j < |plan| && plan[j].WriteFile? ==> plan[j].path != p
  }

  /** A plan inside `t` writes nothing at a path outside `t`. */
  lemma InsideWritesNot(plan: seq<Action>, t: Path, p: Path)
    requires Inside(plan, t) && !(t <= p)
    ensures WritesNot(plan, p)
  {
  }

  /** A run of two pieces that succeeds runs the first successfully, then
      the second from where the first left off. */
  lemma RunAppendPass(s: FsState, denied: set<Path>, a: seq<Action>, b: seq<Action>)
    requires Run(s, denied, a + b).1.Pass?
    ensures Run(s, denied, a).1.Pass?
    ensures Run(s, denied, a + b) == Run(Run(s, denied, a).0, denied, b)
  {
    RunAppend(s, denied, a, b);
  }

  /** Plans run one after the other. */
  function Flatten(ps: seq<seq<Action>>): seq<Action>
    decreases |ps|
  {
    if ps == [] then [] else Flatten(ps[..|ps| - 1]) + ps[|ps| - 1]
  }

  /** After a run of pieces that succeeds, the file piece `i` alone writes
      holds what it wrote, if no later piece writes there. */
  lemma {:induction false} FlattenWrites(s: FsState, denied: set<Path>, ps: seq<seq<Action>>, i: nat, p: Path, contents: Bytes)
    requires Run(s, denied, Flatten(ps)).1.Pass?
    requires i < |ps| && ps[i] == [WriteFile(p, contents)]
    requires forall j :: i < j < |ps| ==> WritesNot(ps[j], p)
    ensures p in Run(s, denied, Flatten(ps)).0.files && Run(s, denied, Flatten(ps)).0.files[p] == contents
    decreases |ps|
  {
    var init := ps[..|ps| - 1];
    var last := ps[|ps| - 1];
    RunAppend(s, denied, Flatten(init), last);
    var s1 := Run(s, denied, Flatten(init)).0;
    if i == |ps| - 1 {
      RunSingle(s1, denied, last[0]);
    } else {
      FlattenWrites(s, denied, init, i, p, contents);
      RunKeepsFile(s1, denied, last, p);
    }
  }

  /** After a run of pieces that succeeds, the directory piece `i` starts
      by creating is there. */
  lemma {:induction false} FlattenMakesDir(s: FsState, denied: set<Path>, ps: seq<seq<Action>>, i: nat, p: Path)
    requires Run(s, denied, Flatten(ps)).1.Pass?
    requires i < |ps| && ps[i] != [] && ps[i][0] == MkDirAll(p) && p != []
    ensures p in Run(s, denied, Flatten(ps)).0.dirs
    decreases |ps|
  {
    var init := ps[..|ps| - 1];
    var last := ps[|ps| - 1];
    RunAppend(s, denied, Flatten(init), last);
    var s1 := Run(s, denied, Flatten(init)).0;
    if i == |ps| - 1 {
      RunMadeDir(s1, denied, last, 0);
    } else {
      FlattenMakesDir(s, denied, init, i, p);
      RunGrows(s1, denied, last);
    }
  }

  /** A plan that writes no file at `p` leaves the file at `p` as it was. */
  lemma {:induction false} RunKeepsFile(s: FsState, denied: set<Path>, plan: seq<Action>, p: Path)
    requires WritesNot(plan, p)
    requires p in s.files
    ensures p in Run(s, denied, plan).0.files && Run(s, denied, plan).0.files[p] == s.files[p]
    decreases |plan|
  {
    if plan != [] {
      var (s1, o) := Step(s, denied, plan[0]);
      if o.Pass? {
        assert plan[0].WriteFile? ==> s1.files == s.files[plan[0].path := plan[0].contents];
        assert !plan[0].WriteFile? ==> s1.files == s.files;
        RunKeepsFile(s1, denied, plan[1..], p);
      }
    }
  }

  /** After a complete run, a file holds what the last action writing it
      wrote. */
  lemma {:induction false} RunLastWrite(s: FsState, denied: set<Path>, plan: seq<Action>, k: nat)
    requires Run(s, denied, plan).1.Pass?
    requires k < |plan| && plan[k].WriteFile?
    requires forall j :: k < j < |plan| && plan[j].WriteFile? ==> plan[j].path != plan[k].path
    ensures plan[k].path in Run(s, denied, plan).0.files
    ensures Run(s, denied, plan).0.files[plan[k].path] == plan[k].contents
    decreases |plan|
  {
    var (s1, o) := Step(s, denied, plan[0]);
    assert o.Pass?;
    if k == 0 {
      RunKeepsFile(s1, denied, plan[1..], plan[0].path);
    } else {
      RunLastWrite(s1, denied, plan[1..], k - 1);
    }
  }

  /** After a complete run, every directory the plan creates is there. */
  lemma {:induction false} RunMadeDir(s: FsState, denied: set<Path>, plan: seq<Action>, k: nat)
    requires Run(s, denied, plan).1.Pass?
    requires k < |plan| && (plan[k].MkDir? || (plan[k].MkDirAll? && plan[k].path != []))
    ensures plan[k].path in Run(s, denied, plan).0.dirs
    decreases |plan|
  {
    var (s1, o) := Step(s, denied, plan[0]);
    assert o.Pass?;
    if k == 0 {
      assert plan[0].path in s1.dirs;
      RunGrows(s1, denied, plan[1..]);
    } else {
      RunMadeDir(s1, denied, plan[1..], k - 1);
    }
  }

  /** The file system as an object the generators update in place. */
  class FileSystem {
    var files: map<Path, Bytes>
    var dirs: set<Path>
    const denied: set<Path>

    function State(): FsState
      reads this
    {
      FsState(files, dirs)
    }

    constructor (s: FsState, denied: set<Path>)
      ensures State() == s && this.denied == denied
    {
      files := s.files;
      dirs := s.dirs;
      this.denied := denied;
    }

    /** `fs::create_dir_all`. */
    method CreateDirAll(p: Path) returns (o: Outcome<Failure>)
      modifies this
      ensures (State(), o) == Step(old(State()), denied, MkDirAll(p))
    {
      if p in denied {
        return Fail(IoError(p));
      }
      dirs := dirs + Ancestors(p);
      return Pass;
    }

    /** A directory created on its own, inside an existing one. */
    method CreateDir(p: Path) returns (o: Outcome<Failure>)
      modifies this
      ensures (State(), o) == Step(old(State()), denied, MkDir(p))
    {
      if p in denied || !ParentExists(State(), p) || Exists(State(), p) {
        return Fail(IoError(p));
      }
      dirs := dirs + {p};
      return Pass;
    }

    /** `File::create` followed by `write_all`. */
    method WriteFile(p: Path, contents: Bytes) returns (o: Outcome<Failure>)
      modifies this
      ensures (State(), o) == Step(old(State()), denied, Action.WriteFile(p, contents))
    {
      if p in denied || !ParentExists(State(), p) {
        return Fail(IoError(p));
      }
      files := files[p := contents];
      return Pass;
    }
  }
}
