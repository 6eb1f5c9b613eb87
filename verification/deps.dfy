/** The RPC dependencies between the components of the multi-RPC examples
    (`componentDependencies` in the TypeScript build, `componentDeps` in
    the Go magefile): which component calls which, and the sorted list of
    the components that therefore need a stub. */
module Deps {
  import opened Wrappers
  import opened Text

  /** Every element before every later one: sorted, without repeats. */
  predicate StrictlySorted(xs: seq<string>)
  {
    forall i, j :: 0 <= i < j < |xs| ==> Less(xs[i], xs[j])
  }

  /** `m` is the least element of `s`. */
  predicate IsLeast(m: string, s: set<string>)
  {
    m in s && forall x :: x in s && x != m ==> Less(m, x)
  }

  /** A finite set of strings has a least element. */
  lemma {:induction false} MinimumExists(s: set<string>)
    requires s != {}
    ensures exists m :: IsLeast(m, s)
    decreases |s|
  {
    var y :| y in s;
    if s == {y} {
      assert IsLeast(y, s);
    } else {
      var rest := s - {y};
      MinimumExists(rest);
      var m :| IsLeast(m, rest);
      if Less(m, y) {
        assert IsLeast(m, s);
      } else {
        LessTotal(m, y);
        forall x | x in s && x != y
          ensures Less(y, x)
        {
          if x != m {
            assert x in rest;
            LessTransitive(y, m, x);
          }
        }
        assert IsLeast(y, s);
      }
    }
  }

  /** The least element of a non-empty set. */
  ghost function Minimum(s: set<string>): (m: string)
    requires s != {}
    ensures m in s
    ensures forall x :: x in s && x != m ==> Less(m, x)
  {
    MinimumExists(s);
    var m :| IsLeast(m, s);
    m
  }

  /** The elements of `s` in ascending order, each once: what
      `Array.from(set).sort()` and `sort.Strings` over a set's keys give. */
  ghost function SortedElements(s: set<string>): (r: seq<string>)
    ensures StrictlySorted(r)
    ensures forall x :: x in r <==> x in s
    decreases s
  {
    if s == {} then []
    else
      var m := Minimum(s);
      [m] + SortedElements(s - {m})
  }

  /** A set has only one strictly sorted listing. */
  lemma {:induction false} SortedUnique(a: seq<string>, b: seq<string>)
    requires StrictlySorted(a) && StrictlySorted(b)
    requires forall x :: x in a <==> x in b
    ensures a == b
    decreases |a|
  {
    if a != [] {
      assert a[0] in a;
    }
    if b != [] {
      assert b[0] in b;
    }
    if a != [] && b != [] {
      if a[0] != b[0] {
        assert a[0] in a && b[0] in b;
        var i :| 0 <= i < |b| && b[i] == a[0];
        var j :| 0 <= j < |a| && a[j] == b[0];
        assert Less(b[0], a[0]) && Less(a[0], b[0]);
        LessTransitive(a[0], b[0], a[0]);
        LessIrreflexive(a[0]);
        assert false;
      }
      forall x
        ensures x in a[1..] <==> x in b[1..]
      {
        if x in a[1..] {
          var i :| 1 <= i < |a| && a[i] == x;
          LessIrreflexive(a[0]);
          assert x != a[0];
          assert x in b;
        }
        if x in b[1..] {
          var i :| 1 <= i < |b| && b[i] == x;
          LessIrreflexive(b[0]);
          assert x != b[0];
          assert x in a;
        }
      }
      SortedUnique(a[1..], b[1..]);
      assert a == [a[0]] + a[1..] && b == [b[0]] + b[1..];
    }
  }

  /** No element occurs twice. */
  predicate Distinct(xs: seq<string>)
  {
    forall i, j :: 0 <= i < j < |xs| ==> xs[i] != xs[j]
  }

  /** `x` put into its place in a sorted list that does not hold it. */
  function Insert(x: string, xs: seq<string>): (r: seq<string>)
    requires StrictlySorted(xs) && x !in xs
    ensures StrictlySorted(r)
    ensures forall y :: y in r <==> y == x || y in xs
  {
    if xs == [] then [x]
    else if Less(x, xs[0]) then
      assert forall i :: 0 <= i < |xs| ==> Less(x, xs[i]) by {
        forall i | 0 <= i < |xs|
          ensures Less(x, xs[i])
        {
          if i > 0 {
            LessTransitive(x, xs[0], xs[i]);
          }
        }
      }
      [x] + xs
    else
      LessTotal(x, xs[0]);
      var rest := Insert(x, xs[1..]);
      assert forall y :: y in rest ==> Less(xs[0], y);
      [xs[0]] + rest
  }

  /** A list of distinct strings in ascending order: JavaScript's default
      `sort` and Go's `sort.Strings`, which compare strings character by
      character. */
  function SortStrings(xs: seq<string>): (r: seq<string>)
    requires Distinct(xs)
    ensures StrictlySorted(r)
    ensures forall y :: y in r <==> y in xs
    decreases |xs|
  {
    if xs == [] then []
    else
      var init := xs[..|xs| - 1];
      assert forall y :: y in init ==> y != xs[|xs| - 1];
      Insert(xs[|xs| - 1], SortStrings(init))
  }

  /** The dependency lists of an object, entry by entry in the order of
      `Object.entries`. */
  type DependencyList = seq<(string, seq<string>)>

  /** Every component some entry depends on. */
  function DependencyUnion(deps: DependencyList): (r: set<string>)
    decreases |deps|
  {
    if deps == [] then {} else DependencyUnion(deps[..|deps| - 1]) + Elements(deps[|deps| - 1].1)
  }

  /** A component is in the union exactly when some entry lists it. */
  lemma {:induction false} DependencyUnionMembers(deps: DependencyList, x: string)
    ensures x in DependencyUnion(deps) <==> exists k :: 0 <= k < |deps| && x in deps[k].1
    decreases |deps|
  {
    if deps != [] {
      var init := deps[..|deps| - 1];
      DependencyUnionMembers(init, x);
      if x in DependencyUnion(init) {
        var k :| 0 <= k < |init| && x in init[k].1;
        assert deps[k] == init[k];
      }
      if exists k :: 0 <= k < |deps| && x in deps[k].1 {
        var k :| 0 <= k < |deps| && x in deps[k].1;
        if k < |init| {
          assert init[k] == deps[k];
        }
      }
    }
  }

  /** Every component some entry of the map depends on. */
  function MapUnion(deps: map<string, seq<string>>): (r: set<string>)
    ensures forall x :: x in r <==> exists k :: k in deps && x in deps[k]
  {
    set k, x | k in deps && x in deps[k] :: x
  }

  /** The steps of `updateRpcStubs` / `UpdateRpcStubs`: build the stub of
      a component, or add a built stub to a component that depends on
      it. */
  datatype StubOp = BuildStub(component: string) | AddStub(component: string, dependency: string)

  /** How each step would end; the steps themselves run external tools. */
  type Attempt = StubOp -> Outcome<string>

  /** The steps run in order up to the first that fails: the steps run and
      the error of the failing one. */
  function RunOps(ops: seq<StubOp>, attempt: Attempt): (r: (seq<StubOp>, Option<string>))
    ensures r.0 <= ops
    ensures r.1.None? <==> r.0 == ops && forall k :: 0 <= k < |ops| ==> attempt(ops[k]).Pass?
    ensures r.1.Some? ==> r.0 != [] && attempt(r.0[|r.0| - 1]) == Fail(r.1.value)
    ensures forall k :: 0 <= k < |r.0| - 1 ==> attempt(r.0[k]).Pass?
  {
    if ops == [] then ([], None)
    else
      match attempt(ops[0])
      case Fail(e) => ([ops[0]], Some(e))
      case Pass =>
        var (done, err) := RunOps(ops[1..], attempt);
        assert forall k :: 1 <= k < |ops| ==> ops[k] == ops[1..][k - 1];
        ([ops[0]] + done, err)
  }

  /** Every stub is built before it is added anywhere. */
  predicate BuiltBeforeAdded(ops: seq<StubOp>)
  {
    forall j :: 0 <= j < |ops| && ops[j].AddStub? ==>
      exists i :: 0 <= i < j && ops[i] == BuildStub(ops[j].dependency)
  }

  /** A stub build for each of `stubs`, in order. */
  function Builds(stubs: seq<string>): (r: seq<StubOp>)
    ensures |r| == |stubs|
    ensures forall i :: 0 <= i < |stubs| ==> r[i] == BuildStub(stubs[i])
  {
    seq(|stubs|, i requires 0 <= i < |stubs| => BuildStub(stubs[i]))
  }

  /** The builds of `stubs` followed by additions of dependencies all in
      `stubs` build every stub before adding it. */
  lemma BuildsThenAdds(stubs: seq<string>, adds: seq<StubOp>)
    requires forall j :: 0 <= j < |adds| ==> adds[j].AddStub? && adds[j].dependency in stubs
    ensures BuiltBeforeAdded(Builds(stubs) + adds)
  {
    var ops := Builds(stubs) + adds;
    forall j | 0 <= j < |ops| && ops[j].AddStub?
      ensures exists i :: 0 <= i < j && ops[i] == BuildStub(ops[j].dependency)
    {
      assert ops[j] == adds[j - |stubs|];
      var i :| 0 <= i < |stubs| && stubs[i] == ops[j].dependency;
      assert ops[i] == BuildStub(ops[j].dependency);
    }
  }

  /** What part of a plan was run before it stopped also builds every
      stub before adding it. */
  lemma BuiltBeforeAddedPrefix(ops: seq<StubOp>, done: seq<StubOp>)
    requires BuiltBeforeAdded(ops) && done <= ops
    ensures BuiltBeforeAdded(done)
  {
    forall j | 0 <= j < |done| && done[j].AddStub?
      ensures exists i :: 0 <= i < j && done[i] == BuildStub(done[j].dependency)
    {
      assert done[j] == ops[j];
      var i :| 0 <= i < j && ops[i] == BuildStub(ops[j].dependency);
      assert done[i] == ops[i];
    }
  }

  /** The step that fails first ends the run with its error. */
  lemma {:induction false} RunOpsFailsAt(ops: seq<StubOp>, attempt: Attempt, i: nat)
    requires i < |ops| && attempt(ops[i]).Fail?
    requires forall k :: 0 <= k < i ==> attempt(ops[k]).Pass?
    ensures RunOps(ops, attempt) == (ops[..i + 1], Some(attempt(ops[i]).error))
  {
    if i > 0 {
      assert forall k :: 0 <= k < i - 1 ==> ops[1..][k] == ops[k + 1];
      RunOpsFailsAt(ops[1..], attempt, i - 1);
      assert ops[..i + 1] == [ops[0]] + ops[1..][..i];
    } else {
      assert ops[..1] == [ops[0]];
    }
  }

  /** When every step succeeds, all of them run and nothing fails. */
  lemma {:induction false} RunOpsAllPass(ops: seq<StubOp>, attempt: Attempt)
    requires forall k :: 0 <= k < |ops| ==> attempt(ops[k]).Pass?
    ensures RunOps(ops, attempt) == (ops, None)
  {
    if ops != [] {
      assert forall k :: 0 <= k < |ops| - 1 ==> ops[1..][k] == ops[k + 1];
      RunOpsAllPass(ops[1..], attempt);
      assert ops == [ops[0]] + ops[1..];
    }
  }

  /** A stub addition for each dependency of `c`, in order. */
  function Adds(c: string, ds: seq<string>): (r: seq<StubOp>)
    ensures |r| == |ds| && forall j :: 0 <= j < |ds| ==> r[j] == AddStub(c, ds[j])
  {
    seq(|ds|, j requires 0 <= j < |ds| => AddStub(c, ds[j]))
  }

  /** When the additions for `c` come after `done` in a plan that starts
      with the builds, they are the plan's steps from `|builds| + |done|`
      on. */
  lemma AddsAt(plan: seq<StubOp>, builds: seq<StubOp>, done: seq<StubOp>, rest: seq<StubOp>,
               c: string, ds: seq<string>, from: nat)
    requires plan == builds + rest && done + Adds(c, ds) <= rest
    requires from == |builds| + |done|
    ensures from + |ds| <= |plan|
    ensures forall j :: 0 <= j < |ds| ==> plan[from + j] == AddStub(c, ds[j])
  {
    forall j | 0 <= j < |ds| ensures plan[from + j] == AddStub(c, ds[j]) {
      assert plan[from + j] == rest[|done| + j];
      assert rest[|done| + j] == (done + Adds(c, ds))[|done| + j];
    }
  }

  /** The first `m` steps of `plan` have run, each passing. */
  predicate RanCleanly(plan: seq<StubOp>, attempt: Attempt, done: seq<StubOp>, m: nat)
  {
    m <= |plan| && done == plan[..m] && forall k :: 0 <= k < m ==> attempt(plan[k]).Pass?
  }

  /** Once every step of the plan has run cleanly, the run is complete and
      nothing failed. */
  lemma RanAll(plan: seq<StubOp>, attempt: Attempt, done: seq<StubOp>)
    requires RanCleanly(plan, attempt, done, |plan|)
    ensures RunOps(plan, attempt) == (done, None)
  {
    assert plan[..|plan|] == plan;
    RunOpsAllPass(plan, attempt);
  }

  /** Running step `m` after `m` clean steps either extends the clean run or
      ends the whole run with that step's error. */
  lemma Advance(plan: seq<StubOp>, attempt: Attempt, done: seq<StubOp>, m: nat)
    requires RanCleanly(plan, attempt, done, m) && m < |plan|
    ensures attempt(plan[m]).Pass? ==> RanCleanly(plan, attempt, done + [plan[m]], m + 1)
    ensures attempt(plan[m]).Fail? ==> RunOps(plan, attempt) == (done + [plan[m]], Some(attempt(plan[m]).error))
  {
    assert plan[..m + 1] == done + [plan[m]];
    if attempt(plan[m]).Fail? {
      RunOpsFailsAt(plan, attempt, m);
    }
  }
}
