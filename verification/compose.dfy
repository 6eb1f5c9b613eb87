/** The stub-composition chain both multi-RPC builds run for a component
    (`stubCompose` in the TypeScript build, `StubCompose` in the Go
    magefile): the component is composed with one stub after the other,
    each step taking the previous step's output; a stub the component does
    not use is skipped, and any other failure stops the chain. */
module Compose {
  import opened Wrappers
  import opened Disk
  import opened Text

  /** How one run of `golem-cli stubgen compose` ended: it wrote its
      destination, it found the stub unused, or it failed otherwise. */
  datatype StepResult = Composed | Unused | Broken(message: string)

  /** The composition tool, applied to the current file, a stub and the
      destination file. */
  type Tool = (Path, Path, Path) -> StepResult

  /** The tool's standard error names a stub the component does not use. */
  predicate UnusedStub(stderr: string)
  {
    Contains(stderr, "Error: no dependencies of component") && Contains(stderr, "were found")
  }

  /** The composed file after the first `n` steps, starting from `start`,
      or the failure that stopped the chain. */
  function Chain(start: Path, stubs: seq<Path>, dests: seq<Path>, tool: Tool, n: nat): Result<Path, string>
    requires n <= |stubs| == |dests|
  {
    if n == 0 then Ok(start)
    else
      match Chain(start, stubs, dests, tool, n - 1)
      case Err(e) => Err(e)
      case Ok(current) =>
        match tool(current, stubs[n - 1], dests[n - 1])
        case Composed => Ok(dests[n - 1])
        case Unused => Ok(current)
        case Broken(m) => Err(m)
  }

  /** Step `k` runs and writes its destination. */
  predicate ComposedAt(start: Path, stubs: seq<Path>, dests: seq<Path>, tool: Tool, k: nat)
    requires k < |stubs| == |dests|
  {
    Chain(start, stubs, dests, tool, k).Ok? &&
    tool(Chain(start, stubs, dests, tool, k).value, stubs[k], dests[k]).Composed?
  }

  /** What the chain hands on is the output of the last step that composed,
      or the component itself when no step did. */
  lemma {:induction false} ChainIsLastComposed(start: Path, stubs: seq<Path>, dests: seq<Path>, tool: Tool, n: nat)
    requires n <= |stubs| == |dests|
    requires Chain(start, stubs, dests, tool, n).Ok?
    ensures
      || (Chain(start, stubs, dests, tool, n).value == start &&
          forall k :: 0 <= k < n ==> !ComposedAt(start, stubs, dests, tool, k))
      || (exists k :: (0 <= k < n && ComposedAt(start, stubs, dests, tool, k) &&
                       Chain(start, stubs, dests, tool, n).value == dests[k] &&
                       forall j :: k < j < n ==> !ComposedAt(start, stubs, dests, tool, j)))
  {
    if n > 0 {
      var prev := Chain(start, stubs, dests, tool, n - 1);
      var now := Chain(start, stubs, dests, tool, n);
      assert prev.Ok?;
      ChainIsLastComposed(start, stubs, dests, tool, n - 1);
      if ComposedAt(start, stubs, dests, tool, n - 1) {
        assert now.value == dests[n - 1];
      } else {
        assert now.value == prev.value;
        if prev.value == start && forall k :: 0 <= k < n - 1 ==> !ComposedAt(start, stubs, dests, tool, k) {
          assert forall k :: 0 <= k < n ==> !ComposedAt(start, stubs, dests, tool, k);
        } else {
          var k :| 0 <= k < n - 1 && ComposedAt(start, stubs, dests, tool, k) && prev.value == dests[k] &&
             forall j :: k < j < n - 1 ==> !ComposedAt(start, stubs, dests, tool, j);
          assert forall j :: k < j < n ==> !ComposedAt(start, stubs, dests, tool, j);
        }
      }
    }
  }

  /** A chain that fails fails at some step with that step's message, every
      step before it having passed. */
  lemma {:induction false} ChainFailsAtAStep(start: Path, stubs: seq<Path>, dests: seq<Path>, tool: Tool, n: nat)
    requires n <= |stubs| == |dests|
    requires Chain(start, stubs, dests, tool, n).Err?
    ensures exists k :: (0 <= k < n && Chain(start, stubs, dests, tool, k).Ok? &&
                         tool(Chain(start, stubs, dests, tool, k).value, stubs[k], dests[k]) ==
                         Broken(Chain(start, stubs, dests, tool, n).error))
  {
    if Chain(start, stubs, dests, tool, n - 1).Err? {
      ChainFailsAtAStep(start, stubs, dests, tool, n - 1);
    }
  }

  /** Once the chain has failed, the later steps are not run. */
  lemma {:induction false} ChainStaysFailed(start: Path, stubs: seq<Path>, dests: seq<Path>, tool: Tool, n: nat, m: nat)
    requires n <= m <= |stubs| == |dests|
    requires Chain(start, stubs, dests, tool, n).Err?
    ensures Chain(start, stubs, dests, tool, m) == Chain(start, stubs, dests, tool, n)
    decreases m - n
  {
    if n < m {
      ChainStaysFailed(start, stubs, dests, tool, n, m - 1);
    }
  }

  /** When every stub is unused, the component itself is handed on. */
  lemma {:induction false} ChainAllUnused(start: Path, stubs: seq<Path>, dests: seq<Path>, tool: Tool, n: nat)
    requires n <= |stubs| == |dests|
    requires forall k :: 0 <= k < n ==> tool(start, stubs[k], dests[k]) == Unused
    ensures Chain(start, stubs, dests, tool, n) == Ok(start)
  {
    if n > 0 {
      ChainAllUnused(start, stubs, dests, tool, n - 1);
    }
  }

  /** The file step `step` (counted from 1) writes for the stub of `dep`;
      `dep` names the stub's component. */
  function ComposeName(step: nat, dep: string): string
  {
    "compose-" + NatToString(step) + "-" + dep + ".wasm"
  }

  /** Two different digit strings stay different when a dash and anything
      follow them. */
  lemma DigitsDashDiffer(a: string, b: string, ra: string, rb: string)
    requires forall i :: 0 <= i < |a| ==> '0' <= a[i] <= '9'
    requires forall i :: 0 <= i < |b| ==> '0' <= b[i] <= '9'
    requires a != b
    ensures a + "-" + ra != b + "-" + rb
  {
    var x := a + "-" + ra;
    var y := b + "-" + rb;
    if |a| < |b| {
      assert x[|a|] == '-' && y[|a|] == b[|a|];
    } else if |b| < |a| {
      assert y[|b|] == '-' && x[|b|] == a[|b|];
    } else {
      var i :| 0 <= i < |a| && a[i] != b[i];
      assert x[i] == a[i] && y[i] == b[i];
    }
  }

  /** Different steps write different files, whatever the stubs are
      called, so no step overwrites the output of another. */
  lemma ComposeNamesDiffer(a: nat, b: nat, da: string, db: string)
    requires a != b
    ensures ComposeName(a, da) != ComposeName(b, db)
  {
    NatToStringRoundTrip(a);
    NatToStringRoundTrip(b);
    var ta := NatToString(a) + "-" + (da + ".wasm");
    var tb := NatToString(b) + "-" + (db + ".wasm");
    DigitsDashDiffer(NatToString(a), NatToString(b), da + ".wasm", db + ".wasm");
    assert ComposeName(a, da) == "compose-" + ta;
    assert ComposeName(b, db) == "compose-" + tb;
    SamePrefixDiffer("compose-", ta, tb);
  }

  lemma SamePrefixDiffer(p: string, x: string, y: string)
    requires x != y
    ensures p + x != p + y
  {
    assert (p + x)[|p|..] == x && (p + y)[|p|..] == y;
  }
}
