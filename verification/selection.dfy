/** The command-line front end (src/main.rs): `list-examples` filters the
    catalog by language and by tier, `new` looks an example up by name and
    instantiates it. Printing is left to the caller: the model returns what
    would be printed. */
module Selection {
  import opened Wrappers
  import opened Disk
  import opened Catalog
  import opened Languages
  import opened Examples
  import opened Substitution
  import opened Instantiation
  import Packages

  /** Whether `list-examples` keeps `x`: the language, when one is given,
      is `x`'s; the tier bound, when one is given, is at least `x`'s
      tier. */
  predicate Keeps(x: Example, language: Option<GuestLanguage>, minTier: Option<Tier>)
  {
    (language.None? || x.language == language.value) &&
    (minTier.None? || TierLe(LanguageTier(x.language), minTier.value))
  }

  /** `list-examples`: the examples it keeps, in catalog order. */
  function ListExamples(xs: seq<Example>, language: Option<GuestLanguage>, minTier: Option<Tier>): seq<Example>
  {
    if xs == [] then []
    else
      var rest := ListExamples(xs[1..], language, minTier);
      if Keeps(xs[0], language, minTier) then [xs[0]] + rest else rest
  }

  /** An example is listed exactly when the catalog holds it and the
      filters keep it. */
  lemma {:induction false} ListExamplesMembers(xs: seq<Example>, language: Option<GuestLanguage>, minTier: Option<Tier>)
    ensures forall x :: x in ListExamples(xs, language, minTier) <==> x in xs && Keeps(x, language, minTier)
  {
    if xs != [] {
      ListExamplesMembers(xs[1..], language, minTier);
      assert xs == [xs[0]] + xs[1..];
    }
  }

  /** No example is listed more often than the catalog holds it, and one
      that is kept is listed exactly as often. */
  lemma {:induction false} ListExamplesCounts(xs: seq<Example>, language: Option<GuestLanguage>, minTier: Option<Tier>)
    ensures multiset(ListExamples(xs, language, minTier)) <= multiset(xs)
    ensures forall x :: Keeps(x, language, minTier) ==> multiset(ListExamples(xs, language, minTier))[x] == multiset(xs)[x]
  {
    if xs != [] {
      ListExamplesCounts(xs[1..], language, minTier);
      var rest := ListExamples(xs[1..], language, minTier);
      assert xs == [xs[0]] + xs[1..];
      assert multiset(xs) == multiset{xs[0]} + multiset(xs[1..]);
      if Keeps(xs[0], language, minTier) {
        assert multiset(ListExamples(xs, language, minTier)) == multiset{xs[0]} + multiset(rest);
      } else {
        assert ListExamples(xs, language, minTier) == rest;
      }
    }
  }

  /** Filtering a catalog in two parts filters each part: the order of the
      catalog is kept. */
  lemma {:induction false} ListExamplesAppend(a: seq<Example>, b: seq<Example>, language: Option<GuestLanguage>, minTier: Option<Tier>)
    ensures ListExamples(a + b, language, minTier) == ListExamples(a, language, minTier) + ListExamples(b, language, minTier)
  {
    if a == [] {
      assert a + b == b;
    } else {
      var head := if Keeps(a[0], language, minTier) then [a[0]] else [];
      var rest := ListExamples(a[1..], language, minTier);
      var tail := ListExamples(b, language, minTier);
      calc {
        ListExamples(a + b, language, minTier);
        { assert a + b == [a[0]] + (a[1..] + b); }
        ListExamples([a[0]] + (a[1..] + b), language, minTier);
        { ListExamplesCons(a[0], a[1..] + b, language, minTier); }
        head + ListExamples(a[1..] + b, language, minTier);
        { ListExamplesAppend(a[1..], b, language, minTier); }
        head + (rest + tail);
        (head + rest) + tail;
        { ListExamplesCons(a[0], a[1..], language, minTier); assert a == [a[0]] + a[1..]; }
        ListExamples(a, language, minTier) + tail;
      }
    }
  }

  /** The first example is listed before the rest, if it is kept. */
  lemma ListExamplesCons(x: Example, xs: seq<Example>, language: Option<GuestLanguage>, minTier: Option<Tier>)
    ensures ListExamples([x] + xs, language, minTier) ==
      (if Keeps(x, language, minTier) then [x] else []) + ListExamples(xs, language, minTier)
  {
    assert ([x] + xs)[1..] == xs;
  }

  /** Without a language or a tier, everything is listed. */
  lemma {:induction false} ListEverything(xs: seq<Example>)
    ensures ListExamples(xs, None, None) == xs
  {
    if xs != [] {
      ListEverything(xs[1..]);
    }
  }

  /** The tier bound is inclusive: a language of exactly that tier is
      listed. */
  lemma TierBoundInclusive(xs: seq<Example>, x: Example)
    requires x in xs
    ensures x in ListExamples(xs, None, Some(LanguageTier(x.language)))
  {
    ListExamplesMembers(xs, None, Some(LanguageTier(x.language)));
  }

  /** The first example called `name`, by position. */
  function FindByName(xs: seq<Example>, name: string): (r: Option<nat>)
    ensures r.Some? ==> r.value < |xs| && xs[r.value].name == name
    ensures r.Some? ==> forall j :: 0 <= j < r.value ==> xs[j].name != name
    ensures r.None? ==> forall j :: 0 <= j < |xs| ==> xs[j].name != name
  {
    if xs == [] then None
    else if xs[0].name == name then Some(0)
    else match FindByName(xs[1..], name)
      case None => None
      case Some(k) => Some(k + 1)
  }

  /** The package a component gets when none is given. */
  function PackageOrDefault(p: Option<Packages.PackageName>): Packages.PackageName
  {
    if p.Some? then p.value else Packages.DefaultPackage
  }

  /** What `new` prints. */
  datatype Report =
    | Printed(instructions: string)
    | FailedToInstantiate(failure: Failure)
    | UnknownExample(message: string)
    | ScanFailed(message: string)

  function UnknownExampleMessage(name: string): string
  {
    "Unknown example " + name + ". Use the list-examples command to see the available commands."
  }

  /** `new`: scan the catalog, pick the first example with the given name
      and instantiate it in the working directory `cwd`. */
  method New(fs: FileSystem, c: Catalogs, parse: MetadataParser, codec: Codec, exampleName: string,
             componentName: string, packageName: Option<Packages.PackageName>, cwd: Path) returns (r: Report)
    modifies fs
    ensures AllExamples(c.examples, parse, codec, Entries(c.examples)).Err? ==>
      r == ScanFailed(AllExamples(c.examples, parse, codec, Entries(c.examples)).error) && fs.State() == old(fs.State())
    ensures AllExamples(c.examples, parse, codec, Entries(c.examples)).Ok? ==>
      var xs := AllExamples(c.examples, parse, codec, Entries(c.examples)).value;
      match FindByName(xs, exampleName)
      case None => r == UnknownExample(UnknownExampleMessage(exampleName)) && fs.State() == old(fs.State())
      case Some(k) =>
        var params := Params(componentName, PackageOrDefault(packageName), cwd);
        var (s, o) := Run(old(fs.State()), fs.denied, InstantiatePlan(c, xs[k], params, codec));
        fs.State() == s &&
        (o.Pass? ==> r == Printed(Instructions(xs[k], params))) &&
        (o.Fail? ==> r == FailedToInstantiate(o.error))
  {
    var listed := ListAllExamples(c.examples, parse, codec);
    if listed.Err? {
      return ScanFailed(listed.error);
    }
    var found := FindByName(listed.value, exampleName);
    if found.None? {
      return UnknownExample(UnknownExampleMessage(exampleName));
    }
    var params := Params(componentName, PackageOrDefault(packageName), cwd);
    var result := Instantiate(fs, c, listed.value[found.value], params, codec);
    if result.Ok? {
      r := Printed(result.value);
    } else {
      r := FailedToInstantiate(result.error);
    }
  }
}
