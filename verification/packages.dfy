/** Package names of the form `namespace:name` (`PackageName` in
    src/model.rs): parsing and the renderings the template substitution
    writes into generated files. */
module Packages {
  import opened Wrappers
  import opened Text
  import Inflector

  datatype PackageName = PackageName(namespace: string, name: string)

  /** `PackageName::from_string`: the input must split on `:` into exactly
      two pieces; either piece may be empty. */
  function FromString(s: string): Option<PackageName>
  {
    var pieces := Split(s, ':');
    if |pieces| == 2 then Some(PackageName(pieces[0], pieces[1])) else None
  }

  /** `FromStr for PackageName`. */
  function Parse(s: string): (r: Result<PackageName, string>)
    ensures r.Ok? <==> FromString(s).Some?
    ensures r.Ok? ==> FromString(s) == Some(r.value)
    ensures r.Err? ==> r.error == "Unexpected package name " + s + ". Must be in 'pack:name' format"
  {
    match FromString(s)
    case Some(p) => Ok(p)
    case None => Err("Unexpected package name " + s + ". Must be in 'pack:name' format")
  }

  /** `to_pascal_case`: both halves title-cased, concatenated. */
  function ToPascalCase(p: PackageName): string
  {
    Inflector.TitleCase(p.namespace) + Inflector.TitleCase(p.name)
  }

  function ToSnakeCase(p: PackageName): string { p.namespace + "_" + p.name }

  function ToKebabCase(p: PackageName): string { p.namespace + "-" + p.name }

  function WithDoubleColon(p: PackageName): string { p.namespace + "::" + p.name }

  /** `to_string_with_colon`, also the `Display` of a package name. */
  function WithColon(p: PackageName): string { p.namespace + ":" + p.name }

  function WithSlash(p: PackageName): string { p.namespace + "/" + p.name }

  function NamespaceTitleCase(p: PackageName): string { Inflector.TitleCase(p.namespace) }

  /** The package name used when none is given on the command line. */
  const DefaultPackage := PackageName("golem", "component")

  // ---------------------------------------------------------------------
  // Properties

  /** A package name has two colon-free halves. */
  predicate WellFormed(p: PackageName)
  {
    ':' !in p.namespace && ':' !in p.name
  }

  /** Parsing succeeds exactly on `namespace:name` with colon-free halves, and
      recovers those halves. */
  lemma {:induction false} FromStringExactly(s: string, p: PackageName)
    ensures FromString(s) == Some(p) <==> WellFormed(p) && s == WithColon(p)
  {
    var pieces := Split(s, ':');
    if FromString(s) == Some(p) {
      JoinSplit(s, ':');
      assert Join(pieces, [':']) == pieces[0] + [':'] + Join(pieces[1..], [':']);
      assert pieces[1..] == [pieces[1]];
    }
    if WellFormed(p) && s == WithColon(p) {
      SplitJoin([p.namespace, p.name], ':');
      assert Join([p.namespace, p.name], [':']) == p.namespace + [':'] + Join([p.name], [':']);
    }
  }

  /** Every well-formed package name survives printing and parsing. */
  lemma DisplayRoundTrip(p: PackageName)
    requires WellFormed(p)
    ensures FromString(WithColon(p)) == Some(p)
    ensures Parse(WithColon(p)) == Ok(p)
  {
    FromStringExactly(WithColon(p), p);
  }

  /** A parsed name prints back to the input it was parsed from. */
  lemma ParsePrintsBack(s: string)
    requires FromString(s).Some?
    ensures WellFormed(FromString(s).value)
    ensures WithColon(FromString(s).value) == s
  {
    FromStringExactly(s, FromString(s).value);
  }

  /** The number of pieces is one more than the number of colons, so parsing
      succeeds exactly on inputs with one colon. */
  lemma {:induction false} SplitCountsColons(s: string)
    ensures |Split(s, ':')| == ColonCount(s) + 1
  {
    if s != [] {
      SplitCountsColons(s[1..]);
    }
  }

  /** The number of colons in `s`. */
  function ColonCount(s: string): nat
  {
    if s == [] then 0 else (if s[0] == ':' then 1 else 0) + ColonCount(s[1..])
  }

  lemma FromStringIffOneColon(s: string)
    ensures FromString(s).Some? <==> ColonCount(s) == 1
  {
    SplitCountsColons(s);
  }

  lemma SplitFooBar()
    ensures Split("foo:bar", ':') == ["foo", "bar"]
  {
    assert "foo" + ":bar" == "foo:bar" && ":bar"[1..] == "bar";
    SplitPrefix("foo", ":bar", ':');
    SplitNoSep("bar", ':');
  }

  /** The example the source's own test checks. */
  lemma FooBar()
    ensures FromString("foo:bar") == Some(PackageName("foo", "bar"))
    ensures ToPascalCase(PackageName("foo", "bar")) == "FooBar"
  {
    SplitFooBar();
    PascalFooBar();
  }

  lemma PascalFooBar()
    ensures ToPascalCase(PackageName("foo", "bar")) == "FooBar"
  {
    TitleOfFoo();
    TitleOfBar();
    assert "Foo" + "Bar" == "FooBar";
  }

  lemma TitleOfFoo()
    ensures Inflector.TitleCase("foo") == "Foo"
  {
    assert Inflector.AllLower("foo");
    Inflector.TitleOfWord("foo");
    assert UpperFirst("foo") == "Foo";
  }

  lemma TitleOfBar()
    ensures Inflector.TitleCase("bar") == "Bar"
  {
    assert Inflector.AllLower("bar");
    Inflector.TitleOfWord("bar");
    assert UpperFirst("bar") == "Bar";
  }

  /** A namespace with a dash is title-cased word by word, with a space
      between the words: `my-org:app` renders as `My OrgApp`. */
  lemma PascalOfDashedNamespace()
    ensures ToPascalCase(PackageName("my-org", "app")) == "My OrgApp"
    ensures NamespaceTitleCase(PackageName("my-org", "app")) == "My Org"
  {
    Inflector.TitleOfMyOrg();
    TitleOfApp();
    assert "My Org" + "App" == "My OrgApp";
  }

  lemma TitleOfApp()
    ensures Inflector.TitleCase("app") == "App"
  {
    assert Inflector.AllLower("app");
    Inflector.TitleOfWord("app");
    assert UpperFirst("app") == "App";
  }

  /** Inputs with no colon or with two colons are rejected. */
  lemma NotPackageNames()
    ensures FromString("foobar") == None
    ensures FromString("a:b:c") == None
  {
    SplitNoSep("foobar", ':');
    SplitPrefix("a", ":b:c", ':');
    SplitPrefix("b", ":c", ':');
    assert ":b:c"[1..] == "b:c" && "a" + ":b:c" == "a:b:c";
    assert ":c"[1..] == "c" && "b" + ":c" == "b:c";
  }

  /** The renderings differ only in the separator: each is the namespace,
      the separator and the name. */
  lemma RenderingsShareHalves(p: PackageName)
    ensures ToSnakeCase(p) == Join([p.namespace, p.name], "_")
    ensures ToKebabCase(p) == Join([p.namespace, p.name], "-")
    ensures WithDoubleColon(p) == Join([p.namespace, p.name], "::")
    ensures WithColon(p) == Join([p.namespace, p.name], ":")
    ensures WithSlash(p) == Join([p.namespace, p.name], "/")
  {
  }
}
