/** The placeholder substitution applied to example file names and contents
    (`transform` and `file_name_transform` in src/lib.rs): eleven literal
    tokens, replaced one after the other, each by a rendering of the
    component name or of the package name. */
module Substitution {
  import opened Text
  import opened Disk
  import Naming
  import Packages

  /** `ExampleParameters`: the new component's name, its package and the
      directory it is created in. */
  datatype Params = Params(componentName: string, packageName: Packages.PackageName, targetPath: Path)

  datatype Rule = Rule(token: string, rendering: string)

  /** The placeholder tokens, in the order they are replaced. */
  const Tokens: seq<string> := [
    "component-name", "ComponentName", "component_name",
    "pack::name", "pack:name", "pack_name", "pack-name", "pack/name", "PackName",
    "pack-ns", "PackNs"]

  /** The replacement rules, in order. */
  function Rules(p: Params): (r: seq<Rule>)
    ensures |r| == |Tokens|
    ensures forall i :: 0 <= i < |r| ==> r[i].token == Tokens[i]
    ensures TokensNonEmpty(r)
  {
    TokensHaveC();
    var pkg := p.packageName;
    var renderings := [
      Naming.ToKebabCase(p.componentName), Naming.ToPascalCase(p.componentName), Naming.ToSnakeCase(p.componentName),
      Packages.WithDoubleColon(pkg), Packages.WithColon(pkg), Packages.ToSnakeCase(pkg), Packages.ToKebabCase(pkg),
      Packages.WithSlash(pkg), Packages.ToPascalCase(pkg), pkg.namespace, Packages.NamespaceTitleCase(pkg)];
    seq(|Tokens|, i requires 0 <= i < |Tokens| => Rule(Tokens[i], renderings[i]))
  }

  predicate TokensNonEmpty(rules: seq<Rule>)
  {
    forall i :: 0 <= i < |rules| ==> rules[i].token != []
  }

  /** Applies the rules one after the other, each to the output of the
      previous one. */
  function ApplyRules(s: string, rules: seq<Rule>): string
    requires TokensNonEmpty(rules)
    decreases |rules|
  {
    if rules == [] then s
    else ApplyRules(ReplaceAll(s, rules[0].token, rules[0].rendering), rules[1..])
  }

  /** `transform`. */
  function Transform(s: string, p: Params): string
  {
    ApplyRules(s, Rules(p))
  }

  /** `file_name_transform`: the substitution, then `Cargo.toml._` becomes
      `Cargo.toml` (examples ship their manifests under the longer name). */
  function FileNameTransform(s: string, p: Params): string
  {
    ReplaceAll(Transform(s, p), "Cargo.toml._", "Cargo.toml")
  }

  // ---------------------------------------------------------------------
  // Properties

  /** A text in which no rule's token occurs is left as it is. */
  lemma {:induction false} ApplyRulesAbsent(s: string, rules: seq<Rule>)
    requires TokensNonEmpty(rules)
    requires forall i :: 0 <= i < |rules| ==> !Contains(s, rules[i].token)
    ensures ApplyRules(s, rules) == s
  {
    if rules != [] {
      ReplaceAllAbsent(s, rules[0].token, rules[0].rendering);
      ApplyRulesAbsent(s, rules[1..]);
    }
  }

  /** Applying two lists of rules is applying their concatenation. */
  lemma {:induction false} ApplyRulesAppend(s: string, a: seq<Rule>, b: seq<Rule>)
    requires TokensNonEmpty(a) && TokensNonEmpty(b)
    ensures TokensNonEmpty(a + b)
    ensures ApplyRules(s, a + b) == ApplyRules(ApplyRules(s, a), b)
    decreases |a|
  {
    if a == [] {
      assert a + b == b;
    } else {
      assert (a + b)[0] == a[0] && (a + b)[1..] == a[1..] + b;
      ApplyRulesAppend(ReplaceAll(s, a[0].token, a[0].rendering), a[1..], b);
    }
  }

  /** A character the pattern has and the text lacks rules the pattern out. */
  lemma CharRulesOut(s: string, pat: string, c: char)
    requires c in pat && c !in s
    ensures !Contains(s, pat)
  {
  }

  /** Every token has a `p` or a `P`, so a text with neither letter passes
      through the substitution unchanged, whatever the parameters. */
  lemma NoLetterPUnchanged(s: string, p: Params)
    requires 'p' !in s && 'P' !in s
    ensures Transform(s, p) == s
  {
    NoLetterPKept(s, Rules(p));
  }

  /** Rules with the standard tokens leave a text without a `p` or a `P`
      alone. */
  lemma NoLetterPKept(s: string, rules: seq<Rule>)
    requires 'p' !in s && 'P' !in s
    requires |rules| == |Tokens| && forall i :: 0 <= i < |rules| ==> rules[i].token == Tokens[i]
    ensures TokensNonEmpty(rules) && ApplyRules(s, rules) == s
  {
    NoLetterPNoTokens(s);
    ApplyRulesAbsent(s, rules);
  }

  /** No token occurs in a text without a `p` or a `P`. */
  lemma NoLetterPNoTokens(s: string)
    requires 'p' !in s && 'P' !in s
    ensures forall i :: 0 <= i < |Tokens| ==> !Contains(s, Tokens[i])
  {
    forall i | 0 <= i < |Tokens| ensures !Contains(s, Tokens[i]) {
      if i <= 7 {
        assert 'p' in Tokens[i] by { assert Tokens[i][if i < 3 then 3 else 0] == 'p'; }
        CharRulesOut(s, Tokens[i], 'p');
      } else if i == 9 {
        assert Tokens[i][0] == 'p';
        CharRulesOut(s, Tokens[i], 'p');
      } else {
        assert Tokens[i][0] == 'P';
        CharRulesOut(s, Tokens[i], 'P');
      }
    }
  }

  /** Every token has a `c` or a `C`. */
  lemma TokensHaveC()
    ensures forall i :: 0 <= i < |Tokens| ==> 'c' in Tokens[i] || 'C' in Tokens[i]
  {
    forall i | 0 <= i < |Tokens| ensures 'c' in Tokens[i] || 'C' in Tokens[i] {
      if i == 1 { assert Tokens[i][0] == 'C'; }
      else if i == 0 || i == 2 { assert Tokens[i][0] == 'c'; }
      else { assert Tokens[i][2] == 'c'; }
    }
  }

  /** No token occurs in a text without a `c` or a `C`. */
  lemma NoLetterCNoTokens(s: string)
    requires 'c' !in s && 'C' !in s
    ensures forall i :: 0 <= i < |Tokens| ==> !Contains(s, Tokens[i])
  {
    TokensHaveC();
    forall i | 0 <= i < |Tokens| ensures !Contains(s, Tokens[i]) {
      if 'c' in Tokens[i] {
        CharRulesOut(s, Tokens[i], 'c');
      } else {
        CharRulesOut(s, Tokens[i], 'C');
      }
    }
  }

  /** A text with no token in it keeps its contents. */
  lemma TransformWithoutTokens(s: string, p: Params)
    requires forall i :: 0 <= i < |Tokens| ==> !Contains(s, Tokens[i])
    ensures Transform(s, p) == s
  {
    ApplyRulesAbsent(s, Rules(p));
  }

  /** A file name with no token and no `Cargo.toml._` keeps its name. */
  lemma FileNameWithoutTokens(s: string, p: Params)
    requires forall i :: 0 <= i < |Tokens| ==> !Contains(s, Tokens[i])
    requires !Contains(s, "Cargo.toml._")
    ensures FileNameTransform(s, p) == s
  {
    TransformWithoutTokens(s, p);
    ReplaceAllAbsent(s, "Cargo.toml._", "Cargo.toml");
  }

  /** The shipped manifest name becomes `Cargo.toml`. */
  lemma CargoManifestRenamed(p: Params)
    ensures FileNameTransform("Cargo.toml._", p) == "Cargo.toml"
  {
    NoLetterPUnchanged("Cargo.toml._", p);
    ReplaceAllWhole("Cargo.toml._", "Cargo.toml");
  }

  /** The first token alone becomes the kebab rendering of the component
      name, unless that rendering itself holds a later token. */
  lemma ComponentNameToken(p: Params)
    requires forall i :: 1 <= i < |Tokens| ==> !Contains(Naming.ToKebabCase(p.componentName), Tokens[i])
    ensures Transform("component-name", p) == Naming.ToKebabCase(p.componentName)
  {
    var rules := Rules(p);
    assert rules[0].token == "component-name";
    WholeFirstToken(rules);
  }

  /** The first token on its own becomes the first rendering, when no later
      token occurs in that rendering. */
  lemma WholeFirstToken(rules: seq<Rule>)
    requires |rules| >= 1 && TokensNonEmpty(rules)
    requires forall i :: 1 <= i < |rules| ==> !Contains(rules[0].rendering, rules[i].token)
    ensures ApplyRules(rules[0].token, rules) == rules[0].rendering
  {
    ReplaceAllWhole(rules[0].token, rules[0].rendering);
    OnlyRuleApplies(rules[0].token, rules, 0, rules[0].rendering);
  }

  /** For the package `my-org:app`, `PackName` becomes `My OrgApp` and
      `PackNs` becomes `My Org`: title case turns the dash into a space. */
  lemma DashedPackageRules(name: string, target: Path)
    ensures Rules(Params(name, Packages.PackageName("my-org", "app"), target))[8] == Rule("PackName", "My OrgApp")
    ensures Rules(Params(name, Packages.PackageName("my-org", "app"), target))[10] == Rule("PackNs", "My Org")
  {
    Packages.PascalOfDashedNamespace();
  }

  /** The renderings of the component name `my-app`. */
  lemma MyAppRenderings()
    ensures Naming.ToKebabCase("my-app") == "my-app"
    ensures Naming.ToSnakeCase("my-app") == "my_app"
  {
    var words := ["my", "app"];
    assert Naming.IsWord("my") && Naming.IsWord("app");
    assert Join(words, "-") == "my" + "-" + "app";
    assert Join(words, "_") == "my" + "_" + "app";
    Naming.KebabRoundTrip(words);
  }

  /** A text made of the first token followed by text without a `c` or a
      `C`: the token becomes the kebab rendering, if that has no `c` or `C`
      either. */
  lemma LeadingKebabToken(rest: string, p: Params)
    requires 'c' !in rest && 'C' !in rest
    requires var k := Naming.ToKebabCase(p.componentName); 'c' !in k && 'C' !in k
    ensures Transform("component-name" + rest, p) == Naming.ToKebabCase(p.componentName) + rest
  {
    var rules := Rules(p);
    var k := Naming.ToKebabCase(p.componentName);
    assert ReplaceAll("component-name" + rest, "component-name", k) == k + rest by {
      assert "component-name"[0] == 'c';
      CharRulesOut(rest, "component-name", 'c');
      ReplaceAllAbsent(rest, "component-name", k);
      ReplaceAllLeading("component-name", rest, k);
    }
    NoLetterCNoTokens(k + rest);
    OnlyRuleApplies("component-name" + rest, rules, 0, k + rest);
  }

  /** The first three rules, spelled out. */
  lemma ApplyThreeRules(s: string, a: Rule, b: Rule, c: Rule)
    requires a.token != [] && b.token != [] && c.token != []
    ensures ApplyRules(s, [a, b, c]) ==
      ReplaceAll(ReplaceAll(ReplaceAll(s, a.token, a.rendering), b.token, b.rendering), c.token, c.rendering)
  {
    var s1 := ReplaceAll(s, a.token, a.rendering);
    var s2 := ReplaceAll(s1, b.token, b.rendering);
    var s3 := ReplaceAll(s2, c.token, c.rendering);
    assert [a, b, c][1..] == [b, c];
    assert [b, c][1..] == [c];
    assert [c][1..] == [];
    assert ApplyRules(s2, [c]) == ApplyRules(s3, []) == s3;
    assert ApplyRules(s1, [b, c]) == ApplyRules(s2, [c]);
    assert ApplyRules(s, [a, b, c]) == ApplyRules(s1, [b, c]);
  }

  /** When the first two rules leave a text alone, the third turns it into
      `out` and no later token occurs in `out`, the whole list yields `out`. */
  lemma ThirdRuleOnly(text: string, rules: seq<Rule>, out: string)
    requires |rules| >= 3 && TokensNonEmpty(rules)
    requires ReplaceAll(text, rules[0].token, rules[0].rendering) == text
    requires ReplaceAll(text, rules[1].token, rules[1].rendering) == text
    requires ReplaceAll(text, rules[2].token, rules[2].rendering) == out
    requires forall i :: 3 <= i < |rules| ==> !Contains(out, rules[i].token)
    ensures ApplyRules(text, rules) == out
  {
    assert rules[..3] == [rules[0], rules[1], rules[2]];
    ApplyThreeRules(text, rules[0], rules[1], rules[2]);
    ApplyRulesAbsent(out, rules[3..]);
    ApplyRulesAppend(text, rules[..3], rules[3..]);
    assert rules[..3] + rules[3..] == rules;
  }

  /** When only rule `k` finds its token (the earlier tokens are not in
      the text, the later ones not in that rule's result), the rules give
      that rule's result. */
  lemma {:induction false} OnlyRuleApplies(text: string, rules: seq<Rule>, k: nat, out: string)
    requires TokensNonEmpty(rules) && k < |rules|
    requires forall i :: 0 <= i < k ==> !Contains(text, rules[i].token)
    requires ReplaceAll(text, rules[k].token, rules[k].rendering) == out
    requires forall i :: k < i < |rules| ==> !Contains(out, rules[i].token)
    ensures ApplyRules(text, rules) == out
    decreases k
  {
    assert forall i :: 1 <= i < |rules| ==> rules[1..][i - 1] == rules[i];
    if k == 0 {
      ApplyRulesAbsent(out, rules[1..]);
    } else {
      ReplaceAllAbsent(text, rules[0].token, rules[0].rendering);
      OnlyRuleApplies(text, rules[1..], k - 1, out);
    }
  }

  /** Text without `c`, `C` or `-` followed by the third token: under
      rules with the standard tokens, the token becomes the third rule's
      rendering, if that has no `c` or `C`. */
  lemma TrailingThirdToken(prefix: string, rules: seq<Rule>)
    requires |rules| == |Tokens| && forall i :: 0 <= i < |rules| ==> rules[i].token == Tokens[i]
    requires 'c' !in prefix && 'C' !in prefix && '-' !in prefix
    requires 'c' !in rules[2].rendering && 'C' !in rules[2].rendering
    ensures TokensNonEmpty(rules)
    ensures ApplyRules(prefix + "component_name", rules) == prefix + rules[2].rendering
  {
    var k := rules[2].rendering;
    var text := prefix + "component_name";
    ThirdTokenChars(prefix);
    KeptWithout(text, rules[0].token, rules[0].rendering, '-');
    KeptWithout(text, rules[1].token, rules[1].rendering, 'C');
    ThirdTokenReplaced(prefix, k);
    NoLetterCNoTokens(prefix + k);
    StandardTokensNonEmpty(rules);
    ThirdRuleOnly(text, rules, prefix + k);
  }

  /** Rules with the standard tokens have no empty token. */
  lemma StandardTokensNonEmpty(rules: seq<Rule>)
    requires |rules| == |Tokens| && forall i :: 0 <= i < |rules| ==> rules[i].token == Tokens[i]
    ensures TokensNonEmpty(rules)
  {
    TokensHaveC();
  }

  /** The characters that tell the third token from the first two. */
  lemma ThirdTokenChars(prefix: string)
    requires 'C' !in prefix && '-' !in prefix
    ensures '-' in Tokens[0] && 'C' in Tokens[1]
    ensures '-' !in prefix + "component_name" && 'C' !in prefix + "component_name"
  {
    assert Tokens[0][9] == '-' && Tokens[1][0] == 'C';
  }

  /** A rule whose token holds a character the text lacks leaves the text
      alone. */
  lemma KeptWithout(text: string, token: string, rendering: string, c: char)
    requires c in token && c !in text
    ensures ReplaceAll(text, token, rendering) == text
  {
    CharRulesOut(text, token, c);
    ReplaceAllAbsent(text, token, rendering);
  }

  /** The third token after text without its first letter becomes `k`. */
  lemma ThirdTokenReplaced(prefix: string, k: string)
    requires 'c' !in prefix
    ensures ReplaceAll(prefix + "component_name", "component_name", k) == prefix + k
  {
    ReplaceAllSkip(prefix, "component_name", "component_name", k);
    ReplaceAllWhole("component_name", k);
  }

  /** For component `my-app` (whose renderings `MyAppRenderings` gives) in
      any package, a file named `component-name.txt` is written as
      `my-app.txt`. */
  lemma MyAppFileName(p: Params)
    requires Naming.ToKebabCase(p.componentName) == "my-app"
    ensures FileNameTransform("component-name" + ".txt", p) == "my-app.txt"
  {
    LeadingKebabToken(".txt", p);
    var t := Transform("component-name" + ".txt", p);
    assert t == "my-app.txt";
    CharRulesOut(t, "Cargo.toml._", 'C');
    ReplaceAllAbsent(t, "Cargo.toml._", "Cargo.toml");
  }
}
