/** Guest languages and their tiers (`GuestLanguage`, `GuestLanguageTier` in
    src/model.rs): parsing from strings, display names, the fixed tier table
    and the tier order. */
module Languages {
  import opened Wrappers
  import opened Text

  datatype GuestLanguage = Rust | Go | C | Zig | JavaScript | CSharp | Swift | Grain | Python | Scala2

  /** Declared in this order; the derived ordering follows it. */
  datatype Tier = Tier1 | Tier2 | Tier3 | Tier4

  /** `GuestLanguage::from_string`: case-insensitive, with aliases. */
  function LanguageFromString(s: string): Option<GuestLanguage>
  {
    LanguageOfLower(Lower(s))
  }

  /** The language a lower-cased spelling names. */
  function LanguageOfLower(l: string): Option<GuestLanguage>
  {
    if l == "rust" then Some(Rust)
    else if l == "go" then Some(Go)
    else if l == "c" || l == "c++" || l == "cpp" then Some(C)
    else if l == "zig" then Some(Zig)
    else if l == "js" || l == "javascript" then Some(JavaScript)
    else if l == "c#" || l == "cs" || l == "csharp" then Some(CSharp)
    else if l == "swift" then Some(Swift)
    else if l == "grain" then Some(Grain)
    else if l == "py" || l == "python" then Some(Python)
    else if l == "scala2" then Some(Scala2)
    else None
  }

  /** The spellings `LanguageFromString` accepts for a language, lower-cased. */
  function Aliases(l: GuestLanguage): set<string>
  {
    match l
    case Rust => {"rust"}
    case Go => {"go"}
    case C => {"c", "c++", "cpp"}
    case Zig => {"zig"}
    case JavaScript => {"js", "javascript"}
    case CSharp => {"c#", "cs", "csharp"}
    case Swift => {"swift"}
    case Grain => {"grain"}
    case Python => {"py", "python"}
    case Scala2 => {"scala2"}
  }

  /** `GuestLanguage::tier`. */
  function LanguageTier(l: GuestLanguage): Tier
  {
    match l
    case Rust => Tier2
    case Go => Tier2
    case C => Tier2
    case Zig => Tier3
    case JavaScript => Tier2
    case CSharp => Tier4
    case Swift => Tier3
    case Grain => Tier3
    case Python => Tier2
    case Scala2 => Tier2
  }

  /** `GuestLanguage::name`, also its `Display`. */
  function LanguageName(l: GuestLanguage): string
  {
    match l
    case Rust => "Rust"
    case Go => "Go"
    case C => "C"
    case Zig => "Zig"
    case JavaScript => "JavaScript"
    case CSharp => "C#"
    case Swift => "Swift"
    case Grain => "Grain"
    case Python => "Python"
    case Scala2 => "Scala 2"
  }

  /** `FromStr for GuestLanguage`: the error names the rejected input. */
  function ParseLanguage(s: string): (r: Result<GuestLanguage, string>)
    ensures r.Ok? <==> LanguageFromString(s).Some?
    ensures r.Ok? ==> LanguageFromString(s) == Some(r.value)
    ensures r.Err? ==> r.error == "Unknown guest language: " + s + ". Expected one of " + ExpectedLanguages()
  {
    match LanguageFromString(s)
    case Some(l) => Ok(l)
    case None => Err("Unknown guest language: " + s + ". Expected one of " + ExpectedLanguages())
  }

  /** Every language, in declaration order (the order `EnumIter` yields). */
  const AllLanguages: seq<GuestLanguage> :=
    [Rust, Go, C, Zig, JavaScript, CSharp, Swift, Grain, Python, Scala2]

  /** The display names of all languages, each in double quotes, separated by
      `, `, as listed in the parse error. */
  function ExpectedLanguages(): string
  {
    Join(seq(|AllLanguages|, i requires 0 <= i < |AllLanguages| => "\"" + LanguageName(AllLanguages[i]) + "\""), ", ")
  }

  /** `GuestLanguageTier::from_string`: `tierN` or `N`, case-insensitive. */
  function TierFromString(s: string): Option<Tier>
  {
    var l := Lower(s);
    if l == "tier1" || l == "1" then Some(Tier1)
    else if l == "tier2" || l == "2" then Some(Tier2)
    else if l == "tier3" || l == "3" then Some(Tier3)
    else if l == "tier4" || l == "4" then Some(Tier4)
    else None
  }

  /** `FromStr for GuestLanguageTier`: the error names the rejected input. */
  function ParseTier(s: string): (r: Result<Tier, string>)
    ensures r.Ok? <==> TierFromString(s).Some?
    ensures r.Ok? ==> TierFromString(s) == Some(r.value)
    ensures r.Err? ==> r.error == "Unexpected guest language tier " + s
  {
    match TierFromString(s)
    case Some(t) => Ok(t)
    case None => Err("Unexpected guest language tier " + s)
  }

  /** The position of a tier in declaration order, which the derived `Ord`
      compares. */
  function TierOrdinal(t: Tier): nat
  {
    match t
    case Tier1 => 0
    case Tier2 => 1
    case Tier3 => 2
    case Tier4 => 3
  }

  /** The derived order `a <= b` on tiers. */
  predicate TierLe(a: Tier, b: Tier) { TierOrdinal(a) <= TierOrdinal(b) }

  /** `GuestLanguageTier::level`. */
  function Level(t: Tier): (r: nat)
    ensures 1 <= r <= 4
    ensures r == TierOrdinal(t) + 1
  {
    match t
    case Tier1 => 1
    case Tier2 => 2
    case Tier3 => 3
    case Tier4 => 4
  }

  /** `GuestLanguageTier::name`, also its `Display`. */
  function TierName(t: Tier): string
  {
    match t
    case Tier1 => "tier1"
    case Tier2 => "tier2"
    case Tier3 => "tier3"
    case Tier4 => "tier4"
  }

  // ---------------------------------------------------------------------
  // Properties

  lemma {:induction false} LowerIdempotent(s: string)
    ensures Lower(Lower(s)) == Lower(s)
  {
    var l := Lower(s);
    assert forall i :: 0 <= i < |l| ==> ToLowerChar(l[i]) == l[i];
  }

  /** Parsing ignores case. */
  lemma LanguageFromStringIgnoresCase(s: string)
    ensures LanguageFromString(s) == LanguageFromString(Lower(s))
    ensures TierFromString(s) == TierFromString(Lower(s))
  {
    LowerIdempotent(s);
  }

  /** A string names a language exactly when its lower-cased form is one of
      that language's spellings. */
  lemma LanguageFromStringAliases(s: string, l: GuestLanguage)
    ensures LanguageFromString(s) == Some(l) <==> Lower(s) in Aliases(l)
  {
    LowerSpellingAliases(Lower(s), l);
  }

  lemma LowerSpellingAliases(x: string, l: GuestLanguage)
    ensures LanguageOfLower(x) == Some(l) <==> x in Aliases(l)
  {
    match l
    case Rust =>
    case Go =>
    case C =>
    case Zig =>
    case JavaScript =>
    case CSharp =>
    case Swift =>
    case Grain =>
    case Python =>
    case Scala2 =>
  }

  /** Lower-casing a language's display name, case by case. */
  lemma {:induction false} LowerLanguageName(l: GuestLanguage)
    ensures Lower(LanguageName(l)) ==
      match l
      case Rust => "rust"
      case Go => "go"
      case C => "c"
      case Zig => "zig"
      case JavaScript => "javascript"
      case CSharp => "c#"
      case Swift => "swift"
      case Grain => "grain"
      case Python => "python"
      case Scala2 => "scala 2"
  {
    match l
    case Rust => LowerIs("Rust", "rust");
    case Go => LowerIs("Go", "go");
    case C => LowerIs("C", "c");
    case Zig => LowerIs("Zig", "zig");
    case JavaScript => LowerIs("JavaScript", "javascript");
    case CSharp => LowerIs("C#", "c#");
    case Swift => LowerIs("Swift", "swift");
    case Grain => LowerIs("Grain", "grain");
    case Python => LowerIs("Python", "python");
    case Scala2 => LowerIs("Scala 2", "scala 2");
  }

  /** Parsing a language's display name gives the language back, except for
      Scala 2, whose display name `Scala 2` is not an accepted spelling. */
  lemma LanguageNameRoundTrip(l: GuestLanguage)
    ensures l != Scala2 ==> LanguageFromString(LanguageName(l)) == Some(l)
    ensures l == Scala2 ==> LanguageFromString(LanguageName(l)) == None
  {
    LowerLanguageName(l);
  }

  /** Parsing a tier's name, or its level as a digit, gives the tier back. */
  lemma TierNameRoundTrip(t: Tier)
    ensures TierFromString(TierName(t)) == Some(t)
    ensures TierFromString([('0' as int + Level(t)) as char]) == Some(t)
  {
    assert Lower(TierName(t)) == TierName(t);
    assert Lower([('0' as int + Level(t)) as char]) == [('0' as int + Level(t)) as char];
  }

  /** The language list is complete and without repetition. */
  lemma AllLanguagesComplete(l: GuestLanguage)
    ensures l in AllLanguages
    ensures forall i, j :: 0 <= i < j < |AllLanguages| ==> AllLanguages[i] != AllLanguages[j]
  {
  }

  /** The derived tier order agrees with the levels. */
  lemma TierOrderByLevel(a: Tier, b: Tier)
    ensures TierLe(a, b) <==> Level(a) <= Level(b)
    ensures a != b ==> Level(a) != Level(b)
  {
  }
}
