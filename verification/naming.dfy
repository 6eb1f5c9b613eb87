/** The naming transform of `TemplateName` (src/model.rs), which the rest of
    the engine uses for component names: an identifier is cut into lower-case
    word parts, and the parts are rendered as kebab, snake, Pascal or camel
    case. */
module Naming {
  import opened Text
  import Inflector

  /** The characters before which the split pattern `(?=[A-Z\-_])` matches. */
  predicate IsCut(c: char) { IsUpper(c) || c == '-' || c == '_' }

  predicate NoCut(s: string) { forall k :: 0 <= k < |s| ==> !IsCut(s[k]) }

  /** The raw segments of `cur + rest`, where `cur` is the segment being read:
      a new segment starts at every cut character; a finished segment that is
      empty is dropped, the segment still open at the end is always kept. */
  function Cuts(cur: string, rest: string): (r: seq<string>)
    ensures |r| >= 1
    decreases |rest|
  {
    if rest == [] then [cur]
    else if IsCut(rest[0]) then (if cur == [] then [] else [cur]) + Cuts([rest[0]], rest[1..])
    else Cuts(cur + [rest[0]], rest[1..])
  }

  /** The raw segments of an identifier, before cleaning. */
  function Segments(s: string): seq<string>
  {
    Cuts([], s)
  }

  /** Lower-cases a raw segment, then drops one leading `-` and then one
      leading `_`. */
  function Clean(segment: string): string
  {
    StripPrefix(StripPrefix(Lower(segment), '-'), '_')
  }

  /** The word parts of an identifier (`TemplateName::parts`). */
  function Parts(s: string): seq<string>
  {
    var segments := Segments(s);
    seq(|segments|, i requires 0 <= i < |segments| => Clean(segments[i]))
  }

  /** The part at index `j` is the cleaned segment at that index. */
  lemma PartsAt(s: string, j: nat)
    requires j < |Segments(s)|
    ensures |Parts(s)| == |Segments(s)| && Parts(s)[j] == Clean(Segments(s)[j])
  {
  }

  /** `TemplateName::parts` as the source computes it: one pass that records
      a segment at every match of the split pattern, then a pass that cleans
      each segment. */
  method ComputeParts(name: string) returns (result: seq<string>)
    ensures result == Parts(name)
    ensures |result| >= 1
  {
    var parts := SplitSegments(name);
    result := [];
    var j := 0;
    while j < |parts|
      invariant 0 <= j <= |parts|
      invariant |result| == j
      invariant forall k :: 0 <= k < j ==> result[k] == Clean(parts[k])
    {
      result := result + [Clean(parts[j])];
      j := j + 1;
    }
  }

  /** The first pass: a segment is recorded at every match of the split
      pattern, and the text after the last match ends the list. */
  method SplitSegments(name: string) returns (parts: seq<string>)
    ensures parts == Segments(name)
  {
    parts := [];
    var last := 0;
    var i := 0;
    while i < |name|
      invariant 0 <= last <= i <= |name|
      invariant parts + Cuts(name[last..i], name[i..]) == Segments(name)
    {
      CutsStep(name, last, i);
      if IsCut(name[i]) {
        var part := name[last..i];
        if part != [] {
          parts := parts + [part];
        }
        last := i;
      }
      i := i + 1;
    }
    assert name[i..] == [] && name[last..i] == name[last..];
    parts := parts + [name[last..]];
  }

  /** One step of the scan: reading the character at index `i`. */
  lemma CutsStep(name: string, last: nat, i: nat)
    requires last <= i < |name|
    ensures IsCut(name[i]) ==>
      (Cuts(name[last..i], name[i..]) ==
       (if name[last..i] == [] then [] else [name[last..i]]) + Cuts(name[i..i + 1], name[i + 1..]))
    ensures !IsCut(name[i]) ==> Cuts(name[last..i], name[i..]) == Cuts(name[last..i + 1], name[i + 1..])
  {
    assert name[i..][0] == name[i];
    assert name[i..][1..] == name[i + 1..];
    assert name[i..i + 1] == [name[i]];
    assert name[last..i + 1] == name[last..i] + [name[i]];
  }

  function Kebab(parts: seq<string>): string { Join(parts, "-") }

  function Snake(parts: seq<string>): string { Join(parts, "_") }

  /** Title-cases every part (inflector's `to_title_case`) and concatenates
      them. */
  function Pascal(parts: seq<string>): string
  {
    if parts == [] then "" else Inflector.TitleCase(parts[0]) + Pascal(parts[1..])
  }

  /** Inflector's `to_camel_case` of the Pascal rendering. */
  function Camel(parts: seq<string>): string { Inflector.CamelCase(Pascal(parts)) }

  /** `to_kebab_case` and friends of a component or template name. */
  function ToKebabCase(name: string): string { Kebab(Parts(name)) }
  function ToSnakeCase(name: string): string { Snake(Parts(name)) }
  function ToPascalCase(name: string): string { Pascal(Parts(name)) }
  function ToCamelCase(name: string): string { Camel(Parts(name)) }

  // ---------------------------------------------------------------------
  // Properties of the split

  /** Every raw segment has at most its first character a cut character. */
  lemma {:induction false} CutsShape(cur: string, rest: string)
    requires NoCut(if cur == [] then [] else cur[1..])
    ensures forall j :: 0 <= j < |Cuts(cur, rest)| ==> NoCut(if Cuts(cur, rest)[j] == [] then [] else Cuts(cur, rest)[j][1..])
    decreases |rest|
  {
    if rest != [] {
      if IsCut(rest[0]) {
        CutsShape([rest[0]], rest[1..]);
      } else {
        var next := cur + [rest[0]];
        assert next[1..] == (if cur == [] then [] else cur[1..] + [rest[0]]);
        CutsShape(next, rest[1..]);
      }
    }
  }

  /** Only the last raw segment can be empty. */
  lemma {:induction false} CutsNonEmpty(cur: string, rest: string)
    ensures forall j :: 0 <= j < |Cuts(cur, rest)| - 1 ==> Cuts(cur, rest)[j] != []
    decreases |rest|
  {
    if rest != [] {
      if IsCut(rest[0]) {
        CutsNonEmpty([rest[0]], rest[1..]);
      } else {
        CutsNonEmpty(cur + [rest[0]], rest[1..]);
      }
    }
  }

  /** Cleaning a segment whose tail has no cut character leaves none at all. */
  lemma CleanHasNoCut(segment: string)
    requires NoCut(if segment == [] then [] else segment[1..])
    ensures NoCut(Clean(segment))
  {
    var low := Lower(segment);
    if segment != [] {
      assert forall k :: 1 <= k < |low| ==> low[k] == segment[k];
    }
  }

  /** The parts are never an empty list, none contains `-`, `_` or an
      upper-case letter, and only the last can come from an empty segment. */
  lemma PartsAreWords(s: string)
    ensures |Parts(s)| >= 1
    ensures forall j :: 0 <= j < |Parts(s)| ==> NoCut(Parts(s)[j])
  {
    CutsShape([], s);
    var segments := Segments(s);
    forall j | 0 <= j < |segments| ensures NoCut(Parts(s)[j]) {
      CleanHasNoCut(segments[j]);
    }
  }

  /** The empty identifier has the single empty part. */
  lemma PartsOfEmpty()
    ensures Parts("") == [""]
  {
  }

  /** Emptiness is checked before the prefix is stripped, so a doubled
      delimiter yields an empty middle part. */
  lemma PartsOfDoubleDash()
    ensures Parts("a--b") == ["a", "", "b"]
  {
    var s := "a--b";
    assert s[1..] == "--b" && s[2..] == "-b" && s[3..] == "b" && s[4..] == "";
    assert "" + ['a'] == "a" && "-" + ['b'] == "-b";
    assert Cuts("-b", "") == ["-b"];
    assert Cuts("-", "b") == Cuts("-b", "");
    assert Cuts("-", "-b") == ["-"] + Cuts("-", "b");
    assert Cuts("a", "--b") == ["a"] + Cuts("-", "-b");
    assert Cuts("", s) == Cuts("a", "--b");
    assert Segments(s) == ["a", "-", "-b"];
    assert Clean("a") == "a";
    assert Clean("-") == "";
    assert Clean("-b") == "b";
  }

  // ---------------------------------------------------------------------
  // Round trips

  /** Reading cut-free characters only extends the open segment. */
  lemma {:induction false} CutsWord(cur: string, w: string, rest: string)
    requires NoCut(w)
    ensures Cuts(cur, w + rest) == Cuts(cur + w, rest)
    decreases |w|
  {
    if w != [] {
      assert (w + rest)[0] == w[0];
      assert (w + rest)[1..] == w[1..] + rest;
      assert Cuts(cur, w + rest) == Cuts(cur + [w[0]], w[1..] + rest);
      CutsWord(cur + [w[0]], w[1..], rest);
      assert cur + [w[0]] + w[1..] == cur + w;
    } else {
      assert w + rest == rest && cur + w == cur;
    }
  }

  /** Each word preceded by the separator. */
  function AfterSeparators(sep: char, words: seq<string>): (r: seq<string>)
    ensures |r| == |words|
  {
    seq(|words|, j requires 0 <= j < |words| => [sep] + words[j])
  }

  lemma AfterSeparatorsCons(sep: char, words: seq<string>)
    requires |words| >= 1
    ensures AfterSeparators(sep, words) == [[sep] + words[0]] + AfterSeparators(sep, words[1..])
  {
    var r := [[sep] + words[0]] + AfterSeparators(sep, words[1..]);
    assert forall j :: 1 <= j < |words| ==> r[j] == AfterSeparators(sep, words[1..])[j - 1];
  }

  /** The raw segments of a joined list of words, read after an open segment. */
  lemma {:induction false} CutsJoin(cur: string, words: seq<string>, sep: char)
    requires IsCut(sep) && !IsUpper(sep)
    requires |words| >= 1
    requires forall j :: 0 <= j < |words| ==> NoCut(words[j])
    requires cur + words[0] != [] || |words| == 1
    ensures Cuts(cur, Join(words, [sep])) == [cur + words[0]] + AfterSeparators(sep, words[1..])
    decreases |words|
  {
    if |words| == 1 {
      CutsWord(cur, words[0], []);
      assert words[0] + [] == words[0];
      assert words[1..] == [];
    } else {
      var tail := Join(words[1..], [sep]);
      assert Join(words, [sep]) == words[0] + ([sep] + tail);
      CutsWord(cur, words[0], [sep] + tail);
      CutsAtCut(cur + words[0], sep, tail);
      CutsJoin([sep], words[1..], sep);
      AfterSeparatorsCons(sep, words[1..]);
    }
  }

  /** Cleaning `sep + w` for a cut-free word `w` gives `w` back. */
  lemma CleanAfterSeparator(sep: char, w: string)
    requires sep == '-' || sep == '_'
    requires NoCut(w)
    ensures Clean([sep] + w) == w
  {
    var low := Lower([sep] + w);
    assert low == [sep] + w;
  }

  lemma CleanWord(w: string)
    requires NoCut(w)
    ensures Clean(w) == w
  {
    assert Lower(w) == w;
  }

  /** Splitting the kebab or snake rendering of cut-free words recovers them,
      provided the first word is not empty (an empty first word is a leading
      delimiter, which the split drops). */
  lemma JoinedRoundTrip(words: seq<string>, sep: char)
    requires sep == '-' || sep == '_'
    requires |words| >= 1
    requires forall j :: 0 <= j < |words| ==> NoCut(words[j])
    requires words[0] != [] || |words| == 1
    ensures Parts(Join(words, [sep])) == words
  {
    CutsJoin([], words, sep);
    assert [] + words[0] == words[0];
    var text := Join(words, [sep]);
    var parts := Parts(text);
    forall j | 0 <= j < |words| ensures parts[j] == words[j] {
      JoinedPartAt(text, words, sep, j);
    }
  }

  /** One part of a joined list of words: the word itself. */
  lemma JoinedPartAt(text: string, words: seq<string>, sep: char, j: nat)
    requires sep == '-' || sep == '_'
    requires j < |words|
    requires forall j :: 0 <= j < |words| ==> NoCut(words[j])
    requires Segments(text) == [words[0]] + AfterSeparators(sep, words[1..])
    ensures |Parts(text)| == |words| && Parts(text)[j] == words[j]
  {
    PartsAt(text, j);
    if j == 0 {
      CleanWord(words[0]);
    } else {
      assert Segments(text)[j] == [sep] + words[j];
      CleanAfterSeparator(sep, words[j]);
    }
  }

  lemma KebabRoundTrip(words: seq<string>)
    requires |words| >= 1
    requires forall j :: 0 <= j < |words| ==> NoCut(words[j])
    requires words[0] != [] || |words| == 1
    ensures Parts(Kebab(words)) == words
  {
    JoinedRoundTrip(words, '-');
  }

  lemma SnakeRoundTrip(words: seq<string>)
    requires |words| >= 1
    requires forall j :: 0 <= j < |words| ==> NoCut(words[j])
    requires words[0] != [] || |words| == 1
    ensures Parts(Snake(words)) == words
  {
    JoinedRoundTrip(words, '_');
  }

  /** A non-empty word of lower-case letters. */
  predicate IsWord(w: string) { w != [] && Inflector.AllLower(w) }

  /** Words of lower-case letters are title-cased by upper-casing their first
      letter. */
  lemma {:induction false} PascalOfWords(words: seq<string>)
    requires forall j :: 0 <= j < |words| ==> IsWord(words[j])
    ensures Pascal(words) == Inflector.Capitalised(words)
  {
    if words != [] {
      Inflector.TitleOfWord(words[0]);
      PascalOfWords(words[1..]);
    }
  }

  /** Each word with its first letter upper-cased. */
  function Capitals(words: seq<string>): (r: seq<string>)
    ensures |r| == |words|
  {
    seq(|words|, j requires 0 <= j < |words| => UpperFirst(words[j]))
  }

  lemma CapitalsCons(words: seq<string>)
    requires |words| >= 1
    ensures Capitals(words) == [UpperFirst(words[0])] + Capitals(words[1..])
  {
    var r := [UpperFirst(words[0])] + Capitals(words[1..]);
    assert forall j :: 1 <= j < |words| ==> r[j] == Capitals(words[1..])[j - 1];
  }

  /** A cut character closes the open segment and opens the next one. */
  lemma CutsAtCut(cur: string, c: char, rest: string)
    requires IsCut(c)
    ensures Cuts(cur, [c] + rest) == (if cur == [] then [] else [cur]) + Cuts([c], rest)
  {
    assert ([c] + rest)[0] == c && ([c] + rest)[1..] == rest;
  }

  /** The capitalised words start with the first word, capitalised: a cut
      character followed by cut-free ones. */
  lemma CapitalisedHead(words: seq<string>)
    requires |words| >= 1 && IsWord(words[0])
    ensures UpperFirst(words[0]) != []
    ensures IsCut(UpperFirst(words[0])[0]) && NoCut(UpperFirst(words[0])[1..])
    ensures Inflector.Capitalised(words) ==
      [UpperFirst(words[0])[0]] + (UpperFirst(words[0])[1..] + Inflector.Capitalised(words[1..]))
  {
    var v := words[0];
    var w := UpperFirst(v);
    var p := Inflector.Capitalised(words[1..]);
    assert w[1..] == v[1..];
    assert forall k :: 0 <= k < |v| - 1 ==> v[1..][k] == v[k + 1];
    HeadSplit(w, p);
  }

  /** A non-empty string followed by another is its first character
      followed by the rest. */
  lemma HeadSplit(w: string, p: string)
    requires w != []
    ensures w + p == [w[0]] + (w[1..] + p)
  {
    var x := w + p;
    var y := [w[0]] + (w[1..] + p);
    assert |x| == |y|;
    assert forall k :: 0 <= k < |x| ==> x[k] == y[k];
  }

  /** The raw segments of a Pascal rendering, read after an open segment. */
  lemma CutsPascal(cur: string, words: seq<string>)
    requires |words| >= 1
    requires forall j :: 0 <= j < |words| ==> IsWord(words[j])
    ensures Cuts(cur, Pascal(words)) == (if cur == [] then [] else [cur]) + Capitals(words)
  {
    PascalOfWords(words);
    CutsCapitalised(cur, words);
  }

  /** The raw segments of capitalised words, read after an open segment: one
      per word. */
  lemma {:induction false} CutsCapitalised(cur: string, words: seq<string>)
    requires |words| >= 1
    requires forall j :: 0 <= j < |words| ==> IsWord(words[j])
    ensures Cuts(cur, Inflector.Capitalised(words)) == (if cur == [] then [] else [cur]) + Capitals(words)
    decreases |words|
  {
    var w := UpperFirst(words[0]);
    var rest := Inflector.Capitalised(words[1..]);
    CapitalisedHead(words);
    CutsAtCut(cur, w[0], w[1..] + rest);
    CutsWord([w[0]], w[1..], rest);
    assert [w[0]] + w[1..] == w;
    CapitalsCons(words);
    if |words| == 1 {
      assert rest == [];
    } else {
      CutsCapitalised(w, words[1..]);
    }
  }

  lemma CleanCapitalized(w: string)
    requires IsWord(w)
    ensures Clean(UpperFirst(w)) == w
  {
    var low := Lower(UpperFirst(w));
    assert low[0] == w[0];
    assert forall k :: 1 <= k < |w| ==> low[k] == w[k];
    assert low == w;
  }

  /** Splitting the Pascal rendering recovers the words, when every word is
      non-empty, starts with a lower-case letter and has no cut character. */
  lemma PascalRoundTrip(words: seq<string>)
    requires |words| >= 1
    requires forall j :: 0 <= j < |words| ==> IsWord(words[j])
    ensures Parts(Pascal(words)) == words
  {
    CutsPascal([], words);
    assert [] + Capitals(words) == Capitals(words);
    var text := Pascal(words);
    var parts := Parts(text);
    forall j | 0 <= j < |words| ensures parts[j] == words[j] {
      PascalPartAt(text, words, j);
    }
  }

  /** One part of a Pascal rendering: the word it capitalised. */
  lemma PascalPartAt(text: string, words: seq<string>, j: nat)
    requires j < |words| && IsWord(words[j])
    requires Segments(text) == Capitals(words)
    ensures |Parts(text)| == |words| && Parts(text)[j] == words[j]
  {
    PartsAt(text, j);
    CleanCapitalized(words[j]);
  }

  /** The camel rendering of words of lower-case letters is the first word
      followed by the Pascal rendering of the others, when the first word has
      at least two letters or is the only one. */
  lemma CamelShape(words: seq<string>)
    requires |words| >= 1
    requires forall j :: 0 <= j < |words| ==> IsWord(words[j])
    requires |words[0]| >= 2 || |words| == 1
    ensures Camel(words) == words[0] + Pascal(words[1..])
  {
    PascalOfWords(words);
    PascalOfWords(words[1..]);
    Inflector.CamelOfCapitalised(words);
  }

  /** Splitting the camel rendering recovers the words, under the same
      conditions. */
  lemma CamelRoundTrip(words: seq<string>)
    requires |words| >= 1
    requires forall j :: 0 <= j < |words| ==> IsWord(words[j])
    requires |words[0]| >= 2 || |words| == 1
    ensures Parts(Camel(words)) == words
  {
    CamelSegments(words);
    var text := Camel(words);
    var parts := Parts(text);
    forall j | 0 <= j < |words| ensures parts[j] == words[j] {
      CamelPartAt(text, words, j);
    }
  }

  /** The raw segments of a camel rendering: the first word, then the later
      words capitalised. */
  lemma CamelSegments(words: seq<string>)
    requires |words| >= 1
    requires forall j :: 0 <= j < |words| ==> IsWord(words[j])
    requires |words[0]| >= 2 || |words| == 1
    ensures Segments(Camel(words)) == [words[0]] + Capitals(words[1..])
  {
    var w := words[0];
    var rest := Pascal(words[1..]);
    CamelShape(words);
    CutsWord([], w, rest);
    assert [] + w == w;
    if |words| == 1 {
      assert rest == [];
    } else {
      CutsPascal(w, words[1..]);
    }
  }

  /** One part of a camel rendering: the first word as it is, a later one
      from its capitalised form. */
  lemma CamelPartAt(text: string, words: seq<string>, j: nat)
    requires j < |words| && IsWord(words[j])
    requires Segments(text) == [words[0]] + Capitals(words[1..])
    ensures |Parts(text)| == |words| && Parts(text)[j] == words[j]
  {
    PartsAt(text, j);
    if j == 0 {
      CleanWord(words[0]);
    } else {
      var later := Capitals(words[1..]);
      assert ([words[0]] + later)[j] == later[j - 1];
      assert words[1..][j - 1] == words[j];
      CleanCapitalized(words[j]);
    }
  }


  /** Re-splitting the Pascal rendering of an identifier's parts gives the
      same parts whenever every part is a word of lower-case letters. */
  lemma PascalResplit(s: string)
    requires forall j :: 0 <= j < |Parts(s)| ==> IsWord(Parts(s)[j])
    ensures Parts(ToPascalCase(s)) == Parts(s)
  {
    PartsAreWords(s);
    PascalRoundTrip(Parts(s));
  }

  /** Without that condition re-splitting is not stable: `a--b` has an empty
      part, which the Pascal rendering loses. */
  lemma PascalResplitNeedsWords()
    ensures ToPascalCase("a--b") == "AB"
    ensures Parts(ToPascalCase("a--b")) != Parts("a--b")
  {
    PartsOfDoubleDash();
    PascalOfABParts();
    assert Segments("AB") == ["A", "B"];
  }

  lemma PascalOfABParts()
    ensures Pascal(["a", "", "b"]) == "AB"
  {
    var parts := ["a", "", "b"];
    assert parts[1..] == ["", "b"] && parts[1..][1..] == ["b"] && ["b"][1..] == [];
    Inflector.TitleOfWord("a");
    Inflector.TitleOfWord("b");
    Inflector.TitleOfEmpty();
    assert UpperFirst("a") == "A" && UpperFirst("b") == "B";
  }

  /** Nor is it stable for a part with a digit before a letter: title case
      ends the word at the digit, so `h2o` renders as `H2 O`, whose parts
      are `h2 ` and `o`. */
  lemma PascalResplitNeedsLetters()
    ensures ToPascalCase("h2o") == "H2 O"
    ensures Parts(ToPascalCase("h2o")) != Parts("h2o")
  {
    OnePart("h2o");
    PascalOfOnePart("h2o");
    Inflector.TitleBreaksAfterDigit();
    SegmentsOfH2O();
  }

  /** A name without cut characters is its own single part. */
  lemma OnePart(s: string)
    requires NoCut(s)
    ensures Parts(s) == [s]
  {
    CutsWord([], s, []);
    assert s + [] == s && [] + s == s;
    assert Segments(s) == [s];
    CleanWord(s);
  }

  lemma PascalOfOnePart(p: string)
    ensures Pascal([p]) == Inflector.TitleCase(p)
  {
    assert [p][1..] == [];
    assert Inflector.TitleCase(p) + "" == Inflector.TitleCase(p);
  }

  lemma SegmentsOfH2O()
    ensures |Segments("H2 O")| == 2
  {
    var p := "H2 O";
    assert p == [p[0]] + ("2 " + [p[3]]);
    CutsAtCut([], p[0], "2 " + [p[3]]);
    CutsWord([p[0]], "2 ", [p[3]]);
    CutsAtCut([p[0]] + "2 ", p[3], []);
  }

  /** The camel rendering of a one-letter first word swallows the next
      word's capital: inflector's camel case remembers the capital of the
      first word as it read it, so the capital after it does not start a
      word. `x-app` renders as `xapp`, a single part. */
  lemma CamelAfterOneLetterWord()
    ensures ToCamelCase("x-app") == "xapp"
    ensures Parts(ToCamelCase("x-app")) != Parts("x-app")
  {
    CamelOfXApp();
    PartsOfXApp();
    PartsOfCamelXApp();
  }

  lemma PartsOfCamelXApp()
    ensures Parts("xapp") == ["xapp"]
  {
    OnePart("xapp");
  }

  lemma CamelOfXApp()
    ensures ToCamelCase("x-app") == "xapp"
  {
    PartsOfXApp();
    PascalOfXApp();
    Inflector.CamelAfterOneLetter();
  }

  lemma PartsOfXApp()
    ensures Parts("x-app") == ["x", "app"]
  {
    var words := ["x", "app"];
    assert Join(words, "-") == "x" + "-" + "app";
    KebabRoundTrip(words);
  }

  lemma PascalOfXApp()
    ensures Pascal(["x", "app"]) == "XApp"
  {
    var words := ["x", "app"];
    assert IsWord("x") && IsWord("app");
    PascalOfWords(words);
    assert words[1..] == ["app"] && words[1..][1..] == [];
    assert UpperFirst("x") == "X" && UpperFirst("app") == "App";
  }

  // ---------------------------------------------------------------------
  // The four spellings of one name

  /** The renderings of the words `my`, `test`, `template`. */
  lemma RenderingsOfMyTestTemplate()
    ensures Kebab(["my", "test", "template"]) == "my-test-template"
    ensures Snake(["my", "test", "template"]) == "my_test_template"
    ensures Pascal(["my", "test", "template"]) == "MyTestTemplate"
    ensures Camel(["my", "test", "template"]) == "myTestTemplate"
  {
    KebabOfThree();
    SnakeOfThree();
    PascalOfThree();
    CamelOfThree();
  }

  lemma KebabOfThree()
    ensures Kebab(["my", "test", "template"]) == "my-test-template"
  {
    JoinOfThree("my", "test", "template", "-");
  }

  lemma SnakeOfThree()
    ensures Snake(["my", "test", "template"]) == "my_test_template"
  {
    JoinOfThree("my", "test", "template", "_");
  }

  lemma PascalOfThree()
    ensures Pascal(["my", "test", "template"]) == "MyTestTemplate"
  {
    assert IsWord("my") && IsWord("test") && IsWord("template");
    PascalOfWords(["my", "test", "template"]);
    CapitalisedOfThree();
  }

  lemma CamelOfThree()
    ensures Camel(["my", "test", "template"]) == "myTestTemplate"
  {
    CamelShapeOfThree();
    PascalOfTwo();
    MyThenTestTemplate();
  }

  lemma MyThenTestTemplate()
    ensures "my" + "TestTemplate" == "myTestTemplate"
  {
  }

  lemma CamelShapeOfThree()
    ensures Camel(["my", "test", "template"]) == "my" + Pascal(["test", "template"])
  {
    var words := ["my", "test", "template"];
    assert IsWord("my") && IsWord("test") && IsWord("template");
    CamelShape(words);
    assert words[1..] == ["test", "template"];
  }

  lemma PascalOfTwo()
    ensures Pascal(["test", "template"]) == "TestTemplate"
  {
    assert IsWord("test") && IsWord("template");
    PascalOfWords(["test", "template"]);
    CapitalisedOfTwo();
  }

  lemma CapitalisedOfThree()
    ensures Inflector.Capitalised(["my", "test", "template"]) == "MyTestTemplate"
  {
    CapitalisedOfTwo();
    assert ["my", "test", "template"][1..] == ["test", "template"];
    assert UpperFirst("my") == "My";
  }

  lemma CapitalisedOfTwo()
    ensures Inflector.Capitalised(["test", "template"]) == "TestTemplate"
  {
    CapitalisedOfOne();
    assert ["test", "template"][1..] == ["template"];
    assert UpperFirst("test") == "Test";
  }

  lemma CapitalisedOfOne()
    ensures Inflector.Capitalised(["template"]) == "Template"
  {
    assert ["template"][1..] == [];
    assert UpperFirst("template") == "Template";
  }

  lemma JoinOfThree(a: string, b: string, c: string, sep: string)
    ensures Join([a, b, c], sep) == a + sep + b + sep + c
  {
    assert [a, b, c][1..] == [b, c];
    assert [b, c][1..] == [c];
    assert Join([b, c], sep) == b + sep + c;
    assert Join([a, b, c], sep) == a + sep + (b + sep + c);
  }

  /** `my-test-template`, `MyTestTemplate`, `myTestTemplate` and
      `my_test_template` all have the parts `my`, `test`, `template`, and so
      all four render identically in every case convention. */
  lemma SpellingsAgree(name: string)
    requires name in {"my-test-template", "MyTestTemplate", "myTestTemplate", "my_test_template"}
    ensures Parts(name) == ["my", "test", "template"]
    ensures ToKebabCase(name) == "my-test-template"
    ensures ToSnakeCase(name) == "my_test_template"
    ensures ToPascalCase(name) == "MyTestTemplate"
    ensures ToCamelCase(name) == "myTestTemplate"
  {
    RenderingsOfMyTestTemplate();
    if name == "my-test-template" {
      KebabSpelling();
    } else if name == "my_test_template" {
      SnakeSpelling();
    } else if name == "MyTestTemplate" {
      PascalSpelling();
    } else {
      CamelSpelling();
    }
  }

  lemma KebabSpelling()
    ensures Parts("my-test-template") == ["my", "test", "template"]
  {
    KebabOfThree();
    KebabRoundTrip(["my", "test", "template"]);
  }

  lemma SnakeSpelling()
    ensures Parts("my_test_template") == ["my", "test", "template"]
  {
    SnakeOfThree();
    SnakeRoundTrip(["my", "test", "template"]);
  }

  lemma PascalSpelling()
    ensures Parts("MyTestTemplate") == ["my", "test", "template"]
  {
    PascalOfThree();
    PascalOfThreeParts();
  }

  lemma PascalOfThreeParts()
    ensures Parts(Pascal(["my", "test", "template"])) == ["my", "test", "template"]
  {
    assert IsWord("my") && IsWord("test") && IsWord("template");
    PascalRoundTrip(["my", "test", "template"]);
  }

  lemma CamelSpelling()
    ensures Parts("myTestTemplate") == ["my", "test", "template"]
  {
    CamelOfThree();
    CamelOfThreeParts();
  }

  lemma CamelOfThreeParts()
    ensures Parts(Camel(["my", "test", "template"])) == ["my", "test", "template"]
  {
    assert IsWord("my") && IsWord("test") && IsWord("template");
    CamelRoundTrip(["my", "test", "template"]);
  }
}
