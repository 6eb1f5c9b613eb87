/** Example descriptors (`Example`, `ExampleMetadata` in src/model.rs) and
    the scan of the example catalog that builds them (`list_all_examples`
    and `parse_example` in src/lib.rs). A failed `expect` or `panic!` of
    the scan is an `Err` carrying its message. */
module Examples {
  import opened Wrappers
  import opened Text
  import opened Disk
  import opened Catalog
  import opened Languages

  /** An example as the catalog scan describes it. */
  datatype Example = Example(
    name: string,
    language: GuestLanguage,
    description: string,
    examplePath: Path,
    instructions: string,
    adapter: Option<Path>,
    witDeps: seq<Path>,
    witDepsTargets: Option<seq<Path>>,
    exclude: set<string>,
    transformExclude: set<string>)

  /** `ExampleMetadata`: the contents of an example's `metadata.json`. */
  datatype Metadata = Metadata(
    description: string,
    requiresAdapter: Option<bool>,
    requiresGolemHostWit: Option<bool>,
    requiresWasi: Option<bool>,
    exclude: seq<string>,
    instructions: Option<string>,
    transformExclude: Option<seq<string>>,
    witDepsPaths: Option<seq<Path>>)

  /** Decoding `metadata.json`; `None` when the bytes are not a valid
      metadata document. */
  type MetadataParser = Bytes -> Option<Metadata>

  /** The file every language directory keeps its default instructions
      in. */
  const DefaultInstructions := "INSTRUCTIONS"

  const AdapterFile := "wasi_snapshot_preview1.wasm"

  /** The host interfaces an example built against Golem's WIT needs. */
  const HostWitDeps: seq<Path> := [["golem"], ["wasm-rpc"]]

  /** The WASI interface packages, in the order they are copied. */
  const WasiDeps: seq<Path> := [
    ["blobstore"], ["cli"], ["clocks"], ["filesystem"], ["http"],
    ["io"], ["keyvalue"], ["logging"], ["random"], ["sockets"]]

  /** The WIT packages an example needs, given its two flags. */
  function WitDeps(hostWit: bool, wasi: bool): seq<Path>
  {
    (if hostWit then HostWitDeps else []) + (if wasi then WasiDeps else [])
  }

  /** The dependency list of `parse_example`, built by successive pushes. */
  method CollectWitDeps(hostWit: bool, wasi: bool) returns (deps: seq<Path>)
    ensures deps == WitDeps(hostWit, wasi)
  {
    deps := [];
    if hostWit {
      deps := deps + [["golem"]];
      deps := deps + [["wasm-rpc"]];
    }
    if wasi {
      var i := 0;
      while i < |WasiDeps|
        invariant 0 <= i <= |WasiDeps|
        invariant deps == (if hostWit then HostWitDeps else []) + WasiDeps[..i]
      {
        deps := deps + [WasiDeps[i]];
        i := i + 1;
      }
    }
  }

  /** The dependency list names each package once, each as a single path
      component, and holds two packages for the host flag and ten for the
      WASI flag. */
  lemma WitDepsShape(hostWit: bool, wasi: bool)
    ensures |WitDeps(hostWit, wasi)| == (if hostWit then 2 else 0) + (if wasi then 10 else 0)
    ensures forall i :: 0 <= i < |WitDeps(hostWit, wasi)| ==> |WitDeps(hostWit, wasi)[i]| == 1
    ensures forall i, j :: 0 <= i < j < |WitDeps(hostWit, wasi)| ==> WitDeps(hostWit, wasi)[i] != WitDeps(hostWit, wasi)[j]
  {
    var all := HostWitDeps + WasiDeps;
    assert forall i, j :: 0 <= i < j < |all| ==> all[i][0] != all[j][0];
    var d := WitDeps(hostWit, wasi);
    if hostWit && wasi {
      assert d == all;
    } else if wasi {
      assert forall i :: 0 <= i < |d| ==> d[i] == all[i + 2];
    }
  }

  const ReadMetadataFailed: string := "Failed to read metadata JSON"
  const ParseMetadataFailed: string := "Failed to parse metadata JSON"
  const ReadInstructionsFailed: string := "Failed to read instructions"
  const DecodeInstructionsFailed: string := "Failed to decode instructions"
  /** The panic message of `unwrap` on a path without a last element. */
  const UnwrapNone: string := "called `Option::unwrap()` on a `None` value"
  const InvalidLanguage: string := "Invalid guest language name: "

  /** `metadata.json` of the example at `exampleRoot`, read and decoded. */
  function ReadMetadata(root: Node, parse: MetadataParser, exampleRoot: Path): Result<Metadata, string>
  {
    match GetFile(root, exampleRoot + ["metadata.json"])
    case None => Err(ReadMetadataFailed)
    case Some(f) =>
      match parse(f.contents)
      case None => Err(ParseMetadataFailed)
      case Some(m) => Ok(m)
  }

  /** Where the instructions are read from: the file the metadata names,
      or the default one, in the language directory. */
  function InstructionsPath(m: Metadata, langPath: Path, defaultInstructions: string): Path
  {
    langPath + [if m.instructions.Some? then m.instructions.value else defaultInstructions]
  }

  /** `parse_example`. */
  function ParseExample(root: Node, parse: MetadataParser, codec: Codec, lang: GuestLanguage, langPath: Path,
                        defaultInstructions: string, adaptersPath: Path, exampleRoot: Path): (r: Result<Example, string>)
    ensures r.Ok? ==>
      && ReadMetadata(root, parse, exampleRoot).Ok?
      && exampleRoot != []
      && GetFile(root, InstructionsPath(ReadMetadata(root, parse, exampleRoot).value, langPath, defaultInstructions)).Some?
    ensures r.Ok? ==>
      var m := ReadMetadata(root, parse, exampleRoot).value;
      && r.value.name == exampleRoot[|exampleRoot| - 1]
      && r.value.language == lang
      && r.value.description == m.description
      && r.value.examplePath == exampleRoot
      && Some(r.value.instructions) == codec.decode(GetFile(root, InstructionsPath(m, langPath, defaultInstructions)).value.contents)
      && (r.value.adapter.None? <==> m.requiresAdapter == Some(false))
      && (r.value.adapter.Some? ==> r.value.adapter.value == adaptersPath)
      && r.value.witDeps == WitDeps(m.requiresGolemHostWit == Some(true), m.requiresWasi == Some(true))
      && r.value.witDepsTargets == m.witDepsPaths
      && (forall x :: x in r.value.exclude <==> x in m.exclude)
      && (m.transformExclude.None? ==> r.value.transformExclude == {})
      && (m.transformExclude.Some? ==> forall x :: x in r.value.transformExclude <==> x in m.transformExclude.value)
    ensures ReadMetadata(root, parse, exampleRoot).Err? ==> r == Err(ReadMetadata(root, parse, exampleRoot).error)
  {
    match ReadMetadata(root, parse, exampleRoot)
    case Err(e) => Err(e)
    case Ok(m) =>
      match GetFile(root, InstructionsPath(m, langPath, defaultInstructions))
      case None => Err(ReadInstructionsFailed)
      case Some(f) =>
        match codec.decode(f.contents)
        case None => Err(DecodeInstructionsFailed)
        case Some(instructions) =>
          if exampleRoot == [] then Err(UnwrapNone)
          else
            Ok(Example(
              exampleRoot[|exampleRoot| - 1],
              lang,
              m.description,
              exampleRoot,
              instructions,
              if m.requiresAdapter != Some(false) then Some(adaptersPath) else None,
              WitDeps(m.requiresGolemHostWit == Some(true), m.requiresWasi == Some(true)),
              m.witDepsPaths,
              Elements(m.exclude),
              if m.transformExclude.Some? then Elements(m.transformExclude.value) else {}))
  }

  // ---------------------------------------------------------------------
  // The catalog scan

  /** A subdirectory of a language directory that holds an example: any
      but the instructions and hidden ones. */
  predicate IsExampleDir(n: Node)
  {
    n.Dir? && n.name != DefaultInstructions && !(|n.name| > 0 && n.name[0] == '.')
  }

  /** Where a language's examples find their adapter. */
  function AdapterPath(lang: GuestLanguage): Path
  {
    [TierName(LanguageTier(lang)), AdapterFile]
  }

  /** The example in the directory `n` of the directory of language
      `lang`. */
  function ExampleIn(root: Node, parse: MetadataParser, codec: Codec, lang: GuestLanguage, langName: string,
                     n: Node): Result<Example, string>
  {
    ParseExample(root, parse, codec, lang, [langName], DefaultInstructions, AdapterPath(lang), [langName, n.name])
  }

  /** The examples among the first entries `subs` of the directory of
      language `lang`, in order; the first failure to parse one ends the
      scan. */
  function LanguageExamples(root: Node, parse: MetadataParser, codec: Codec, lang: GuestLanguage, langName: string,
                            subs: seq<Node>): Result<seq<Example>, string>
    decreases |subs|
  {
    if subs == [] then Ok([])
    else
      match LanguageExamples(root, parse, codec, lang, langName, subs[..|subs| - 1])
      case Err(e) => Err(e)
      case Ok(xs) =>
        var n := subs[|subs| - 1];
        if !IsExampleDir(n) then Ok(xs)
        else
          match ExampleIn(root, parse, codec, lang, langName, n)
          case Err(e) => Err(e)
          case Ok(x) => Ok(xs + [x])
  }

  /** The examples of one entry at the top of the catalog: none for a
      file, those of the language it names for a directory, and an error
      for a directory that names no language. */
  function EntryExamples(root: Node, parse: MetadataParser, codec: Codec, n: Node): Result<seq<Example>, string>
  {
    if n.File? then Ok([])
    else
      match LanguageFromString(n.name)
      case None => Err(InvalidLanguage + n.name)
      case Some(lang) => LanguageExamples(root, parse, codec, lang, n.name, n.children)
  }

  /** The examples of the language directories among `entries`, in order.
      A directory whose name is not a language ends the scan. */
  function AllExamples(root: Node, parse: MetadataParser, codec: Codec, entries: seq<Node>): Result<seq<Example>, string>
    decreases |entries|
  {
    if entries == [] then Ok([])
    else
      match AllExamples(root, parse, codec, entries[..|entries| - 1])
      case Err(e) => Err(e)
      case Ok(xs) =>
        match EntryExamples(root, parse, codec, entries[|entries| - 1])
        case Err(e) => Err(e)
        case Ok(ys) => Ok(xs + ys)
  }

  /** The entries of a directory; a file has none. */
  function Entries(n: Node): seq<Node>
  {
    if n.Dir? then n.children else []
  }

  /** `list_all_examples`. */
  method ListAllExamples(root: Node, parse: MetadataParser, codec: Codec) returns (r: Result<seq<Example>, string>)
    ensures r == AllExamples(root, parse, codec, Entries(root))
  {
    var entries := Entries(root);
    var result: seq<Example> := [];
    var i := 0;
    while i < |entries|
      invariant 0 <= i <= |entries|
      invariant AllExamples(root, parse, codec, entries[..i]) == Ok(result)
    {
      var found := ScanEntry(root, parse, codec, entries[i]);
      AllExamplesStep(root, parse, codec, entries, i, result);
      if found.Err? {
        AllExamplesFailed(root, parse, codec, entries, i + 1);
        assert entries[..|entries|] == entries;
        return Err(found.error);
      }
      result := result + found.value;
      i := i + 1;
    }
    assert entries[..i] == entries;
    return Ok(result);
  }

  /** One entry at the top of the catalog in `list_all_examples`: a file is
      passed over, a directory must name a language and is scanned. */
  method ScanEntry(root: Node, parse: MetadataParser, codec: Codec, langDir: Node) returns (r: Result<seq<Example>, string>)
    ensures r == EntryExamples(root, parse, codec, langDir)
  {
    if langDir.Dir? {
      var lang := LanguageFromString(langDir.name);
      if lang.None? {
        return Err(InvalidLanguage + langDir.name);
      }
      r := ScanLanguage(root, parse, codec, lang.value, langDir.name, langDir.children);
    } else {
      r := Ok([]);
    }
  }

  /** The inner loop of `list_all_examples`, over one language
      directory. */
  method ScanLanguage(root: Node, parse: MetadataParser, codec: Codec, lang: GuestLanguage, langName: string,
                      subs: seq<Node>) returns (r: Result<seq<Example>, string>)
    ensures r == LanguageExamples(root, parse, codec, lang, langName, subs)
  {
    var result: seq<Example> := [];
    var i := 0;
    while i < |subs|
      invariant 0 <= i <= |subs|
      invariant LanguageExamples(root, parse, codec, lang, langName, subs[..i]) == Ok(result)
    {
      var exampleDir := subs[i];
      LanguageExamplesStep(root, parse, codec, lang, langName, subs, i, result);
      if IsExampleDir(exampleDir) {
        var example := ExampleIn(root, parse, codec, lang, langName, exampleDir);
        if example.Err? {
          LanguageExamplesFailed(root, parse, codec, lang, langName, subs, i + 1);
          assert subs[..|subs|] == subs;
          return Err(example.error);
        }
        result := result + [example.value];
      }
      i := i + 1;
    }
    assert subs[..i] == subs;
    return Ok(result);
  }

  /** One more entry of a language directory scanned after the first `i`
      scanned without error. */
  lemma LanguageExamplesStep(root: Node, parse: MetadataParser, codec: Codec, lang: GuestLanguage, langName: string,
                             subs: seq<Node>, i: nat, xs: seq<Example>)
    requires i < |subs| && LanguageExamples(root, parse, codec, lang, langName, subs[..i]) == Ok(xs)
    ensures !IsExampleDir(subs[i]) ==> LanguageExamples(root, parse, codec, lang, langName, subs[..i + 1]) == Ok(xs)
    ensures IsExampleDir(subs[i]) && ExampleIn(root, parse, codec, lang, langName, subs[i]).Err? ==>
      LanguageExamples(root, parse, codec, lang, langName, subs[..i + 1]) ==
      Err(ExampleIn(root, parse, codec, lang, langName, subs[i]).error)
    ensures IsExampleDir(subs[i]) && ExampleIn(root, parse, codec, lang, langName, subs[i]).Ok? ==>
      LanguageExamples(root, parse, codec, lang, langName, subs[..i + 1]) ==
      Ok(xs + [ExampleIn(root, parse, codec, lang, langName, subs[i]).value])
  {
    assert subs[..i + 1][..i] == subs[..i];
  }

  /** Once the scan of a prefix fails, the whole scan fails the same way. */
  lemma LanguageExamplesFailed(root: Node, parse: MetadataParser, codec: Codec, lang: GuestLanguage, langName: string,
                               subs: seq<Node>, i: nat)
    requires i <= |subs| && LanguageExamples(root, parse, codec, lang, langName, subs[..i]).Err?
    ensures LanguageExamples(root, parse, codec, lang, langName, subs[..|subs|]) == LanguageExamples(root, parse, codec, lang, langName, subs[..i])
    decreases |subs| - i
  {
    if i < |subs| {
      assert subs[..i + 1][..i] == subs[..i];
      LanguageExamplesFailed(root, parse, codec, lang, langName, subs, i + 1);
    }
  }

  /** One more entry scanned after the first `i` scanned without error. */
  lemma AllExamplesStep(root: Node, parse: MetadataParser, codec: Codec, entries: seq<Node>, i: nat, xs: seq<Example>)
    requires i < |entries| && AllExamples(root, parse, codec, entries[..i]) == Ok(xs)
    ensures EntryExamples(root, parse, codec, entries[i]).Err? ==>
      AllExamples(root, parse, codec, entries[..i + 1]) == Err(EntryExamples(root, parse, codec, entries[i]).error)
    ensures EntryExamples(root, parse, codec, entries[i]).Ok? ==>
      AllExamples(root, parse, codec, entries[..i + 1]) == Ok(xs + EntryExamples(root, parse, codec, entries[i]).value)
  {
    assert entries[..i + 1][..i] == entries[..i];
  }

  lemma AllExamplesFailed(root: Node, parse: MetadataParser, codec: Codec, entries: seq<Node>, i: nat)
    requires i <= |entries| && AllExamples(root, parse, codec, entries[..i]).Err?
    ensures AllExamples(root, parse, codec, entries[..|entries|]) == AllExamples(root, parse, codec, entries[..i])
    decreases |entries| - i
  {
    if i < |entries| {
      assert entries[..i + 1][..i] == entries[..i];
      AllExamplesFailed(root, parse, codec, entries, i + 1);
    }
  }

  // ---------------------------------------------------------------------
  // Properties of the scan

  /** What every listed example of the language directory `langName`
      looks like. */
  predicate Listed(x: Example, langName: string)
  {
    && x.examplePath == [langName, x.name]
    && LanguageFromString(langName) == Some(x.language)
    && x.name != DefaultInstructions
    && !(|x.name| > 0 && x.name[0] == '.')
    && (x.adapter.Some? ==> x.adapter.value == [TierName(LanguageTier(x.language)), AdapterFile])
  }

  lemma {:induction false} LanguageExamplesListed(root: Node, parse: MetadataParser, codec: Codec, lang: GuestLanguage,
                                                  langName: string, subs: seq<Node>)
    requires LanguageFromString(langName) == Some(lang)
    requires LanguageExamples(root, parse, codec, lang, langName, subs).Ok?
    ensures forall x :: x in LanguageExamples(root, parse, codec, lang, langName, subs).value ==> Listed(x, langName)
    decreases |subs|
  {
    if subs != [] {
      LanguageExamplesListed(root, parse, codec, lang, langName, subs[..|subs| - 1]);
    }
  }

  /** Every listed example lies in a language directory named after its
      language, is not hidden or the instructions, and takes its adapter
      from `<tier name>/wasi_snapshot_preview1.wasm`. */
  lemma {:induction false} AllExamplesListed(root: Node, parse: MetadataParser, codec: Codec, entries: seq<Node>)
    requires AllExamples(root, parse, codec, entries).Ok?
    ensures forall x :: x in AllExamples(root, parse, codec, entries).value ==>
      exists k :: 0 <= k < |entries| && entries[k].Dir? && Listed(x, entries[k].name)
    decreases |entries|
  {
    if entries != [] {
      var init := entries[..|entries| - 1];
      AllExamplesListed(root, parse, codec, init);
      var n := entries[|entries| - 1];
      var xs := AllExamples(root, parse, codec, init).value;
      forall x | x in xs ensures exists k :: 0 <= k < |entries| && entries[k].Dir? && Listed(x, entries[k].name) {
        var k :| 0 <= k < |init| && init[k].Dir? && Listed(x, init[k].name);
        assert entries[k] == init[k];
      }
      if n.Dir? && LanguageFromString(n.name).Some? {
        LanguageExamplesListed(root, parse, codec, LanguageFromString(n.name).value, n.name, n.children);
      }
    }
  }

  /** The example directories among `subs`, in order. */
  function ExampleDirs(subs: seq<Node>): (r: seq<Node>)
    ensures forall n :: n in r <==> n in subs && IsExampleDir(n)
    decreases |subs|
  {
    if subs == [] then []
    else
      var init := subs[..|subs| - 1];
      var n := subs[|subs| - 1];
      assert subs == init + [n];
      ExampleDirs(init) + (if IsExampleDir(n) then [n] else [])
  }

  /** The scan of a language directory succeeds exactly when every example
      directory in it parses, and then lists one example per example
      directory, in order, named after its directory. */
  lemma {:induction false} LanguageExamplesComplete(root: Node, parse: MetadataParser, codec: Codec, lang: GuestLanguage,
                                                    langName: string, subs: seq<Node>)
    ensures var r := LanguageExamples(root, parse, codec, lang, langName, subs);
      r.Ok? <==> forall j :: 0 <= j < |ExampleDirs(subs)| ==> ExampleIn(root, parse, codec, lang, langName, ExampleDirs(subs)[j]).Ok?
    ensures var r := LanguageExamples(root, parse, codec, lang, langName, subs);
      r.Ok? ==> (
        && |r.value| == |ExampleDirs(subs)|
        && forall j :: 0 <= j < |r.value| ==>
             && ExampleIn(root, parse, codec, lang, langName, ExampleDirs(subs)[j]) == Ok(r.value[j])
             && r.value[j].name == ExampleDirs(subs)[j].name)
    decreases |subs|
  {
    if subs != [] {
      var init := subs[..|subs| - 1];
      var n := subs[|subs| - 1];
      LanguageExamplesComplete(root, parse, codec, lang, langName, init);
      var dirs := ExampleDirs(init);
      if IsExampleDir(n) {
        assert ExampleDirs(subs) == dirs + [n];
        assert forall j :: 0 <= j < |dirs| ==> ExampleDirs(subs)[j] == dirs[j];
      } else {
        assert ExampleDirs(subs) == dirs + [];
        assert ExampleDirs(subs) == dirs;
      }
    }
  }

  /** The scan succeeds exactly when every entry at the top of the catalog
      scans without error. */
  lemma {:induction false} AllExamplesOk(root: Node, parse: MetadataParser, codec: Codec, entries: seq<Node>)
    ensures AllExamples(root, parse, codec, entries).Ok? <==>
      forall k :: 0 <= k < |entries| ==> EntryExamples(root, parse, codec, entries[k]).Ok?
    decreases |entries|
  {
    if entries != [] {
      var init := entries[..|entries| - 1];
      AllExamplesOk(root, parse, codec, init);
      assert forall k :: 0 <= k < |init| ==> init[k] == entries[k];
    }
  }

  /** Nothing is missed: when the scan succeeds, every example directory of
      every language directory yields an example named after it, found at
      `<language directory>/<example directory>`. */
  lemma {:induction false} AllExamplesComplete(root: Node, parse: MetadataParser, codec: Codec, entries: seq<Node>,
                                               k: nat, n: Node)
    requires AllExamples(root, parse, codec, entries).Ok?
    requires k < |entries| && entries[k].Dir? && n in entries[k].children && IsExampleDir(n)
    ensures exists x :: (
      && x in AllExamples(root, parse, codec, entries).value
      && x.name == n.name
      && x.examplePath == [entries[k].name, n.name])
    decreases |entries|
  {
    var init := entries[..|entries| - 1];
    var last := entries[|entries| - 1];
    if k < |entries| - 1 {
      assert init[k] == entries[k];
      AllExamplesComplete(root, parse, codec, init, k, n);
    } else {
      var lang := LanguageFromString(last.name).value;
      var ys := LanguageExamples(root, parse, codec, lang, last.name, last.children).value;
      LanguageExamplesComplete(root, parse, codec, lang, last.name, last.children);
      var dirs := ExampleDirs(last.children);
      var j :| 0 <= j < |dirs| && dirs[j] == n;
      var x := ys[j];
      assert ExampleIn(root, parse, codec, lang, last.name, n) == Ok(x);
      assert x in AllExamples(root, parse, codec, entries).value;
    }
  }

  /** A directory at the top of the catalog that names no language makes
      the scan fail. */
  lemma {:induction false} UnknownLanguageFails(root: Node, parse: MetadataParser, codec: Codec, entries: seq<Node>, k: nat)
    requires k < |entries| && entries[k].Dir? && LanguageFromString(entries[k].name).None?
    ensures AllExamples(root, parse, codec, entries).Err?
    decreases |entries|
  {
    if k < |entries| - 1 {
      UnknownLanguageFails(root, parse, codec, entries[..|entries| - 1], k);
    }
  }

  /** Files at the top of the catalog are ignored. */
  lemma {:induction false} FilesIgnored(root: Node, parse: MetadataParser, codec: Codec, entries: seq<Node>, f: Node)
    requires f.File?
    ensures AllExamples(root, parse, codec, entries + [f]) == AllExamples(root, parse, codec, entries)
  {
    assert (entries + [f])[..|entries|] == entries;
    assert AllExamples(root, parse, codec, entries).Ok? ==>
      AllExamples(root, parse, codec, entries).value + [] == AllExamples(root, parse, codec, entries).value;
  }
}
