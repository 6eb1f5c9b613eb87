# golem-examples core, modelled in Dafny

The golem-examples repository holds the component templates ("examples") of
the Golem platform. It also holds the code that lists and instantiates them,
plus the build scripts of its multi-RPC examples. This project models that code
and proves properties of the model. It covers four areas:

- **The Rust catalogue** (`src/model.rs`, `src/lib.rs`, `src/main.rs`):
  - splitting a template name into parts and rendering it in kebab, snake,
    Pascal and camel case, with the word rules of the `inflector` crate's
    title and camel case;
  - guest languages and tiers, and their names and aliases;
  - package names (`namespace:name`);
  - the token substitution applied to file contents and file names;
  - scanning the example tree, including reading `metadata.json` and the
    instructions file;
  - instantiating an example into a component directory;
  - the example lookup and the listing filters of the command line.
- **The Go component generator** (`main.go`; `generator.go` is the same
  program, differing only in its usage text):
  - the argument check and the existence check;
  - the walk over the template;
  - the routing of each template file, with the rewrite or plain copy;
  - `dashToPascal`.
- **The Go magefile of the multi-RPC example:**
  - `serialRun` and the build loop;
  - the incremental `opRun` with its target/source check and skip message;
  - the stub-component set and the stub-update plan;
  - the `stubCompose` chain with its "unused stub" rule;
  - the targets of `AddStubDependency`.
- **The TypeScript build of the multi-RPC example** (`build.ts` and
  `build-tools.ts`):
  - the command listing and dispatch;
  - `runTask` with its modification-time rule;
  - `allDepsSorted`;
  - `updateRpcStubs`, `stubCompose` and `addStubDependency`;
  - `generateNewComponents` and its argument check.

How the model is put together:

- **Files as values.** A file system is a value `FsState` (a map from paths
  to bytes, and a set of directories). A path is a sequence of components.
  Every change to the disk is an `Action` of a plan. `Disk.Run` executes a
  plan and stops at the first failure, as the `?` operator, Go's
  `if err != nil { return err }` and a thrown exception do.
- **Plans as the specification.** Each imperative operation is a method on
  the class `Disk.FileSystem`, and its `ensures` says that the new state and
  the outcome are those of `Run` on the plan the operation stands for. The
  lemmas then prove the source's promises about those plans: what is written
  where, that nothing outside the component directory changes, and which
  failure ends the run.
- **External tools and inputs as parameters.**
  - Build and stub tools, `golem-cli`, `npx` and the composer are functions
    returning an outcome.
  - File times and stat results are a `Stats` function.
  - The JSON reader is a `MetadataParser`, and UTF-8 decoding is a `Codec`.
  - The current directory is a parameter.

## Model

| member | source | states |
|---|---|---|
| Text.ToLowerChar | src/model.rs:44 | ASCII upper-case letters map to their lower-case letter; every other character is kept; the result is never upper-case |
| Text.ToUpperChar | examples/go/go-multi-rpc/component-generator/main.go:104 | ASCII lower-case letters map to their upper-case letter, which lower-casing maps back; every other character is kept; the result is never lower-case |
| Text.Lower | src/model.rs:91 | lower-casing keeps the length and lower-cases each character in place |
| Text.UpperFirst | examples/ts/ts-multi-rpc/build.ts:316 | only the first character is upper-cased; the rest is kept |
| Text.LowerFirst | examples/ts/ts-multi-rpc/build.ts:319 | only the first character is lower-cased; the rest is kept |
| Text.StripPrefix | src/model.rs:45-46 | one leading character is removed exactly when the string starts with it |
| Text.Split | src/model.rs:214 | there is at least one piece, and no piece contains the separator |
| Text.JoinSplit | src/model.rs:214 | joining the pieces of a split with the separator gives the original string back |
| Text.SplitJoin | src/model.rs:214 | splitting a join of separator-free pieces gives the pieces back |
| Text.ReplaceAllAbsent | src/lib.rs:220-236 | replace-all leaves a string that does not contain the pattern unchanged |
| Text.LessIrreflexive | examples/go/go-multi-rpc/magefiles/magefile.go:337 | the string order used by `sort.Strings` and `Array.sort` is irreflexive |
| Text.LessTransitive | examples/go/go-multi-rpc/magefiles/magefile.go:337 | the string order is transitive |
| Text.LessTotal | examples/go/go-multi-rpc/magefiles/magefile.go:337 | any two different strings are ordered one way or the other |
| Text.NatToString | examples/go/go-multi-rpc/magefiles/magefile.go:366 | the decimal rendering is non-empty and made of digits only |
| Text.NatToStringRoundTrip | examples/go/go-multi-rpc/magefiles/magefile.go:366 | reading the decimal digits back gives the number, so different step numbers print differently |
| Naming.SplitSegments | src/model.rs:33-40 | the character loop that cuts a name before each `-`, `_` or capital letter yields exactly the raw segments |
| Naming.ComputeParts | src/model.rs:28-50 | the loop computes the parts of the name (its segments, lower-cased and stripped of one leading `-` and `_`), and there is at least one |
| Naming.CutsShape | src/model.rs:17 | each raw segment is a cut character followed by cut-free text, except that the first segment may start without one |
| Naming.CutsNonEmpty | src/model.rs:35-38 | every segment except possibly the last is non-empty |
| Naming.CleanHasNoCut | src/model.rs:42-48 | a cleaned part contains no `-`, `_` or upper-case letter |
| Naming.PartsAreWords | src/model.rs:28-50 | a name always has at least one part, and every part is lower-case text without separators |
| Naming.PartsOfEmpty | src/model.rs:28-50 | the empty name has the single part `""` |
| Naming.PartsOfDoubleDash | src/model.rs:42-48 | `a--b` has the parts `a`, `""` and `b`: an empty part survives between two dashes |
| Naming.CutsJoin | src/model.rs:33-40 | cutting words joined with a separator cuts at exactly the joins |
| Naming.CleanAfterSeparator | src/model.rs:45-46 | cleaning a separator followed by a word gives back the word |
| Naming.CleanWord | src/model.rs:42-48 | cleaning a word (lower-case, no separators) leaves it unchanged |
| Naming.JoinedRoundTrip | src/model.rs:52-58 | for words without `-`, `_` or capitals, the first non-empty unless it is the only one, the parts of their `-`- or `_`-joined rendering are the words again |
| Naming.KebabRoundTrip | src/model.rs:52-54 | the parts of the kebab rendering of such words are the words again |
| Naming.SnakeRoundTrip | src/model.rs:56-58 | the parts of the snake rendering of such words are the words again |
| Naming.CutsPascal | src/model.rs:60-62 | for non-empty words of lower-case letters, the Pascal rendering is cut exactly before the capital that starts each word |
| Naming.CleanCapitalized | src/model.rs:42-48 | cleaning a capitalized word gives back the lower-case word |
| Naming.PascalRoundTrip | src/model.rs:60-62 | the parts of the Pascal rendering are the words again, for non-empty words of lower-case letters |
| Naming.CamelShape | src/model.rs:64-66 | for non-empty words of lower-case letters whose first word has two letters or more (or is the only word), camel case is the first word followed by the Pascal rendering of the rest |
| Naming.CamelRoundTrip | src/model.rs:64-66 | the parts of the camel rendering are the words again, for the same words |
| Naming.PascalResplit | src/model.rs:60-62 | when every part of a name is a non-empty word of lower-case letters, the Pascal form of the name has the same parts as the name |
| Naming.PascalResplitNeedsWords | src/model.rs:42-48 | for `a--b` the Pascal rendering is `AB`, whose parts are not the original parts, so the round trip needs non-empty parts |
| Naming.PascalResplitNeedsLetters | src/model.rs:60-62 | `h2o` has the single part `h2o`, but its Pascal form is `H2 O`, whose parts differ: title case ends a word after a digit, so the round trip needs parts made of letters |
| Naming.CamelAfterOneLetterWord | src/model.rs:64-66 | the camel form of `x-app` is `xapp`, not `xApp`, and its parts differ from those of `x-app`: the capital after a one-letter first word is lower-cased, so the camel round trip needs a first word of two letters or more |
| Naming.PascalOfWords | src/model.rs:60-62 | the Pascal rendering of words of lower-case letters is each word with its first letter upper-cased, concatenated |
| Naming.RenderingsOfMyTestTemplate | src/model.rs:313-348 | `my-test-template` renders as `my_test_template`, `MyTestTemplate` and `myTestTemplate` |
| Naming.SpellingsAgree | src/model.rs:313-348 | each of `my-test-template`, `MyTestTemplate`, `myTestTemplate` and `my_test_template` has the parts `my`, `test`, `template` and renders as each of the four spellings |
| Inflector.TrimEnd | src/model.rs:60-66 | the title and camel conversions first drop the trailing characters that are neither letters nor digits: the result is a prefix of the text, ends with a letter or digit (or is empty), and only such characters were dropped |
| Inflector.TitleOfWord | src/model.rs:60-62 | a non-empty word of lower-case letters is title-cased by upper-casing its first letter |
| Inflector.TitleBreaksAfterDigit | src/model.rs:60-62 | `h2o` is title-cased as `H2 O`: a digit ends the word |
| Inflector.TitleOfMyOrg | src/model.rs:221-223 | `my-org` is title-cased as `My Org`: the dash becomes one space and each word is capitalised |
| Inflector.CamelOfCapitalised | src/model.rs:64-66 | camel case of capitalised words of lower-case letters, the first of two letters or more or the only one, lower-cases the first word and keeps the others capitalised |
| Inflector.CamelAfterOneLetter | src/model.rs:64-66 | `XApp` becomes `xapp` in camel case: an upper-case letter that follows a lower-cased capital does not start a word |
| DashCase.Capitalized | examples/go/go-multi-rpc/component-generator/main.go:102-106 | each dash-separated piece gets its first character upper-cased and keeps the rest |
| DashCase.ConcatSplit | examples/go/go-multi-rpc/component-generator/main.go:101-107 | concatenating the dash-split pieces gives the input with its dashes removed |
| DashCase.PascalDropsDashes | examples/go/go-multi-rpc/component-generator/main.go:100-108 | the lower-cased `dashToPascal` result equals the lower-cased input without dashes |
| DashCase.PascalWithoutDash | examples/go/go-multi-rpc/component-generator/main.go:100-108 | a name without dashes only has its first character upper-cased |
| DashCase.PascalOfDoubleDash | examples/go/go-multi-rpc/component-generator/main.go:101-107 | `a--b` becomes `AB`: the empty piece between two dashes contributes nothing |
| DashCase.CamelOfPascal | examples/ts/ts-multi-rpc/build.ts:313-319 | the TypeScript camel name has the length of the Pascal name and differs from it at most in the case of its first character; a name without dashes that starts lower-case is its own camel name |
| Languages.ParseLanguage | src/model.rs:146-154 | parsing succeeds exactly when `from_string` knows the name; otherwise the error names the input and lists every language |
| Languages.ParseTier | src/model.rs:204-206 | parsing a tier succeeds exactly for the known tier names; otherwise the error names the input |
| Languages.Level | src/model.rs:176-183 | tier levels are 1 to 4, in declaration order |
| Languages.LanguageFromStringIgnoresCase | src/model.rs:90-104 | language and tier lookups give the same answer for the input and its lower-cased form |
| Languages.LanguageFromStringAliases | src/model.rs:90-104 | a name maps to a language exactly when its lower-case form is one of that language's aliases |
| Languages.LowerLanguageName | src/model.rs:121-134 | the display names, lower-cased, are `rust`, `go`, `c`, `zig`, `javascript`, `c#`, `swift`, `grain`, `python` and `scala 2` |
| Languages.LanguageNameRoundTrip | src/model.rs:90-134 | reading back a language's display name gives the language, except that `Scala 2` is not an alias of Scala2 |
| Languages.TierNameRoundTrip | src/model.rs:166-192 | reading back a tier's name, or its level as a digit, gives the tier |
| Languages.AllLanguagesComplete | src/model.rs:76-87 | the list of all languages holds every language exactly once |
| Languages.TierOrderByLevel | src/model.rs:158-183 | the derived order of tiers agrees with their levels, and different tiers have different levels |
| Packages.Parse | src/model.rs:251-255 | parsing succeeds exactly when `from_string` does, and the error quotes the input |
| Packages.FromStringExactly | src/model.rs:213-219 | a package name is read from the text exactly when both halves are free of `:` and the text is `namespace:name` |
| Packages.DisplayRoundTrip | src/model.rs:242-246 | displaying a colon-free package name and reading it back gives the same package name |
| Packages.ParsePrintsBack | src/model.rs:213-219 | a parsed package name displays as the text it was read from |
| Packages.SplitCountsColons | src/model.rs:214 | splitting at `:` yields one more piece than the text has colons |
| Packages.FromStringIffOneColon | src/model.rs:213-219 | reading succeeds exactly when the text contains exactly one colon |
| Packages.FooBar | src/model.rs:350-355 | `foo:bar` is read as namespace `foo`, name `bar`, rendered `FooBar` in Pascal case (each half title-cased) |
| Packages.PascalOfDashedNamespace | src/model.rs:221-223 | `my-org:app` renders as `My OrgApp` in Pascal case, and its namespace title-cases to `My Org`: title case turns the dash into a space |
| Packages.NotPackageNames | src/model.rs:215-217 | text with no colon, or with two colons, is rejected |
| Packages.RenderingsShareHalves | src/model.rs:225-239 | the snake, double-colon, colon and slash renderings all join the same two halves |
| Selection.ListExamplesMembers | src/main.rs:40-51 | an example is listed exactly when it is in the catalogue and passes both the language filter and the tier filter |
| Selection.ListExamplesCounts | src/main.rs:40-51 | every listed example occurs as often as in the catalogue and nothing else is added |
| Selection.ListExamplesAppend | src/main.rs:40-51 | filtering keeps the catalogue order |
| Selection.ListEverything | src/main.rs:43-50 | without filters every example is listed |
| Selection.TierBoundInclusive | src/main.rs:47-49 | the tier filter keeps the examples of that tier and of every better tier |
| Selection.FindByName | src/main.rs:17 | the lookup returns the first example with exactly the requested name, and none when no example has it |
| Selection.New | src/main.rs:15-38 | a failed scan is reported and changes nothing; an unknown name reports the unknown-example message and changes nothing; otherwise the first example of that name is instantiated with the given or default package in the current directory, and the instructions are printed or the failure reported |
| Substitution.Rules | src/lib.rs:220-236 | there is one rule per token, in the fixed order of `transform`, and no token is empty |
| Substitution.DashedPackageRules | src/lib.rs:233-235 | for the package `my-org:app`, the `PackName` rule writes `My OrgApp` and the `PackNs` rule writes `My Org` |
| Substitution.ApplyRulesAbsent | src/lib.rs:220-236 | text containing none of the tokens is left unchanged |
| Substitution.ApplyRulesAppend | src/lib.rs:220-236 | applying a rule list in two halves equals applying it at once: the replacements run one after another |
| Substitution.NoLetterPUnchanged | src/lib.rs:220-236 | every token contains a `p`, so text without any `p` or `P` is left unchanged |
| Substitution.TokensHaveC | src/lib.rs:222-235 | every token contains a `c` or `C` |
| Substitution.TransformWithoutTokens | src/lib.rs:220-236 | `transform` leaves text without tokens as it was |
| Substitution.FileNameWithoutTokens | src/lib.rs:238-240 | a file name without tokens is kept as it is, except `Cargo.toml._` |
| Substitution.CargoManifestRenamed | src/lib.rs:238-240 | `Cargo.toml._` is renamed to `Cargo.toml` |
| Substitution.ComponentNameToken | src/lib.rs:222 | the token `component-name` becomes the kebab-case component name, when that name holds none of the later tokens |
| Substitution.LeadingKebabToken | src/lib.rs:222 | a leading `component-name` becomes the kebab name, and a rest without any `c` or `C` is kept |
| Substitution.TrailingThirdToken | src/lib.rs:224 | a trailing `component_name`, after text without `c`, `C` or `-`, becomes the snake-case rendering |
| Substitution.OnlyRuleApplies | src/lib.rs:220-236 | when the text holds only one rule's token, the result is that rule's replacement applied alone |
| Substitution.MyAppRenderings | src/model.rs:52-58 | `my-app` renders as `my-app` in kebab case and `my_app` in snake case |
| Substitution.MyAppFileName | src/lib.rs:238-240 | for the component `my-app`, the file `component-name.txt` becomes `my-app.txt` |
| Catalog.Child | src/lib.rs:128-140 | the entry found under a name is one of the directory's entries and has that name; nothing is found only when no entry has it |
| Catalog.GetDir | src/lib.rs:118-131 | a directory lookup yields the node the path leads to when that is a directory, and nothing when the path leads nowhere or to a file |
| Catalog.GetFile | src/lib.rs:163-173 | a file lookup yields the node the path leads to when that is a file, and nothing when the path leads nowhere or to a directory |
| Catalog.LookupAppend | src/lib.rs:138-140 | looking up a path extended by more components equals looking up the rest inside the node the first part reaches |
| Catalog.ChildUnique | src/lib.rs:138-140 | when names are unique within a directory, the entry found by name is the entry at that position |
| Catalog.LookupUnique | src/lib.rs:138-140 | when names are unique in every directory, they stay unique in every directory reached by a lookup |
| Catalog.Visit | examples/go/go-multi-rpc/component-generator/main.go:35-65 | the walk visits its root first, and every visited path extends the root's path |
| Disk.Step | src/lib.rs:190-202 | a failed step changes nothing, a passing step only adds; creating directories fails only at a denied path; `mkdir` also needs the parent and fails on an existing path; a write needs the parent; a panic aborts |
| Disk.Ancestors | src/lib.rs:127 | the directories `create_dir_all` creates are non-empty prefixes of the path, including the path itself |
| Disk.RunAppend | src/lib.rs:204-218 | running two plans together equals running the first and then, if it passed, the second |
| Disk.RunInside | src/lib.rs:62-111 | a plan that only writes inside a directory leaves every file outside it unchanged |
| Disk.RunFailureIsAnAction | src/lib.rs:204-218 | a failed run ends with the failure of one action of the plan, applied to the state its predecessors left |
| Disk.RunLastWrite | src/lib.rs:190-202 | after a successful run a file holds the bytes of the last write to it |
| Disk.RunMadeDir | src/lib.rs:127 | after a successful run, every directory the plan creates exists |
| Disk.FlattenWrites | src/lib.rs:190-202 | after a successful run of a sequence of plans, when one plan is a single write of a file and no later plan writes that file, the file holds the written bytes |
| Disk.FlattenMakesDir | src/lib.rs:127 | after a successful run of a sequence of plans, a directory that one plan starts by creating exists |
| Disk.FileSystem.CreateDirAll | src/lib.rs:127 | `create_dir_all` changes the disk exactly as its step does |
| Disk.FileSystem.CreateDir | examples/ts/ts-multi-rpc/build.ts:303 | `mkdirSync` creates one directory, exactly as its step does |
| Disk.FileSystem.WriteFile | src/lib.rs:199-200 | creating and writing a file changes the disk exactly as its step does |
| Examples.CollectWitDeps | src/lib.rs:267-283 | the loop collects the host WIT packages and then the WASI packages, as the metadata flags ask |
| Examples.WitDepsShape | src/lib.rs:267-283 | there are 2 host and 10 WASI packages, each one directory name, all distinct |
| Examples.ParseExample | src/lib.rs:242-306 | a parsed example takes its name from the last path component, its description, WIT dependencies, excludes and targets from the metadata, and its instructions from the decoded instructions file; an adapter is present unless the metadata says no; a metadata error is passed on |
| Examples.ListAllExamples | src/lib.rs:27-60 | the scan over the top-level entries computes the full example list, or the first error |
| Examples.ScanEntry | src/lib.rs:29-56 | a language directory is scanned, a file is skipped, and an unknown language is an error |
| Examples.ScanLanguage | src/lib.rs:36-53 | the loop over a language directory's entries parses each example directory in order and stops at the first error |
| Examples.LanguageExamplesListed | src/lib.rs:36-53 | every example found under a language directory has that language and a path made of the directory and its own name; it is neither `INSTRUCTIONS` nor hidden; its adapter lies under the language's tier |
| Examples.AllExamplesListed | src/lib.rs:27-60 | every listed example comes from one of the top-level language directories |
| Examples.ExampleDirs | src/lib.rs:36-42 | the example directories of a language are exactly its entries that are directories, not `INSTRUCTIONS` and not hidden |
| Examples.LanguageExamplesComplete | src/lib.rs:36-53 | the scan of a language directory succeeds exactly when every example directory parses; it then yields one example per example directory, in order, each the parse of that directory and named after it |
| Examples.AllExamplesOk | src/lib.rs:27-60 | the whole scan succeeds exactly when every top-level entry scans without error |
| Examples.AllExamplesComplete | src/lib.rs:27-60 | after a successful scan, every example directory of every language directory is listed, with its name and the path made of the language directory and its own name |
| Examples.UnknownLanguageFails | src/lib.rs:54-56 | a directory whose name is not a language makes the whole scan fail |
| Examples.FilesIgnored | src/lib.rs:30-32 | a top-level file does not change the result |
| Instantiation.ComponentDir | src/lib.rs:66-68 | the component directory is non-empty and lies inside the target directory |
| Instantiation.FileName | src/lib.rs:83 | a path has a file name exactly when it is not empty |
| Instantiation.InstantiateDirectory | src/lib.rs:118-161 | the recursive copy changes the disk exactly as the directory's plan: create the target, then each entry in order |
| Instantiation.InstantiateEntries | src/lib.rs:128-159 | the entry loop runs the entries' plans in order and stops at the first failure |
| Instantiation.InstantiateEntry | src/lib.rs:133-157 | an excluded entry is skipped; a directory recurses without metadata filtering; a file is instantiated |
| Instantiation.InstantiateFile | src/lib.rs:163-188 | a file is written with its transformed contents when rewriting is on and the bytes decode, otherwise with its bytes |
| Instantiation.Copy | src/lib.rs:190-202 | copy creates the parent directories and then writes the file |
| Instantiation.CopyAll | src/lib.rs:204-218 | every file of the source directory is copied in order, and the first failure stops the copy |
| Instantiation.CopyAdapter | src/lib.rs:74-85 | the adapter, if any, is copied to its file name inside the target's adapter directory |
| Instantiation.CopyWit | src/lib.rs:104-109 | one WIT package directory is copied into one target directory, as its plan says |
| Instantiation.CopyWitDep | src/lib.rs:105-108 | one WIT package is copied into each of its targets in order |
| Instantiation.CopyWitDeps | src/lib.rs:104-109 | the WIT packages are copied in order |
| Instantiation.CopyExtras | src/lib.rs:74-109 | after the directory, the adapter is copied and then the WIT packages, stopping at the first failure |
| Instantiation.Instantiate | src/lib.rs:62-111 | instantiation copies the directory, the adapter and the WIT packages in that order, and returns the transformed instructions |
| Instantiation.ChildFound | src/lib.rs:138-140 | with unique names, the path to an entry finds that entry |
| Instantiation.DirectoryFails | src/lib.rs:118-161 | the copy fails only at a denied path inside the target, or by the missing-directory panic |
| Instantiation.FileFails | src/lib.rs:163-188 | writing a file fails only at a denied path inside the target, or by a panic when the source file is missing |
| Instantiation.DirectorySucceeds | src/lib.rs:118-161 | with nothing denied inside the target and the source present, the copy succeeds |
| Instantiation.DirectoryInside | src/lib.rs:118-161 | the copy writes and creates nothing outside the target directory |
| Instantiation.DirectoryEntryPlaced | src/lib.rs:127-157 | after a successful copy, each kept file entry is at `target/<transformed name>` holding its (possibly rewritten) contents, and each kept directory entry exists at `target/<transformed name>`, when no later kept entry of that directory gets the same transformed name |
| Instantiation.SkippedIffNothing | src/lib.rs:134 | an entry yields no action exactly when it is excluded, or is `metadata.json` under metadata filtering |
| Instantiation.FileContentsUnchanged | src/lib.rs:176-185 | bytes whose decoded text holds no token, or that do not decode, are written as they are |
| Instantiation.FileContentsRewritten | src/lib.rs:176-185 | with rewriting on, decodable text is written as its transform, and undecodable bytes as they are |
| Instantiation.WitTargetsInside | src/lib.rs:86-103 | every WIT target lies inside the component directory, and without configured targets the one target is `wit/deps` |
| Instantiation.InstantiateInside | src/lib.rs:62-111 | the whole instantiation plan writes only inside the component directory |
| Instantiation.InstantiateTouchesOnlyComponent | src/lib.rs:62-111 | instantiation leaves every file outside the component directory exactly as it was |
| GoGenerator.DashToPascal | examples/go/go-multi-rpc/component-generator/main.go:100-108 | the loop computes the Pascal form of the dash-separated name |
| GoGenerator.RewriteContents | examples/go/go-multi-rpc/component-generator/main.go:79-84 | the contents get `comp-name`, `pck-ns`, `CompName` and `PckNs` replaced in that order |
| GoGenerator.RewriteWithoutP | examples/go/go-multi-rpc/component-generator/main.go:81-84 | every token contains a `p` or `P`, so text without them is written unchanged |
| GoGenerator.BytesRoundTrip | examples/go/go-multi-rpc/component-generator/main.go:79-92 | converting bytes to a Go string and back gives the same bytes |
| GoGenerator.RouteOf | examples/go/go-multi-rpc/component-generator/main.go:45-56 | every file is sent below `components/<name>`, below the component directory itself |
| GoGenerator.Routing | examples/go/go-multi-rpc/component-generator/main.go:49-56 | only `main.go` and `wit/component.wit` are rewritten; the WIT file is renamed after the component; other files keep their relative path |
| GoGenerator.GenerateFile | examples/go/go-multi-rpc/component-generator/main.go:68-98 | generating a file creates its parent directory and writes the rewritten contents |
| GoGenerator.CopyFile | examples/go/go-multi-rpc/component-generator/main.go:110-137 | copying creates the parent directory and writes the bytes as they are |
| GoGenerator.GenerateEntry | examples/go/go-multi-rpc/component-generator/main.go:38-61 | one walk step runs exactly the actions of its routing |
| GoGenerator.Generate | examples/go/go-multi-rpc/component-generator/main.go:12-66 | with the wrong number of arguments it prints usage and exits; an existing component directory is refused with its joined path; a failing `os.Stat` ends the run with its error; otherwise the directory is created and the template walked |
| GoGenerator.WalkTemplate | examples/go/go-multi-rpc/component-generator/main.go:35-65 | the walk runs the steps in order and reports the first failing file's path |
| GoGenerator.WalkStops | examples/go/go-multi-rpc/component-generator/main.go:57-59 | after the first failure no further file is visited |
| GoGenerator.WalkIsRun | examples/go/go-multi-rpc/component-generator/main.go:35-65 | the walk equals running all of its actions as one plan, and a reported failure names a visited file |
| GoGenerator.GenerateInside | examples/go/go-multi-rpc/component-generator/main.go:12-66 | the generator changes no file outside `components/<name>` and creates directories only on the way to it or inside it |
| GoGenerator.RefusalWritesNothing | examples/go/go-multi-rpc/component-generator/main.go:13-28 | a usage error exits with 0, and an existing directory or a failing `os.Stat` exits with 1, with the disk untouched |
| GoGenerator.EmptyNameRefused | examples/go/go-multi-rpc/component-generator/main.go:20-25 | `filepath.Join` drops an empty name, so once `components` exists the generator exits with "Target component directory already exists: components" |
| TsBuild.ComponentNameFromArgs | examples/ts/ts-multi-rpc/build.ts:372-383 | the name is accepted exactly when there is one argument; otherwise the error lists the arguments |
| TsBuild.RewriteTemplate | examples/ts/ts-multi-rpc/build.ts:321-325 | the template gets `pck-ns`, `comp-name`, `componentName` and `CompName` replaced in that order |
| TsBuild.TemplateWithoutP | examples/ts/ts-multi-rpc/build.ts:322-325 | every token contains a `p`, so text without `p` is written unchanged |
| TsBuild.CompNameBecomesPascal | examples/ts/ts-multi-rpc/build.ts:325 | `CompName` becomes the Pascal form of the component name: no earlier replacement touches it |
| TsBuild.PckNsBecomesNamespace | examples/ts/ts-multi-rpc/build.ts:322 | `pck-ns` becomes the package namespace, and no later replacement touches it |
| TsBuild.TargetName | examples/ts/ts-multi-rpc/build.ts:308-310 | a name without the `.template` suffix is kept |
| TsBuild.TemplateSuffixDropped | examples/ts/ts-multi-rpc/build.ts:308-310 | a `.template` file is written under its name without the suffix |
| TsBuild.DotlessStem | examples/ts/ts-multi-rpc/build.ts:310 | a stem without a dot cannot contain the suffix, so only the final suffix is removed |
| TsBuild.EntryTarget | examples/ts/ts-multi-rpc/build.ts:299-301 | each entry's target lies inside the new component directory, one level below its parent |
| TsBuild.GeneratePlan | examples/ts/ts-multi-rpc/build.ts:291-336 | the plan creates the component directory, then handles each template entry in order |
| TsBuild.GenerateNewComponents | examples/ts/ts-multi-rpc/build.ts:282-337 | the generator changes the disk and reports exactly as its plan does, with the argument and existence checks first |
| TsBuild.WriteEntries | examples/ts/ts-multi-rpc/build.ts:298-336 | the entry loop runs the rest of the plan |
| TsBuild.WriteEntry | examples/ts/ts-multi-rpc/build.ts:299-335 | one entry creates a directory, writes a rewritten template, or copies a file |
| TsBuild.GenerateRefusals | examples/ts/ts-multi-rpc/build.ts:283-288 | a wrong argument count or an existing directory throws and leaves the disk untouched; the existing-directory message names the directory as `path.join` builds it |
| TsBuild.EmptyNameRefused | examples/ts/ts-multi-rpc/build.ts:283-288 | `path.join` drops an empty name, so once `src/components` exists the script throws "src/components already exists!" |
| TsBuild.GenerateInside | examples/ts/ts-multi-rpc/build.ts:282-337 | the generator changes no file outside the new component directory |
| TsBuild.GeneratedFile | examples/ts/ts-multi-rpc/build.ts:308-335 | after success each template file exists under its target name, holding the rewritten text for a `.template` file and the original bytes otherwise |
| TsBuild.GeneratedDirectory | examples/ts/ts-multi-rpc/build.ts:300-305 | after success each template directory exists in the new component |
| TsBuild.StubWasms | examples/ts/ts-multi-rpc/build.ts:157-163 | each dependency contributes its stub wasm, in order |
| TsBuild.ComposeDests | examples/ts/ts-multi-rpc/build.ts:174-178 | step i writes `compose-<i>-<dep>.wasm` in the build directory |
| TsBuild.Classify | examples/ts/ts-multi-rpc/build.ts:189-204 | exit code 0 composes; an error naming an unused stub skips the stub; any other failure stops the chain with the command and its code |
| TsBuild.ComposeStubs | examples/ts/ts-multi-rpc/build.ts:171-207 | the loop computes the composition chain |
| TsBuild.DepsOf | examples/ts/ts-multi-rpc/build.ts:158 | a component's dependencies come from the first entry that names it, and are empty when no entry does |
| TsBuild.StubCompose | examples/ts/ts-multi-rpc/build.ts:151-213 | an up-to-date target is skipped with the skip line; otherwise the chain runs and its last output is copied, or its failure is thrown |
| TsBuild.NoStubsCopiesComponent | examples/ts/ts-multi-rpc/build.ts:171-210 | a component without dependencies is copied as it is |
| TsBuild.NewerStubRecomposes | examples/ts/ts-multi-rpc/build.ts:165-170 | a stub newer than the target forces a new composition |
| TsBuild.AddOpsMembers | examples/ts/ts-multi-rpc/build.ts:221-225 | the add steps are exactly the (component, dependency) pairs of the dependency list |
| TsBuild.UpdateBuildsFirst | examples/ts/ts-multi-rpc/build.ts:215-226 | every stub is built before any dependency on it is added |
| TsBuild.UpdateRpcStubs | examples/ts/ts-multi-rpc/build.ts:215-226 | the update runs the build steps and then the add steps, and stops at the first failure |
| TsBuild.BuildStubs | examples/ts/ts-multi-rpc/build.ts:216-219 | the first loop builds each stub in sorted order |
| TsBuild.AddDependencies | examples/ts/ts-multi-rpc/build.ts:221-225 | the second loop adds each component's dependencies in order |
| TsBuild.AddComponentDeps | examples/ts/ts-multi-rpc/build.ts:222-224 | the inner loop adds one component's dependencies |
| TsBuild.UpdateRunBuildsFirst | examples/ts/ts-multi-rpc/build.ts:215-226 | even when the update stops early, no dependency was added before its stub was built |
| TsBuild.AddStubTargetsMisplaced | examples/ts/ts-multi-rpc/build.ts:258-261 | the targets as written lie below a doubled component path, outside the WIT directory |
| TsBuild.AddStubAlwaysRuns | examples/ts/ts-multi-rpc/build.ts:255-267 | a misplaced target never exists, so the step always runs |
| TsBuild.AddStubTargetsPlaced | examples/ts/ts-multi-rpc/build.ts:255-280 | the corrected targets lie in the component's `wit/deps` and differ between dependencies |
| TsBuild.AddStubSkipsWhenCurrent | examples/ts/ts-multi-rpc/build.ts:255-280 | with the corrected targets, a dependency already added and newer than its source is skipped |
| Compose.ChainIsLastComposed | examples/ts/ts-multi-rpc/build.ts:171-210 | the chain hands on the output of the last step that composed, or the component when none did |
| Compose.ChainFailsAtAStep | examples/ts/ts-multi-rpc/build.ts:189-204 | a failed chain failed at a step with that step's message, all earlier steps having passed |
| Compose.ChainStaysFailed | examples/ts/ts-multi-rpc/build.ts:203 | once a step fails, later steps do not run |
| Compose.ChainAllUnused | examples/ts/ts-multi-rpc/build.ts:190-194 | when every stub is unused, the component itself is handed on |
| Compose.ComposeNamesDiffer | examples/ts/ts-multi-rpc/build.ts:178 | different steps write different files, whatever the stubs are called |
| Deps.SortedElements | examples/ts/ts-multi-rpc/src/build-tools/build-tools.ts:149 | the result is strictly sorted and holds exactly the members of the set |
| Deps.SortedUnique | examples/ts/ts-multi-rpc/src/build-tools/build-tools.ts:142-150 | only one strictly sorted list holds a given set |
| Deps.SortStrings | examples/ts/ts-multi-rpc/src/build-tools/build-tools.ts:149 | sorting a duplicate-free list gives a strictly sorted list with the same elements |
| Deps.Insert | examples/ts/ts-multi-rpc/src/build-tools/build-tools.ts:149 | inserting a new element into a strictly sorted list keeps it strictly sorted and adds exactly that element |
| Deps.DependencyUnionMembers | examples/ts/ts-multi-rpc/src/build-tools/build-tools.ts:143-148 | the union holds exactly the dependencies named anywhere in the list |
| Deps.MapUnion | examples/go/go-multi-rpc/magefiles/magefile.go:326-331 | the union holds exactly the dependencies named in the map |
| Deps.RunOps | examples/ts/ts-multi-rpc/build.ts:215-226 | running steps runs them in order and stops at the first failure, reporting its error |
| Deps.RunOpsFailsAt | examples/ts/ts-multi-rpc/build.ts:215-226 | when step i is the first to fail, the run performed the steps up to i and reports that step's error |
| Deps.RunOpsAllPass | examples/ts/ts-multi-rpc/build.ts:215-226 | a run without error ran every step |
| Magefile.SerialRun | examples/go/go-multi-rpc/magefiles/magefile.go:362-370 | the steps run in order until one fails; the error names the 1-based step number and its error |
| Magefile.BuildAllComponents | examples/go/go-multi-rpc/magefiles/magefile.go:22-31 | the components are built in order until one fails; the error names the component |
| Magefile.CheckTargetsMeaning | examples/go/go-multi-rpc/magefiles/magefile.go:381-396 | the check says run exactly when some target is stale, says skip exactly when every target is current, and otherwise reports the first error |
| Magefile.CheckOp | examples/go/go-multi-rpc/magefiles/magefile.go:381-396 | the loop computes the decision: no targets means run |
| Magefile.SkipTargets | examples/go/go-multi-rpc/magefiles/magefile.go:398-405 | one target is shown alone; several are shown in parentheses, separated by commas |
| Magefile.OpRun | examples/go/go-multi-rpc/magefiles/magefile.go:380-411 | a check error is returned, a skip prints the skip line, and a run prints the run message and runs |
| Magefile.NoTargetsRuns | examples/go/go-multi-rpc/magefiles/magefile.go:382-383 | a step without targets always runs |
| Magefile.SkippedWhenAllCurrent | examples/go/go-multi-rpc/magefiles/magefile.go:384-396 | a step is skipped exactly when it has targets and all of them are current |
| Magefile.StubComponentNames | examples/go/go-multi-rpc/magefiles/magefile.go:325-339 | the stub components are the sorted, duplicate-free union of all dependencies |
| Magefile.DepsIn | examples/go/go-multi-rpc/magefiles/magefile.go:43 | a component missing from the map has no dependencies |
| Magefile.AddStepsMembers | examples/go/go-multi-rpc/magefiles/magefile.go:42-49 | the add steps are exactly the (component, dependency) pairs of listed components |
| Magefile.UpdateBuildsFirst | examples/go/go-multi-rpc/magefiles/magefile.go:34-52 | every stub is built before any dependency on it is added |
| Magefile.UpdateRunBuildsFirst | examples/go/go-multi-rpc/magefiles/magefile.go:34-52 | even when the update stops early, no dependency was added before its stub was built |
| Magefile.UpdateRpcStubs | examples/go/go-multi-rpc/magefiles/magefile.go:34-52 | the update builds the stubs and then adds the dependencies, and stops at the first failure with its message |
| Magefile.BuildStubs | examples/go/go-multi-rpc/magefiles/magefile.go:35-40 | the first loop builds each stub in sorted order |
| Magefile.AddDependencies | examples/go/go-multi-rpc/magefiles/magefile.go:42-49 | the second loop adds each component's dependencies |
| Magefile.AddComponentDeps | examples/go/go-multi-rpc/magefiles/magefile.go:43-48 | the inner loop adds one component's dependencies |
| Magefile.BaseOfName | examples/go/go-multi-rpc/magefiles/magefile.go:127 | `filepath.Base` of a plain name is the name itself, and never contains `/` |
| Magefile.DirOf | examples/go/go-multi-rpc/magefiles/magefile.go:105 | the directory of a path is the path without its last component |
| Magefile.StubWasms | examples/go/go-multi-rpc/magefiles/magefile.go:108-112 | each dependency contributes its stub wasm, in order |
| Magefile.ComposeDests | examples/go/go-multi-rpc/magefiles/magefile.go:123-128 | step i writes `compose-<i>-<base of dep>.wasm` next to the component wasm |
| Magefile.ComposeDestsDistinct | examples/go/go-multi-rpc/magefiles/magefile.go:125-128 | the steps write different files |
| Magefile.ExecStep | examples/go/go-multi-rpc/magefiles/magefile.go:140-153 | a command without error composes; an error whose output names an unused stub skips the stub; any other error stops the chain |
| Magefile.ComposeStubs | examples/go/go-multi-rpc/magefiles/magefile.go:120-156 | the loop computes the composition chain |
| Magefile.StubCompose | examples/go/go-multi-rpc/magefiles/magefile.go:104-161 | a check error is returned; an up-to-date target is skipped; otherwise the chain runs and its output is copied or its error returned |
| Magefile.CopiesLastComposed | examples/go/go-multi-rpc/magefiles/magefile.go:120-158 | the copied file is the component wasm or one of the step outputs |
| Magefile.AllUnusedCopiesComponent | examples/go/go-multi-rpc/magefiles/magefile.go:142-147 | when every stub is unused, the component wasm itself is copied |
| Magefile.AddStubTargetsMisplaced | examples/go/go-multi-rpc/magefiles/magefile.go:84-85 | the targets as written lie below a doubled component path, outside the WIT directory |
| Magefile.AddStubTargetsShared | examples/go/go-multi-rpc/magefiles/magefile.go:84-90 | the targets as written are the same for every dependency of a component, though the sources differ |
| Magefile.AddStubTargetsPlaced | examples/go/go-multi-rpc/magefiles/magefile.go:79-101 | the corrected targets lie in the component's `wit/deps` and differ between dependencies |
| BuildTools.AllDepsSorted | examples/ts/ts-multi-rpc/src/build-tools/build-tools.ts:142-150 | the result is the sorted, duplicate-free union of all dependencies |
| BuildTools.AllDepsListing | examples/ts/ts-multi-rpc/src/build-tools/build-tools.ts:142-150 | a name is listed exactly when some component depends on it, and the list is strictly sorted |
| BuildTools.EarliestBounds | examples/ts/ts-multi-rpc/src/build-tools/build-tools.ts:87-100 | the earliest time is at most every file time and is one of them, or `MAX_SAFE_INTEGER` for an empty directory |
| BuildTools.DirectoryTime | examples/ts/ts-multi-rpc/src/build-tools/build-tools.ts:87-100 | the loop computes the earliest file time |
| BuildTools.CheckSources | examples/ts/ts-multi-rpc/src/build-tools/build-tools.ts:105-128 | the source loop stops at the first newer source or the first stat error |
| BuildTools.CheckTarget | examples/ts/ts-multi-rpc/src/build-tools/build-tools.ts:76-128 | a missing target is stale; otherwise its time is compared against the sources |
| BuildTools.RunTask | examples/ts/ts-multi-rpc/src/build-tools/build-tools.ts:72-138 | the task runs with its run message, or is skipped with the skip line, as the decision says |
| BuildTools.SourcesNewerMeaning | examples/ts/ts-multi-rpc/src/build-tools/build-tools.ts:105-128 | for readable sources, the check finds a newer source exactly when one exists |
| BuildTools.TargetsStaleMeaning | examples/ts/ts-multi-rpc/src/build-tools/build-tools.ts:76-129 | for readable paths, the target check finds a stale target exactly when one exists |
| BuildTools.DecideMeaning | examples/ts/ts-multi-rpc/src/build-tools/build-tools.ts:72-134 | a task runs exactly when it has no targets or some target is stale, and is skipped otherwise |
| BuildTools.FirstTargetMissing | examples/ts/ts-multi-rpc/src/build-tools/build-tools.ts:77-83 | a missing first target makes the task run |
| BuildTools.FindMeaning | examples/ts/ts-multi-rpc/src/build-tools/build-tools.ts:47-50 | a command is found exactly when one has the name, and the first such is taken |
| BuildTools.LookupMeaning | examples/ts/ts-multi-rpc/src/build-tools/build-tools.ts:47-50 | `commands[cmd]` finds a listed command, or else an inherited `Object.prototype` member, which has neither callback; any other name is not found |
| BuildTools.InheritedNameIllegal | examples/ts/ts-multi-rpc/src/build-tools/build-tools.ts:47-60 | `build toString` is not "Command not found": it throws the illegal-state error with the description `undefined` |
| BuildTools.PadEnd | examples/ts/ts-multi-rpc/src/build-tools/build-tools.ts:41 | padding reaches the width, or keeps the length when it is already wider, and keeps the text as a prefix |
| BuildTools.LongestName | examples/ts/ts-multi-rpc/src/build-tools/build-tools.ts:38 | the width covers every command name |
| BuildTools.Listing | examples/ts/ts-multi-rpc/src/build-tools/build-tools.ts:37-44 | the listing has a header and one line per command |
| BuildTools.ListingAligned | examples/ts/ts-multi-rpc/src/build-tools/build-tools.ts:38-42 | every command line has its description starting in the same column |
| BuildTools.RunCommands | examples/ts/ts-multi-rpc/src/build-tools/build-tools.ts:34-62 | no arguments print the listing; otherwise the named commands run in order, an unknown name throws, a command that throws ends the loop with its error, and a command taking arguments ends the loop receiving the arguments after its own name (the corrected slicing of the first finding below) |
| BuildTools.DispatchRunsNamed | examples/ts/ts-multi-rpc/src/build-tools/build-tools.ts:46-61 | every command run is a known command named in the arguments, in order |
| BuildTools.ArgsAfterCommand | examples/ts/ts-multi-rpc/src/build-tools/build-tools.ts:53-55 | with the corrected slicing, a command taking arguments receives those after its own name |
| BuildTools.SpliceAgreesFirst | examples/ts/ts-multi-rpc/src/build-tools/build-tools.ts:53-55 | when the first argument is the command that takes the arguments, both slicings agree |
| BuildTools.DispatchStopsAtThrow | examples/ts/ts-multi-rpc/src/build-tools/build-tools.ts:46-61 | every command before the last one run returned normally; when the last one threw, `main` ends with its error; a finished run had no command throw |
| BuildTools.FailedBuildStopsDeploy | examples/ts/ts-multi-rpc/src/build-tools/build-tools.ts:46-61 | with `build deploy`, a failing `build` ends `main` with its error and `deploy` is never run |
| BuildTools.SpliceCounterexample | examples/ts/ts-multi-rpc/src/build-tools/build-tools.ts:53-54 | `build generateNewComponent x` passes `generateNewComponent x`, not `x`, to the generator |

## Left out

- Inflector.TitleCase / Inflector.CamelCase: the word rules of the `inflector` crate's `to_title_case` and `to_camel_case` are modelled (the crate is not part of this model), but letters, digits and case are those of ASCII. Unicode letters, digits and case mappings are not modelled, and neither is Rust's Unicode `to_lowercase`.
- CutsPascal, PascalRoundTrip and PascalResplit hold only for parts that are non-empty words of lower-case letters. A digit ends a title-case word, so `h2o`, a single part, becomes `H2 O`, which has two parts (Naming.PascalResplitNeedsLetters); an empty part vanishes, so `a--b` becomes `AB` (Naming.PascalResplitNeedsWords).
- CamelShape and CamelRoundTrip hold only for such words whose first word has two letters or more, or is the only word. After a one-letter first word the next capital is lower-cased, so `x-app` becomes `xapp`, not `xApp` (Naming.CamelAfterOneLetterWord).
- UTF-8 decoding and encoding are an abstract `Codec` parameter. JSON parsing of `metadata.json` is the `MetadataParser` parameter.
- Paths are sequences of components. Separators, `..` and absolute paths are not modelled.
- File times, `stat` results and the Go `target.Dir` check are parameters (`Stats`, `DirCheck`). The order in which `readdir` lists entries is the order of the catalogue.
- External programs are parameters returning an outcome: `golem-cli`, `tinygo`, `wasm-tools`, `npx` and the compose tool. `BuildComponent`, `GenerateBinding`, `Clean`, `Deploy`, `TestIntegration`, `fsMatch` and the build, lint and format commands only call such programs, so they are left out.
- The final copy in `stubCompose`/`StubCompose` is reported as `Copied(from, to)`, not performed.
- Printing, process spawning, exit codes beyond the generator's `os.Exit`, and command-line parsing (`src/cli.rs`) are left out. `src/cli.rs` is not part of this model.
- `componentNames` in the magefile turns a read error into an empty list. Here the component names are a parameter.
- `PackageName`'s kebab and namespace renderings are defined directly, as the obvious functions of the two halves.
- The usage text of `generator.go` says `<package-namespace>` where `main.go` says `<package-org>`. The model uses `main.go`'s text.
- Instantiation.InstantiateDirectory: a sub-directory is copied by looking its path up again in the catalogue, as the code does. When a directory holds two entries of the same name, that lookup takes the first of them. The failure lemmas are stated in terms of `Found`: the source directory exists and names are unique in every directory. Where `Found` does not hold, Instantiation.DirectoryFails allows the missing-directory panic, and Instantiation.DirectorySucceeds makes no claim.
- Disk.Step / Instantiation.DirectorySucceeds: clashes between a file and a directory at the same path are not modelled. `create_dir_all` succeeds under an existing file, and writing a file succeeds over an existing directory. So the model lets a copy pass where the program fails, for example an example holding a directory `component-name` and a file `my-app`, instantiated as `my-app`.
- DirectoryEntryPlaced: it places an entry only when no later kept entry of the same directory has the same transformed name. The later entry would overwrite it.
- Text.Less is code-point order. JavaScript's `Array.prototype.sort()` (examples/ts/ts-multi-rpc/src/build-tools/build-tools.ts:149) compares UTF-16 code units. The two orders differ between characters above U+FFFF and those in U+E000 to U+FFFF.
- Rust panics (the `unwrap` and `expect` calls in `src/lib.rs`, the panic on an unknown language) are modelled as `Err` results or a `Panicked` outcome, not as aborting the process.
- TsBuild.PckNs, TsBuild.OutDir and TsBuild.ComponentsDir are fixed values (`pack-ns`, `out`, `src/components`) standing for the settings of `build-config.ts`, which is not part of this model.
- `src/lib.rs:154` checks `transform_exclude` against the transformed file name. The model follows the code.
- TsBuild.ComponentNameFromArgs: the "Undefined component name" branch of `getComponentNameFromArgs` is unreachable once exactly one argument is present, so it is not modelled.
- BuildTools.RunCommands: follows the corrected argument slicing, not `args.splice(1)`. The code as written is kept in `BuildTools.Dispatch` with `AfterFirst`, and the first finding below shows the difference.
- Text.ToUpperChar / Text.UpperFirst / Text.LowerFirst / DashCase.Capitalized / DashCase.PascalDropsDashes / DashCase.PascalWithoutDash / DashCase.CamelOfPascal / GoGenerator.DashToPascal / GoGenerator.GenerateFile: component names are taken to be ASCII. Three things differ for other names. (a) Go's `dashToPascal` (examples/go/go-multi-rpc/component-generator/main.go:104) converts the first byte alone to a string: `string(part[0])` of the lead byte C3 of `é` is the character `Ã` (bytes C3 83). So `é-x` is written as the bytes C3 83 A9 58, where the model treats `é` as one character. (b) `os.Args` holds UTF-8, and Go writes `中` as the bytes E4 B8 AD; `GoGenerator.AsBytes` keeps the low byte of each character, so `中` becomes the one byte 0x2D. (c) JavaScript's `toUpperCase` and `toLowerCase` are Unicode mappings (`ß` becomes `SS`, changing the length); the model maps ASCII letters only.
- GoGenerator.Generate / TsBuild.GenerateNewComponents: reading and listing the template cannot fail in the model. The template is a given tree or listing. So the failures of `os.Stat`, `os.ReadFile` and `os.Open` on template files (examples/go/go-multi-rpc/component-generator/main.go:40-43, 74-77, 113-116) and of `readdirSync` (examples/ts/ts-multi-rpc/build.ts:293) are not modelled. Only writes can fail.
- GoGenerator.Generate / TsBuild.GenerateNewComponents / TsBuild.GenerateRefusals: of `filepath.Join` and `path.join`, only the dropping of an empty name is modelled. A name holding `/` or `..` is one path component here. A template file named exactly `.template` gets the empty target name; `build.ts` then writes to the directory itself and fails, but the model writes a file with an empty last component.
- `MAX_SAFE_INTEGER` and file times are unbounded integers. Floating point is not modelled.
- The literal template contents (the generated `main.ts`, the `my-app` example files) are not modelled. Only the substitution applied to them is.

## Findings

| source | as written | input that shows it | evidently intended | confidence | as-written member | corrected member |
|---|---|---|---|---|---|---|
| examples/ts/ts-multi-rpc/src/build-tools/build-tools.ts:53-54 | a command that takes arguments receives `args.splice(1)`: everything after the first argument | `build generateNewComponent x` gives `generateNewComponent` the arguments `generateNewComponent x` | the arguments after the command's own name: `x` | not executed | BuildTools.SpliceCounterexample | BuildTools.ArgsAfterCommand |
| examples/ts/ts-multi-rpc/build.ts:260-261 | `addStubDependency`'s targets join the component directory with the WIT directory, which already starts with it, and name the package after the component, not the dependency | component `component-one`, dependency `component-two`: the targets are `src/components/component-one/src/components/component-one/wit/deps/pack-ns_component-one` and the same with `-stub`, which the tool never writes, so the step always runs | the targets `wit/deps/<ns>_<dep>` and `wit/deps/<ns>_<dep>-stub` inside the component | not executed | TsBuild.AddStubAlwaysRuns | TsBuild.AddStubSkipsWhenCurrent |
| examples/go/go-multi-rpc/magefiles/magefile.go:84-85 | `AddStubDependency` joins `dstComponentDir` with `dstWitDir`, which already holds it, and names the packages after the component | component `component-one` with dependencies `component-two` and `component-three`: both steps check the same misplaced targets | the dependency's package directories inside the component's `wit/deps` | not executed | Magefile.AddStubTargetsShared | Magefile.AddStubTargetsPlaced |
