# toolprovider, modelled in Dafny

This project models the core of `toolprovider`, the tool installer of the
Bitrise CLI. A `bitrise.yml` declares tools under `meta.experimental.tools`,
either as a version string or as a map with `version` and `plugin`. A
version may end in `:latest` or `:installed`.

The installer reads each declaration as a tool request, which has a tool
name, an unparsed version, a resolution strategy and an optional plugin.
Strict is the zero value of the strategy; the other two are LatestInstalled
and LatestReleased. Tool names are canonicalised through an alias table.

Each request goes to a provider:

- **The asdf provider**
  - Lists the installed versions.
  - Short-circuits a strict request that is already installed.
  - Lists the released versions, choosing `list all` or `list-all` by the asdf version.
  - Resolves the request, then installs the resolution unless it is already installed.
  - Can provision the asdf plugin a tool needs.
  - Activates a tool through an `ASDF_<TOOL>_VERSION` variable.
- **The resolver** (`ResolveVersion`)
  - An installed exact match of the trimmed request wins outright.
  - Otherwise a strict request needs a verbatim released match.
  - The non-strict strategies take the first prefix match in a "logical" descending order. Versions that parse as semantic versions come first, by precedence. The other strings follow, in descending lexicographic order.
- **The mise provider**
  - Builds the `tool@version` or `tool@prefix:version` argument of `mise install`.
  - Turns the output of `mise env` into the variables and `PATH` entries the tool contributes.
- **The command line**
  - Lists the strategies by name.
  - Puts a directory in front of `PATH`.
  - Reads `KEY=value` entries.

The repository root also keeps an earlier snapshot: a resolver, a
declaration parser, a list-output parser and an activation. That resolver
is different: it guesses whether a whole tool follows semantic versioning
and reports normalised versions. It is modelled separately, in
`LegacyAsdf` and `LegacyParser`.

Files, one Dafny module each:

- `provider.dfy`, `toolalias.dfy`, `toolplugin.dfy`: the provider data types and the two read-only tables.
- `asdf_resolve.dfy`, `asdf_provider.dfy`, `asdf_parse.dfy`, `asdf_plugin.dfy`, `asdf_activate.dfy`: the asdf provider.
- `mise_install.dfy`, `mise_env.dfy`: the mise provider.
- `config_parser.dfy`: the declaration and tool-configuration parser.
- `cli_env.dfy`: the helpers of `main.go`.
- `legacy_asdf.dfy`, `legacy_parser.dfy`: the root snapshot.
- `semver.dfy`: a simplified model of the `hashicorp/go-version` parser and its precedence.
- `gostrings.dfy`, `collections.dfy`, `sorting.dfy`, `wrappers.dfy`: Go's `strings` functions, filtering, sorting, and Option/Result.

## How the model is built

The asdf and mise commands are not run. What asdf answers is an input:

- `Responder` gives asdf's reply to the n-th run.
- Every asdf operation returns, besides its result, the runs it asked for, oldest first.

`sort.Sort` is not stable, so the sorted lists are specified by
relations, not by one exact sequence. A sorted list is a permutation of
its input that is non-increasing under the comparator.

- `AsdfResolve.ResolveVersion` promises `IsResolutionOf`: its result is `ResolveSorted` for some logical orders of the two lists.
- `LegacyAsdf.ResolveVersion` promises the same through `IsLegacyResolutionOf`.
- The lemmas state what holds for every such result.

Go maps are iterated in an unspecified order. A loop over one picks any
key it has not visited yet (`:|`).

The YAML tree seen through `any` is the datatype `ConfigParser.Node`. A
failed single-value type assertion panics in Go; here it is the error
`Panic`.

Two places where the code does less than its comments and names suggest:

- A resolver no-match is never retried after a plugin update. `provider/asdf/asdf.go:53` tests `errors.Is(err, &ErrNoMatchingVersion{})`. That test compares against a pointer while the resolver returns a value, so the branch is not entered. Even if it were, line 70 returns the error anyway.
- The non-strict resolver reports the original string of the matched version, e.g. `20.1`, not its padded form `20.1.0` (`provider/asdf/resolve.go:156`).

## Model

| member | source | states |
|---|---|---|
| Provider.MessageLines | provider/provider.go:44-60 | the rendered error always has the `Error: failed to install <tool> <version>` line first |
| Provider.ErrorMessage | provider/provider.go:44-60 | the message grown by `+=` is exactly the header and the present sections joined by newlines |
| Provider.MessageStartsWithHeader | provider/provider.go:45 | every error message starts with the header |
| Provider.MessageWithoutOptionalFields | provider/provider.go:44-60 | with no cause, recommendation or raw output the message is the header alone |
| Provider.MessageLinesRecovered | provider/provider.go:47-57 | when no field spans lines, splitting the message at newlines gives back the header and the present sections |
| Provider.SectionsInOrder | provider/provider.go:47-59 | each section line appears iff its field is non-empty, and cause comes before recommendation |
| ToolAlias.CanonicalToolName | provider/toolalias.go:8-13 | the result is never itself an alias, and a name is changed only when it is an alias |
| ToolAlias.TargetsAreNotAliases | provider/toolalias.go:3-6 | no alias target is itself an alias |
| ToolAlias.CanonicalIdempotent | provider/toolalias.go:3-13 | canonicalising twice is canonicalising once |
| ToolAlias.KnownAliases | provider/toolalias.go:3-6 | `go` becomes `golang` and `node` becomes `nodejs` |
| ToolAlias.OtherNamesUnchanged | provider/toolalias.go:9-12 | every other name is returned unchanged |
| ToolPlugins.TableWellFormed | provider/toolplugin.go:8-15 | every table entry is named after its key and has a non-empty URL |
| ToolPlugins.GetToolPlugin | provider/toolplugin.go:17-23 | a plugin is found iff the canonical name is in the table, and it is named after the canonical name |
| ToolPlugins.LookupThroughAlias | provider/toolplugin.go:18-22 | `node` finds the nodejs plugin; `go` becomes `golang`, which has none |
| SemVer.Parse | provider/asdf/resolve.go:141 | a parsed version keeps its original text and has at least three segments |
| SemVer.NotVersionWithoutLeadingDigit | provider/asdf/resolve.go:141-145 | a string that does not start with `v`, a dot or a digit never parses |
| SemVer.LeTotal | provider/asdf/resolve.go:150 | any two versions are comparable by precedence |
| SemVer.LeTrans | provider/asdf/resolve.go:150 | precedence is transitive |
| SemVer.MetadataIgnored | provider/asdf/resolve.go:150 | versions that differ only in build metadata rank equal |
| SemVer.PreReleaseBelowRelease | provider/asdf/resolve.go:150 | a pre-release ranks strictly below the same version without one |
| GoStrings.LexLeTotal | provider/asdf/resolve.go:152 | Go's string order is total |
| GoStrings.LexLeTrans | provider/asdf/resolve.go:152 | Go's string order is transitive |
| GoStrings.LexLeAntisymmetric | provider/asdf/resolve.go:152 | two strings that are each at or below the other are equal |
| Sorting.SortDescending | provider/asdf/resolve.go:150-152 | sorting in place under a total preorder leaves a non-increasing permutation of the array |
| Sorting.SortedDescending | asdf/asdf.go:139-141 | sorting a clone and reversing it gives a non-increasing permutation |
| Sorting.SortBySorts | provider/asdf/resolve.go:150-152 | every list has a non-increasing permutation |
| AsdfResolve.LogicalLeTotal | provider/asdf/resolve.go:137-161 | any two version strings are comparable in the logical order |
| AsdfResolve.LogicalLeTrans | provider/asdf/resolve.go:137-161 | the logical order is transitive |
| AsdfResolve.LogicalLeIsPreorder | provider/asdf/resolve.go:137-161 | the logical order is a total preorder, so sorting under it is well defined |
| AsdfResolve.LogicalLeOnBlocks | provider/asdf/resolve.go:149-152 | between two parseable strings the order is precedence; between two unparseable ones it is lexicographic |
| AsdfResolve.BlocksConcatSorted | provider/asdf/resolve.go:154-160 | the sorted parseable block followed by the sorted unparseable block is in logical order |
| AsdfResolve.LogicalOrderBlocks | provider/asdf/resolve.go:137-161 | in a logical order, parseable strings precede unparseable ones, by non-increasing precedence, and the rest are lexicographically non-increasing |
| AsdfResolve.LogicallySortedVersions | provider/asdf/resolve.go:137-161 | the output is a permutation of the input, keeping the original strings, in non-increasing logical order |
| AsdfResolve.SortedBlocksAreLogicalOrder | provider/asdf/resolve.go:154-160 | appending the sorted unparseable block to the sorted parseable block gives a logical order of the whole input |
| AsdfResolve.LogicalOrderExists | provider/asdf/resolve.go:137-161 | every list has a logical order |
| AsdfResolve.FirstMatch | provider/asdf/resolve.go:73-74 | the index found is that of the first entry with the prefix; -1 exactly when there is none |
| AsdfResolve.Resolution | provider/asdf/resolve.go:78-84 | the resolution carries the chosen string; `IsSemVer` holds iff it parses, and the parsed value keeps that string |
| AsdfResolve.ResolveVersion | provider/asdf/resolve.go:37-132 | the result is the decision taken on some logical order of each list it scans |
| AsdfResolve.FirstMatchIsMaximal | provider/asdf/resolve.go:73-77 | in a logical order, the first prefix match ranks at or above every entry with that prefix |
| AsdfResolve.FirstMatchInOrder | provider/asdf/resolve.go:108-110 | scanning a logical order finds a match iff the input has one, and the match is a best one |
| AsdfResolve.ResolveExactInstalled | provider/asdf/resolve.go:42-54 | if the trimmed request is installed, every strategy returns the untrimmed request as installed, with its own parse |
| AsdfResolve.ResolveStrict | provider/asdf/resolve.go:56-67 | strict succeeds iff the request is verbatim among the released versions, installed iff it is listed as installed; otherwise the no-match error carries the whole released list |
| AsdfResolve.ResolveLatestInstalled | provider/asdf/resolve.go:70-106 | the best installed prefix match, as installed; failing that, the best released one, as not installed; failing both, the no-match error |
| AsdfResolve.ResolveLatestReleased | provider/asdf/resolve.go:107-128 | succeeds iff some released version has the prefix; it returns a best one, installed iff it is in the installed list |
| AsdfResolve.ResolveEmptyRequest | provider/asdf/resolve.go:107-128 | an empty latest-released request yields a released version at the top of the logical order |
| AsdfResolve.ResolveUnknownStrategy | provider/asdf/resolve.go:131 | a strategy outside the enumeration gives its own error |
| AsdfResolve.ResolveProvenance | provider/asdf/resolve.go:37-132 | a resolved version is the request or one of the listed versions, and `IsSemVer` holds iff it parses; errors are the no-match or the unknown-strategy error |
| AsdfResolve.ResolveUpToTies | provider/asdf/resolve.go:150-152 | two results of the unstable sort agree on success and failure, and successful ones differ only between versions of equal rank |
| AsdfResolve.BulletsAppend | provider/asdf/resolve.go:24-25 | each further version appends its own line at the end |
| AsdfResolve.NoMatchingVersionMessage | provider/asdf/resolve.go:18-28 | an empty list gives exactly `no matching version found`; otherwise the header is followed by one bullet line per version |
| AsdfResolve.BulletsSplit | provider/asdf/resolve.go:23-27 | for single-line versions the listing splits back into exactly the bullet lines |
| AsdfParse.ParseAsdfListOutput | provider/asdf/parse.go:67-89 | the versions are the entries of the non-blank lines, in line order; blank output lists nothing (the root snapshot's parser, asdf/parse.go lines 49-71, is the same code) |
| AsdfParse.BlankOutputListsNothing | provider/asdf/parse.go:80-89 | empty or white-space-only output gives an empty list |
| AsdfParse.ParsedEntries | provider/asdf/parse.go:80-88 | no more versions than lines; each version comes from a non-blank line with its first `*` removed and trimmed; every such line contributes one; order is kept |
| AsdfParse.ReleasedSubcommand | provider/asdf/parse.go:51-56 | `list all` from asdf 0.16.0 on, `list-all` before |
| AsdfParse.SubcommandMonotone | provider/asdf/parse.go:52-56 | upgrading asdf never brings back `list-all` |
| AsdfPlugin.AnyLineMatchesExists | provider/asdf/add_plugin.go:57-66 | the plugin is listed iff some trimmed line starts with its name (if any) and contains its URL (if any) |
| AsdfPlugin.ScanPluginLines | provider/asdf/add_plugin.go:57-68 | the early-return scan answers true exactly when some trimmed, non-blank line matches |
| AsdfPlugin.AddArgs | provider/asdf/add_plugin.go:26-32 | `add`, then the name if non-empty, then the URL if non-empty, in that order |
| AsdfActivate.ActivateEnv | provider/asdf/activate.go:10-18 | exactly one variable, `ASDF_<TOOL>_VERSION`, set to the concrete version; no paths; never an error (the root snapshot's asdf/activate.go lines 10-18 are the same code) |
| AsdfActivate.EnvKeyInjective | provider/asdf/activate.go:11 | two tools share a variable iff their names agree after upper-casing |
| AsdfActivate.EnvKeyCaseInsensitive | provider/asdf/activate.go:11 | a tool and its upper-case name use the same variable |
| AsdfProvider.InstalledListing | provider/asdf/parse.go:27-43 | a failing `list` counts as an empty list iff its error mentions `No compatible versions installed`; otherwise the parsed, alias-filtered listing |
| AsdfProvider.ReleasedWithoutVersion | provider/asdf/parse.go:46-50 | a failing version query is the only run of `listReleased` and its error is returned |
| AsdfProvider.ReleasedWithVersion | provider/asdf/parse.go:46-65 | after a successful version query, exactly one listing run with the subcommand for that version, and its error or parsed output |
| AsdfProvider.ReleasedInstallsNothing | provider/asdf/parse.go:46-65 | `listReleased` starts with the version query, makes at most two runs, and installs nothing |
| AsdfProvider.InstallListInstalledFails | provider/asdf/asdf.go:30-33 | a failing `listInstalled` is the only run and the result is an error |
| AsdfProvider.InstallStrictShortCircuit | provider/asdf/asdf.go:37-44 | an installed strict request is reported as installed at the trimmed version, without listing released versions |
| AsdfProvider.InstallListReleasedFails | provider/asdf/asdf.go:46-49 | a failing `listReleased` ends in an error, without installing |
| AsdfProvider.InstallResolveFails | provider/asdf/asdf.go:51-71 | every resolution error ends in an error, without installing |
| AsdfProvider.InstallAlreadyInstalled | provider/asdf/asdf.go:73-78 | an installed resolution is reported as installed at its version, without installing |
| AsdfProvider.InstallNewVersion | provider/asdf/asdf.go:79-90 | otherwise exactly one install run, the last, for the resolved version; success iff it succeeds, reporting a fresh install of that version |
| AsdfProvider.InstallResultNamesTool | provider/asdf/asdf.go:29-91 | every successful result names the requested tool, at the trimmed request or the resolved version |
| AsdfProvider.PluginMissingIsNoop | provider/asdf/add_plugin.go:12-15 | no plugin, or one with neither name nor URL, succeeds without running anything |
| AsdfProvider.PluginListedIsNotAdded | provider/asdf/add_plugin.go:17-24 | a plugin the first listing shows is not added |
| AsdfProvider.PluginAddedAndRechecked | provider/asdf/add_plugin.go:17-47 | a failing or negative first check leads to `plugin add`; success iff the add and a second listing succeed and that listing shows the plugin |
| AsdfProvider.ResolveErrorText | provider/asdf/resolve.go:18-28 | the two resolver errors read differently: the text starts with "no matching version found" iff it is a no-match error, which after its header lists the first available version when there is one; an unknown strategy (resolve.go:131) gives "unknown resolution strategy: " and the value |
| AsdfProvider.AsdfToolProvider.ListInstalled | provider/asdf/parse.go:27-43 | one `list <tool>` run, interpreted as above |
| AsdfProvider.AsdfToolProvider.AsdfVersion | provider/asdf/parse.go:12-24 | one `--version` run; its trimmed output parsed as a version, or the error |
| AsdfProvider.AsdfToolProvider.ListReleased | provider/asdf/parse.go:46-65 | the runs and result of the version query followed by the listing |
| AsdfProvider.AsdfToolProvider.InstallToolVersion | provider/asdf/install.go:6-20 | one `install <tool> <version>` run; it fails iff that run fails, with the error naming tool and version |
| AsdfProvider.AsdfToolProvider.InstallResolved | provider/asdf/asdf.go:73-90 | the runs and result that follow a resolution |
| AsdfProvider.AsdfToolProvider.ListAndResolve | provider/asdf/asdf.go:46-90 | lists released versions, resolves against a valid resolution of them, then continues as above |
| AsdfProvider.AsdfToolProvider.InstallTool | provider/asdf/asdf.go:29-91 | the runs and result of `InstallTool`, its resolution being one `ResolveVersion` can give for the listings |
| AsdfProvider.AsdfToolProvider.PluginAlreadyInstalled | provider/asdf/add_plugin.go:50-69 | one `plugin list --urls` run; installed iff it succeeds and lists the plugin; its error otherwise |
| AsdfProvider.AsdfToolProvider.InstallToolPlugin | provider/asdf/add_plugin.go:11-48 | the runs and outcome for the table's plugin of the tool, as the plugin lemmas characterise them |
| AsdfProvider.AsdfToolProvider.AddPlugin | provider/asdf/add_plugin.go:26-47 | `plugin add` with the plugin's arguments, then the second check |
| MiseInstall.VersionStringShape | provider/mise/install.go:57-78 | every version string is `tool@` followed by the request, `prefix:` and the request, or the installed version the lookup found |
| MiseInstall.InstalledKeywordForcesLatestInstalled | provider/mise/install.go:52-55 | the version `installed` behaves as latest-installed whatever the declared strategy |
| MiseInstall.LookupOnlyForLatestInstalled | provider/mise/install.go:57-63 | only latest-installed consults the installed-version lookup |
| MiseInstall.VersionStringFailures | provider/mise/install.go:63-77 | building fails exactly for a lookup error other than "no match", or an unknown strategy |
| MiseInstall.VersionStringAgreesWithInstalledCheck | provider/mise/install.go:35-74 | for latest-installed: pinned to the found version iff something is installed; the prefix form iff nothing is; an error iff the check fails |
| MiseInstall.InstalledCheckCases | provider/mise/install.go:35-48 | installed iff the lookup succeeds; not installed iff it finds no match; other errors propagate |
| MiseInstall.CauseAsWrittenRepeatsToolName | provider/mise/install.go:23 | the cause as written starts `mise install tool@tool@` and never quotes the command that ran |
| MiseInstall.CauseQuotesCommand | provider/mise/install.go:17-25 | the corrected cause quotes the argument mise was given |
| MiseInstall.InstallToolVersion | provider/mise/install.go:11-28 | a command runs iff a version string was built; it is `mise install --yes` with an argument starting `tool@`; a failed install's cause starts `mise install tool@tool@`, as line 23 writes it |
| MiseInstall.InstallOutcome | provider/mise/install.go:11-28 | no command runs without a version string, whose error is passed on; otherwise one `mise install --yes` run, failing iff the run fails, with an install error for that version string carrying the output, no recommendation, and line 23's cause |
| MiseEnv.ProcessEnvOutput | provider/mise/env.go:37-63 | the variables are the input without `PATH`, and the paths are those the scan contributes |
| MiseEnv.AddedSound | provider/mise/env.go:49-55 | every contributed path is a non-empty mise `PATH` entry that is not on the process `PATH` |
| MiseEnv.AddedComplete | provider/mise/env.go:50-56 | every such entry is contributed |
| MiseEnv.AddedDistinct | provider/mise/env.go:49-55 | no path is contributed twice |
| MiseEnv.AddedInFirstOccurrenceOrder | provider/mise/env.go:51-55 | the paths keep the order of their first occurrence on the mise `PATH` |
| MiseEnv.ContributedPathsCharacterised | provider/mise/env.go:42-57 | no paths without a non-empty `PATH`; otherwise exactly the eligible entries, once each, in first-occurrence order |
| ConfigParser.AfterLastNewlineIsTail | config/parser.go:16-17 | the regular expression's capture is the newline-free tail of the text before the suffix |
| ConfigParser.ClassifyLatest | config/parser.go:87-94 | a version ending in `:latest` is latest-released, with the capture before the suffix |
| ConfigParser.ClassifyInstalled | config/parser.go:95-102 | a version ending in `:installed` (and not `:latest`) is latest-installed, with the capture before the suffix |
| ConfigParser.ClassifySuffixed | config/parser.go:85-106 | classifying a single-line version with its strategy's suffix gives back that strategy and version |
| ConfigParser.ClassifyShape | config/parser.go:85-106 | a version is strict and unchanged, or it ends in a suffix (`:latest` checked first) and its plain version is a tail of the text before that suffix |
| ConfigParser.SameDeclared | config/parser.go:85-113 | a request is determined by the declared version text and plugin |
| ConfigParser.DeclarationOfDeclared | config/parser.go:85-113 | the request names its key, classifies the declared text and keeps the plugin |
| ConfigParser.ShortAndLongFormsAgree | config/parser.go:58-73 | `tool: v` and `tool: {version: v}` declare the same request, and the version is trimmed |
| ConfigParser.MissingVersionIsEmpty | config/parser.go:62-73 | a missing or nil version, or a nil map, declares the empty strict version |
| ConfigParser.DeclarationCases | config/parser.go:58-83 | a declaration fails iff it is neither string nor map, or holds a non-string, non-nil version or plugin; the plugin is set iff a string plugin is given |
| ConfigParser.ParseToolDeclarations | config/parser.go:28-117 | block errors are returned; otherwise success iff every entry declares, giving each entry's request, and a failure is the error of some entry |
| ConfigParser.DeclarationsKeyedByName | config/parser.go:108-113 | the output has the block's keys, and each request names its key |
| ConfigParser.ParseToolConfig | config/parser.go:125-158 | the configuration that `meta.experimental.tool_config` selects |
| ConfigParser.ToolConfigCases | config/parser.go:119-158 | the provider is `asdf` unless a map gives a string `provider`; a present non-map is an error, and a non-string provider panics |
| ConfigParser.OnlyProviderKeyMatters | config/parser.go:150-155 | keys other than `provider` have no effect |
| Cli.StrategyDisplayName | main.go:76-82 | the three display names, with anything unknown shown as `strict` |
| Cli.DisplayNamesDistinct | main.go:76-82 | the three strategies have three different names |
| Cli.WithoutMembers | main.go:176-178 | deleting `x` keeps exactly the items other than `x` |
| Cli.WithoutAppend | main.go:176-178 | deleting distributes over concatenation, so order is kept |
| Cli.DeleteEqual | main.go:176-178 | the in-place `slices.DeleteFunc` leaves the other items, in order, at the front |
| Cli.PrependPath | main.go:170-185 | the returned `PATH` is `Prepended` |
| Cli.PrependedEntries | main.go:170-185 | for a single directory (no `:` in it): an empty `PATH` gives the directory; otherwise the entries are the directory, then the old entries other than it in order; the directory does not occur again |
| Cli.PrependIdempotent | main.go:170-185 | prepending the same single directory twice changes nothing more |
| Cli.PrependJoinedPaths | main.go:170-185 | for several directories joined with `:`, as main.go:160 passes them, nothing is de-duplicated: the text goes in front of the whole `PATH`, and prepending it again adds a second copy |
| Cli.WithoutEverything | main.go:176-182 | deleting leaves a list alone iff `x` is absent, and empties it iff every item is `x` |
| Cli.PrependOnlyDuplicates | main.go:180-182 | when every entry is the directory, the result is the directory alone |
| Cli.PrependEmptyDirectory | main.go:184 | an empty directory before a `PATH` without empty entries gives `":" + PATH` |
| Cli.ConvertEnvToMap | main.go:139-148 | the map the entries build, later entries overwriting |
| Cli.EnvMapLastWins | main.go:139-148 | a key is present iff some entry sets it, and its value is that of the last such entry |
| Cli.EntryRoundTrip | main.go:142-144 | `key=value` with an `=`-free key reads back as that key and value, even if the value holds `=` |
| LegacyAsdf.IsToolSemVer | asdf/asdf.go:229-240 | true iff every released version parses; otherwise the first one that does not; `""` when true |
| LegacyAsdf.ParseAll | asdf/asdf.go:88-94 | the parsed collection when every entry parses; otherwise a parse error naming the tool and the first bad entry |
| LegacyAsdf.SemVerLeIsPreorder | asdf/asdf.go:95 | precedence is a total preorder |
| LegacyAsdf.LexLeIsPreorder | asdf/asdf.go:139-141 | the string order is a total preorder |
| LegacyAsdf.SortVersions | asdf/asdf.go:95 | the collection is sorted into a non-increasing permutation |
| LegacyAsdf.SortStrings | asdf/asdf.go:139-141 | the clone is sorted and reversed into a non-increasing permutation |
| LegacyAsdf.LexOrderUnique | asdf/asdf.go:139-141 | two descending string orders of one list are the same list, so the string branches are deterministic |
| LegacyAsdf.FirstKeyMatchFirst | asdf/asdf.go:97-98 | the scan returns the first index whose key has the prefix, -1 iff none |
| LegacyAsdf.FirstKeyMatchIsBest | asdf/asdf.go:97-109 | in a descending order, the scan finds a match iff the input has one, and a greatest one |
| LegacyAsdf.SomeOrdersValid | asdf/asdf.go:95 | every input has valid sorted orders, so the resolution is always defined |
| LegacyAsdf.ResolveVersion | asdf/asdf.go:49-223 | the result is the decision taken on some valid orders of the lists it sorts |
| LegacyAsdf.LatestInstalledSemVer | asdf/asdf.go:85-137 | the semver latest-installed branch takes that decision on the orders it sorted |
| LegacyAsdf.LatestInstalledStrings | asdf/asdf.go:138-168 | the string latest-installed branch takes that decision on the orders it sorted |
| LegacyAsdf.LegacyExactInstalled | asdf/asdf.go:54-66 | an installed exact match of the trimmed request wins under every strategy, with the request's own parse |
| LegacyAsdf.LegacyStrict | asdf/asdf.go:68-82 | strict succeeds iff the request is verbatim released; `IsSemVer` is whether the whole tool parses, not the request; otherwise the sentinel error |
| LegacyAsdf.LegacyUnparseableInstalled | asdf/asdf.go:88-92 | for a semver tool, latest-installed fails on the first installed version that does not parse |
| LegacyAsdf.LegacySemVerLatestInstalled | asdf/asdf.go:84-137 | the greatest installed version whose normalised form has the prefix, as installed; else the greatest released one; else no match; always in normalised form |
| LegacyAsdf.LegacySemVerLatestReleased | asdf/asdf.go:169-198 | succeeds iff some released normalised form has the prefix; the greatest one, installed iff that normalised form is in the installed list; never a parse error |
| LegacyAsdf.LegacyStringStrategies | asdf/asdf.go:138-218 | for a non-semver tool, the lexicographically greatest string with the prefix, installed first under latest-installed; installed iff listed under latest-released |
| LegacyAsdf.LegacyUnknownStrategy | asdf/asdf.go:221-222 | any other strategy value is the `TODO` error |
| LegacyAsdf.DecideParseErrors | asdf/asdf.go:84-92 | a parse error occurs exactly for latest-installed on a semver tool with an unparseable installed version |
| LegacyAsdf.LegacyParseErrorsFromInstalled | asdf/asdf.go:84-179 | every parse error names an installed version that does not parse |
| LegacyParser.StrategyNamesRoundTrip | parser.go:56-65 | reading a strategy's display name gives the strategy back; any other name reads as strict |
| LegacyParser.LegacyDeclarationCases | parser.go:39-72 | fails iff not a map, the version is not a string, or the strategy is present, non-nil and not a string; otherwise the untrimmed version under the named strategy, strict by default |
| LegacyParser.MigratedDeclaration | parser.go:38-72 | a legacy map declaration and the current suffixed short form give the same request |
| LegacyParser.CurrentShortForm | config/parser.go:58-113 | the current short form with a strategy suffix declares that strategy and version |
| LegacyParser.LegacyWithStrategy | parser.go:45-72 | a map with a string version and a strategy name declares that version verbatim under that strategy |
| LegacyParser.ParseToolDeclarations | parser.go:22-77 | block errors are returned; otherwise success iff every entry declares, giving each entry's request, and a failure is some entry's error |
| LegacyParser.LegacyDeclarationsKeyedByName | parser.go:68-72 | one request per key, naming its key, with no plugin |

## Left out

- Loading `bitrise.yml` (`ParseBitriseYml`, in config/parser.go and parser.go) is left out: it wraps a foreign configuration reader. The loaded `meta` tree is an input.
- Running asdf, mise and envman is left out. `runAsdf` and `RunAsdfPlugin` are replaced by a `Responder` parameter, and the mise install command by a `Runner`.
- A failed asdf run is modelled without output: the `Reply` of a failure carries only its error. The provider's `runAsdf` is not part of this model; the root copy's runner (asdf/exec.go:43-46) returns no output on failure, so the `Output:` section of an asdf install error is empty in the model.
- `filterAliasVersions` is left out because it reads the file system. It is an `AliasFilter` parameter.
- `mise latest` and `mise env` (provider/mise/mise.go, provider/mise/resolve.go, `envVarsForTool`) are left out, because they are thin wrappers around process calls. The installed-version lookup is a parameter, and so is the process `PATH` that `processEnvOutput` reads.
- `main()`, `extendEnvmanEnv` and the environment reads of `main.go` are left out, because they are I/O.
- Logging is left out, because it has no effect on results.
- The legacy `installedAsdfVersion`, `listInstalled` and `listReleased` in asdf/parse.go are left out, because they run processes. The legacy `InstallTool` is an empty stub.
- The retry after a plugin update (provider/asdf/asdf.go:53-69) is left out: the branch is never entered. The model returns every resolution error, as line 70 does.
- `hashicorp/go-version` is left out. `SemVer` is a simplified parser with segments padded to three, an optional pre-release with or without `-`, and optional metadata. Its precedence follows section 11 of Semantic Versioning 2.0.0, with metadata ignored. Where go-version departs from that section, for instance when comparing pre-release identifiers, the model does not follow it. A version query whose output does not parse fails with go-version's `Malformed version` message. go-version reports a segment beyond the 64-bit range with a different message (`Error parsing version: …`); `SemVer.Parse` rejects that case too, and the model reports it with the same `Malformed version` message.
- GoStrings.ToUpper: upper-cases ASCII letters only, because Go's full Unicode case mapping is not part of this model.
- The regular-expression compile errors in config/parser.go:43-50 are left out, because the patterns are constants that compile.
- The "does not match latest syntax" errors (config/parser.go:93, 101) are left out, because a matching pattern always has its capture group.
- The legacy asdf/activate.go reads `ToolName` and `ConcreteVersion`, which its own `ToolInstallResult` lacks (toolprovider.go:20-23). It is modelled on the provider's result type, through `AsdfActivate.ActivateEnv`.
- The legacy `ToolRequest` (toolprovider.go:12-18) has no plugin field. It is modelled as `Provider.ToolRequest` with no plugin.
- The legacy resolver's parse error for the released list (asdf/asdf.go:113-117, 172-176) is left out as a separate case, because that branch is never reached. Those lines run only when `isToolSemVer` has found that every released version parses; `LegacyAsdf.ParseAll` states that such a list parses without error.
- Go's distinction between nil and empty slices is left out, because no caller observes it.
- Which error a parser reports when several declarations are wrong is left open, because Go visits maps in an unspecified order.
- `Bootstrap` (provider/asdf/asdf.go:21-27) is left out, because its body is empty.

## Findings

| source | as written | input that shows it | evidently intended | confidence | as-written member | corrected member |
|---|---|---|---|---|---|---|
| provider/mise/install.go:23 | the install error's cause writes `tool@` in front of the version string, which already starts with `tool@` | tool `golang`, strict version `1.22`: the cause reads `mise install golang@golang@1.22: …` | the cause quotes the command that ran, `mise install golang@1.22: …` | not executed | MiseInstall.CauseAsWrittenRepeatsToolName | MiseInstall.CauseQuotesCommand |

`MiseInstall.InstallToolVersion` builds the cause as line 23 writes it. `MiseInstall.InstallCause` is the corrected cause.
