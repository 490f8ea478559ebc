# Installer bundling for Automation Studio projects, modelled in Dafny

This project models `src/utils/file_handler.py`, the part of the tool that bundles a
B&R Automation Studio project with the installers it needs. `process_files` creates the
archives. It then runs up to four stages in a fixed order:

- the technology stage reads the Automation Studio version from the `.apj` file and
  adds technology-package installers;
- the runtime stage adds the runtime and VC installers of every configuration;
- the hardware stage adds module firmware;
- the project walk writes the project tree into the main archive.

The model consists of pure functions over immutable data:

- an abstract filesystem (`Files`): a tree with listing order kept, plus `glob` with `*`;
- archives as sequences of entry names (`Archive`);
- the first-match regex searches (`Tokens`);
- the version and CPU-type derivations (`Versions`);
- one module per stage (`Technology`, `Runtime`, `Hardware`, `Walk`);
- the stage driver (`Driver`).

Each stage returns a `Step`, which holds three things:

- the Python value the function returns: a tuple `(key, ok)`, a bare bool, or None when the exception handler falls off the end;
- the `add_zip_file` calls it made, in order;
- the number of reads of the cancel flag so far.

The cancel flag is a poll threshold. `Cancel.From(n)` means that every read from the
n-th one on sees it set.

`ProcessFiles` returns the archives, the progress values in the order they are set, and
an outcome:

- `Finished`: line 50 is reached;
- `Stopped`: a `return` at lines 25, 33 or 41;
- `Failed`: the tuple unpack at line 23 raises, and the handler at line 52 reports it.

The stages are passed to the driver as functions (`Stages`). This lets the driver lemmas
be stated for any stage that keeps the stage lemmas' contract.

Main properties proved:

- **Identifiers.** The version key, the runtime tag and the CPU translation behave as
  the code computes them, including chained translation where the last match wins
  (`Versions`). Each regex search returns the first token (`Tokens`).
- **Archives.** Creation seeds `Upgrades/` exactly when updates are not separated.
  `add_zip_file` only appends absent names, and adding again changes nothing (`Archive`).
- **Stages.** Every file the technology or hardware stage writes is the first glob match
  of a contributing package or module, under that one's folder. When the stage returns
  True it wrote every such file. A runtime stage that returns True wrote, in order, what
  each configuration folder writes on its own. A bare `False` means that a poll saw the
  cancel flag (or that `Physical` is missing). Cancellation only cuts a stage short: what
  it wrote is a prefix of what the uncancelled stage writes.
- **Walk.** It prunes exactly the excluded folders. Its polls come in a fixed order:
  entering each directory and writing each file. It writes exactly the files of the polls
  before the first one that sees the flag, and it reports cancellation exactly when such a
  poll exists. When not cancelled it writes the whole filtered listing.
- **Driver.** Progress is a prefix of `10, [30], [50], 70, 100`, and the whole plan is
  set exactly when the run finishes. A cancelled run is below the uncancelled one in
  progress and in every archive. Other files are never touched, and with separated
  updates the main archive gets the project files only when the run finishes. A run
  stops right after the stage of its last progress value. It stops exactly when that
  stage, called at the poll the run actually reached, returned a falsy value or the next
  poll saw the flag.

## Behaviour worth knowing

- **Translation.** The CPU type itself is not upper-cased; only the TRANSLATE keys and
  values are. Every matching rule overwrites the type, with no `break`, so rules chain and the
  last match wins (`Versions.TranslateSnoc`, `Versions.TranslateChainExample`,
  `Versions.TranslateIsCaseSensitive`).
- **`mapp` packages** are skipped with their files (lines 377-378) (`Technology.MappSkipped`).
- **The version key** keeps the first two segments of a longer version, joined by '_',
  and nothing more (lines 336-339).
- **Pruning.** `Binaries`, `Diagnosis` and `Temp` are removed wherever the walk meets
  them, at every depth. Dot-directories are walked like any other, because `include_dot`
  is not read (`Walk.WalkDirIgnoresDotFlag`).
- **A cancelled project walk** still lets the run set progress 100 and finish, because
  the walk's result is ignored (lines 46-50). A run cancelled during the walk is
  therefore `Finished` in the model.
- **Cancellation during the technology stage** returns a bare `False`. The unpack at
  line 23 raises, so the run ends as `Failed`, not as cancelled.
- **A missing `[AS]` entry or a non-existent path** gives `(key, False)`. The stage
  logs it through `create_error` (lines 348 and 351), and the run then stops at line 24
  without reaching the handler at line 52. In the runtime and hardware stages the same tuple is
  truthy, so the run goes on (lines 32 and 40).

## Model

| member | source | states |
|---|---|---|
| Text.Split | src/utils/file_handler.py:274 | `str.split` on one character: at least one part, none holding the separator, a single part exactly when the separator is absent |
| Text.SplitNoSep | src/utils/file_handler.py:336-338 | a string without the separator splits into itself alone |
| Text.JoinSplit | src/utils/file_handler.py:337-339 | joining the parts of a split with the same separator gives back the string |
| Text.SplitJoin | src/utils/file_handler.py:337-339 | splitting the join of separator-free parts gives back the parts |
| Text.SplitPrefix | src/utils/file_handler.py:337 | a separator-free head followed by the separator becomes the first part of the split |
| Text.ReplaceChar | src/utils/file_handler.py:339 | every occurrence of one character is replaced, position by position, and the length is kept |
| Text.ReplaceSeparator | src/utils/file_handler.py:339 | replacing the separator between two segments free of it changes that separator only |
| Text.RemoveChar | src/utils/file_handler.py:157 | `replace('_', '')` leaves no underscore and keeps the count of every other character |
| Text.RemoveCharAbsent | src/utils/file_handler.py:157 | a version without an underscore is unchanged |
| Text.RemoveCharConcat | src/utils/file_handler.py:157 | removal works piece by piece: the result for a concatenation is the concatenation of the results |
| Text.ReplaceAllSuffix | src/utils/file_handler.py:62 | removing every ".zip" from a path where ".zip" occurs only at the end leaves the stem |
| Text.Upper | src/utils/file_handler.py:235 | `upper()` maps each character by the ASCII rule and keeps the length |
| Text.Lower | src/utils/file_handler.py:377 | `lower()` maps each character by the ASCII rule and keeps the length |
| Text.ZFill | src/utils/file_handler.py:275 | `zfill(2)` pads with leading zeros to width 2 and never truncates |
| Text.LastIndexOf | src/utils/file_handler.py:427 | the last occurrence of a character: None exactly when it is absent, otherwise a position holding it with none after it |
| Text.Basename | src/utils/file_handler.py:427 | `os.path.basename` holds no slash and is the path itself when the path has none |
| Text.BasenameOfJoin | src/utils/file_handler.py:427 | the basename of `dir` joined with a slash-free name is that name |
| Text.Dirname | src/utils/file_handler.py:13 | `os.path.dirname` is empty for a slash-free path and never longer than the path |
| Text.DirnameOfJoin | src/utils/file_handler.py:13 | the directory part of `dir` joined with a slash-free name is `dir` itself |
| Tokens.RunLength | src/utils/file_handler.py:334 | the captured group `[^"]+` is the maximal quote-free run, ended by a quote or the text |
| Tokens.RunLengthExact | src/utils/file_handler.py:334 | a quote-free run of length m closed by a quote has run length exactly m |
| Tokens.ValueAtIsToken | src/utils/file_handler.py:334 | the matcher captures `v` at `i` exactly when `prefix + v + '"'` stands there with `v` non-empty and quote-free |
| Tokens.FindFrom | src/utils/file_handler.py:257 | the found position is a match and no earlier position from the start is one; None means no match at all |
| Tokens.Search | src/utils/file_handler.py:272 | `re.search(...).group(1)` is None exactly when nothing matches, else the value at the leftmost match |
| Tokens.SearchNoneIffNoToken | src/utils/file_handler.py:296 | the search finds nothing exactly when the text holds no token |
| Tokens.SearchIsFirstToken | src/utils/file_handler.py:334 | a found value is the value of a token with no token before it |
| Versions.AsKeyOfLongVersion | src/utils/file_handler.py:336-339 | with more than two dot segments the key is the first two joined by '_' |
| Versions.AsKeyOfShortVersion | src/utils/file_handler.py:336-338 | with at most two segments the key is the version text unchanged |
| Versions.AsKeyExample | src/utils/file_handler.py:336-339 | "4.9.6.12" gives "4_9" |
| Versions.RuntimeTag | src/utils/file_handler.py:274-276 | a tag exists exactly when the version has a '.', and it starts with 'M' |
| Versions.RuntimeTagOf | src/utils/file_handler.py:274-276 | `<c><major>.<minor>...` gives "M" + zfill(major, 2) + minor |
| Versions.RuntimeTagExample | src/utils/file_handler.py:274-276 | "V4.34" gives "M0434" |
| Versions.Table | src/utils/file_handler.py:234-235 | the rules keep the TRANSLATE items' order, with keys and values upper-cased |
| Versions.TranslateSnoc | src/utils/file_handler.py:264-269 | a further rule applies to the value the earlier rules produced, so later rules see rewrites and the last match wins |
| Versions.TranslateUnmatched | src/utils/file_handler.py:264-269 | a CPU type no rule matches comes back unchanged |
| Versions.TranslateOrigin | src/utils/file_handler.py:264-269 | the result is the input or some rule's replacement |
| Versions.TranslateChainExample | src/utils/file_handler.py:264-269 | the second rule matches the first rule's replacement and wins |
| Versions.TranslateIsCaseSensitive | src/utils/file_handler.py:259-266 | a lower-case CPU type is not matched by a rule written in lower case, since only the rules are upper-cased |
| Files.Child | src/utils/file_handler.py:120-121 | the entry found has the name asked for; None means no entry has it |
| Files.ListDir | src/utils/file_handler.py:115 | `os.listdir` answers exactly for directories |
| Files.MatchLiteral | src/utils/file_handler.py:160-161 | a pattern without `*` matches exactly itself |
| Files.MatchLiteralHead | src/utils/file_handler.py:384-385 | a literal head of a pattern must be the head of the name |
| Files.MatchStar | src/utils/file_handler.py:198-199 | a leading `*` matches when the rest matches some suffix of the name |
| Files.MatchEndsWith | src/utils/file_handler.py:198-199 | `*.exe` matches exactly the names ending in `.exe` |
| Files.MatchHeadAndEnd | src/utils/file_handler.py:384-385 | `<l>*<e>` matches exactly the names starting with `l` and ending with `e`, without overlap |
| Files.MatchContainsAndEnd | src/utils/file_handler.py:281-282 | `*<m>*<e>` matches exactly the names that contain `m` before an ending `e` |
| Files.Candidates | src/utils/file_handler.py:161 | a name is selected exactly when it is listed and accepted, and the selection is empty exactly when no listed name is accepted |
| Files.FirstCandidate | src/utils/file_handler.py:164 | the first selected name is the first accepted name of the listing |
| Files.JoinAll | src/utils/file_handler.py:161 | each selected name is joined onto the directory part, in order |
| Files.Glob | src/utils/file_handler.py:160-161 | without a wildcard the result is the pattern itself exactly when it exists, and empty otherwise |
| Files.GlobHead | src/utils/file_handler.py:199-201 | the head of a wildcard glob is the directory joined with the first accepted listed name |
| Files.GlobEmpty | src/utils/file_handler.py:200 | a wildcard glob is empty exactly when the directory cannot be listed or accepts no listed name |
| Archive.Create | src/utils/file_handler.py:413-417 | a fresh archive is empty with separated updates and holds exactly `Upgrades/` otherwise; other archives are untouched |
| Archive.NewNamesSpec | src/utils/file_handler.py:425-429 | the written names are absent from the archive as it was opened; every absent source name is written; every written name comes from a source; at most one per source |
| Archive.AddFilesSpec | src/utils/file_handler.py:422-429 | the archive keeps its entries as a prefix and holds every source's `<folder>/<basename>`; new entries come from the sources; other archives are untouched |
| Archive.NewNamesNone | src/utils/file_handler.py:428 | when every source's name is present nothing is written |
| Archive.AddFilesIdempotent | src/utils/file_handler.py:425-429 | adding the same files again changes nothing |
| Archive.AddTwiceGivesOneEntry | src/utils/file_handler.py:428-429 | adding a file twice leaves exactly one entry of its name |
| Archive.Append | src/utils/file_handler.py:85 | project files are appended in order with no presence check; other archives are untouched |
| Setup.Get | src/utils/file_handler.py:101-102 | `has_option` holds exactly when the lower-cased option name is present, and `get` returns its value |
| Setup.ErrorTupleIsTruthy | src/utils/file_handler.py:105 | the error tuple `(key, False)` is truthy; bare False and None are not |
| Setup.FirstMatch | src/utils/file_handler.py:163-164 | `matching_files[0]` exists exactly when the glob is non-empty, and it is a glob result |
| Setup.Upgrade | src/utils/file_handler.py:283-287 | at most one write, under `Upgrades`, of the glob's head; none exactly when the glob is empty |
| Setup.AddAllFrame | src/utils/file_handler.py:287 | a stage's writes only append to its one archive |
| Setup.AddAllContents | src/utils/file_handler.py:287 | after a stage's writes the archive holds exactly its earlier entries and the name of every written file |
| Setup.AddAllDistinct | src/utils/file_handler.py:428 | single-file writes never give an archive a second entry of one name |
| Setup.AddOneDistinct | src/utils/file_handler.py:428-429 | one `add_zip_file` call keeps the entry names distinct |
| Setup.AddAllAppend | src/utils/file_handler.py:287 | writing two batches one after the other is writing their concatenation |
| Walk.Subdirs | src/utils/file_handler.py:62 | the `dirs` of a walk step are exactly the subdirectories |
| Walk.RemoveFirst | src/utils/file_handler.py:68 | `dirs.remove(name)` keeps every other entry and adds none |
| Walk.RemoveFirstDistinct | src/utils/file_handler.py:68 | among distinct names, removal drops exactly the entry of that name |
| Walk.PruneExactly | src/utils/file_handler.py:67-78 | a subdirectory is walked exactly when it is not `Binaries`, `Diagnosis` or `Temp` with its flag off |
| Walk.Prefixed | src/utils/file_handler.py:83-84 | each file's archive name is its path relative to the project folder |
| Walk.WalkFiles | src/utils/file_handler.py:79-85 | the file loop writes exactly the files before the first poll that sees the flag, has made exactly the polls up to that one, and is cancelled exactly when such a poll exists |
| Walk.WalkDirIsPrefix | src/utils/file_handler.py:62-85 | the walk writes a prefix of the filtered listing, all of it when not cancelled, and never cancels without the flag |
| Walk.WalkAllIgnoresDotFlag | src/utils/file_handler.py:61-87 | the `include_dot` flag changes nothing in the walk of the remaining sibling directories |
| Walk.WalkAllPolls | src/utils/file_handler.py:63 | walking the remaining siblings only moves the polls forward |
| Walk.WalkAllIsPrefix | src/utils/file_handler.py:62-85 | the same for the remaining sibling directories |
| Walk.WalkDirIgnoresDotFlag | src/utils/file_handler.py:61-87 | the `include_dot` flag changes nothing in the walk |
| Walk.WalkProject | src/utils/file_handler.py:61-62 | a missing project folder gives no writes; otherwise the walk writes exactly the files of the polls before the first that sees the flag, which is a prefix of the listing and all of it when not cancelled |
| Walk.WalkPolls | src/utils/file_handler.py:63 | the walk's polls only move forward |
| Walk.Clear | src/utils/file_handler.py:63-80 | the number of polls before the first one that sees the flag: all of them see it unset, and the next one, if any, sees it set |
| Walk.FollowsConcat | src/utils/file_handler.py:62-85 | two pieces of the walk run one after the other follow the concatenation of their polls, the second only if the first was not cancelled |
| Walk.WalkDirFollows | src/utils/file_handler.py:62-85 | the walk of a directory writes exactly the files of the polls before the first one that sees the flag, and is cancelled exactly when one does |
| Walk.WalkAllFollows | src/utils/file_handler.py:62-85 | the same for the remaining sibling directories |
| Walk.FileEventsWritten | src/utils/file_handler.py:79-85 | the polls of a file loop write each file under its relative path, in order |
| Walk.ListingIsWritten | src/utils/file_handler.py:62-85 | an uncancelled walk of a directory writes exactly its filtered listing |
| Walk.ListingAllIsWritten | src/utils/file_handler.py:62-85 | the same for the remaining sibling directories |
| Technology.PackageName | src/utils/file_handler.py:373 | `tag.split('}')[1]` exists exactly when the tag has a '}' and holds none |
| Technology.PackageNameOf | src/utils/file_handler.py:373 | `{uri}name` gives `name` |
| Technology.Packages | src/utils/file_handler.py:368-392 | the loop returns `(key, True)`, False only when a poll saw the flag, or None; with a package left and the flag set at its poll (line 369) it returns a bare False, writing nothing for a tag without a namespace; every write is under `Upgrades` |
| Technology.PackagesWriteContributors | src/utils/file_handler.py:383-390 | every written file is the first match of a non-`mapp` package's pattern |
| Technology.PackagesWriteAllContributors | src/utils/file_handler.py:383-390 | a completed loop wrote every contributing package's first match |
| Technology.MappSkipped | src/utils/file_handler.py:376-378 | a `mapp` package changes neither the result nor the writes |
| Technology.PackagesIgnorePolls | src/utils/file_handler.py:368-371 | without cancellation the poll count does not affect the loop's result or writes |
| Technology.PackagesCancelPrefix | src/utils/file_handler.py:369-371 | a cancelled loop wrote a prefix of the uncancelled writes, and unless it returned False it is the same step |
| Technology.Tech | src/utils/file_handler.py:330-394 | `(None, False)` exactly when no version token is found; `(key, False)` with no writes when the key has no configuration entry; a returned key is the key of the first token; an ok key has an existing path; False only when a poll saw the flag; with technology updates on, a package listed and the flag already set, a bare False with no writes after one poll; no package writes when technology updates are off |
| Technology.TechOffAcceptsInstalledVersion | src/utils/file_handler.py:357-359 | with technology updates off, an installed version gives `(key, True)` and no writes |
| Technology.TechWritesExactlyContributors | src/utils/file_handler.py:361-394 | a completed stage wrote exactly the first matches of the contributing packages |
| Technology.TechCancelPrefix | src/utils/file_handler.py:368-371 | a cancelled stage wrote a prefix of the uncancelled writes, and unless it returned False it is the same step |
| Runtime.PlcFolders | src/utils/file_handler.py:253 | the PLC folders are exactly the listed entries that are directories, and the first of them is the first listed directory |
| Runtime.FirstPlcIsFirstDirectory | src/utils/file_handler.py:253-255 | the folder whose `Cpu.pkg` is read is the first listed entry that is a directory |
| Runtime.Rules | src/utils/file_handler.py:233-235 | the translation table exists exactly when the TRANSLATE section does, with one rule per item |
| Runtime.CpuArtifacts | src/utils/file_handler.py:272-310 | at most two writes, under `Upgrades`; None (a version without '.') writes nothing; False exactly when no such None arises and the poll between the lookups (line 291) finds the flag set |
| Runtime.CpuPackage | src/utils/file_handler.py:257-264 | one `Cpu.pkg` either adds nothing, raises, or adds its installers under `Upgrades` |
| Runtime.CpuConfig | src/utils/file_handler.py:253-255 | an unreadable `Cpu.pkg` raises before any write; every write is under `Upgrades` |
| Runtime.FirstPlcOnly | src/utils/file_handler.py:253-258 | only the first PLC folder's `Cpu.pkg` is read; without a module id the folder adds nothing |
| Runtime.MissingTranslateRaises | src/utils/file_handler.py:233-264 | without a TRANSLATE section the first CPU module raises before any write |
| Runtime.ShortRuntimeVersionRaises | src/utils/file_handler.py:274-276 | a runtime version without '.' raises before any write |
| Runtime.CpuConfigWrites | src/utils/file_handler.py:257-310 | uncancelled, a folder adds the runtime installer for the tag and translated CPU type, then the VC installer |
| Runtime.CpuConfigs | src/utils/file_handler.py:243-249 | the loop returns True, False only when a poll saw the flag, or None; with a folder left and the flag set at its poll (line 244), a bare False with nothing written; every write is under `Upgrades` |
| Runtime.CpuArtifactsCancelPrefix | src/utils/file_handler.py:291-293 | a poll between the runtime and VC lookups only cuts the writes short |
| Runtime.CpuConfigCancelPrefix | src/utils/file_handler.py:253-310 | one configuration folder's writes under cancellation are a prefix of the uncancelled ones |
| Runtime.CpuConfigsCancelPrefix | src/utils/file_handler.py:243-246 | the cancelled loop writes a prefix of the uncancelled loop's writes |
| Runtime.Cpu | src/utils/file_handler.py:221-243 | `(key, False)` exactly when the key or `<key>_base` entry is missing; False only when a poll saw the flag or `Physical` is missing; with both entries, a non-empty `Physical` listing and the flag already set, a bare False with no writes after one poll; every write is under `Upgrades` |
| Runtime.CpuArtifactsIgnorePolls | src/utils/file_handler.py:272-310 | without cancellation the poll count changes neither the result nor the writes of one `Cpu.pkg` |
| Runtime.CpuConfigIgnorePolls | src/utils/file_handler.py:253-310 | without cancellation the poll count changes neither the result nor the writes of one configuration folder |
| Runtime.CpuConfigsWritesAllNever | src/utils/file_handler.py:243-310 | the never-cancelled loop wrote, in listing order, what each configuration folder writes on its own |
| Runtime.CpuConfigsWritesAll | src/utils/file_handler.py:243-310 | a loop that returns True wrote, in listing order, what each configuration folder writes on its own |
| Runtime.CpuWritesAll | src/utils/file_handler.py:221-311 | a stage that returns True found both configuration entries and the `Physical` listing, and wrote what each configuration folder writes on its own, in listing order |
| Runtime.CpuCancelPrefix | src/utils/file_handler.py:243-246 | a cancelled stage wrote a prefix of the uncancelled writes, and unless it returned False it is the same step |
| Hardware.ExtFolderIsExternal | src/utils/file_handler.py:168 | external firmware goes below `AS\ExternalHardware\Modules/` |
| Hardware.ExtModules | src/utils/file_handler.py:144-171 | the loop returns True, False only when a poll saw the flag (and a bare False with nothing written when a module is left and its poll at line 145 finds the flag), or None only at debug level above 1 before any common module is seen; every write is below the external folder |
| Hardware.UnboundModuleTypeRaises | src/utils/file_handler.py:170-171 | a firmware folder without a match raises at debug level 2 or more while `module_type` is unbound |
| Hardware.BoundModuleTypeContinues | src/utils/file_handler.py:170-171 | once `module_type` is bound the same module is skipped and the loop goes on |
| Hardware.ExtModulesWriteAll | src/utils/file_handler.py:157-168 | a completed loop wrote every contributing module's firmware below its module folder |
| Hardware.ExtModulesCancelPrefix | src/utils/file_handler.py:145-147 | a cancelled loop wrote a prefix of the uncancelled writes |
| Hardware.ExtPlcs | src/utils/file_handler.py:127-141 | at debug level 0 or below the external block does nothing; every write is below the external folder |
| Hardware.ExtPlcsCancelPrefix | src/utils/file_handler.py:127-147 | the cancelled PLC loop writes a prefix of the uncancelled loop's writes |
| Hardware.CommonModules | src/utils/file_handler.py:184-206 | the loop returns True, or False only when a poll saw the flag; with a module left and the flag set at its poll (line 185), a bare False with nothing written; every write is under `Upgrades` |
| Hardware.CommonModulesWriteAll | src/utils/file_handler.py:194-204 | a completed loop wrote the first `.exe` of every module whose type and version folders exist |
| Hardware.CommonModulesCancelPrefix | src/utils/file_handler.py:185-187 | a cancelled loop wrote a prefix of the uncancelled writes |
| Hardware.HwConfig | src/utils/file_handler.py:120-206 | a configuration folder finishes only when `Hardware.hw` can be read and parsed; writes go to `Upgrades` or the external folder |
| Hardware.HwConfigCancelPrefix | src/utils/file_handler.py:120-206 | one configuration folder's writes under cancellation are a prefix of the uncancelled ones |
| Hardware.HwConfigs | src/utils/file_handler.py:115-121 | the loop returns True, False only when a poll saw the flag, or None; with a folder left and the flag set at its poll (line 116), a bare False with nothing written; at debug level 0 every write is under `Upgrades` |
| Hardware.HwConfigsCancelPrefix | src/utils/file_handler.py:115-118 | the cancelled loop writes a prefix of the uncancelled loop's writes |
| Hardware.Hw | src/utils/file_handler.py:99-115 | `(key, False)` exactly when the key's entry is missing; a missing `Data` entry raises; False only when a poll saw the flag or `Physical` is missing; with both entries, a non-empty `Physical` listing and the flag already set, a bare False with no writes after one poll |
| Hardware.ModuleGlob | src/utils/file_handler.py:198-199 | the module pattern's directory is the version folder, and its glob is that folder's `.exe` names in listing order, joined onto it |
| Hardware.ExtModulesWritesOnly | src/utils/file_handler.py:157-168 | every file the external module loop writes is a listed module's firmware, below that module's folder |
| Hardware.ExtPlcsWritesOnly | src/utils/file_handler.py:127-168 | every file the PLC folder loop writes comes from the device list of one of the PLC folders |
| Hardware.ExtPlcsWritesAll | src/utils/file_handler.py:127-168 | a PLC folder loop that returns True wrote the firmware of every module of every device list it read |
| Hardware.CommonModulesWritesOnly | src/utils/file_handler.py:184-204 | every file the common module loop writes is, under `Upgrades`, the first `.exe` of a listed module whose type and version folders exist |
| Hardware.HwConfigWritesOnly | src/utils/file_handler.py:120-206 | every file a configuration folder writes is external firmware of its PLC folders or a module of its `Hardware.hw` |
| Hardware.HwConfigWritesAll | src/utils/file_handler.py:120-206 | a configuration folder that returns True wrote all such firmware |
| Hardware.HwConfigsWritesOnly | src/utils/file_handler.py:115-206 | every file the configuration loop writes comes from one of the listed configuration folders |
| Hardware.HwConfigsWritesAll | src/utils/file_handler.py:115-206 | a configuration loop that returns True wrote everything the listed configuration folders allow |
| Hardware.HwWritesExactly | src/utils/file_handler.py:99-207 | every file the stage writes is firmware allowed by the configured folders, and a stage that returns True wrote all of it |
| Hardware.HwCancelPrefix | src/utils/file_handler.py:115-118 | a cancelled stage wrote a prefix of the uncancelled writes, and unless it returned False it is the same step |
| Driver.SeparateArchivesDiffer | src/utils/file_handler.py:13-16 | with separation on, the updates archive is a different file from the main one |
| Driver.Marks | src/utils/file_handler.py:29-37 | each enabled stage contributes its progress value, in order |
| Driver.PlannedShape | src/utils/file_handler.py:20-50 | the plan starts at 10, ends at 100, holds 30 exactly when runtime updates are on and 50 exactly when hardware updates are, and only climbs |
| Driver.ProjectTopOfMain | src/utils/file_handler.py:13-62 | when ".zip" occurs only at the end, the walk starts at the project file's folder |
| Driver.ProjectTopDropsInnerZip | src/utils/file_handler.py:62 | every ".zip" in the path is removed, so a folder `p.zipx` is walked as `px` |
| Driver.GatesProgress | src/utils/file_handler.py:28-50 | from a stage on, progress is a prefix of the remaining plan, reached exactly when the run finishes, and nothing fails there; the first stage ends the run right after its value, with only its files added, exactly when it returns a falsy value or the next poll sees the flag |
| Driver.CallPollsChain | src/utils/file_handler.py:28-41 | the polls at which a run calls its stages follow the run: each stage before the last let it go on and the next is called at the poll after that stage's check; calls ending before the stages do end at a stage that stops the run |
| Driver.GatesStopReason | src/utils/file_handler.py:28-41 | a run from some stage on stops exactly when the last stage it calls, at the poll it actually calls it, returned a falsy value or was followed by a poll that saw the flag |
| Driver.GatesStopLength | src/utils/file_handler.py:28-41 | a run that stops from some stage on has one progress value per stage it called |
| Driver.AfterTechProgress | src/utils/file_handler.py:20-50 | progress is a prefix of the plan; all of it exactly when the run finishes; the run fails exactly when the technology result is not a tuple, and then only 10 was set; a false flag in the tuple or a flag seen after it stops the run with only 10 set and the stage's files added |
| Driver.AfterTechStopReason | src/utils/file_handler.py:22-41 | a stop with only 10 set means exactly a false tuple flag or a seen flag after the technology stage; a later stop has one value per stage called after 10, and the last of those stages, called at its actual poll, stopped the run |
| Driver.ProcessFilesProgress | src/utils/file_handler.py:10-53 | the same for `process_files` on the project file's text |
| Driver.RunStagesStopReason | src/utils/file_handler.py:10-41 | the same stop reasons for a run with any stage functions, in terms of the technology stage's answer on the project file |
| Driver.ProcessFilesStopReason | src/utils/file_handler.py:10-26 | `process_files` stops with only 10 set exactly when the technology stage's answer on the project file is a tuple with a false flag or a seen flag follows it |
| Driver.ProcessFilesStopsAtStage | src/utils/file_handler.py:28-41 | a later stop of `process_files` comes from the last runtime or hardware stage it called, at the poll it called it, with the technology stage's version key |
| Driver.OpenedEntries | src/utils/file_handler.py:13-17 | fresh archives are empty with separation and hold `Upgrades/` otherwise; nothing else changes |
| Driver.AddAllKept | src/utils/file_handler.py:22-41 | a stage's writes touch only the updates archive and keep its names distinct |
| Driver.ProjectFilesKept | src/utils/file_handler.py:44-46 | the project files go only to the main archive, after its entries |
| Driver.GatesKept | src/utils/file_handler.py:28-46 | later stages touch only the two archives and lose nothing; with separation the main archive changes only in a finished run, and then by the walk's output |
| Driver.GatesGrows | src/utils/file_handler.py:28-46 | later stages only add archive entries |
| Driver.AfterTechKept | src/utils/file_handler.py:22-46 | the same from the technology result on |
| Driver.ProcessFilesArchives | src/utils/file_handler.py:10-53 | other files are untouched; the shared archive keeps `Upgrades/` first; with separation updates are distinct, and the main archive is empty unless the run finished, and then holds the walk's output |
| Driver.AddAllPrefix | src/utils/file_handler.py:287 | writing a prefix of a batch leaves every archive a prefix of writing the whole batch |
| Driver.ProjectFilesCancelPrefix | src/utils/file_handler.py:61-85 | a cancelled project walk leaves every archive a prefix of the uncancelled one |
| Driver.TechBelow | src/utils/file_handler.py:20-23 | for every starting point, the cancelled technology stage is below the uncancelled one |
| Driver.CpuBelow | src/utils/file_handler.py:28-31 | for every starting point, the cancelled runtime stage is below the uncancelled one |
| Driver.HwBelow | src/utils/file_handler.py:36-39 | for every starting point, the cancelled hardware stage is below the uncancelled one |
| Driver.GatesCancelPrefix | src/utils/file_handler.py:28-46 | from a stage on, the cancelled run's progress and archives are prefixes of the uncancelled run's |
| Driver.GatesGoesOn | src/utils/file_handler.py:32-33 | when both runs pass a stage with the same step, the later stages decide |
| Driver.GatesStopsEarly | src/utils/file_handler.py:32-41 | when the cancelled run stops at a stage, it is below the uncancelled run |
| Driver.AfterTechCancelPrefix | src/utils/file_handler.py:23-46 | from the technology result on, the cancelled run is below the uncancelled one |
| Driver.AfterTechGoesOn | src/utils/file_handler.py:24-28 | when both runs pass the technology stage with the same result, the later stages decide |
| Driver.AfterTechStopsEarly | src/utils/file_handler.py:24-25 | when the cancelled run stops after the technology stage, it is below the uncancelled run |
| Driver.AfterTechGrows | src/utils/file_handler.py:22-46 | after the technology stage, progress starts with 10 and the run only adds entries to the store holding that stage's files |
| Driver.ProcessFilesCancelPrefix | src/utils/file_handler.py:10-50 | raising the cancel flag only cuts `process_files` short: its progress and every archive are prefixes of the uncancelled run's |

## Left out

- GUI and logging: the Tk window, `master.update()`, and log and error text (`create_log`, `create_error`) are not modelled. Debug levels matter only where they change control flow (lines 134 and 170-171).
- `open_file`: encoding detection with chardet and the removal of line breaks are not modelled. A file's text is given directly by the filesystem tree, or is None when it cannot be read.
- XML parsing with ElementTree is an oracle in the environment (`Parsers`). Namespaces and `findall` paths are not modelled, and None stands for any parse error.
- The configuration file is given as a map (`Config`). configparser's DEFAULT section and interpolation are not modelled.
- TRANSLATE keys are compiled as regular expressions in the code. The model treats them as literal prefixes.
- `glob` supports only `*`. `?`, `[...]` and a wildcard in a directory component are not modelled. Hidden names need a leading '.' in the pattern.
- Paths use '/' only. Windows separators, drive letters and case-insensitive filesystems are not modelled. The backslashes in `AS\ExternalHardware\Modules` are kept as characters of a folder name.
- Zip contents: the byte layout, compression and file data are not modelled. An archive is its sequence of entry names. Exceptions while writing an archive are not modelled.
- The archives are not part of the modelled filesystem. A project walk therefore never sees the archives being written.
- The `include_as_updates` check-box is carried in `Settings` but never read, as in the code.
- Threads: cancellation is a flag raised once at some poll, not a concurrent update.
- Text.Upper: only ASCII letters change case, not the full Unicode mapping Python applies.
- Text.Lower: only ASCII letters change case, not the full Unicode mapping Python applies.
- Technology.TechCancelPrefix: states that the cancelled writes are a prefix of the uncancelled ones, not which prefix; a bare `False` is tied to a poll that saw the flag, and the exact step (nothing written) is stated only when the flag is already set at the stage's first poll.
- Runtime.CpuCancelPrefix: the same, for the runtime stage.
- Hardware.HwCancelPrefix: the same, for the hardware stage.
- Walk.PruneExactly: assumes sibling directories have distinct names. The code removes only the first entry of each name.
- Files.Glob: its contract covers only wildcard-free patterns. Wildcard patterns are covered by Files.GlobHead and Files.GlobEmpty.
