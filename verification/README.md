# Verified model of the cwtools-rs index, cache and discovery core

This project models, in Dafny 4.11, the parts of cwtools-rs whose correctness
rests on an argument rather than on one function body: an index edited in place,
two greedy matchers, three walks over trees, two concurrent protocols, a cache
format, a scope graph and a small reader. Each is stated against something
simpler and proved to agree with it on every input, run or reachable state.

`dafny verify dfyconfig.toml` checks the whole project.

## The parts

- `TypeIndexModel`, `TypeIndex`: the cross-file type index. The simple thing is
  a history of merges and removals and the ledger it leaves; four redundant
  tables, positions included, are kept in agreement with it by every operation,
  and every query answers from the ledger.
- `RefcountIndexes`, `Counting`: the refcounted per-file indexes beside it.
- `Wildcards`: `*`, `?` and `**` as recursive relations, generic in the alphabet,
  and the greedy matchers over characters and over segments.
- `FileTrees`, `DirWalk`: the pruning walk over a directory tree, its file budget,
  its independence of the order `read_dir` gives, and the path predicate that
  must agree with it.
- `MultiMod`: the best origin for every path with retroactive suppression,
  against layering one source over another.
- `ScanBytes`: the shared byte budget as a step relation over any number of
  threads, with stale relaxed loads and spurious exchange failures.
- `ParseCache`: loading through the parse cache and validating what was loaded,
  as a step relation with an editor, a pruner and any number of workers. A key
  names one version of a source and no version recurs.
- `FusedWalk`: the one-pass collector of variables and value-set members.
- `StringTables`, `CacheConvert`: arenas to their cached form and back.
- `PathSegments`: directory matching by substring scan.
- `ScopeTables`, `ScopeRegistry`, `Eu4Scopes`: scope names, parents, building the
  tables from config with a hardcoded table filling the gaps, and what that does
  with EU4's table.
- `LocIndex`: the localisation key index and its merges.
- `ConfigText`, `ConfigPrinter`, `ConfigGrammar`: the reader of `cwtools.toml`, the
  texts it reads back, and that it accepts no others (TOML v1.0.0, sections
  "Keys", "String" and "Array").
- `Text`: strings, case folding, trimming, splitting.

Where the source updates something in place, so does the model: the indexes, the
scope registry, the string table, the walk states, the collectors and the reader
are classes whose methods are proved against functions of the state before.
Iteration over a hash map is a loop that takes keys in no particular order.

## Where the code and its own words differ

The model follows the code. Each of these has an exact condition below.

- Workspace definition counts are exact after a removal only if no removed file
  that is on record as base game had contributed a workspace definition sharing
  its name with a survivor (`WorkspaceAfterRemoval`, `MixedProvenanceDrifts`).
- `is_ignored_path` is documented to apply the engine directory lists and does
  not (`AgreeExactlyOutsideEngineDirs`, `BinFileIsUnlistedAndUnignored`).
- A config scope is said to keep its parents when hardcoded scopes are backfilled;
  one without parents gains those of a hardcoded namesake
  (`ParentsChangeExactlyForNamesakes`). The condition is on the config and on
  hardcoded tables in which no two scopes share a spelling, as EU4's (`Eu4Apart`);
  otherwise it would depend on the order of a hash map. EU4's trade node is the
  one hardcoded scope with parents (`OnlyTheTradeNodeGains`,
  `ConfigScopeGainsParents`).
- Hardcoded scopes are backfilled so that none resolves to nothing; the name of one
  that config has under another spelling alone is not inserted and resolves to
  nothing (`HardcodedNameMeansItExactly`, `AliasAloneLosesTheName`).
- `replace_path` is described as a string prefix and covers whole segments
  (`CoversIsSegmentPrefix`, `StringPrefixDoesNotCover`).
- The byte budget holds for every positive limit but `u64::MAX`
  (`BudgetKeptIffBelowMax`).
- A file can be validated in another state than it was indexed in exactly when it
  was indexed without a source key and without a content hash
  (`ValidatesAsIndexedIffKeyed`), which takes a key that cannot be read
  (`AgreementIffReliable`).
- A localisation entry folded in is not always the one a full build would pick
  (`BuildAndMerge`, `MergedEntryDiffers`).
- An index folded in must be unscoped, or an entry may outlive its key
  (`LocIndex.MergeFrom`, `ScopedMergeLosesKeys`).

## Model

| member | source | states |
|---|---|---|
| `TypeIndexes.TypeIndex.constructor` | cwtools-rs/crates/index/src/type_index.rs:602-604 | a new index agrees with the empty history |
| `TypeIndexes.TypeIndex.Push` | cwtools-rs/crates/index/src/type_index.rs:777-797 | one push keeps all four tables in agreement with the ledger that has this one contribution appended; the workspace count of its name goes up by one unless it is a base-game push, and no other count moves |
| `TypeIndexes.TypeIndex.MergeFrom` | cwtools-rs/crates/index/src/type_index.rs:757-799 | merging a file appends to each type's history exactly its instances in order, each under the file's name and provenance, and every workspace count grows by the instances of that name, or by none for base game; all tables agree again |
| `TypeIndexes.TypeIndex.Merge` | cwtools-rs/crates/index/src/type_index.rs:740-742 | a workspace merge appends the file's instances as workspace contributions, adds exactly them to the workspace counts, and keeps every file to one provenance unless the file is on record as base game |
| `TypeIndexes.TypeIndex.MergeBaseGame` | cwtools-rs/crates/index/src/type_index.rs:749-755 | a base-game merge appends the file's instances as base-game contributions, moves no workspace count, records the file, and keeps every file to one provenance unless the workspace already contributed it |
| `TypeIndexes.TypeIndex.MergeBaseGameWithUris` | cwtools-rs/crates/index/src/type_index.rs:807-847 | merging base-game instances that each carry their own file moves no workspace count, appends each under its own file as base game, records exactly the files named, and keeps one provenance when the workspace contributed none of them |
| `TypeIndexes.TypeIndex.SwapRemoveInstance` | cwtools-rs/crates/index/src/type_index.rs:955-973 | the bucket loses the entry with the last one swapped in, and only the position recorded for the relocated entry's owner is repaired |
| `TypeIndexes.TypeIndex.RemovePositions` | cwtools-rs/crates/index/src/type_index.rs:922-939 | processing one type's positions of the removed file largest first keeps the tables exact for what is still pending, at every step |
| `TypeIndexes.TypeIndex.RemoveFile` | cwtools-rs/crates/index/src/type_index.rs:908-945 | removing a file leaves tables that agree with the history in which it is forgotten, refcounted side indexes included; workspace counts stay exact if and only if no removed file recorded as base game had a workspace definition sharing its name with a survivor |
| `TypeIndexes.TypeIndex.RemoveInstances` | cwtools-rs/crates/index/src/type_index.rs:908-945 | the type-instance part of the same, whose base-game record is dropped only when the file had positions |
| `TypeIndexes.TypeIndex.RebuildPositions` | cwtools-rs/crates/index/src/type_index.rs:882-896 | positions rebuilt from scratch list, for every file and type, exactly the indices it owns |
| `TypeIndexes.TypeIndex.RemoveFiles` | cwtools-rs/crates/index/src/type_index.rs:856-897 | removing a set of files in one pass agrees with the history in which all of them are forgotten, with the same exact condition for workspace counts |
| `TypeIndexes.TypeIndex.Contains` | cwtools-rs/crates/index/src/type_index.rs:609-621 | true exactly when a surviving contribution defines that name under that type, in any case |
| `TypeIndexes.TypeIndex.IsAnyInstance` | cwtools-rs/crates/index/src/type_index.rs:643-650 | true exactly when some plain (non-subtype) type has a surviving definition of the name |
| `TypeIndexes.TypeIndex.WorkspaceDefinitionCount` | cwtools-rs/crates/index/src/type_index.rs:627-640 | the number of surviving workspace contributions of that name, while counts are tracked |
| `TypeIndexes.TypeIndex.InstancesInFile` | cwtools-rs/crates/index/src/type_index.rs:708-729 | as a multiset, the file's surviving instances of plain types, read through the recorded positions |
| `TypeIndexModel.IndexListLargestFirst` | cwtools-rs/crates/index/src/type_index.rs:922-939 | with positions taken largest first, the entry that swap_remove relocates never belongs to the file being removed, and the file's remaining positions stay exact |
| `TypeIndexModel.IndexListRelocated` | cwtools-rs/crates/index/src/type_index.rs:955-973 | for the owner of the relocated entry the old last position is on record, and replacing it by the freed index makes its list exact again |
| `TypeIndexModel.PositionsAfterSwapRemove` | cwtools-rs/crates/index/src/type_index.rs:955-973 | one swap-removal with the repair keeps every file's positions in every type exact |
| `TypeIndexModel.ReplayIsSurvivors` | cwtools-rs/crates/index/src/type_index.rs:740-973 | replaying merges and removals leaves, per type and in merge order, exactly the contributions no later removal forgot |
| `TypeIndexModel.ForgetAllIsForgetEach` | cwtools-rs/crates/index/src/type_index.rs:856-973 | removing a set of files at once is removing them one after the other, for every list that names each of them at least once, in any order |
| `TypeIndexModel.WorkspaceAfterRemoval` | cwtools-rs/crates/index/src/type_index.rs:514-537 | after releasing every removed entry under the base-game record, workspace counts are exact if and only if no mixed-provenance definition shares its name with a survivor of the same type |
| `TypeIndexModel.OneProvenanceSuffices` | cwtools-rs/crates/index/src/type_index.rs:807-973 | a ledger in which no file was merged both ways never meets that case |
| `TypeIndexes.SurvivorsDetermineTables` | cwtools-rs/crates/index/src/type_index.rs:740-973 | two indexes in which the same instances survive have equal name counts, equal per-type totals, the same buckets as multisets, and every file reads the same instances through its positions; with the same provenance and exact workspace counts those are equal too: an edited index is what a rebuild from its survivors gives |
| `TypeIndexes.MixedProvenanceDrifts` | cwtools-rs/crates/index/src/type_index.rs:757-945 | a concrete history, one file merged as workspace and again as base game, after whose removal a workspace count is wrong |
| `RefcountIndexes.NamedValueIndex.MergeFile` | cwtools-rs/crates/index/src/dynamic_values.rs:49-68 | a file's list is replaced by exactly the items given, as a multiset, other files' lists are untouched and the refcounts are exact again |
| `RefcountIndexes.NamedValueIndex.RemoveFile` | cwtools-rs/crates/index/src/dynamic_values.rs:71-83 | exactly the file's list goes and the refcounts are exact for what is left |
| `RefcountIndexes.NamedValueIndex.Contains` | cwtools-rs/crates/index/src/dynamic_values.rs:95-99 | true exactly when some file currently lists the value under the name |
| `RefcountIndexes.DeterminedByFiles` | cwtools-rs/crates/index/src/dynamic_values.rs:44-83 | the refcount table is determined by the files' current lists as multisets, whatever history led to them |
| `RefcountIndexes.ScriptedLocIndex.MergeFile` | cwtools-rs/crates/index/src/type_index.rs:451-463 | replaces the file's names, lower-cased, and drops the file when there are none |
| `RefcountIndexes.ScriptedLocIndex.RemoveFile` | cwtools-rs/crates/index/src/type_index.rs:466-473 | drops exactly the file's names; base-game names stay |
| `RefcountIndexes.ScriptedLocIndex.Contains` | cwtools-rs/crates/index/src/type_index.rs:491-494 | true exactly when some file or the base game defines the name, in any case |
| `Wildcards.GlobGreedy` | cwtools-rs/crates/file_manager/src/file_manager.rs:1394-1423 | the two-pointer matcher that forgets every star but the last returns exactly the recursive meaning of * and ?, and terminates by (text left after the mark, pattern left) |
| `Wildcards.LatestStarSuffices` | cwtools-rs/crates/file_manager/src/file_manager.rs:1394-1423 | why forgetting is safe: a match resuming from an earlier star exists if and only if one resuming from the latest star does |
| `Wildcards.StarSpans` | cwtools-rs/crates/file_manager/src/file_manager.rs:1394-1423 | a star stands for any run of elements, the empty one included |
| `Wildcards.GreedyBacktracks` | cwtools-rs/crates/file_manager/src/file_manager.rs:1394-1423 | on a mismatch the matcher's state stays equivalent when the latest star takes one more element, and without a star there is no match |
| `Wildcards.GlobMatch` | cwtools-rs/crates/file_manager/src/file_manager.rs:1209-1229 | the literal, *suffix and prefix* fast paths and the general matcher all return the meaning of the pattern |
| `Wildcards.LiteralFastPath` | cwtools-rs/crates/file_manager/src/file_manager.rs:1210-1214 | a pattern without wildcards means equality |
| `Wildcards.SuffixFastPath` | cwtools-rs/crates/file_manager/src/file_manager.rs:1215-1220 | * followed by a literal means ends-with |
| `Wildcards.PrefixFastPath` | cwtools-rs/crates/file_manager/src/file_manager.rs:1221-1226 | a literal followed by * means starts-with |
| `Wildcards.SegmentsGreedy` | cwtools-rs/crates/file_manager/src/file_manager.rs:1365-1392 | the segment matcher returns exactly the meaning in which ** spans any run of segments and any other segment is a name glob |
| `Wildcards.PathGlobMatch` | cwtools-rs/crates/file_manager/src/file_manager.rs:1349-1360 | a path pattern is split on both separators, its leading empty segment dropped and its trailing one read as ** |
| `Wildcards.IgnoreGlobMatch` | cwtools-rs/crates/file_manager/src/file_manager.rs:1264-1270 | a pattern with a separator addresses the relative path, any other the name |
| `Wildcards.TrailingSeparatorIsDoubleStar` | cwtools-rs/crates/file_manager/src/file_manager.rs:1349-1360 | for every pattern a trailing separator means a final ** |
| `Wildcards.LeadingSeparatorAnchors` | cwtools-rs/crates/file_manager/src/file_manager.rs:1349-1360 | a leading separator only says that matching starts at the root, where it starts anyway |
| `Wildcards.DoubleStarSpansSegments` | cwtools-rs/crates/file_manager/src/file_manager.rs:1365-1392 | ** followed by a rest matches exactly when the rest matches some suffix of the segments |
| `Wildcards.WithoutDoubleStarDepthAgrees` | cwtools-rs/crates/file_manager/src/file_manager.rs:1365-1392 | without ** a pattern matches segment for segment, so depths must agree |
| `ScanBytes.DoInv` | cwtools-rs/crates/file_manager/src/file_manager.rs:387-405 | one step of one thread keeps the counter equal to the sum of accepted reservations and within the limit; the exchanged sum never exceeds it, and a rejection is justified when it is made, however stale the load |
| `ScanBytes.AfterInv` | cwtools-rs/crates/file_manager/src/file_manager.rs:387-405 | the same over every schedule of every set of threads, spurious exchange failures and stale loads included |
| `ScanBytes.SaturationHidesOverflow` | cwtools-rs/crates/file_manager/src/file_manager.rs:387-405 | with a limit of u64::MAX a schedule exists that wraps the counter to zero |
| `ScanBytes.BudgetKeptIffBelowMax` | cwtools-rs/crates/file_manager/src/file_manager.rs:374-405 | for a positive limit the budget is kept in all runs if and only if the limit is below u64::MAX |
| `ParseCache.DoInv` | cwtools-rs/crates/driver/src/lib.rs:117-208 | every step of an editor, a pruner or any worker keeps the protocol's invariant |
| `ParseCache.AfterInv` | cwtools-rs/crates/driver/src/lib.rs:117-208 | the invariant holds after every interleaving of any length |
| `ParseCache.EntriesAreSound` | cwtools-rs/crates/cache/src/workspace.rs:550-645 | in every reachable state an entry under a path key holds the parse of that version's text, and one under a content key the parse of that text, torn read or not |
| `ParseCache.KeyedLoadsAreCurrent` | cwtools-rs/crates/cache/src/workspace.rs:597-610 | a load that returns with a key, cache hit or fresh parse, is the parse of what the source was at some instant inside the call |
| `ParseCache.ContentLoadsMatchTheirText` | cwtools-rs/crates/cache/src/workspace.rs:647-661 | a load keyed by content returns the parse of exactly the text it was keyed by |
| `ParseCache.ValidatedIsIndexed` | cwtools-rs/crates/driver/src/lib.rs:880-935 | what validation checks is what was indexed, unless the indexed load carried neither fingerprint |
| `ParseCache.ValidatedVersionIsIndexedVersion` | cwtools-rs/crates/driver/src/lib.rs:880-935 | when key probes never fail, a validated file was parsed from exactly the indexed version, and the source was at that version at some instant of the validation |
| `ParseCache.UnreliableKeysDisagree` | cwtools-rs/crates/driver/src/lib.rs:179-207 | when key probes can fail, a concrete run validates a parse that differs from the indexed one |
| `ParseCache.ValidatesAsIndexedIffKeyed` | cwtools-rs/crates/driver/src/lib.rs:880-935 | for each indexed load in each reachable state: all its later validations, in every continuation, are bound to agree with it if and only if its recorded fingerprint holds a source key or a content hash |
| `ParseCache.UnkeyedValidatesAsAnything` | cwtools-rs/crates/driver/src/lib.rs:880-935 | a file recorded with neither can validate as any text at all: an edit, a first check that finds no key where none was recorded, and a load whose confirming probe fails, with the cache on or off |
| `ParseCache.AgreementIffReliable` | cwtools-rs/crates/driver/src/lib.rs:880-935 | over all runs, index and validation agree if and only if key probes never fail |
| `DirWalk.WalkDir` | cwtools-rs/crates/file_manager/src/file_manager.rs:1057-1138 | the walk adds the first files of the unbounded listing, every directory in order of its names, as many as the budget allows; an unreadable directory fails only at the top |
| `DirWalk.WalkIgnoresReadDirOrder` | cwtools-rs/crates/file_manager/src/file_manager.rs:1029-1078 | trees with the same files and directories, in whatever order read_dir gives them at every level, give the same walk under every budget |
| `FileTrees.SameTreeSameOrder` | cwtools-rs/crates/file_manager/src/file_manager.rs:1070-1078 | sorting every directory by name takes that order away |
| `DirWalk.WalkWorkspaceFiles` | cwtools-rs/crates/file_manager/src/file_manager.rs:969-1027 | the workspace walk returns the first min(N, total) files of the unbounded workspace listing |
| `DirWalk.RelativeUnread` | cwtools-rs/crates/file_manager/src/file_manager.rs:976-1009 | without path globs the relative path never matters, so not building it is harmless |
| `DirWalk.IsIgnoredLogicalPath` | cwtools-rs/crates/file_manager/src/file_manager.rs:1273-1289 | baseline and extra file globs against the last segment and the slashed path |
| `DirWalk.IsIgnoredPath` | cwtools-rs/crates/file_manager/src/file_manager.rs:1304-1339 | the path predicate: an ignored file, or a directory glob matching some directory above it by name or by location |
| `DirWalk.ListingYields` | cwtools-rs/crates/file_manager/src/file_manager.rs:1057-1138 | an item is listed exactly when some path in the tree leads to a regular file, passes no skipped directory and is accepted as that item |
| `DirWalk.WalkAgreesWithPredicate` | cwtools-rs/crates/file_manager/src/file_manager.rs:969-1339 | a path of plain names is listed if and only if it is a file, its extension is requested, no directory above it is engine-excluded and the path predicate does not ignore it |
| `DirWalk.AgreeExactlyOutsideEngineDirs` | cwtools-rs/crates/file_manager/src/file_manager.rs:1300-1339 | walk and predicate disagree on a requested file exactly when it lies under an engine-excluded directory and is not otherwise ignored, contrary to the predicate's documentation |
| `DirWalk.BinFileIsUnlistedAndUnignored` | cwtools-rs/crates/file_manager/src/file_manager.rs:1300-1339 | bin/a.txt is such a file: in the tree, requested, not ignored and not listed |
| `MultiMod.Collector.CollectFiles` | cwtools-rs/crates/file_manager/src/file_manager.rs:916-955 | one directory's files are folded into the best-origin map, as many as the remaining budget allows |
| `MultiMod.DiscoverFiles` | cwtools-rs/crates/file_manager/src/file_manager.rs:841-914 | under any budget every listed file is a regular file of some level, reached through entered directories and named by include directory and path, that no mod above replaces; when the budget holds all files, a path is listed from a level if and only if that level has it and no mod above has or replaces it |
| `MultiMod.ListIsUnique` | cwtools-rs/crates/file_manager/src/file_manager.rs:908-913 | the sorted result does not depend on the order in which the hash map gave its paths |
| `MultiMod.BestIsLayered` | cwtools-rs/crates/file_manager/src/file_manager.rs:841-914 | picking the highest priority per path and suppressing afterwards equals laying source over source, each first deleting what it replaces |
| `MultiMod.LayeredAt` | cwtools-rs/crates/file_manager/src/file_manager.rs:831-841 | a path's file comes from the highest source that has it, provided no source above replaces it |
| `MultiMod.FoldOverlays` | cwtools-rs/crates/file_manager/src/file_manager.rs:946-953 | files of a higher priority overlay what is there, and within one source the first to claim a path keeps it |
| `MultiMod.SuppressReplaced` | cwtools-rs/crates/file_manager/src/file_manager.rs:879-904 | after all mods, exactly the files covered by a strictly higher mod's replace_path are gone |
| `MultiMod.CoversIsSegmentPrefix` | cwtools-rs/crates/file_manager/src/file_manager.rs:888-901 | a replace_path covers a file exactly when its segments are a prefix of the file's, case aside |
| `MultiMod.StringPrefixCoversAtBoundary` | cwtools-rs/crates/file_manager/src/file_manager.rs:836-838 | a replace_path that is a string prefix of a path, case aside, covers it if and only if it ends where one of the path's segments does |
| `MultiMod.StringPrefixDoesNotCover` | cwtools-rs/crates/file_manager/src/file_manager.rs:836-838 | common/idea does not cover common/ideas/x.txt, which it is a string prefix of |
| `FusedWalk.Sink.ExtractBlock` | cwtools-rs/crates/index/src/variables.rs:431-483 | with a var-like child, exactly the var-like children that carry a name define, each with the first non-empty value, amount or add; without one, exactly the leaves whose key is not skipped, by key and value; each at its position and in order |
| `FusedWalk.Sink.WalkSetVariables` | cwtools-rs/crates/index/src/variables.rs:377-409 | the set-variable walk lists every defining block's variables in pre-order |
| `FusedWalk.Sink.ValueSetLeaf` | cwtools-rs/crates/index/src/dynamic_values.rs:305-396 | one leaf writes its scalar member, its bound fields' members or its first named child's member, and nothing for the variable namespace |
| `FusedWalk.Sink.WalkValueSets` | cwtools-rs/crates/index/src/dynamic_values.rs:273-292 | the value-set walk writes every leaf's members in pre-order and does not enter variable blocks |
| `FusedWalk.Sink.WalkBoth` | cwtools-rs/crates/index/src/collect.rs:519-578 | the fused walk yields exactly what the two walks yield, in the same order, for every combination of their switches |
| `FusedWalk.Sink.CollectSetVariableNames` | cwtools-rs/crates/index/src/variables.rs:362-371 | the names of the set-variable walk, appended in order |
| `FusedWalk.Sink.CollectVariablesAndValueSets` | cwtools-rs/crates/index/src/collect.rs:492-516 | the fused collector's gates lose nothing: its names and sets are those of both walks whether or not effects or rules are empty |
| `FusedWalk.CollectValueSetMembers` | cwtools-rs/crates/index/src/dynamic_values.rs:260-271 | members of a file written by the value-set walk alone |
| `FusedWalk.DefsComeFromBlocks` | cwtools-rs/crates/index/src/variables.rs:377-409 | a variable is listed exactly when some child of a block with a defining key, at any depth, defines it |
| `FusedWalk.MembersComeFromLeaves` | cwtools-rs/crates/index/src/dynamic_values.rs:273-292 | a member is written exactly by a leaf that no variable block hides, whose key names its set or whose bound field does, and whose unquoted text up to the first @ is its name |
| `FusedWalk.NoVariableMembers` | cwtools-rs/crates/index/src/dynamic_values.rs:327-366 | no member is ever stored under the variable namespace |
| `FusedWalk.PushAllAt` | cwtools-rs/crates/index/src/dynamic_values.rs:159-165 | each namespace receives exactly its own members in the order they were met |
| `StringTables.StringTable.Intern` | cwtools-rs/crates/string_table/src/string_table.rs:150-176 | the same text always gets the same token, older tokens keep their meaning, and the lower half is the same as that of any earlier text exactly when lower-casing makes the same of both |
| `StringTables.StringTable.InternBatch` | cwtools-rs/crates/string_table/src/string_table.rs:187-197 | one token per string in order, each the one interning that string alone gives |
| `StringTables.IssuedResolves` | cwtools-rs/crates/string_table/src/string_table.rs:310-354 | an issued token resolves to its text, and its lower half to what lower-casing makes of it |
| `CacheConvert.CollectStrings` | cwtools-rs/crates/cache/src/convert.rs:67-74 | the strings in traversal order, leaves first |
| `CacheConvert.RebuildValue` | cwtools-rs/crates/cache/src/convert.rs:187-199 | a value is rebuilt with the tokens of its own strings, and the batch left is that of the strings still to come |
| `CacheConvert.RebuildLeaves` | cwtools-rs/crates/cache/src/convert.rs:80-99 | leaves are rebuilt one for one without the token batch running short |
| `CacheConvert.ValidateChildBounds` | cwtools-rs/crates/cache/src/convert.rs:134-164 | true exactly when every child reference of the root, leaves and leaf values is in bounds |
| `CacheConvert.ArchivedToArena` | cwtools-rs/crates/cache/src/convert.rs:63-126 | loading succeeds if and only if every child reference is in bounds, uses the token batch up exactly, and rebuilds every element of the file |
| `CacheConvert.SoundAlike` | cwtools-rs/crates/cache/src/convert.rs:9-29 | saving neither breaks nor mends a child reference |
| `CacheConvert.SaveLoadedIsSame` | cwtools-rs/crates/cache/src/convert.rs:9-126 | saving what was loaded gives the same file back |
| `CacheConvert.SavedAlikeIsSame` | cwtools-rs/crates/cache/src/convert.rs:9-29 | two arenas saved as the same file have the same children, values, operators, ranges and comments, and tokens of the same text |
| `CacheConvert.SameInOneTable` | cwtools-rs/crates/cache/src/convert.rs:63-78 | within one string table such arenas are equal token for token |
| `CacheConvert.SaveAndLoad` | cwtools-rs/crates/cache/src/convert.rs:9-126 | saving and loading succeeds exactly for sound arenas and then gives the arena back, by text in any table and identically in its own |
| `PathSegments.PathContainsSegment` | cwtools-rs/crates/index/src/path_match.rs:14-36 | for a non-empty needle the scan is true exactly when its segments occur consecutively in the path's; an empty needle is always found |
| `PathSegments.BoundedIsRun` | cwtools-rs/crates/index/src/path_match.rs:14-36 | a separator-bounded occurrence exists exactly when the segment lists nest |
| `PathSegments.DirMatchesPattern` | cwtools-rs/crates/index/src/path_match.rs:45-54 | strict matching means the pattern's segments are the last of the directory's; loose matching is the scan |
| `PathSegments.StrictImpliesLoose` | cwtools-rs/crates/index/src/path_match.rs:38-54 | whatever strict accepts loose accepts, on every input |
| `PathSegments.EmptyNeedleNeedNotBeARun` | cwtools-rs/crates/index/src/path_match.rs:14-17 | the one input on which the scan is wider than segment containment |
| `ScopeTables.IdOfIsMeaning` | cwtools-rs/crates/game/src/scope_registry.rs:82-102 | the as-is lookup with its upper-case fallback equals looking every name up trimmed and case-folded |
| `ScopeTables.UnresolvedNamesAreNew` | cwtools-rs/crates/game/src/scope_registry.rs:299-324 | inserting names none of which resolved takes no resolvable name away |
| `ScopeTables.ClosedSetHoldsReachable` | cwtools-rs/crates/game/src/scope_registry.rs:114-134 | a set closed under parents holds everything reachable from its members |
| `ScopeRegistries.ScopeRegistry.IsSubscopeOrEq` | cwtools-rs/crates/game/src/scope_registry.rs:114-134 | true exactly when the scopes are equal, either is ANY or the target is reachable over parents; it terminates on cyclic graphs by unseen ids, then stack size |
| `ScopeRegistries.ScopeRegistry.DeclareScopes` | cwtools-rs/crates/game/src/scope_registry.rs:173-202 | ids are handed out in order to ordinary scopes only, and every name means the input that declared it last |
| `ScopeRegistries.ScopeRegistry.ResolveParents` | cwtools-rs/crates/game/src/scope_registry.rs:204-217 | a scope's parents are what the names of the last input denoting it resolve to, those that resolve and in order |
| `ScopeRegistries.ScopeRegistry.DeclareLinks` | cwtools-rs/crates/game/src/scope_registry.rs:219-249 | a link key has the last link of that name: it leads to what the output name resolves to, or nowhere when there is none or it is unknown, and is valid in one id per input name, ANY for an unknown one; the prefix links are those of the inputs with a prefix, in order |
| `ScopeRegistries.ScopeRegistry.SynthesizeIterators` | cwtools-rs/crates/game/src/scope_registry.rs:251-273 | every word-like spelling gets its four iterators, an existing link of that name stays, and a new one targets a scope with that spelling |
| `ScopeRegistries.ScopeRegistry.AdoptScopes` | cwtools-rs/crates/game/src/scope_registry.rs:296-324 | each hardcoded scope is mapped to a known id that one of its spellings then names, config names keep their ids and new ids are fresh |
| `ScopeRegistries.ScopeRegistry.AdoptParents` | cwtools-rs/crates/game/src/scope_registry.rs:334-347 | parents change exactly for scopes without any to which a hardcoded scope with some is mapped |
| `ScopeRegistries.ScopeRegistry.AdoptLinks` | cwtools-rs/crates/game/src/scope_registry.rs:349-361 | config's links stay; every other hardcoded link comes over with each of its ids, target and valid scopes, replaced by the one it stands for |
| `ScopeRegistries.ScopeRegistry.AdoptPrefixLinks` | cwtools-rs/crates/game/src/scope_registry.rs:362-375 | config's prefix links stay in front and the first hardcoded one of every missing prefix follows |
| `ScopeRegistries.ScopeRegistry.FromConfig` | cwtools-rs/crates/game/src/scope_registry.rs:166-283 | an empty config gives the hardcoded tables; any other gives config tables that follow the inputs name by name and link by link, closed, and their backfill, closed whenever the hardcoded tables are |
| `ScopeRegistries.IdsAreDistinct` | cwtools-rs/crates/game/src/scope_registry.rs:173-190 | no two ordinary scopes share an id and none takes a sentinel's |
| `ScopeRegistries.ConfigNamesKept` | cwtools-rs/crates/game/src/scope_registry.rs:290-324 | every name the config resolved keeps its id |
| `ScopeRegistries.ConfigLinksKept` | cwtools-rs/crates/game/src/scope_registry.rs:349-375 | every link key and prefix link the config defined is unchanged |
| `ScopeRegistries.ParentsChangeExactlyForNamesakes` | cwtools-rs/crates/game/src/scope_registry.rs:297-347 | with hardcoded spellings that are trimmed and belong to one scope each, a config scope's definition changes if and only if config gave it no parents and it is what the first spelling config resolves means, for some hardcoded scope that has parents |
| `ScopeRegistries.DonorsAreNamesakes` | cwtools-rs/crates/game/src/scope_registry.rs:297-347 | on any hardcoded tables: a hardcoded scope with parents gives them to the config scope its own name means, and only to a scope config calls by one of its spellings |
| `ScopeRegistries.HardcodedScopesResolve` | cwtools-rs/crates/game/src/scope_registry.rs:276-324 | every hardcoded scope with trimmed spellings is, afterwards, what one of them means |
| `ScopeRegistries.SubscopesKept` | cwtools-rs/crates/game/src/scope_registry.rs:114-347 | backfilling takes no subscope relation away |
| `ScopeRegistries.BackfillIsClosed` | cwtools-rs/crates/game/src/scope_registry.rs:290-375 | no id in the merged names, parents, links or prefix links dangles |
| `Eu4Scopes.Eu4Apart` | cwtools-rs/crates/game/src/constants.rs:216-290 | EU4's spellings are trimmed and no two of its scopes share one, case aside |
| `Eu4Scopes.OnlyTheTradeNodeGains` | cwtools-rs/crates/game/src/scope_registry.rs:334-347 | with EU4's table, the only one in which a scope has parents, a config scope's definition changes if and only if config gave it no parents and it is what the first of Trade Node, trade_node, tradenode that config resolves means |
| `Eu4Scopes.ConfigScopeGainsParents` | cwtools-rs/crates/game/src/scope_registry.rs:334-347 | a config that names EU4's trade node alone and gives it no parents ends with the province as its parent, contrary to the comment |
| `LocIndexes.LocIndex.BuildScoped` | cwtools-rs/crates/localization/src/loc_index.rs:49-94 | a key is in a language's set or the union exactly when an entry for it is written there, has a representative exactly when one is written with commands of either kind, in English if the key is at all, and a language is listed exactly when it has a file and is allowed |
| `LocIndexes.LocIndex.AddEntries` | cwtools-rs/crates/localization/src/loc_index.rs:62-80 | a key with English is represented by the last command-bearing English entry or by none; any other by the first command-bearing entry, however languages interleave |
| `LocIndexes.LocIndex.MergeCachedKeys` | cwtools-rs/crates/localization/src/loc_index.rs:111-127 | each language gains exactly its cached keys, new allowed languages are noted in order, and the union tracks the sets |
| `LocIndexes.LocIndex.MergeFrom` | cwtools-rs/crates/localization/src/loc_index.rs:139-172 | sets, union and languages grow by the other index's listed languages; entry keys stay within the union if and only if each of the other's keys is indexed here or in a language it lists |
| `LocIndexes.LocIndex.MissingSyncedLanguages` | cwtools-rs/crates/localization/src/loc_index.rs:183-194 | the languages with data that lack the key, each at its place in the order of the language list |
| `LocIndexes.BuildAndMerge` | cwtools-rs/crates/localization/src/loc_index.rs:49-172 | folding in an unscoped index gives the key sets, union and languages of building over both file lists; a key's representative is the full build's if and only if the other index has no better claim or its entry reads alike, and else it is that of the first list alone |
| `LocIndexes.RepresentativeExactly` | cwtools-rs/crates/localization/src/loc_index.rs:62-80 | the same condition for one key: no English bearing entry against English here and no English at all against an entry here, or the last English entry equal to the one kept |
| `LocIndexes.MergedEntryDiffers` | cwtools-rs/crates/localization/src/loc_index.rs:62-80 | two one-entry file lists whose merged index and full build have the same keys and different entries for one |
| `LocIndexes.EnglishNeverAdopts` | cwtools-rs/crates/localization/src/loc_index.rs:140-151 | a key held in English keeps its own entry, or none |
| `LocIndexes.ScopedMergeLosesKeys` | cwtools-rs/crates/localization/src/loc_index.rs:130-172 | folding in a scoped index can leave an entry whose key is not in the union |
| `ConfigText.Reader.PassTrivia` | cwtools-rs/crates/cli/src/config.rs:521-535 | white space and comments are passed, the line counted along |
| `ConfigText.Reader.TakeKey` | cwtools-rs/crates/cli/src/config.rs:547-572 | the longest run of key characters, refused when empty, dotted or followed by a character that cannot end a key |
| `ConfigText.Reader.TakeString` | cwtools-rs/crates/cli/src/config.rs:608-638 | the quoted text with its escapes, or the error at the line the source reports |
| `ConfigText.Reader.TakeArray` | cwtools-rs/crates/cli/src/config.rs:640-679 | the entries up to the bracket; each is the string that opens where the trivia behind the bracket or the comma before it ends, on the line of that place |
| `ConfigText.Reader.TakeValue` | cwtools-rs/crates/cli/src/config.rs:574-606 | a string, array with the places of its strings, boolean or the error for anything else |
| `ConfigText.Reader.TakeEntry` | cwtools-rs/crates/cli/src/config.rs:701-717 | one entry or the source's error; the key stands where the trivia behind the entry before it ends, then come the equals sign, the value with its strings, and nothing but blanks up to a comment or the line's end |
| `ConfigText.Parse` | cwtools-rs/crates/cli/src/config.rs:682-718 | reads exactly what the specification function says; every key is the token looked for from the end of the entry before it, on the line of its place, 1 plus the newlines before it, keys are on ever later lines, and behind the last entry there is only trivia |
| `ConfigText.BumpTracks` | cwtools-rs/crates/cli/src/config.rs:501-507 | reading one character keeps the line equal to 1 plus the newlines before it |
| `ConfigPrinter.TriviaPassed` | cwtools-rs/crates/cli/src/config.rs:521-535 | any mix of white space and newline-ended comments is skipped and its newlines counted |
| `ConfigPrinter.BasicReads` | cwtools-rs/crates/cli/src/config.rs:608-638 | an escaped basic string of any content reads back |
| `ConfigPrinter.ArrayReads` | cwtools-rs/crates/cli/src/config.rs:640-679 | an array in any layout reads back with every entry on its own line |
| `ConfigPrinter.SpelledReads` | cwtools-rs/crates/cli/src/config.rs:682-718 | any well-formed spelling (comments, blank lines, CRLF, either quote, escapes or raw characters, multi-line arrays, with or without a final newline) reads back to its keys, values, entries and lines |
| `ConfigPrinter.FileReads` | cwtools-rs/crates/cli/src/config.rs:682-692 | the same behind any number of byte-order marks |
| `ConfigGrammar.LinesTaken` | cwtools-rs/crates/cli/src/config.rs:682-718 | from every text that reads, well-formed lines are recovered that spell it character for character |
| `ConfigGrammar.AcceptsExactlySpellings` | cwtools-rs/crates/cli/src/config.rs:682-718 | a file is accepted if and only if it is byte-order marks and a well-formed spelling; however it is taken apart into lines, the entries and their line numbers are those of the lines |
| `ConfigPrinter.PrintedReads` | cwtools-rs/crates/cli/src/config.rs:496-718 | every list of settings with valid keys survives canonical printing and reading, with LF and with CRLF |
| `RefcountIndexes.ScriptedLocIndex.SetVanillaNames` | cwtools-rs/crates/index/src/type_index.rs:477-483 | afterwards a name is known exactly when a file lists it or it is one of the given names, non-empty and up to case: nothing of the earlier base-game set remains |
| `StringTables.TokensCompareTexts` | cwtools-rs/crates/string_table/src/string_table.rs:25-32 | two tokens are equal exactly when their texts are, and their lower halves exactly when lower-casing makes the same of both texts |
| `ScopeTables.SpellingDoesNotMatter` | cwtools-rs/crates/game/src/scope_registry.rs:78-102 | two spellings equal up to case and surrounding blanks resolve alike |
| `ScopeTables.SatisfiesTransitive` | cwtools-rs/crates/game/src/scope_registry.rs:109-134 | satisfying composes, except through the wildcard |
| `DirWalk.SkipsDir` | cwtools-rs/crates/file_manager/src/file_manager.rs:1090-1112 | a directory is skipped exactly by an excluded name in any case, one of the walk's own or the caller's directory globs by name or location, or at root level a root-only name |
| `MultiMod.CollectSources` | cwtools-rs/crates/file_manager/src/file_manager.rs:864-878 | sources and include directories are collected in order under one budget, each giving exactly the files of `SourceHitsAre` |
| `CacheConvert.CheckChildList` | cwtools-rs/crates/cache/src/convert.rs:149-164 | true exactly when every reference of the list is in bounds |
| `CacheConvert.NextToken` | cwtools-rs/crates/cache/src/convert.rs:220-225 | the next token is that of the next pending string; the batch never runs short |
| `CacheConvert.RebuildLeafValues` | cwtools-rs/crates/cache/src/convert.rs:99-109 | leaf values are rebuilt one for one and leave no token over |
| `LocIndexes.LocIndex.AddKeys` | cwtools-rs/crates/localization/src/loc_index.rs:54-61 | every key of a file with a language, lower-cased, joins its language's set and the union |
| `LocIndexes.LanguagesOf` | cwtools-rs/crates/localization/src/service.rs:170-180 | exactly the languages with a file, none twice, each placed by its first file |
| `ConfigText.Reader.Next` | cwtools-rs/crates/cli/src/config.rs:501-507 | one character is taken and the line counted |
| `ConfigText.Reader.PassEndOfLine` | cwtools-rs/crates/cli/src/config.rs:537-545 | only blanks may stand before a newline, a comment or the end of the text |
| `ConfigText.Reader.TakeWord` | cwtools-rs/crates/cli/src/config.rs:594-606 | the bare word up to a newline, comment, comma or bracket, blanks behind it cut off |
| `ScopeRegistries.ScopeRegistry.CollectAliases` | cwtools-rs/crates/game/src/scope_registry.rs:254-263 | exactly the word-like spellings of all scopes, lower-cased |
| `Wildcards.GlobMeans` | cwtools-rs/crates/file_manager/src/file_manager.rs:1394-1423 | by its first character a pattern leaves some end of the text to the rest for *, takes exactly one character of any kind for ?, and that very character otherwise |
| `Wildcards.QuestionMarkIsOneCharacter` | cwtools-rs/crates/file_manager/src/file_manager.rs:1407-1410 | a?.txt matches ab.txt and not a.txt |
| `Wildcards.SegmentMatchesOne` | cwtools-rs/crates/file_manager/src/file_manager.rs:1365-1392 | a segment other than ** is a name glob for exactly one segment, and no segments match none |
| `Wildcards.PathPatternMatchesSegments` | cwtools-rs/crates/file_manager/src/file_manager.rs:1264-1270 | a pattern of several segments, none empty at either end, is matched segment by segment against the relative path, whatever the name |
| `Wildcards.SkipFileIsIgnored` | cwtools-rs/crates/file_manager/src/file_manager.rs:1264-1270 | **/skip.txt ignores skip.txt at the root and below a directory |
| `MultiMod.TreeHitsAre` | cwtools-rs/crates/file_manager/src/file_manager.rs:916-955 | below a directory exactly the regular files are collected that are reached through directories entered, each under the directory's path, a slash and its own, with the source's priority |
| `MultiMod.SourceHitsAre` | cwtools-rs/crates/file_manager/src/file_manager.rs:864-878 | a source gives exactly the files it has below the include directories asked for, named by include directory (nothing for .) and path, under their forward-slash spelling |
| `MultiMod.ListedAreWinners` | cwtools-rs/crates/file_manager/src/file_manager.rs:841-914 | a layering lists a path from a level exactly when that level has it and no mod above has or replaces it |
| `MultiMod.ReplacesByNames` | cwtools-rs/crates/file_manager/src/file_manager.rs:888-901 | a replace_path of names, with either separator and any separators around it, covers exactly the files whose leading segments are those names, case aside |
| `MultiMod.CommonFileIsFound` | cwtools-rs/crates/file_manager/src/file_manager.rs:947-947 | a.txt in the include directory common is common/a.txt, and in . it is a.txt |
| `FusedWalk.BlockMeans` | cwtools-rs/crates/index/src/variables.rs:431-483 | the same of every block as a value: its definitions are those of its defining children, in order |
| `FusedWalk.ShorthandDefinesItsKey` | cwtools-rs/crates/index/src/variables.rs:464-482 | { my_var = 5 } defines my_var with value 5 and { value = 5 } nothing |
| `FusedWalk.OuterBlockFirst` | cwtools-rs/crates/index/src/variables.rs:377-409 | a block's own definitions come before those of the blocks in it |
| `FusedWalk.LeafMembersMean` | cwtools-rs/crates/index/src/dynamic_values.rs:305-396 | a leaf writes exactly: its own text under its key's set; in a block with bindings, each bound field's text under the set its first binding names; without bindings, the first name child's text; never under variable |
| `ScopeRegistries.ConfigLinkLeadsOn` | cwtools-rs/crates/game/src/scope_registry.rs:219-249 | a config link ends as the last link input of its name says, and where it leads its output name still means after the backfill |
| `ScopeRegistries.IteratorLeadsToScope` | cwtools-rs/crates/game/src/scope_registry.rs:251-273 | each of the four iterators over a word-like spelling that one config scope alone has, and no link input names, leads from anywhere to that scope, which is what the spelling means unless it is a reserved word |
| `ScopeRegistries.HardcodedLinkLeadsOn` | cwtools-rs/crates/game/src/scope_registry.rs:349-361 | a hardcoded link that config does not replace leads to what a spelling of its target scope means, and to what that scope's name means wherever the name resolves to the scope |
| `ScopeRegistries.HardcodedNameMeansItExactly` | cwtools-rs/crates/game/src/scope_registry.rs:296-324 | with hardcoded spellings trimmed and belonging to one scope each, a hardcoded scope's name resolves to it if and only if config resolves the name or none of its spellings |
| `ScopeRegistries.AliasAloneLosesTheName` | cwtools-rs/crates/game/src/scope_registry.rs:276-306 | where config has the system as galactic_object alone, System resolves to nothing, contrary to the comment |
| `ScopeRegistries.OwnerLeadsToCountry` | cwtools-rs/crates/game/src/scope_registry.rs:415-447 | with the scopes country and state, owner leads from the state to the country and every_country to the country |
| `LocIndexes.RepresentedExactly` | cwtools-rs/crates/localization/src/loc_index.rs:62-80 | a key has a representative exactly when an entry with commands or Jomini commands is written for it, in English if the key is written in English at all |
| `LocIndexes.JominiCommandsSuffice` | cwtools-rs/crates/localization/src/loc_index.rs:65-68 | an entry with Jomini commands alone represents its key |
| `ParseCache.ReportedChangesHappened` | cwtools-rs/crates/driver/src/lib.rs:880-935 | a report of change is justified: in every reachable state with reliable probes, a worker that reported one saw, at some instant since it began, the source away from the version recorded for the indexed load |
| `ParseCache.UneditedFilesValidate` | cwtools-rs/crates/driver/src/lib.rs:880-935 | from every reachable state whose source is as it was indexed, keyed or by text, there is a run without edits that validates the indexed parse |
| `ParseCache.EntriesAreUsed` | cwtools-rs/crates/cache/src/workspace.rs:550-645 | a cached entry that stands under the key a load looks up is what the load can return without parsing |
| `ParseCache.LoadsAreStored` | cwtools-rs/crates/cache/src/workspace.rs:550-645 | with the cache on, a load that missed can leave its parse as an entry under its key |
| `Text.BeforeMeans` | cwtools-rs/crates/file_manager/src/file_manager.rs:908-913 | the order of names and paths: a proper prefix comes first, and otherwise the first difference decides |
| `Text.TrimCuts` | cwtools-rs/crates/game/src/scope_registry.rs:82-83 | trimming takes the blanks from both ends, all of them and nothing else |
| `ScopeTables.ReservedWords` | cwtools-rs/crates/game/src/scope_registry.rs:84-92 | any, all and none are the wildcard and invalid is the other sentinel, in any case, and no other word is either |
| `ScanBytes.CallsSettle` | cwtools-rs/crates/file_manager/src/file_manager.rs:374-405 | from every state of the protocol every call can end without help from other threads: accepted and counted exactly when it fits, and without a limit accepted and not counted |
| `ScanBytes.OnlyLimitsCount` | cwtools-rs/crates/file_manager/src/file_manager.rs:374-405 | without a limit nothing is counted or refused, only then does a call return unexamined, and a thread whose value is too high for its bytes can only refuse |
| `DirWalk.RequestedMeans` | cwtools-rs/crates/file_manager/src/file_manager.rs:984-987 | a file is asked for exactly when its name is something, a dot and an extension asked for without a dot in it |
| `DirWalk.SeparatorsDoNotMatter` | cwtools-rs/crates/file_manager/src/file_manager.rs:1273-1339 | the path predicate reads every spelling of the separators alike |
| `CacheConvert.StringsInOrder` | cwtools-rs/crates/cache/src/convert.rs:67-74 | leaf by leaf the key and then the leaf's own string, with the bare values' strings behind them |
| `TypeIndexModel.SubtypeKeys` | cwtools-rs/crates/index/src/type_index.rs:643-650 | a subtype's key is a type's name, a dot and a name |
| `ParseCache.NoWorkerIsStuck` | cwtools-rs/crates/driver/src/lib.rs:117-208 | in every reachable state a worker that is not finished can take a step, if its source is there to be probed or probes may fail |
| `ParseCache.ProbesAreAnswered` | cwtools-rs/crates/driver/src/lib.rs:117-208 | whatever a key probe finds, or that it fails, the worker that made it goes on |
| `ParseCache.OnlyValidationsValidate` | cwtools-rs/crates/driver/src/lib.rs:880-935 | in every reachable state, whoever validated a file or reported a change was begun to validate it |
| `ParseCache.CacheOffIsUnused` | cwtools-rs/crates/driver/src/lib.rs:117-208 | with the cache off, no run looks anything up or writes anything |
| `ScanBytes.LoadedSettles` | cwtools-rs/crates/file_manager/src/file_manager.rs:387-405 | the same from the middle of a call, however stale the value the thread holds |
| `ParseCache.ReadsMayBeTorn` | cwtools-rs/crates/driver/src/lib.rs:117-208 | a read over a source that stays put gives its text, and over one that changed meanwhile it may give any |
| `ScopeRegistries.WordCharacters` | cwtools-rs/crates/game/src/scope_registry.rs:254-263 | letters, digits and the underscore make up a word-like spelling, and none of their neighbours does |
| `ConfigText.KeyCharactersAndBlanks` | cwtools-rs/crates/cli/src/config.rs:521-606 | which characters make up keys, blanks and bare words, at the edges of each range |
| `Text.LowerLetters` | cwtools-rs/crates/game/src/scope_registry.rs:96-99 | the 26 upper-case letters are folded and no other character is |
| `ParseCache.OthersMayInterfere` | cwtools-rs/crates/driver/src/lib.rs:117-208 | at every instant any source may be rewritten or deleted and any cache entries pruned |

## Left out

- ParseCache.AgreementIffReliable: that no key probe fails also means that none
  meets a deleted source, whose key cannot be read; runs in which a probe does
  are counted among those with failing probes.
- ParseCache.EntriesAreSound: two settings generations, the settings signature
  and clearing of the cache directory are one cache directory here; hash digests
  are taken as collision-free identifiers.
- MultiMod.DiscoverFiles: include directories are relative and below their root,
  names that `read_dir` gives are non-empty and hold no slash, and the library's
  sort is an insertion sort.
- DirWalk.WalkDir: the library's sort is an insertion sort, and the caller decides
  on files by a pure function of the path.
- TypeIndexes.TypeIndex.RemovePositions: the unstable sort of positions is a
  descending insertion sort.
- FusedWalk.Sink.WalkBoth: children are a tree rather than arena indices, and a
  token is the text it resolves to.
- StringTables.StringTable.Intern: the sharding of the table and its locks; one
  shard is modelled. Lower-casing is any function that keeps empty texts empty
  and others not.
- CacheConvert.ArchivedToArena: the byte layout of the archive; a float is its
  bit pattern and recovered parse errors are not converted.
- ScopeRegistries.ScopeRegistry.FromConfig: the hardcoded table is a parameter;
  overflow of the 32-bit id counter is not modelled.
- LocIndexes.LocIndex.BuildScoped: an entry is its key, that key lower-cased by the
  library, its text and commands.
- Strings are sequences of characters, so byte offsets inside a multi-byte
  character do not arise.
- Eviction order, byte totals and the prune ratio: the pruner of `ParseCache` may
  delete any entries at any time.
- `VarIndex` and its name normalisation, `FileIndex`, definition-site lookups.
- The file filter of command-line discovery beyond globs (size guard, include
  patterns), mod descriptors, encodings.
- Type-instance collection, rule matching and the walks for `@` variables and
  complex enums.
- Meaning, merging and diagnostics of configuration settings once they are read.
- File I/O, logging, report rendering, thread scheduling and the language server.
