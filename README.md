# uzimaru.com shell and filesystem, modelled in Dafny

uzimaru.com is a personal site laid out as a terminal running in the browser. This project models its core in Dafny and proves properties of the model. The modules under `model/` follow the site's own components:

- **Virtual file system** (`VirtualFs`, `ContentLoader`): an in-memory tree of files and directories seeded from bundled content. It has path resolution, `readFile`, `writeFile`, `mkdir`, `remove`, `readDir` and `stat`, each with the error precedence the source uses.
- **Shell front end**, from the Rust `shell` crate (`Lexer`, `ShellParser`, `ShellAst`, `OrderedMap`, `Expander`), and the TypeScript word expansion (`WordExpansion`).
- **Dispatcher** (`DispatchSpec`, `BuiltinSpec`, `ExecSpec`, `Dispatcher`, `ShellInvariant`):
  - the built-ins `cd`, `export`, `pwd`, `clear`, `exit`, `mkdir`, `touch`, `rm`, `mv`, `alias`, `unalias` and `sh`;
  - pipelines and `&&`/`||` lists, and script and shebang execution.
  - `Dispatcher` is the imperative shell class, proved against the functional specification in `BuiltinSpec`/`ExecSpec`.
  - `ShellInvariant` proves that every command keeps the filesystem a well-formed tree.
- **WebAssembly commands** `echo`, `cat`, `touch`, `mkdir`, `mv`, `rm` and `ls` (`CommandCore` and one module per command). They run over a record of filesystem calls.
- **Worker plumbing** (`WasiAdapter`, `StdinBuffer`, `WasmWorker`, `WasmExecutor`): the WASI filesystem adapter over the virtual file system, and the single-slot shared-memory stdin buffer. It also covers the worker's output capture and the executor's request and response protocol.
- **Terminal** (`AnsiParser`, `JsonScan`, `AnsiProcessor`, `Sgr`, `CharWidth`, `ScreenBuffer`, `Terminal`, `Markdown`):
  - the escape-sequence parsers and the SGR style machine;
  - the screen buffer with cursor, scroll and erase, and the line editor with history;
  - the Markdown renderer's block and inline structure.

`Wrappers` holds the `Option`/`Result` types. `Text` holds the string helpers the modules share.

## Model

Only members with an `ensures` clause have a row. The functions that define an operation without one are listed, with the source lines they model, under "Specification functions" below.

| member | source | states |
|---|---|---|
| VirtualFs.Segments | src/filesystem/index.ts:13 | the kept path pieces are never empty and never `.` |
| VirtualFs.NormalizePath | src/filesystem/index.ts:12-23 | the loop that pushes pieces and pops on `..` computes the fold `Normalized` |
| VirtualFs.SegmentsAppend | src/filesystem/index.ts:13 | filtering pieces distributes over concatenation |
| VirtualFs.FoldAppend | src/filesystem/index.ts:15-21 | normalising two groups of pieces is normalising the second from where the first ended |
| VirtualFs.FoldCanonical | src/filesystem/index.ts:15-21 | from a canonical stack, pieces without `/`, `''` or `.` leave a canonical stack |
| VirtualFs.NormalizedCanonical | src/filesystem/index.ts:12-23 | a normalised path never holds an empty, `.` or `..` component, nor a slash inside one |
| VirtualFs.SegmentsAvoid | src/filesystem/index.ts:13 | pieces of a split on `/` hold no `/` |
| VirtualFs.FoldCanonicalPushes | src/filesystem/index.ts:15-21 | canonical pieces are pushed as they are |
| VirtualFs.DotDotAtRoot | src/filesystem/index.ts:16-17 | `..` at the root is dropped: popping an empty stack changes nothing |
| VirtualFs.NormalizeJoined | src/filesystem/index.ts:12-23 | normalising `/` followed by canonical components joined by `/` gives those components back |
| VirtualFs.SegmentsKeepsCanonical | src/filesystem/index.ts:13 | the empty piece before a leading `/` is dropped and canonical pieces are kept |
| VirtualFs.SegmentsCanonical | src/filesystem/index.ts:13 | canonical pieces pass the filter unchanged |
| VirtualFs.SplitJoined | src/filesystem/index.ts:13 | splitting canonical components joined by `/` gives them back |
| VirtualFs.SplitConcat | src/filesystem/index.ts:13 | splitting `a/b` with `a` free of slashes gives `a` and then the pieces of `b` |
| VirtualFs.LookupIsWalk | src/filesystem/index.ts:84-88 | where `resolve` finds a node, the walk of the internal writer reaches the same node |
| VirtualFs.LookupAppend | src/filesystem/index.ts:96-105 | resolving `a + b` is resolving `b` from the node `a` resolves to |
| VirtualFs.LookupFails | src/filesystem/index.ts:98-101 | `resolve` returns null exactly when some step meets a non-directory or a missing child |
| VirtualFs.GetWellFormed | src/filesystem/index.ts:72-74 | a child of a well-formed node is well formed and filed under its own name |
| VirtualFs.SetWellFormed | src/filesystem/index.ts:166 | `children.set(name, node)` with the node's own name keeps the tree well formed |
| VirtualFs.DeleteWellFormed | src/filesystem/index.ts:214 | `children.delete(name)` keeps the tree well formed |
| VirtualFs.ReplaceAt | src/filesystem/index.ts:84-93 | replacing a node below the root keeps the root's name, type and content |
| VirtualFs.ReplaceAtLookup | src/filesystem/index.ts:84-93 | after replacing the node at `dir`, paths under `dir` resolve in the new node, proper ancestors keep their headers and unrelated paths are unchanged |
| VirtualFs.ReplaceAtFirst | src/filesystem/index.ts:84-93 | one level of a replacement: the first component picks the child that is rebuilt |
| VirtualFs.ReplaceAtWellFormed | src/filesystem/index.ts:84-93 | replacing a node by a well-formed one of the same name keeps the tree well formed |
| VirtualFs.ChangeEntry | src/filesystem/index.ts:163-166 | changing one entry of a directory keeps its name, type and content |
| VirtualFs.ChangeEntryLookup | src/filesystem/index.ts:163-166 | after setting or deleting entry `name`, paths through `name` resolve in the new entry (or nowhere), other entries are unchanged |
| VirtualFs.SetEntryHere | src/filesystem/index.ts:147-166 | the parent of a changed entry is the old parent with that one entry changed |
| VirtualFs.SetEntryBelow | src/filesystem/index.ts:147-166 | paths through the changed entry resolve in the new node, or nowhere after a delete |
| VirtualFs.SetEntryElsewhere | src/filesystem/index.ts:147-166 | ancestors keep their headers and unrelated paths resolve as before |
| VirtualFs.SetEntryBesideEntry | src/filesystem/index.ts:147-166 | siblings of the changed entry resolve as before |
| VirtualFs.SetEntryIs | src/filesystem/index.ts:147-166 | changing one entry is replacing its parent by the changed parent |
| VirtualFs.PrefixOfEntry | src/filesystem/index.ts:147-166 | how a path relates to `dir + [name]`: below it, a proper ancestor, or unrelated |
| VirtualFs.SetEntryWellFormed | src/filesystem/index.ts:163-166 | setting a well-formed node under its own name, or deleting, keeps the tree well formed and its root a directory |
| VirtualFs.WalkWellFormed | src/filesystem/index.ts:84-88 | every node reached from a well-formed root is well formed |
| VirtualFs.EntriesOf | src/filesystem/index.ts:118-123 | the listing has one entry per child, in the map's insertion order, with its name and whether it is a directory |
| VirtualFs.EntriesOfSnoc | src/filesystem/index.ts:120-122 | a child added last is listed last |
| VirtualFs.WriteFileErrors | src/filesystem/index.ts:141-168 | `writeFile` refuses the root with permission-denied, then a missing parent with not-found, a parent that is a file with is-file, an existing directory at the name with is-directory, in that order |
| VirtualFs.SetEntryAt | src/filesystem/index.ts:147-166 | after changing the last component of `parts`, paths under it resolve in the new node, ancestors keep headers, the rest is unchanged |
| VirtualFs.WriteFileOnlyTarget | src/filesystem/index.ts:158-167 | a successful write puts a file holding the data at the path, nothing below it, and changes no other path |
| VirtualFs.MkdirErrors | src/filesystem/index.ts:170-195 | `mkdir` fails with not-found for a missing parent and permission-denied for the root or an existing name; success means the path did not exist |
| VirtualFs.MkdirOnlyTarget | src/filesystem/index.ts:190-194 | a successful mkdir puts an empty directory at the path and changes no other path |
| VirtualFs.RemoveErrors | src/filesystem/index.ts:197-216 | `remove` refuses the root with permission-denied and fails with not-found exactly when the path does not resolve |
| VirtualFs.LookupPrefixFails | src/filesystem/index.ts:98-101 | when a path does not resolve, no longer path through it does |
| VirtualFs.RemoveOnlyTarget | src/filesystem/index.ts:214 | after a removal nothing resolves at or below the path, and no other path changes |
| VirtualFs.ReadAndListErrors | src/filesystem/index.ts:107-139 | `readFile` is not-found for a missing path and is-directory for a directory; `listDir` is not-found for a missing path and is-file for a file |
| VirtualFs.WriteFileOverFile | src/filesystem/index.ts:158-167 | writing over an existing file always succeeds |
| VirtualFs.ReadAfterWrite | src/filesystem/index.ts:127-168 | reading a path right after a successful write returns the written data |
| VirtualFs.WriteKeepsListingOrder | src/filesystem/index.ts:166 | overwriting an existing entry keeps its place in the parent's listing (Map.set keeps insertion order) |
| VirtualFs.WriteFileTreeOk | src/filesystem/index.ts:141-168 | a successful write had a directory parent and set one entry in it |
| VirtualFs.ChildLookup | src/filesystem/index.ts:96-105 | a path resolves exactly when its parent is a directory holding its last component, and then to that child |
| VirtualFs.LookupOneMore | src/filesystem/index.ts:98-102 | one more component resolves exactly when the node is a directory with that child |
| VirtualFs.ListDirOfDirectory | src/filesystem/index.ts:107-125 | listing a directory gives the entries of its children |
| VirtualFs.OperationsKeepWellFormed | src/filesystem/index.ts:141-216 | successful `writeFile`, `mkdir` and `remove` keep the tree well formed and the root a directory |
| VirtualFs.TreeOperationsAre | src/filesystem/index.ts:141-216 | each successful mutation sets or deletes exactly one entry of the parent |
| VirtualFs.StatFacts | src/filesystem/index.ts:218-232 | `stat` fails exactly for a missing path; a directory reports size 0 and a file its byte length |
| VirtualFs.MkdirAll | src/filesystem/index.ts:65-76 | the internal mkdir keeps the root's name, type and content |
| VirtualFs.MkdirAllKeepsExisting | src/filesystem/index.ts:71-73 | the internal mkdir never replaces an existing node; it only adds children |
| VirtualFs.GetAllDirectories | src/filesystem/index.ts:65-76 | in a tree of directories every child is a tree of directories |
| VirtualFs.MkdirAllCreatesPath | src/filesystem/index.ts:65-76 | over a tree of directories the internal mkdir makes the whole path resolve and keeps every node a directory |
| VirtualFs.MkdirAllWellFormed | src/filesystem/index.ts:65-76 | the internal mkdir keeps the tree well formed |
| VirtualFs.WriteInternalEffect | src/filesystem/index.ts:78-94 | the internal writer silently does nothing when the parent is missing, and otherwise leaves the file at the path |
| VirtualFs.ReplaceAtWalk | src/filesystem/index.ts:84-93 | after a replacement, walking to `dir` reaches the new node |
| VirtualFs.WalkAppend | src/filesystem/index.ts:85-88 | walking `a + b` is walking `b` from where `a` ends |
| VirtualFs.WriteInternalWellFormed | src/filesystem/index.ts:78-94 | the internal writer keeps the tree well formed |
| VirtualFs.MkdirEachAllDirectories | src/filesystem/index.ts:52-55 | the directory phase of start-up creates only directories |
| VirtualFs.MkdirEachKeeps | src/filesystem/index.ts:52-55 | the directory phase never loses a path that resolved before |
| VirtualFs.DirectoryPhaseCreates | src/filesystem/index.ts:41-55 | after the directory phase `/bin`, `/etc`, `/tmp` and every listed content directory exist |
| VirtualFs.MkdirEachCreates | src/filesystem/index.ts:52-55 | each listed directory exists after the phase |
| VirtualFs.VirtualFileSystem.constructor | src/filesystem/index.ts:36-39 | the new filesystem is the tree built from the content files and a directory list with the properties `getDirectoryPaths` guarantees |
| VirtualFs.VirtualFileSystem.InitDefaultStructure | src/filesystem/index.ts:41-63 | system directories, then content directories, then content files are created into the root |
| VirtualFs.VirtualFileSystem.MkdirInternal | src/filesystem/index.ts:65-76 | the loop with a reassigned `current` has the effect of `MkdirAll` |
| VirtualFs.VirtualFileSystem.WriteFileInternal | src/filesystem/index.ts:78-94 | the loop with a reassigned `current` has the effect of `WriteInternal` |
| VirtualFs.VirtualFileSystem.Resolve | src/filesystem/index.ts:96-105 | the walk loop returns the node at the path, or none |
| VirtualFs.VirtualFileSystem.ListDir | src/filesystem/index.ts:107-125 | not-found for a missing path, is-file for a file, otherwise the children's names and kinds in insertion order |
| VirtualFs.VirtualFileSystem.ReadFile | src/filesystem/index.ts:127-139 | not-found, is-directory, or the file's content |
| VirtualFs.VirtualFileSystem.WriteFile | src/filesystem/index.ts:141-168 | on success the tree becomes `WriteFileTree`'s result; on error the error is returned and nothing changes |
| VirtualFs.VirtualFileSystem.Mkdir | src/filesystem/index.ts:170-195 | on success the tree becomes `MkdirTree`'s result; on error nothing changes |
| VirtualFs.VirtualFileSystem.Remove | src/filesystem/index.ts:197-216 | on success the tree becomes `RemoveTree`'s result; on error nothing changes |
| VirtualFs.VirtualFileSystem.Stat | src/filesystem/index.ts:218-232 | not-found for a missing path, otherwise its name, whether it is a directory, and its size |
| VirtualFs.VirtualFileSystem.Exists | src/filesystem/index.ts:234-237 | true exactly when the normalised path resolves |
| ContentLoader.TransformPath | src/filesystem/content-loader.ts:47-53 | a path under `/src/content` loses that prefix, the prefix alone becomes `/`, and any other path is unchanged |
| ContentLoader.TransformPathStrips | src/filesystem/content-loader.ts:47-53 | `/src/content` followed by `p` becomes `p`, or `/` when `p` is empty |
| ContentLoader.IsAncestorOfSnoc | src/filesystem/content-loader.ts:103-111 | after one more file the ancestors are the earlier ones plus that file's proper ancestors |
| ContentLoader.InsertByDepth | src/filesystem/content-loader.ts:114-118 | inserting into a depth-ordered list keeps it ordered and adds exactly that path |
| ContentLoader.InsertByDepthStable | src/filesystem/content-loader.ts:114-118 | the insertion is stable: among the paths of one depth the new path comes last and the others keep their order |
| ContentLoader.AtDepthAppend | src/filesystem/content-loader.ts:114-118 | the paths of one depth in a concatenation are those of each part, in order |
| ContentLoader.FirstIsShallowest | src/filesystem/content-loader.ts:114-118 | the head of a depth-ordered list is no deeper than any other element |
| ContentLoader.ByDepthTail | src/filesystem/content-loader.ts:114-118 | the tail of a depth-ordered list is depth-ordered |
| ContentLoader.ByDepthCons | src/filesystem/content-loader.ts:114-118 | a path no deeper than all of a depth-ordered list can go in front |
| ContentLoader.GetDirectoryPaths | src/filesystem/content-loader.ts:100-119 | the result has no duplicates, is ordered by non-decreasing depth (parents first), and holds exactly the proper ancestor directories of the files, never a file itself |
| ContentLoader.AddAncestors | src/filesystem/content-loader.ts:104-110 | the inner loop adds exactly the file's proper ancestors to the set, without duplicates |
| ContentLoader.SortByDepth | src/filesystem/content-loader.ts:114-118 | the sort yields a depth-ordered permutation of the set, and it is stable: the paths of each depth keep their insertion order |
| ContentLoader.NoDuplicatesPermutation | src/filesystem/content-loader.ts:114 | a permutation of a list without duplicates has none and the same elements |
| ContentLoader.MultisetCountAtLeastTwo | src/filesystem/content-loader.ts:101 | a repeated element occurs at least twice |
| ContentLoader.MultisetCountAtMostOne | src/filesystem/content-loader.ts:101 | a `Set`'s elements occur once each |
| OrderedMap.Keys | src/filesystem/index.ts:120 | the keys in insertion order, one per entry |
| OrderedMap.Get | src/filesystem/index.ts:158 | `get` finds a value exactly when the key is present, and it is that key's entry |
| OrderedMap.Set | src/filesystem/index.ts:166 | after `set` the key maps to the value and other keys are unchanged; an existing key keeps its position, a new one goes last |
| OrderedMap.HasTail | src/filesystem/index.ts:71 | membership past a different first key is membership in the rest |
| OrderedMap.GetAt | src/filesystem/index.ts:120 | with distinct keys each entry is what `get` returns for its key |
| OrderedMap.SetDistinct | src/filesystem/index.ts:166 | `set` keeps the keys distinct |
| OrderedMap.DistinctTail | src/filesystem/index.ts:120 | the rest of a map with distinct keys has distinct keys and lacks the first key |
| OrderedMap.DistinctCons | src/filesystem/index.ts:120 | a new key in front keeps the keys distinct |
| OrderedMap.Delete | src/filesystem/index.ts:214 | after `delete` the key is gone, the others are unchanged and one entry fewer remains when it was present |
| OrderedMap.FromList | crates/shell/src/expander.rs:27-29 | collecting pairs into a map gives distinct keys |
| OrderedMap.FromListInto | crates/shell/src/expander.rs:27-29 | inserting pairs one by one keeps the keys distinct |
| OrderedMap.FromListIntoLastWins | crates/shell/src/expander.rs:27-29 | the last pair with a given name decides its value |
| OrderedMap.FromListIntoKeeps | crates/shell/src/expander.rs:27-29 | names no pair mentions keep their earlier value |
| OrderedMap.FromListIntoStep | crates/shell/src/expander.rs:27-29 | collecting is inserting the first pair, then the rest |
| OrderedMap.FromListAbsent | crates/shell/src/expander.rs:27-29 | a name no pair mentions is absent |
| OrderedMap.FromListLastWins | crates/shell/src/expander.rs:27-29 | a later duplicate name overrides an earlier one |
| Text.Split | src/filesystem/index.ts:13 | splitting always gives at least one piece |
| Text.JoinSplit | src/shell/dispatcher.ts:394-403 | joining the pieces of a split with the separator gives the text back |
| Text.SplitJoin | crates/commands/echo/src/lib.rs:10 | splitting pieces joined by a separator none of them holds gives the pieces back |
| Text.SplitAppend | src/filesystem/index.ts:13 | splitting around a separator concatenates the pieces of each side |
| Text.SplitPiecesAvoidSeparator | src/filesystem/index.ts:13 | no piece holds the separator |
| Text.SplitWithoutSeparator | src/filesystem/index.ts:13 | a text without the separator is one piece |
| Text.LastPiece | crates/commands/mv/src/lib.rs:46-49 | `rsplit('/').next()`: the longest suffix without the separator, preceded by the separator unless it is the whole text |
| Text.FindChar | src/shell/dispatcher.ts:286 | the first position of a character, or none exactly when it is absent |
| Text.NonEmpty | src/filesystem/content-loader.ts:104 | `filter(Boolean)` keeps exactly the non-empty pieces |
| Text.NonEmptyAppend | src/filesystem/content-loader.ts:104 | `filter(Boolean)` keeps order and multiplicity: it distributes over concatenation, and keeps a single piece exactly when it is non-empty |
| Text.TrimStartDrops | src/shell/dispatcher.ts:842 | `trimStart` drops exactly the leading whitespace |
| Text.TrimEndDrops | src/shell/dispatcher.ts:808 | `trimEnd` drops exactly the trailing whitespace |
| Text.TrimEndChar | crates/commands/rm/src/lib.rs:36 | `trim_end_matches(c)` removes exactly the trailing run of `c` |
| Text.SplitSpacesPiecesHaveNoSpace | src/shell/dispatcher.ts:445 | splitting on whitespace gives pieces without whitespace |
| Text.SplitSpacesFirst | src/shell/dispatcher.ts:370 | the first piece is the text up to the first whitespace |
| Text.DigitChar | crates/commands/ls/src/lib.rs:35 | a digit character has the digit's value |
| Text.Decimal | crates/commands/ls/src/lib.rs:35 | a number's decimal form is a non-empty string of digits |
| Text.DigitsValueDecimal | crates/commands/ls/src/lib.rs:35 | reading a number's decimal digits back gives the number |
| Text.PadLeft | crates/commands/ls/src/lib.rs:35 | `{:>w}` pads with spaces on the left to width `w` and never truncates |
| Text.Repeat | crates/commands/ls/src/lib.rs:121 | `" ".repeat(n)` is `n` copies of the character |
| DispatchSpec.NormalizePath | src/shell/dispatcher.ts:552-563 | the normalised path always starts with `/` |
| DispatchSpec.NormalizePathCanonical | src/shell/dispatcher.ts:552-563 | its components are canonical, it names the same node as the path it came from, and normalising it again changes nothing |
| DispatchSpec.ResolveRelative | src/shell/dispatcher.ts:542-547 | an absolute target names what it names alone; a relative one is normalised on top of the working directory's components |
| DispatchSpec.DotDotAtRootStays | src/shell/dispatcher.ts:556-557 | `..` from `/` stays at `/` |
| DispatchSpec.NormalizedChild | src/shell/dispatcher.ts:542-547 | appending a canonical name appends one component |
| DispatchSpec.FirstWord | src/shell/dispatcher.ts:370 | `split(/\s+/)[0]` is a prefix of the text with no whitespace in it |
| DispatchSpec.AliasProgress | src/shell/dispatcher.ts:362-366 | recording a name as seen shrinks the set of aliases still to visit, so expansion terminates |
| DispatchSpec.AliasKeepsRest | src/shell/dispatcher.ts:367-382 | an expansion ends with the rest of the alias's value after its first word |
| DispatchSpec.SelfAlias | src/shell/dispatcher.ts:371 | an alias whose value starts with its own name expands once, to its value |
| DispatchSpec.FirstWordIs | src/shell/dispatcher.ts:370 | the first word of a word followed by whitespace is that word |
| DispatchSpec.MutualAliases | src/shell/dispatcher.ts:362-375 | two aliases naming each other are reported as a circular reference of the first |
| DispatchSpec.NestedAliases | src/shell/dispatcher.ts:369-379 | an alias whose first word is another alias expands through it and keeps both argument tails |
| DispatchSpec.NoShebang | src/shell/dispatcher.ts:438-442 | a file not starting with `#!` has no interpreter |
| DispatchSpec.FirstLine | src/shell/dispatcher.ts:439 | the first line of a text is the part before its first newline |
| DispatchSpec.SplitFirstPiece | src/shell/dispatcher.ts:439 | the first piece of a split is a prefix of the text |
| DispatchSpec.ShebangWords | src/shell/dispatcher.ts:438-453 | the interpreter is the second word after `/usr/bin/env` when there is one, otherwise the first word of the trimmed `#!` line |
| DispatchSpec.ShebangThroughEnv | src/shell/dispatcher.ts:447-450 | `#!/usr/bin/env x` names `x` |
| DispatchSpec.ShebangDirect | src/shell/dispatcher.ts:452 | `#!p` names `p` |
| DispatchSpec.TrimPlain | src/shell/dispatcher.ts:444 | a text without surrounding whitespace trims to itself |
| DispatchSpec.SplitSpacesWord | src/shell/dispatcher.ts:445 | a word without whitespace splits into itself |
| DispatchSpec.SplitSpacesTwo | src/shell/dispatcher.ts:445 | two words separated by a space split into the two |
| DispatchSpec.StripComments | src/shell/dispatcher.ts:394-403 | one output line per input line, each blanked exactly when its trimmed form starts with `#` |
| DispatchSpec.SearchPath | src/shell/dispatcher.ts:568-604 | a hit is a readable `dir/file` for one of the `PATH` directories; there is none exactly when no directory holds a readable file |
| DispatchSpec.SearchPathFirst | src/shell/dispatcher.ts:573-579 | the first `PATH` directory holding the file wins |
| BuiltinSpec.CdLandsOnDirectory | src/shell/dispatcher.ts:19-35 | a successful `cd` changes only the working directory, to a normalised path naming an existing directory; a failing one changes nothing and exits with 1 |
| BuiltinSpec.EnvListing | src/shell/dispatcher.ts:39-43 | the `export` listing is empty exactly when there are no variables |
| BuiltinSpec.ExportStores | src/shell/dispatcher.ts:46-58 | `export K=V rest…` stores under K the non-empty pieces joined by spaces and leaves every other variable as it was |
| BuiltinSpec.ExportDropsEmpty | src/shell/dispatcher.ts:54-55 | empty pieces are dropped before joining |
| BuiltinSpec.ExportInvalid | src/shell/dispatcher.ts:47-51 | a first argument without `=` is refused with "invalid argument" and changes nothing |
| BuiltinSpec.SingleOperand | src/shell/dispatcher.ts:82-90 | a plain name is the one operand of `mkdir`, `rm` and `mv`, and `-f` only sets force |
| BuiltinSpec.MkdirOptions | src/shell/dispatcher.ts:82-90 | `-p` is set exactly when `-p` or `--parents` appears, and the operands are arguments that do not start with `-` |
| BuiltinSpec.MkdirExisting | src/shell/dispatcher.ts:113-123 | `mkdir NAME` over an existing file or directory reports "File exists" and changes nothing |
| BuiltinSpec.MkdirOverExisting | src/filesystem/index.ts:170-195 | creating an existing name is refused as permission denied |
| BuiltinSpec.MkdirEachRefused | src/shell/dispatcher.ts:113-123 | the refused operand ends the loop with the "File exists" message |
| BuiltinSpec.MkdirChainReaches | src/shell/dispatcher.ts:100-112 | after a successful `mkdir -p` walk the whole path exists |
| BuiltinSpec.MkdirStepReaches | src/shell/dispatcher.ts:104-110 | a created step exists afterwards, one component below the path before it |
| BuiltinSpec.TouchKeepsExisting | src/shell/dispatcher.ts:137-150 | touching names that all exist changes nothing |
| BuiltinSpec.TouchCreatesEmpty | src/shell/dispatcher.ts:143-148 | touching a missing name whose parent is a directory succeeds and leaves an empty file there |
| BuiltinSpec.RmFlags | src/shell/dispatcher.ts:163-179 | every operand of `rm` is one of its arguments and does not start with `-` |
| BuiltinSpec.RmFlagsByLetter | src/shell/dispatcher.ts:163-179 | recursive is set exactly when some argument asks for it, force exactly when some argument asks for it, letter by letter in combined options |
| BuiltinSpec.RmFlagsLast | src/shell/dispatcher.ts:163-179 | the last argument only adds to the flags the earlier ones set |
| BuiltinSpec.OptionFlagsByLetter | src/shell/dispatcher.ts:165-176 | each spelled-out option sets the same flags as its letters would |
| BuiltinSpec.ShortOptions | src/shell/dispatcher.ts:165-171 | `-r`, `-R` set only recursive, `-f` only force, `-rf` and `-fr` both |
| BuiltinSpec.LongOptions | src/shell/dispatcher.ts:165-168 | `--recursive` sets only recursive, `--force` only force |
| BuiltinSpec.RmVerboseIsRecursive | src/shell/dispatcher.ts:173-175 | an unknown long option is read letter by letter, so `--verbose` turns on recursive removal |
| BuiltinSpec.RmRemovesAll | src/shell/dispatcher.ts:185-204 | after a successful `rm` no operand exists any more, except the root, which cannot be removed |
| BuiltinSpec.RmRemovesFirst | src/shell/dispatcher.ts:185-204 | the first operand is gone after its own step and stays gone |
| BuiltinSpec.RmStep | src/shell/dispatcher.ts:185-204 | one operand removes exactly that operand when it exists and can be removed, and the loop goes on from the tree it leaves |
| BuiltinSpec.RmKeepsGone | src/shell/dispatcher.ts:185-204 | removing further operands never brings back a missing path |
| BuiltinSpec.RmMissing | src/shell/dispatcher.ts:188-192 | `rm NAME` of a missing name fails with "No such file or directory"; `rm -f NAME` succeeds and changes nothing |
| BuiltinSpec.RmOfOne | src/shell/dispatcher.ts:181-206 | `rm` on one operand is that operand's step |
| BuiltinSpec.RmOneMissing | src/shell/dispatcher.ts:188-192 | a missing operand ends the loop unless forced |
| BuiltinSpec.RmOneDirectory | src/shell/dispatcher.ts:194-197 | a directory without `-r` ends the loop with "is a directory" |
| BuiltinSpec.RmDirectoryNeedsRecursive | src/shell/dispatcher.ts:194-197 | `rm DIR` reports "is a directory" and changes nothing |
| BuiltinSpec.Operands | src/shell/dispatcher.ts:212-218 | the operands of `mv` are exactly its arguments not starting with `-`, in order |
| BuiltinSpec.OperandsAll | src/shell/dispatcher.ts:212-218 | arguments none of which starts with `-` are all operands |
| BuiltinSpec.MvSeveralSources | src/shell/dispatcher.ts:233-236 | several sources with a destination that is not a directory are refused and change nothing |
| BuiltinSpec.MoveIntoItselfThrows | src/shell/dispatcher.ts:492-537 | moving an empty directory into a subdirectory of itself recurses until the engine's recursion limit: the move overflows, keeps every path it had and leaves the nest `D/D/.../D` one level per recursion |
| BuiltinSpec.MkdirKeepsPaths | src/shell/dispatcher.ts:497-500 | creating the destination directory removes no existing path |
| BuiltinSpec.NoNestingLeft | src/shell/dispatcher.ts:492-537 | with no recursion left, `moveDirectory` overflows before creating anything and leaves the tree as it was |
| BuiltinSpec.DirectoryStep | src/shell/dispatcher.ts:497-507 | moving a directory first creates its destination and then moves its contents |
| BuiltinSpec.MvDirectoryIntoItself | src/shell/dispatcher.ts:238-255 | `mv D D` on an empty directory throws "Maximum call stack size exceeded"; the session is unchanged, `D` is not removed and the partial nest `D/D/.../D` stays |
| BuiltinSpec.MvOntoItself | src/shell/dispatcher.ts:228-238 | `mv X X` moves X into the destination it names itself |
| BuiltinSpec.MvFileOntoItself | src/shell/dispatcher.ts:256-267 | `mv F F` on a file reports success and leaves no file F, since the copy is removed with the source |
| BuiltinSpec.CopyOverItself | src/shell/dispatcher.ts:256-267 | writing a file's content over itself succeeds, and removing it then leaves nothing |
| BuiltinSpec.AliasListing | src/shell/dispatcher.ts:276-282 | the `alias` listing is empty exactly when there are no aliases |
| BuiltinSpec.StripQuotes | src/shell/dispatcher.ts:297-303 | one pair of matching single or double quotes around the value is removed, a lone quote becomes empty, anything else is kept |
| BuiltinSpec.AliasDefineThenShow | src/shell/dispatcher.ts:285-307 | after `alias N=V`, `alias N` shows `alias N='V'` |
| BuiltinSpec.AliasDefines | src/shell/dispatcher.ts:296-307 | `alias N=V` stores V under N and succeeds |
| BuiltinSpec.AliasShows | src/shell/dispatcher.ts:287-294 | `alias N` of a defined alias prints its definition |
| BuiltinSpec.UnaliasRemoves | src/shell/dispatcher.ts:312-325 | after a successful `unalias` no named alias remains and every other alias is unchanged |
| BuiltinSpec.UnaliasKeepsGone | src/shell/dispatcher.ts:318-323 | removing further names never brings back a removed alias |
| BuiltinSpec.ShDirectory | src/shell/dispatcher.ts:336-341 | `sh DIR` reports "Cannot read file" and changes nothing |
| BuiltinSpec.MkdirOneOperand | src/shell/dispatcher.ts:92-127 | `mkdir NAME` without `-p` succeeds exactly when creating NAME does, and otherwise reports its message with status 1 |
| BuiltinSpec.MvOneFile | src/shell/dispatcher.ts:257-268 | moving one file into a directory copies it and removes the source, with status 0 |
| BuiltinSpec.MvOneDirectory | src/shell/dispatcher.ts:250-255 | a directory move that overflows throws out of `mv` with the tree as the overflow left it; the source is not removed |
| ExecSpec.ExpandAll | src/shell/dispatcher.ts:657 | every argument word is expanded on its own, in order |
| ExecSpec.PlainWords | src/shell/dispatcher.ts:657 | words of plain text expand to themselves |
| ExecSpec.SourceBeforeAlias | src/shell/dispatcher.ts:665-671 | `source FILE` runs the file's script before alias expansion is considered |
| ExecSpec.BuiltinBeforePath | src/shell/dispatcher.ts:718-726 | a built-in name runs the built-in, before any file or PATH lookup |
| ExecSpec.UnsupportedInterpreter | src/shell/dispatcher.ts:475-486 | a file whose shebang names an interpreter other than `sh` fails with 126 and changes nothing |
| ExecSpec.WasmBeforeScript | src/shell/dispatcher.ts:568-582 | the first PATH directory holding `NAME.wasm` runs that binary, interactive exactly when there is no piped input, before any `.sh` is looked for |
| ExecSpec.CommandNotFound | src/shell/dispatcher.ts:644 | a name found neither as `.wasm` nor as `.sh` on PATH fails with 127 and changes nothing |
| ExecSpec.SearchPathMisses | src/shell/dispatcher.ts:568-604 | the PATH search finds nothing when no directory holds a readable file of that name |
| ExecSpec.LastRedirectWins | src/shell/dispatcher.ts:690-713 | the output file is that of the last `>` or `>>`, with its append flag; with none the output is untouched |
| ExecSpec.RedirectsStep | src/shell/dispatcher.ts:690-713 | one redirection changes only what it sets and the rest go on from there |
| ExecSpec.UnreadableInput | src/shell/dispatcher.ts:693-702 | a `<` file that cannot be read ends the command before it runs, with "No such file or directory" |
| ExecSpec.OverwriteRedirect | src/shell/dispatcher.ts:729-749 | after `>` the file holds exactly the command's output and the output shown is empty |
| ExecSpec.AppendRedirect | src/shell/dispatcher.ts:734-742 | after `>>` onto a readable file it holds its old content followed by the output |
| ExecSpec.StageFailureStops | src/shell/dispatcher.ts:775-786 | a failing stage that is not the last ends the pipeline with its output, its exit code and the error output so far |
| ExecSpec.StageOutputFeedsNext | src/shell/dispatcher.ts:775-786 | a succeeding stage's output is the next stage's input |
| ExecSpec.StagesKeepErrors | src/shell/dispatcher.ts:777-779 | the error output of a pipeline starts with that of every stage before |
| ExecSpec.AndAfterFailure | src/shell/dispatcher.ts:816-829 | `a && b` with a failing `a` does not run `b` |
| ExecSpec.OrAfterSuccess | src/shell/dispatcher.ts:816-829 | `a \|\| b` with a succeeding `a` does not run `b` |
| ExecSpec.SkippedChangeNothing | src/shell/dispatcher.ts:818-823 | skipped elements change neither the state nor the output |
| ExecSpec.ElementsAccumulate | src/shell/dispatcher.ts:816-829 | the output of a command list extends, never replaces, what earlier elements wrote |
| ExecSpec.ThrowEndsList | src/shell/dispatcher.ts:816-829 | a pipeline that throws ends the list: later elements do not run and the exception leaves with the state it was thrown in |
| ExecSpec.MvCommand | src/shell/dispatcher.ts:650-726 | a plain `mv` line with no alias for `mv` runs the built-in `mv` on its words |
| ExecSpec.OneCommandThrows | src/shell/dispatcher.ts:798-859 | a one-command line whose command throws throws out of `executeInput` |
| ExecSpec.MvIntoItselfInput | src/shell/dispatcher.ts:841-859 | the input line `mv D D` on an empty directory throws the stack overflow out of `executeInput` |
| ExecSpec.SubstitutionsTrimmed | src/shell/dispatcher.ts:805-809 | every command substitution gets a value, with trailing white space removed |
| ShellInvariant.OperationsKeepTree | src/filesystem/index.ts:141-216 | writing, creating and removing keep the filesystem a well-formed tree |
| ShellInvariant.MkdirChainKeepsTree | src/shell/dispatcher.ts:100-112 | the `mkdir -p` walk keeps the tree |
| ShellInvariant.MkdirEachKeepsTree | src/shell/dispatcher.ts:97-125 | `mkdir` over all its operands keeps the tree |
| ShellInvariant.TouchEachKeepsTree | src/shell/dispatcher.ts:137-150 | `touch` keeps the tree |
| ShellInvariant.RmEachKeepsTree | src/shell/dispatcher.ts:185-204 | `rm` keeps the tree |
| ShellInvariant.MoveDirectoryKeepsTree | src/shell/dispatcher.ts:492-537 | `moveDirectory` keeps the tree, whether it returns or overflows |
| ShellInvariant.MoveContentsKeepsTree | src/shell/dispatcher.ts:503-531 | moving a directory's contents keeps the tree |
| ShellInvariant.MoveEntriesKeepsTree | src/shell/dispatcher.ts:510-531 | moving the entries one by one keeps the tree |
| ShellInvariant.MvEachKeepsTree | src/shell/dispatcher.ts:238-269 | `mv` over all its sources keeps the tree |
| ShellInvariant.MkdirKeepsTree | src/shell/dispatcher.ts:73-128 | the `mkdir` built-in keeps the tree |
| ShellInvariant.TouchKeepsTree | src/shell/dispatcher.ts:130-153 | the `touch` built-in keeps the tree |
| ShellInvariant.RmKeepsTree | src/shell/dispatcher.ts:155-207 | the `rm` built-in keeps the tree |
| ShellInvariant.MvKeepsTree | src/shell/dispatcher.ts:209-272 | the `mv` built-in keeps the tree |
| ShellInvariant.ShKeepsTree | src/shell/dispatcher.ts:327-347 | `sh` keeps the tree, given that nested runs do |
| ShellInvariant.BuiltinDispatch | src/shell/dispatcher.ts:18-348 | each built-in name runs its own command, and the twelve names are all there are |
| ShellInvariant.SettingsKeepRoot | src/shell/dispatcher.ts:19-71 | `cd`, `export`, `alias`, `unalias` and `pwd` never touch the filesystem |
| ShellInvariant.BuiltinKeepsTree | src/shell/dispatcher.ts:18-348 | every built-in keeps the tree |
| ShellInvariant.ScriptKeepsTree | src/shell/dispatcher.ts:388-417 | running a script keeps the tree |
| ShellInvariant.SourceKeepsTree | src/shell/dispatcher.ts:422-433 | `source` keeps the tree |
| ShellInvariant.ExecutableKeepsTree | src/shell/dispatcher.ts:458-487 | running an executable file keeps the tree |
| ShellInvariant.ExternalKeepsTree | src/shell/dispatcher.ts:609-645 | a PATH command keeps the tree |
| ShellInvariant.InvokeKeepsTree | src/shell/dispatcher.ts:718-726 | whatever a command name resolves to keeps the tree |
| ShellInvariant.WriteOutputKeepsTree | src/shell/dispatcher.ts:729-749 | writing the output to its redirection file keeps the tree |
| ShellInvariant.ResolvedKeepsTree | src/shell/dispatcher.ts:686-752 | a command with its redirections keeps the tree |
| ShellInvariant.SimpleKeepsTree | src/shell/dispatcher.ts:650-752 | a simple command keeps the tree |
| ShellInvariant.StagesKeepTree | src/shell/dispatcher.ts:775-786 | the stages of a pipeline keep the tree |
| ShellInvariant.PipelineKeepsTree | src/shell/dispatcher.ts:757-793 | a pipeline keeps the tree |
| ShellInvariant.ElementsKeepTree | src/shell/dispatcher.ts:816-829 | a command list keeps the tree |
| ShellInvariant.SubstitutionsKeepTree | src/shell/dispatcher.ts:805-809 | command substitutions keep the tree |
| ShellInvariant.ParseResultKeepsTree | src/shell/dispatcher.ts:798-836 | running a parsed input keeps the tree |
| ShellInvariant.InputKeepsTree | src/shell/dispatcher.ts:841-859 | running an input line keeps the tree |
| ShellInvariant.InitializeKeepsTree | src/shell/dispatcher.ts:882-895 | reading `.shellrc` keeps the tree |
| Dispatcher.MoveEntriesUnfold | src/shell/dispatcher.ts:510-531 | one entry of the move loop: a directory moves by the same procedure, a file is read and written, and the first failure ends the loop |
| Dispatcher.Shell.constructor | src/shell/dispatcher.ts:870-880 | a new shell starts in `/home/uzimaru0000` with USER, HOME and PATH set, no aliases, not initialised |
| Dispatcher.Shell.GetCwd | src/shell/dispatcher.ts:907 | `getCwd` returns the working directory |
| Dispatcher.Shell.Cd | src/shell/dispatcher.ts:19-35 | the method computes what `BuiltinSpec.Cd` specifies, output and new state |
| Dispatcher.Shell.Export | src/shell/dispatcher.ts:37-59 | the listing loop and the store compute what `BuiltinSpec.Export` specifies |
| Dispatcher.Shell.Alias | src/shell/dispatcher.ts:274-310 | the listing loop and the definition compute what `BuiltinSpec.Alias` specifies |
| Dispatcher.Shell.Unalias | src/shell/dispatcher.ts:312-325 | the removal loop computes what `BuiltinSpec.Unalias` specifies |
| Dispatcher.Shell.Touch | src/shell/dispatcher.ts:130-153 | `touch` on the filesystem object computes what `BuiltinSpec.Touch` specifies and keeps the tree |
| Dispatcher.Shell.TouchOperands | src/shell/dispatcher.ts:137-150 | the operand loop leaves the tree and the error `TouchEach` specifies |
| Dispatcher.Shell.Rm | src/shell/dispatcher.ts:155-207 | `rm` computes what `BuiltinSpec.Rm` specifies and keeps the tree |
| Dispatcher.Shell.ReadRmFlags | src/shell/dispatcher.ts:163-179 | the option loop computes `RmFlags` |
| Dispatcher.Shell.RemoveTargets | src/shell/dispatcher.ts:185-204 | the removal loop leaves the tree and the error `RmEach` specifies |
| Dispatcher.Shell.Mkdir | src/shell/dispatcher.ts:73-128 | `mkdir` computes what `BuiltinSpec.Mkdir` specifies and keeps the tree |
| Dispatcher.Shell.ReadMkdirOptions | src/shell/dispatcher.ts:82-90 | the option loop computes `MkdirOptions` |
| Dispatcher.Shell.MakeDirectories | src/shell/dispatcher.ts:97-125 | the operand loop leaves the tree and the error `MkdirEach` specifies |
| Dispatcher.Shell.MakeChain | src/shell/dispatcher.ts:100-112 | the `-p` walk leaves the tree and the outcome `MkdirChain` specifies |
| Dispatcher.Shell.Mv | src/shell/dispatcher.ts:209-272 | `mv` computes what `BuiltinSpec.Mv` specifies, including the stack-overflow exception, and keeps the tree |
| Dispatcher.Shell.CollectOperands | src/shell/dispatcher.ts:212-218 | the operand loop computes `Operands` |
| Dispatcher.Shell.MoveOne | src/shell/dispatcher.ts:239-268 | one source is moved as `MvOne` specifies, or ends the command |
| Dispatcher.Shell.MoveDirectorySource | src/shell/dispatcher.ts:250-255 | a directory source is moved as `MvDirectory` specifies |
| Dispatcher.Shell.MoveFile | src/shell/dispatcher.ts:256-267 | a file source is read, written and removed as `MvFile` specifies |
| Dispatcher.Shell.MoveDir | src/shell/dispatcher.ts:492-537 | `moveDirectory` leaves the tree and the outcome `MoveDirectory` specifies; an overflow leaves the partial tree |
| Dispatcher.Shell.MoveEntryList | src/shell/dispatcher.ts:510-531 | the entry loop leaves the tree and the outcome `MoveEntries` specifies |
| Dispatcher.Shell.Sh | src/shell/dispatcher.ts:327-347 | `sh` computes what `BuiltinSpec.Sh` specifies |
| Dispatcher.Shell.RunBuiltin | src/shell/dispatcher.ts:718-719 | the built-in table runs what `Builtin` specifies for each name |
| Dispatcher.Shell.RunScript | src/shell/dispatcher.ts:388-417 | a script runs as `ExecuteScript` specifies |
| Dispatcher.Shell.Source | src/shell/dispatcher.ts:422-433 | `source` runs as `ExecuteSource` specifies |
| Dispatcher.Shell.RunExecutable | src/shell/dispatcher.ts:458-487 | an executable file runs as `ExecuteExecutable` specifies |
| Dispatcher.Shell.FindInPath | src/shell/dispatcher.ts:568-604 | the PATH loop returns what `SearchPath` specifies: the first readable file |
| Dispatcher.Shell.RunExternal | src/shell/dispatcher.ts:609-645 | a PATH command runs as `External` specifies |
| Dispatcher.Shell.RunSimpleCommand | src/shell/dispatcher.ts:650-752 | a simple command runs as `RunSimple` specifies |
| Dispatcher.Shell.RunResolved | src/shell/dispatcher.ts:686-752 | a command with its redirections runs as `Resolved` specifies |
| Dispatcher.Shell.ReadRedirects | src/shell/dispatcher.ts:690-713 | the redirection loop computes `Redirects` |
| Dispatcher.Shell.WriteStdout | src/shell/dispatcher.ts:729-749 | the output is written to its file as `WriteOutput` specifies |
| Dispatcher.Shell.RunCommand | src/shell/dispatcher.ts:718-726 | a built-in, then a path, then PATH, as `Invoke` specifies |
| Dispatcher.Shell.RunPipelineCommands | src/shell/dispatcher.ts:757-793 | the stage loop computes what `RunPipeline` specifies |
| Dispatcher.Shell.RunNestedInput | src/shell/dispatcher.ts:805-809 | a command substitution's input runs as the nested run specifies |
| Dispatcher.Shell.RunParseResult | src/shell/dispatcher.ts:798-836 | the substitution loop and the element loop compute what `ExecuteParseResult` specifies |
| Dispatcher.Shell.RunInput | src/shell/dispatcher.ts:841-859 | an input line runs as `ExecuteInput` specifies: blank input does nothing, a parse error is reported |
| Dispatcher.Shell.Init | src/shell/dispatcher.ts:882-895 | the first call reads `.shellrc` as `Initialize` specifies, later calls change nothing |
| Dispatcher.Shell.Run | src/shell/dispatcher.ts:897-903 | `execute` initialises on first use and then runs the input, as `Execute` specifies |
| ShellAst.LiteralWord | crates/shell/src/ast.rs:27-41 | `ParsedWord::literal` is one literal segment, and it is the empty word exactly when the text is empty |
| ShellAst.SinglePipeline | crates/shell/src/ast.rs:100-104 | `Pipeline::single` holds exactly the one command |
| ShellAst.SingleResult | crates/shell/src/ast.rs:153-161 | `ParseResult::single` is one unconnected element running that command, with no substitutions |
| Expander.Lookup | crates/shell/src/expander.rs:12-16 | a variable expands to its value when set, else to its default, else to the empty string |
| Expander.ExpandAppend | crates/shell/src/expander.rs:7-24 | a word expands segment by segment: expanding joined segments joins the expansions |
| Expander.ExpandSingle | crates/shell/src/expander.rs:10-22 | one segment expands on its own |
| Expander.ExpandLiteral | crates/shell/src/expander.rs:11 | a literal word expands to its text |
| Expander.ExpandVariable | crates/shell/src/expander.rs:12-16 | `$NAME` is the value when set, else its default or the empty string |
| Expander.ExpandSubstitution | crates/shell/src/expander.rs:17-21 | a command substitution expands to the empty string here |
| Expander.ExpandMixed | crates/shell/src/expander.rs:68-83 | `Hello, $USER!` with USER=world expands to `Hello, world!` |
| Expander.VarsOf | crates/shell/src/expander.rs:12-16 | the variables a word reads are all collected |
| Expander.ExpandDependsOnlyOnVars | crates/shell/src/expander.rs:7-24 | two environments that agree on the word's variables expand it alike |
| Expander.PlainWordExpandsToItself | crates/shell/src/expander.rs:11 | a word of plain characters, as the parser builds it, expands to itself |
| Expander.VariableWordExpands | crates/shell/src/expander.rs:12-16 | the parsed word `$NAME` expands to the variable's value or to the empty string |
| Expander.DefaultWordExpands | crates/shell/src/expander.rs:12-16 | the parsed word `${NAME:-D}` expands to the value when set, else to D |
| Expander.EnvListToMap | crates/shell/src/expander.rs:27-29 | the map's keys are exactly the names in the list |
| Expander.EnvListLastWins | crates/shell/src/expander.rs:27-29 | a name maps to the value of its last pair |
| Expander.EnvListDuplicate | crates/shell/src/expander.rs:27-29 | of two pairs with the same name the second wins |
| Expander.EnvListAgrees | crates/shell/src/expander.rs:27-29 | the map agrees with the ordered list it came from, key by key |
| WordExpansion.ExpandTilde | src/shell/shell-parser.ts:99-107 | text not starting with `~` is unchanged |
| WordExpansion.TildeCases | src/shell/shell-parser.ts:99-107 | `~` is the home directory, `~/p` is home followed by `/p`, and `~user` is left alone |
| WordExpansion.Home | src/shell/shell-parser.ts:117 | home is HOME when set, else `/home/uzimaru0000` |
| WordExpansion.ExpandRestAppend | src/shell/shell-parser.ts:121-139 | segments after the first expand one by one and the results are joined |
| WordExpansion.TildeWithoutHome | src/shell/shell-parser.ts:117-127 | `~` without HOME is `/home/uzimaru0000` |
| WordExpansion.TildeOnlyAtHead | src/shell/shell-parser.ts:124-128 | a `~` in a later literal segment stays as it is |
| WordExpansion.SetButEmptyKeepsEmpty | src/shell/shell-parser.ts:130-131 | a variable set to the empty string expands to it, not to its default |
| WordExpansion.SubstitutionOutput | src/shell/shell-parser.ts:132-133 | a command substitution expands to its recorded output, or to the empty string |
| WordExpansion.RestAgreesWithRust | src/shell/shell-parser.ts:121-139 | after the first segment the shell's expansion agrees with the parser crate's `expand_word` over the same environment |
| WordExpansion.AgreesWithRust | src/shell/shell-parser.ts:112-140 | without a `~` or command substitution the two expansions agree |
| JsonScan.StateAtNext | src/components/ansi-parser.ts:77-104 | the scan state after one more character is one step of the scanner |
| JsonScan.FirstClose | src/components/ansi-parser.ts:77-106 | the first position where the depth returns to zero, or none when it never does |
| JsonScan.ExtractJson | src/components/ansi-parser.ts:67-107 | a found object is the text from the start up to its end index |
| JsonScan.ScanJson | src/components/ansi-parser.ts:67-107 | the scanning loop computes `ExtractJson` |
| JsonScan.DepthPositive | src/components/ansi-parser.ts:97-103 | inside the object the depth stays at least one |
| JsonScan.ExtractJsonBalanced | src/components/ansi-parser.ts:67-107 | a found object starts with `{`, ends with `}`, and is balanced, with no earlier point of depth zero |
| JsonScan.ExtractJsonNone | src/components/ansi-parser.ts:67-107 | nothing is found exactly when the start is not `{` or the braces never balance |
| JsonScan.RunAppend | src/components/ansi-parser.ts:77-104 | scanning two pieces is scanning the second from where the first left off |
| JsonScan.StringBodyIgnored | src/components/ansi-parser.ts:80-95 | braces inside a string, escapes included, do not count |
| JsonScan.QuotedStringIgnored | src/components/ansi-parser.ts:90-95 | a quoted string leaves the depth as it was |
| JsonScan.ExtractJsonSuffix | src/components/ansi-parser.ts:67-107 | extraction does not depend on the text before the start |
| JsonScan.ObjectThen | src/components/ansi-parser.ts:67-107 | a balanced object followed by anything is found alone |
| JsonScan.NotAnObjectStart | src/components/ansi-parser.ts:71 | text not starting with `{` yields nothing |
| JsonScan.ObjectExamples | src/components/ansi-parser.test.ts:4-60 | `{}` is an object and `{` is not |
| Lexer.SkipBlanks | crates/shell/src/lexer.rs:52-55 | skipping spaces and tabs leaves a suffix that does not start with one |
| Lexer.Operator | crates/shell/src/lexer.rs:118-129 | an operator is read exactly when the input starts with `\|`, `>`, `<`, `)`, `&&` or `$(`, and it consumes input |
| Lexer.OperatorLongestFirst | crates/shell/src/lexer.rs:118-129 | `&&`, `\|\|`, `>>` and `$(` are read whole, before their one-character prefixes |
| Lexer.SingleQuotedToken | crates/shell/src/lexer.rs:64-71 | a single-quoted string is the text up to the next quote, taken as it is; without a closing quote there is none |
| Lexer.Prefixed | crates/shell/src/lexer.rs:77-105 | putting text before a decoded string keeps failure and success |
| Lexer.PrefixedTwice | crates/shell/src/lexer.rs:77-105 | prefixing twice is prefixing with the joined text |
| Lexer.DecodeDouble | crates/shell/src/lexer.rs:81-112 | a decoded double-quoted string consumes input |
| Lexer.DoubleQuotedToken | crates/shell/src/lexer.rs:74-115 | a double-quoted token consumes input |
| Lexer.DoubleQuotedMatch | crates/shell/src/lexer.rs:74-115 | the decoding loop computes `DoubleQuotedToken` |
| Lexer.Escape | crates/shell/src/lexer.rs:88-98 | text without quotes or backslashes needs no escaping |
| Lexer.DecodeEscaped | crates/shell/src/lexer.rs:81-112 | decoding an escaped text followed by a quote gives the text back and the rest after the quote |
| Lexer.DecodeEscapedChar | crates/shell/src/lexer.rs:86-99 | an escaped quote or backslash decodes to itself |
| Lexer.DecodePlainChar | crates/shell/src/lexer.rs:100-104 | a plain character decodes to itself |
| Lexer.UnclosedDouble | crates/shell/src/lexer.rs:107-112 | a double-quoted string without a closing quote is an error |
| Lexer.WordLength | crates/shell/src/lexer.rs:144-158 | a word never runs past the input |
| Lexer.WordLengthStops | crates/shell/src/lexer.rs:144-158 | a word holds no meta character and no `$(`, and ends at one of them or at the end |
| Lexer.WordToken | crates/shell/src/lexer.rs:133-168 | a word is the longest prefix without meta characters or `$(`; there is none exactly when the input starts with one of them |
| Lexer.WordWithVars | crates/shell/src/lexer.rs:133-168 | the character loop computes `WordToken` |
| Lexer.NextToken | crates/shell/src/lexer.rs:171-182 | every token consumes input, so tokenising terminates |
| Lexer.TokenAt | crates/shell/src/lexer.rs:171-182 | the token method computes `NextToken`, trying operators, quotes and words in that order |
| Lexer.PrependAll | crates/shell/src/lexer.rs:185-217 | putting tokens in front keeps success, failure and the error |
| Lexer.PrependAllTwice | crates/shell/src/lexer.rs:185-217 | putting tokens in front twice is putting them in front at once |
| Lexer.Tokenize | crates/shell/src/lexer.rs:185-217 | the tokenising loop computes `Lex` |
| Lexer.LexRejects | crates/shell/src/lexer.rs:205-212 | input that no token matches, such as a lone `&`, is an error |
| Lexer.LexBlankAndNewline | crates/shell/src/lexer.rs:189-203 | leading blanks are skipped and a newline becomes its own token |
| Lexer.WordLengthOf | crates/shell/src/lexer.rs:144-158 | a word followed by a meta character stops there |
| Lexer.NextTokenWord | crates/shell/src/lexer.rs:171-182 | a plain word is read as a word token |
| Lexer.LexWord | crates/shell/src/lexer.rs:185-217 | a plain word in front becomes the first token |
| Lexer.LexStep | crates/shell/src/lexer.rs:205-209 | one token read is one token in front of the rest |
| Lexer.NextTokenSingleQuoted | crates/shell/src/lexer.rs:64-71 | `'w'` is read as one single-quoted token |
| Lexer.LexBlankThen | crates/shell/src/lexer.rs:189-192 | a space in front changes nothing |
| Lexer.LexWordThen | crates/shell/src/lexer.rs:185-217 | a word and a space in front add the word token |
| Lexer.LexAndThen | crates/shell/src/lexer.rs:118-129 | `&&` and a space in front add the And token |
| Lexer.LexOrThen | crates/shell/src/lexer.rs:118-129 | `\|\|` and a space in front add the Or token |
| Lexer.LexSingleWord | crates/shell/src/lexer.rs:223-227 | a plain word is one word token |
| Lexer.AndOrList | crates/shell/src/lexer.rs:266-279 | `a && b \|\| c` is the five tokens of the list |
| Lexer.Utf8Length | crates/shell/src/lexer.rs:103 | a character takes one to four bytes, one exactly when it is ASCII |
| Lexer.EscapedMultiByteCharPanics | crates/shell/src/lexer.rs:86-99 | after a backslash, a character of more than one byte makes the two-byte slice panic, where decoding by characters closes the string |
| Lexer.AsWrittenAgreesOnAscii | crates/shell/src/lexer.rs:81-112 | when every escaped character is one byte, the code as written decodes like the character-level decoding |
| CommandCore.Operands | crates/commands/rm/src/lib.rs:14 | the arguments after the command name, or none when there is no argument at all |
| CommandCore.Child | crates/commands/rm/src/lib.rs:36 | the joined path ends with `/` and the name, and what precedes that is the directory with its trailing slashes trimmed |
| CommandCore.ChildNamesEntry | crates/commands/mv/src/lib.rs:46-50 | the last `/`-piece of a child path is the name it was built from, and a trailing slash on the directory makes no difference |
| CommandCore.Resolve | crates/commands/rm/src/lib.rs:33-37 | an argument starting with `/` is kept as it is, any other is joined under the working directory; the result is absolute exactly when the argument or the working directory is |
| CommandCore.ResolveExamples | crates/commands/mkdir/src/lib.rs:20-24 | `notes.txt` under `/` is `/notes.txt`, a trailing slash on the working directory is not doubled, absolute arguments are kept |
| CommandCore.Targets | crates/commands/touch/src/lib.rs:12-24 | there are never more targets than arguments |
| CommandCore.CollectTargets | crates/commands/touch/src/lib.rs:11-24 | the argument loop that skips `-` arguments collects exactly the resolved non-flag arguments in order |
| CommandCore.TargetsAppend | crates/commands/mv/src/lib.rs:12-24 | the targets of two argument lists are the targets of each, concatenated in order |
| CommandCore.TargetsOne | crates/commands/mv/src/lib.rs:13-22 | a single argument names no target when it starts with `-`, otherwise exactly its resolved path |
| CommandCore.FlagsIgnored | crates/commands/touch/src/lib.rs:13-14 | removing a flag from anywhere in the arguments leaves the targets unchanged |
| CommandCore.TargetsWithoutFlags | crates/commands/touch/src/lib.rs:12-24 | without flags every argument becomes a target, position by position, resolved |
| CommandCore.OnlyFlags | crates/commands/touch/src/lib.rs:26-29 | arguments that all start with `-` name no target |
| CommandCore.Each | crates/commands/rm/src/lib.rs:48-81 | the per-target loop exits 0 or 1, and exits 0 only with nothing on stderr |
| CommandCore.RunEach | crates/commands/mkdir/src/lib.rs:34-47 | the imperative loop over the targets computes the same outcome as the fold `Each` |
| CommandCore.EachAppend | crates/commands/rm/src/lib.rs:48-81 | running two groups of targets is running the first, then the second on the filesystem the first left, only if the first succeeded |
| CommandCore.EachOne | crates/commands/touch/src/lib.rs:31-46 | a single target's outcome is its step's stop message with exit 1, or its printed text with exit 0 |
| CommandCore.EachNeverHalts | crates/commands/rm/src/lib.rs:48-81 | when no step can stop, the loop exits 0 with an empty stderr |
| CommandCore.EachStopsAtFirstHalt | crates/commands/mv/src/lib.rs:43-59 | the loop stops at the first stopping target: earlier output and filesystem changes are kept, later targets are not tried |
| CommandCore.EachHaltsFirst | crates/commands/mv/src/lib.rs:55-58 | when the first target stops, the outcome is its message with exit 1 and its filesystem |
| EchoCommand.Echo | crates/commands/echo/src/lib.rs:10-16 | the printed line always ends with a newline |
| EchoCommand.EchoNothing | crates/commands/echo/src/lib.rs:10-13 | without operands the output is just a newline |
| EchoCommand.EchoPrintsFlags | crates/commands/echo/src/lib.rs:10-13 | `echo -n hi` prints `-n hi` and a newline: options are not read |
| EchoCommand.EchoSplitsBack | crates/commands/echo/src/lib.rs:10 | cutting the printed line at its spaces gives back the operands when none holds a space (nothing added, dropped or reordered) |
| CatCommand.CatStep | crates/commands/cat/src/lib.rs:13-26 | reading a file never changes the filesystem |
| CatCommand.CatStdin | crates/commands/cat/src/lib.rs:28-47 | non-empty stdin is echoed with exit 0, empty stdin prints the fixed notice with exit 0, a read error prints `cat: stdin:` with exit 1 |
| CatCommand.Cat | crates/commands/cat/src/lib.rs:10-50 | `cat` never changes the filesystem |
| CatCommand.CatFilesKeepFs | crates/commands/cat/src/lib.rs:13-27 | the file loop leaves the filesystem as it found it |
| CatCommand.RunCat | crates/commands/cat/src/lib.rs:10-50 | the imperative `run` computes the outcome `Cat` specifies |
| CatCommand.CatTwoFiles | crates/commands/cat/src/lib.rs:12-21 | two readable files are printed verbatim, the first one first, with exit 0 |
| CatCommand.CatStopsAtUnreadable | crates/commands/cat/src/lib.rs:20-25 | the first unreadable file ends the command with exit 1 and its error; only the files before it were printed |
| CatCommand.CatAllRead | crates/commands/cat/src/lib.rs:13-27 | files that can all be read give exit 0 |
| CatCommand.CatReadsStdin | crates/commands/cat/src/lib.rs:28-41 | with no file argument, piped text is echoed verbatim and empty input prints the notice, both with exit 0 |
| TouchCommand.TouchStep | crates/commands/touch/src/lib.rs:31-44 | an existing target is left as it is; a missing one is written empty; the step stops exactly when the target is missing and the write fails |
| TouchCommand.RunTouch | crates/commands/touch/src/lib.rs:9-47 | the imperative `run` computes the outcome the `Touch` function specifies |
| TouchCommand.TouchNeedsTarget | crates/commands/touch/src/lib.rs:26-29 | with only flags the command prints "missing file operand", exits 1 and changes nothing |
| TouchCommand.ExistingUntouched | crates/commands/touch/src/lib.rs:33-37 | targets that all exist leave the filesystem unchanged, with exit 0 and no output |
| TouchCommand.TouchOne | crates/commands/touch/src/lib.rs:39-43 | one missing file is written empty; a failed write exits 1 with `touch: cannot touch` and the reason |
| MkdirCommand.ParentsAnywhere | crates/commands/mkdir/src/lib.rs:13-17 | `-p` is in force exactly when `-p` or `--parents` appears among the arguments, wherever it stands |
| MkdirCommand.MkdirStep | crates/commands/mkdir/src/lib.rs:35-44 | `create_dir_all` under `-p`, `create_dir` otherwise; the step stops exactly when that call fails |
| MkdirCommand.RunMkdir | crates/commands/mkdir/src/lib.rs:9-48 | the imperative `run` computes the outcome the `Mkdir` function specifies |
| MkdirCommand.MkdirOne | crates/commands/mkdir/src/lib.rs:13-45 | one directory with flags before or after it is created by `create_dir_all` exactly when `-p` is among the flags; a failure exits 1 with the reason |
| MkdirCommand.OneTarget | crates/commands/mkdir/src/lib.rs:16-26 | one operand among flags is the only target |
| MkdirCommand.FlagsAround | crates/commands/mkdir/src/lib.rs:14-15 | `-p` counts whether it stands before or after the operand |
| MkdirCommand.MkdirNeedsTarget | crates/commands/mkdir/src/lib.rs:29-32 | with only flags the command prints "missing operand", exits 1 and changes nothing |
| MvCommand.FinalDest | crates/commands/mv/src/lib.rs:44-53 | into a directory a source keeps its own last path component under the destination; otherwise it goes to the destination itself |
| MvCommand.MvStep | crates/commands/mv/src/lib.rs:55-58 | each source is renamed to its final destination, and the step stops exactly when the rename fails |
| MvCommand.Mv | crates/commands/mv/src/lib.rs:26-30 | fewer than two operands exit 1 and change nothing |
| MvCommand.RunMv | crates/commands/mv/src/lib.rs:9-62 | the imperative `run` computes the outcome `Mv` specifies |
| MvCommand.MvTwo | crates/commands/mv/src/lib.rs:32-58 | two operands rename the first to the second, or into it under its base name when the second is a directory; a failed rename exits 1 with both paths and the reason |
| MvCommand.ManySourcesNeedDirectory | crates/commands/mv/src/lib.rs:37-41 | several sources with a destination that is not a directory exit 1 with "is not a directory" and move nothing |
| MvCommand.IntoDirectory | crates/commands/mv/src/lib.rs:43-59 | the first failed rename ends the command, keeping the moves before it |
| MvCommand.SilentSteps | crates/commands/mv/src/lib.rs:43-59 | successful moves print nothing |
| RmCommand.RmFlagMeaning | crates/commands/rm/src/lib.rs:15-30 | every `match` arm agrees with one rule: a `-` argument turns on recursion when it holds `r` or `R` (except `--force`) and force when it holds `f` |
| RmCommand.RmParseAnywhere | crates/commands/rm/src/lib.rs:14-41 | each option is on exactly when some argument sets it: flags may stand anywhere and never turn an option off |
| RmCommand.RmFlagExamples | crates/commands/rm/src/lib.rs:17-29 | `--force` only forces, `--verbose` turns on recursion by its `r`, `-v` sets nothing, `-Rf` sets both |
| RmCommand.RmStep | crates/commands/rm/src/lib.rs:49-78 | a path that cannot be examined stops the command unless forced; a directory without `-r` stops with "Is a directory"; otherwise the matching removal is applied and stops only when it fails unforced |
| RmCommand.RunRm | crates/commands/rm/src/lib.rs:9-82 | the imperative `run` (flag loop, then removal loop) computes the outcome the `Rm` function specifies |
| RmCommand.ForcedRecursiveNeverFails | crates/commands/rm/src/lib.rs:48-81 | under `-rf` every error is ignored: exit 0 and nothing on stderr |
| RmCommand.ForceStillNeedsRecursive | crates/commands/rm/src/lib.rs:60-64 | force alone does not remove a directory: exit 1 with "Is a directory" and the filesystem untouched |
| RmCommand.RmNeedsTarget | crates/commands/rm/src/lib.rs:43-46 | with only flags the command prints "missing operand", exits 1 and changes nothing |
| RmCommand.RmStopsAtFirstError | crates/commands/rm/src/lib.rs:48-81 | targets are removed in order; the first unforced error ends the command, keeping earlier removals |
| RmCommand.SilentRemovals | crates/commands/rm/src/lib.rs:48-81 | removals print nothing on stdout |
| LsCommand.LettersFirstUnknown | crates/commands/ls/src/lib.rs:159-172 | a cluster of option letters fails exactly when it holds a letter outside `a l 1 h r R`, and the letter reported is the first such one |
| LsCommand.ParseFrom | crates/commands/ls/src/lib.rs:157-189 | the first argument that is neither a cluster nor `--help` is kept as the target, and arguments that are all clusters leave no target |
| LsCommand.ParseArgs | crates/commands/ls/src/lib.rs:154-189 | the imperative argument loop computes the parse `ParseFrom` specifies |
| LsCommand.ParseExamples | crates/commands/ls/src/lib.rs:157-189 | `-la` sets two options; `-` and `--all` are targets; a later operand is ignored; an unknown letter before `--help` is an error; `--help` before an unknown letter wins |
| LsCommand.Visible | crates/commands/ls/src/lib.rs:59-65 | with `-a` every entry is kept; otherwise exactly the entries whose name does not start with `.` |
| LsCommand.NameLeTotal | crates/commands/ls/src/lib.rs:75 | any two names are ordered one way or the other by `String::cmp` |
| LsCommand.NameLeTrans | crates/commands/ls/src/lib.rs:75 | the name order is transitive |
| LsCommand.InsertByName | crates/commands/ls/src/lib.rs:75 | inserting an entry adds exactly that entry |
| LsCommand.InsertKeepsSorted | crates/commands/ls/src/lib.rs:75 | inserting into a sorted listing keeps it sorted and adds nothing else |
| LsCommand.InsertFirst | crates/commands/ls/src/lib.rs:75 | an entry smaller than the head of a sorted listing goes in front and keeps it sorted |
| LsCommand.InsertLater | crates/commands/ls/src/lib.rs:75 | an entry not smaller than the head goes after it and keeps the listing sorted |
| LsCommand.SortByName | crates/commands/ls/src/lib.rs:75 | sorting is a permutation of the entries |
| LsCommand.SortByNameSorted | crates/commands/ls/src/lib.rs:75 | sorting yields ascending names |
| LsCommand.Reverse | crates/commands/ls/src/lib.rs:76-78 | position `k` of the reversed listing holds the entry at position `n-1-k` |
| LsCommand.ReverseMultiset | crates/commands/ls/src/lib.rs:76-78 | reversing keeps the same entries |
| LsCommand.ArrangeOrder | crates/commands/ls/src/lib.rs:57-78 | the listing holds exactly the visible entries, ascending by name, or descending under `-r` |
| LsCommand.Utf8Length | crates/commands/ls/src/lib.rs:95 | the byte length `String::len` counts lies between the character count and four times it |
| LsCommand.Colored | crates/commands/ls/src/lib.rs:88-96 | directories are bold blue with a `/` suffix, `.wasm`/`.sh` files bold green, others plain, each followed by a reset |
| LsCommand.DisplayLength | crates/commands/ls/src/lib.rs:95 | the shown length is the byte length of the name plus one for a directory's `/` |
| LsCommand.DisplayExamples | crates/commands/ls/src/lib.rs:95 | `bin/` counts 4, `ls.wasm` 7, and `été` 5 because `é` takes two bytes |
| LsCommand.ExecutableExamples | crates/commands/ls/src/lib.rs:69 | `ls.wasm` and `run.sh` are executable, `notes.md` is not |
| LsCommand.FormatSize | crates/commands/ls/src/lib.rs:33-51 | without `-h` the size is right-aligned: at least 8 characters, spaces then its decimal digits; with `-h` at least 7 characters ending in the letter of the unit the loop stops at |
| LsCommand.UnitIndex | crates/commands/ls/src/lib.rs:38-45 | the `-h` loop stops at the largest unit among B, K, M, G, T that the size reaches: the size is at least 1024^u, and below 1024^(u+1) unless the unit is T |
| LsCommand.NearestTenths | crates/commands/ls/src/lib.rs:50 | `{:.1}` picks the tenth nearest to `size / d`, at most half a tenth away, an exact tie going to the even tenth |
| LsCommand.HumanSize | crates/commands/ls/src/lib.rs:47-51 | the `-h` column ends in its unit's letter and is at least 7 characters; below 1 KiB it is the byte count right-aligned in 7 columns before `B` |
| LsCommand.PrintSize | crates/commands/ls/src/lib.rs:33-51 | the loop that divides by 1024 while a larger unit remains computes `FormatSize` |
| LsCommand.HumanSizeReads | crates/commands/ls/src/lib.rs:38-51 | from 1 KiB up, the `-h` column is the nearest tenth in the largest unit reached, written as digits, a point and one digit, right-aligned in 6 columns, then the unit letter |
| LsCommand.HumanSizeTie | crates/commands/ls/src/lib.rs:38-51 | 1280 bytes, an exact tie between two tenths, show as `   1.2K` |
| LsCommand.SizeColumn | crates/commands/ls/src/lib.rs:34-36 | a size below 10^8 takes exactly 8 columns: leading spaces, then digits whose value is the size, no line break |
| LsCommand.DecimalFits | crates/commands/ls/src/lib.rs:35 | a number below 10^k has at most `k` decimal digits |
| LsCommand.NameLinesCount | crates/commands/ls/src/lib.rs:106-109 | `-1` prints one line per entry |
| LsCommand.LongLinesCount | crates/commands/ls/src/lib.rs:101-105 | `-l` prints one line per entry |
| LsCommand.MaxDisplayLength | crates/commands/ls/src/lib.rs:112 | the widest shown length bounds every entry and is reached by one of them, 0 for an empty listing |
| LsCommand.Columns | crates/commands/ls/src/lib.rs:114 | there is always at least one column |
| LsCommand.ColumnsFit | crates/commands/ls/src/lib.rs:113-114 | the columns fit the 80-column terminal unless a single one is wider, and one more column would not fit |
| LsCommand.GridCellBreaks | crates/commands/ls/src/lib.rs:116-124 | an entry ends its line after every `cols`-th entry and after the last one, and is padded to the column width otherwise |
| LsCommand.GridCellWidth | crates/commands/ls/src/lib.rs:112-121 | the padding after an entry is at least the two spaces of the gap |
| LsCommand.GridCellLines | crates/commands/ls/src/lib.rs:116-124 | an entry contributes a line break exactly when it ends a row or the listing |
| LsCommand.GridPrefixLines | crates/commands/ls/src/lib.rs:116-124 | before entry `k` (not the last) the grid has printed `k / cols` lines |
| LsCommand.GridRows | crates/commands/ls/src/lib.rs:110-125 | the grid prints `ceil(n / cols)` lines for `n` entries |
| LsCommand.GridLines | crates/commands/ls/src/lib.rs:116-124 | for any column count the cells print `ceil(n / cols)` lines |
| LsCommand.GridLastLine | crates/commands/ls/src/lib.rs:118-119 | the last entry always ends its line, so a non-empty grid prints `(n-1)/cols + 1` lines |
| LsCommand.GridPrefixStep | crates/commands/ls/src/lib.rs:116 | the grid is the cells in entry order |
| LsCommand.GridPrefixEmpty | crates/commands/ls/src/lib.rs:116 | no entry, no cell text |
| LsCommand.GridIsPrefix | crates/commands/ls/src/lib.rs:112-114 | the grid uses the widest length plus 2 as column width and the column count derived from it |
| LsCommand.Newlines | crates/commands/ls/src/lib.rs:101-125 | a text holds at most as many line breaks as characters, and none when it has no newline |
| LsCommand.NewlinesAppend | crates/commands/ls/src/lib.rs:101-125 | line breaks of consecutive prints add up |
| LsCommand.ColoredOneLine | crates/commands/ls/src/lib.rs:96 | a coloured name has no line break when the name has none |
| LsCommand.DivStep | crates/commands/ls/src/lib.rs:118 | the row number grows by one exactly after a multiple of `cols` |
| LsCommand.RowsCeiling | crates/commands/ls/src/lib.rs:118 | `ceil(n / cols)` is 0 for no entry and `(n-1)/cols + 1` otherwise |
| LsCommand.PrintBody | crates/commands/ls/src/lib.rs:101-125 | the output loops print the layout the options pick: long, one per line, or grid |
| LsCommand.PrintLong | crates/commands/ls/src/lib.rs:101-105 | the `-l` loop prints each entry's size column (through `PrintSize`), a space and its coloured name, line by line |
| LsCommand.PrintNames | crates/commands/ls/src/lib.rs:106-109 | the `-1` loop prints each coloured name on its own line |
| LsCommand.PrintGrid | crates/commands/ls/src/lib.rs:110-125 | the grid loop prints the cells `Grid` specifies |
| LsCommand.SubPrefix | crates/commands/ls/src/lib.rs:132-136 | a subdirectory's header is at least as long as its name |
| LsCommand.SubPrefixExamples | crates/commands/ls/src/lib.rs:132-136 | under the top directory the header is the name; deeper, the path from the top joined by `/` |
| LsCommand.ListDir | crates/commands/ls/src/lib.rs:54-150 | exit 1 exactly when the directory cannot be read, with `ls: <path>: <error>` on stderr and nothing on stdout; a nested listing begins with its `<prefix>:` header |
| LsCommand.Subdirectories | crates/commands/ls/src/lib.rs:128-141 | the recursion ignores the exit codes of the nested listings |
| LsCommand.RunLs | crates/commands/ls/src/lib.rs:153-204 | the imperative `run` computes the outcome `Ls` specifies |
| LsCommand.RunListDir | crates/commands/ls/src/lib.rs:54-150 | the imperative `list_dir` computes the listing `ListDir` specifies |
| LsCommand.ListSubdirectories | crates/commands/ls/src/lib.rs:128-141 | the recursion loop computes what `Subdirectories` specifies |
| LsCommand.ListDirFlat | crates/commands/ls/src/lib.rs:80-143 | without `-R` a readable directory prints its header (if nested), then the arranged entries in the chosen layout, exit 0 |
| LsCommand.NoSubdirectories | crates/commands/ls/src/lib.rs:129-140 | entries that are not directories print nothing in the recursion |
| LsCommand.SubdirectoryListed | crates/commands/ls/src/lib.rs:130-139 | each subdirectory adds an empty line and then its own listing under the header `<prefix>/<name>:`; its errors go to stderr and the exit stays 0 |
| LsCommand.LsOptionErrors | crates/commands/ls/src/lib.rs:157-185 | `ls -lz docs` prints the invalid option `z` and the usage line with exit 1; `ls --help -z` prints the help with exit 0 |
| LsCommand.LsListsWorkingDirectory | crates/commands/ls/src/lib.rs:192-203 | without an operand the working directory is listed |
| LsCommand.LsResolvesOperand | crates/commands/ls/src/lib.rs:186-203 | a relative operand is joined under the working directory, trailing slash trimmed, and options after it still apply |
| LsCommand.OperandThenOption | crates/commands/ls/src/lib.rs:157-189 | an option after the operand still takes effect |
| LsCommand.ResolveUnderSlash | crates/commands/ls/src/lib.rs:197 | `docs` under `/home/` is `/home/docs` |
| LsCommand.LsExit | crates/commands/ls/src/lib.rs:153-204 | the exit code is 1 for an invalid option, 0 for `--help`, otherwise 1 exactly when the target directory cannot be read |
| ShellParser.NameLength | crates/shell/src/parser.rs:283-291 | a `$NAME` name never runs past the word |
| ShellParser.NameLengthAll | crates/shell/src/parser.rs:283-291 | a name made only of name characters runs to the end of the word |
| ShellParser.UpTo | crates/shell/src/parser.rs:252-270 | the scan up to a stop character never runs past the word |
| ShellParser.UpToIs | crates/shell/src/parser.rs:252-270 | the scan stops exactly at the first stop character |
| ShellParser.ParenBody | crates/shell/src/parser.rs:215-235 | the body of `$(...)` inside a word ends within the word |
| ShellParser.Braced | crates/shell/src/parser.rs:246-281 | `${...}` ends within the word |
| ShellParser.DefaultAt | crates/shell/src/parser.rs:260-273 | the default of `${NAME:-D}` ends within the word |
| ShellParser.PutTwice | crates/shell/src/parser.rs:201-318 | adding segments and substitutions twice is adding them joined |
| ShellParser.Flush | crates/shell/src/parser.rs:209-211 | a pending literal becomes at most one segment, and none exactly when it is empty |
| ShellParser.RedirectTarget | crates/shell/src/parser.rs:176-198 | a redirection target takes exactly one token |
| ShellParser.RedirectNeedsTarget | crates/shell/src/parser.rs:193-196 | a redirection not followed by a word or a quoted string is an error at the position after the operator |
| ShellParser.SubstText | crates/shell/src/parser.rs:321-349 | the text of a command substitution ends within the tokens |
| ShellParser.CommandFrom | crates/shell/src/parser.rs:99-173 | a simple command never moves backwards, and one that takes no token is the command it started from |
| ShellParser.CommandFromSubst | crates/shell/src/parser.rs:150-164 | `$(` records a numbered substitution and adds a word that refers to it |
| ShellParser.RedirectThen | crates/shell/src/parser.rs:122-147 | a redirection takes at least one token |
| ShellParser.PipelineFrom | crates/shell/src/parser.rs:81-96 | a pipeline adds at least one command to those before and never moves backwards; one that takes no token adds one empty command |
| ShellParser.SkipNewlines | crates/shell/src/parser.rs:38-40 | skipping newlines stops at the end or at a token that is not a newline |
| ShellParser.ParseFromStep | crates/shell/src/parser.rs:36-73 | one round of the parse loop: an empty pipeline that takes no token loops for ever, an empty one that takes tokens is dropped, a kept one is followed by `&&`, `\|\|`, a newline or the end |
| ShellParser.ParseFromStops | crates/shell/src/parser.rs:42-47 | at the end the result holds the elements so far; a pipeline error is the result |
| ShellParser.ParseFromWellFormed | crates/shell/src/parser.rs:32-78 | a successful parse keeps the elements before, the first element has no connector, no element is empty, and the substitutions are numbered from 0 in order |
| ShellParser.ParseWellFormed | crates/shell/src/parser.rs:32-78 | every successful parse of the tokens is well formed in that sense |
| ShellParser.KeptElements | crates/shell/src/parser.rs:49-57 | a kept element is not empty and the list keeps its first element unconnected |
| ShellParser.CommandStalls | crates/shell/src/parser.rs:99-173 | a command that takes no token stands at the end or at `\|`, `&&`, `\|\|`, `)` or a newline |
| ShellParser.PipelineStalls | crates/shell/src/parser.rs:81-96 | a pipeline that takes no token is a first command that takes no token |
| ShellParser.DivergesOnlyAtOperator | crates/shell/src/parser.rs:36-52 | the parse loop runs for ever only at a `&&`, `\|\|` or `)` where a pipeline should start |
| ShellParser.DivergesAtOperator | crates/shell/src/parser.rs:36-52 | wherever a pipeline should start, after any newlines, a `&&`, `\|\|` or `)` makes the loop run for ever at that token |
| ShellParser.InputStartingWithAndDiverges | crates/shell/src/parser.rs:25-29 | input that starts with `&&` never finishes parsing |
| ShellParser.TakeParenBody | crates/shell/src/parser.rs:215-235 | the loop over `$(...)` inside a word computes `ParenBody` |
| ShellParser.TakeUpTo | crates/shell/src/parser.rs:252-270 | the name and default loops take the text up to the stop character |
| ShellParser.TakeBraced | crates/shell/src/parser.rs:246-281 | the `${...}` branch computes `Braced` |
| ShellParser.TakeName | crates/shell/src/parser.rs:283-291 | the `$NAME` loop takes the longest run of name characters |
| ShellParser.Parser.constructor | crates/shell/src/parser.rs:15-22 | a new parser stands at the first token with no substitutions |
| ShellParser.Parser.Advance | crates/shell/src/parser.rs:361-366 | `advance` moves one token on, but not past the end |
| ShellParser.Parser.ParseWord | crates/shell/src/parser.rs:201-318 | `parse_word` computes `WordAt`: the segments and the substitutions numbered from the parser's counter |
| ShellParser.Parser.ParseDollar | crates/shell/src/parser.rs:207-301 | one `$` adds the segment and substitutions the word scan specifies and moves past them |
| ShellParser.Parser.ParseRedirectTarget | crates/shell/src/parser.rs:176-198 | `parse_redirect_target` computes `RedirectTarget` |
| ShellParser.Parser.ParseCommandSubstitution | crates/shell/src/parser.rs:321-349 | `parse_command_substitution` returns the trimmed text of the tokens up to the matching `)` and stands after it |
| ShellParser.Parser.SubstitutionArgument | crates/shell/src/parser.rs:150-164 | `$(` records the next numbered substitution with its trimmed text |
| ShellParser.Parser.ArgumentStep | crates/shell/src/parser.rs:105-120 | a word or quoted string adds its argument and the command goes on from there |
| ShellParser.Parser.RedirectStep | crates/shell/src/parser.rs:122-147 | a redirection adds its target or reports its error |
| ShellParser.Parser.SubstitutionStep | crates/shell/src/parser.rs:150-164 | a substitution adds its argument and the command goes on from there |
| ShellParser.Parser.ParseSimpleCommand | crates/shell/src/parser.rs:99-173 | `parse_simple_command` computes `CommandFrom` |
| ShellParser.Parser.ParsePipeline | crates/shell/src/parser.rs:81-96 | `parse_pipeline` computes `PipelineFrom` |
| ShellParser.Parser.Parse | crates/shell/src/parser.rs:32-78 | `parse` computes `ParseFrom` whenever it returns |
| ShellParser.ParseInput | crates/shell/src/parser.rs:25-29 | `parse_input` computes `ParseString`: a tokenizer error is a parse error at position 0 |
| ShellParser.ScanPlainUpTo | crates/shell/src/parser.rs:302-304 | characters other than `$` are added to the pending literal |
| ShellParser.WordWithoutDollar | crates/shell/src/parser.rs:201-318 | a word without `$` is one literal segment |
| ShellParser.WordVariable | crates/shell/src/parser.rs:283-296 | `$NAME` is one variable without a default |
| ShellParser.WordBraced | crates/shell/src/parser.rs:246-281 | `${NAME}` is one variable without a default |
| ShellParser.WordBracedDefault | crates/shell/src/parser.rs:246-281 | `${NAME:-D}` is one variable with default D |
| ShellParser.WordDollarAfterText | crates/shell/src/parser.rs:297-300 | a `$` at the end is a literal `$` after the text before it |
| ShellParser.WordScanLoneDollar | crates/shell/src/parser.rs:297-300 | a `$` followed by nothing is a literal `$` |
| ShellParser.WordOfScan | crates/shell/src/parser.rs:312-317 | an empty word becomes one empty literal, any other word is its scanned segments |
| ShellParser.ScanIds | crates/shell/src/parser.rs:237-243 | the substitutions of a word are numbered consecutively from the parser's counter |
| ShellParser.WordAtNumbered | crates/shell/src/parser.rs:237-243 | parsing a word keeps substitutions numbered in order |
| ShellParser.CommandFromNumbered | crates/shell/src/parser.rs:99-173 | parsing a command keeps substitutions numbered in order |
| ShellParser.RedirectThenNumbered | crates/shell/src/parser.rs:122-147 | parsing a redirection keeps substitutions numbered in order |
| ShellParser.PipelineFromNumbered | crates/shell/src/parser.rs:81-96 | parsing a pipeline keeps substitutions numbered in order |
| ShellParser.Render | crates/shell/src/parser.rs:374-389 | rendered tokens are empty exactly when there are none |
| ShellParser.LexOperatorThen | crates/shell/src/parser.rs:374-389 | an operator written out and followed by a space lexes back to itself |
| ShellParser.LexSingleQuotedThen | crates/shell/src/parser.rs:377 | a single-quoted string written out lexes back to itself |
| ShellParser.LexDoubleQuotedThen | crates/shell/src/parser.rs:378 | a double-quoted string written out lexes back to itself when it holds no quote or backslash |
| ShellParser.LexTokenThen | crates/shell/src/parser.rs:374-389 | any token written out and followed by a space lexes back to itself |
| ShellParser.RenderRoundTrip | crates/shell/src/parser.rs:339-343 | tokens written out with a space after each lex back to the same tokens |
| ShellParser.SubstTextPlain | crates/shell/src/parser.rs:321-349 | without nested `$(`, the substitution's text is its tokens written out, up to the `)` |
| ShellParser.SubstTextStep | crates/shell/src/parser.rs:325-346 | `)` ends the substitution, any other token is written out with a space after it |
| ShellParser.RenderFirst | crates/shell/src/parser.rs:339-343 | the written-out tokens are the first one, a space, then the rest |
| ShellParser.SubstitutionReparses | crates/shell/src/parser.rs:321-349 | the text of a substitution lexes back to the tokens it was made of |
| ShellParser.PipelineOfWord | crates/shell/src/parser.rs:81-120 | one word before an operator is a pipeline of one command |
| ShellParser.OneWord | crates/shell/src/parser.rs:49-52 | a one-word pipeline is kept |
| ShellParser.ParseFromWord | crates/shell/src/parser.rs:36-73 | a word is kept as an element and its connector is read |
| ShellParser.AndOrConnectors | crates/shell/src/parser.rs:438-445 | `a && b \|\| c` parses to three elements connected by none, And and Or |
| ShellParser.AndOrInput | crates/shell/src/parser.rs:25-29 | the same from the text |
| ShellParser.TrimPadded | crates/shell/src/parser.rs:348 | trimming removes the trailing space the text collected |
| ShellParser.SubstitutionExampleText | crates/shell/src/parser.rs:455-460 | in `echo $( ls )` the substitution's text is `ls` and the parser stands after `)` |
| ShellParser.SubstitutionExampleCommand | crates/shell/src/parser.rs:150-164 | `echo $( ls )` is one command whose second argument refers to substitution 0 |
| ShellParser.PipelineOfCommand | crates/shell/src/parser.rs:81-96 | a command followed by the end is a pipeline of that command |
| ShellParser.SubstitutionExample | crates/shell/src/parser.rs:455-460 | `echo $( ls )` parses to one element with substitution 0 running `ls` |
| AnsiParser.ParamLength | src/components/ansi-parser.ts:114 | the parameter run is the longest prefix of digits and `;` |
| AnsiParser.SgrLength | src/components/ansi-parser.ts:114 | a match of `ESC [ [0-9;]* m` starts with `ESC [`, is at least three characters long and fits in the text |
| AnsiParser.SgrLengthShape | src/components/ansi-parser.ts:114 | a match ends with `m` and holds only digits and `;` between `ESC [` and `m` |
| AnsiParser.NextSgr | src/components/ansi-parser.ts:120 | the next match found from a position is at or after it and really is a match |
| AnsiParser.NextSgrIsFirst | src/components/ansi-parser.ts:120 | the next match is the first one: no position before it starts a match, and when there is none no position does |
| AnsiParser.Codes | src/components/ansi-parser.ts:130-133 | the parameter text gives one code per `;`-separated piece, at least one |
| AnsiParser.PiecesAreDigits | src/components/ansi-parser.ts:130-133 | every piece of a matched parameter text is digits only, so no piece is dropped as NaN |
| AnsiParser.Params | src/components/ansi-parser.ts:114 | the captured parameters are digits and `;` only |
| AnsiParser.Spans | src/components/ansi-parser.ts:120-186 | no span is empty |
| AnsiParser.SpansAt | src/components/ansi-parser.ts:120-176 | at the first match the text before it becomes a span in the current style, and the rest is read in the style the codes set |
| AnsiParser.SpansEnd | src/components/ansi-parser.ts:178-184 | without a further match the remaining text is one span in the current style, if it is not empty |
| AnsiParser.ExecSgr | src/components/ansi-parser.ts:120 | the search loop finds `NextSgr` |
| AnsiParser.ParseAnsiSpans | src/components/ansi-parser.ts:112-187 | the `parseAnsi` loop computes `ParseAnsi` |
| AnsiParser.PlainText | src/components/ansi-parser.ts:178-184 | text without `ESC` is one plain span, or none when it is empty |
| AnsiParser.NoEscapeNoSgr | src/components/ansi-parser.ts:114 | text without `ESC` holds no match |
| AnsiParser.SgrSequenceLength | src/components/ansi-parser.ts:114 | `ESC [ params m` is matched whole and captures its parameters |
| AnsiParser.LeadingSgr | src/components/ansi-parser.ts:129-175 | a leading sequence only changes the style the rest is read in |
| AnsiParser.EmptySequenceResets | src/components/ansi-parser.ts:137-139 | `ESC [ m` resets the style, since its one empty piece is code 0 |
| AnsiParser.BoldRedSpan | src/components/ansi-parser.test.ts:1-307 | `ESC [1;31m` then text is one bold red span |
| AnsiParser.SpansCoverVisible | src/components/ansi-parser.ts:112-187 | the spans put together are the text with every matched sequence removed |
| AnsiParser.PayloadSegment | src/components/ansi-parser.ts:214-233 | a payload is a custom segment exactly when it parsed and has a string `type`; otherwise an error segment holding the raw text |
| AnsiParser.TextSegments | src/components/ansi-parser.ts:203-207 | text becomes at most one text segment, and never one without spans |
| AnsiParser.FindPrefix | src/components/ansi-parser.ts:198 | `indexOf` of `ESC ]custom;` finds the first occurrence at or after the position, or reports that there is none |
| AnsiParser.AfterTerminator | src/components/ansi-parser.ts:235-239 | skipping the terminator moves forward and stays within the text |
| AnsiParser.Before | src/components/ansi-parser.ts:201-208 | the text before a prefix becomes at most one non-empty text segment |
| AnsiParser.Segments | src/components/ansi-parser.ts:192-259 | no text segment is empty |
| AnsiParser.SegmentsEnd | src/components/ansi-parser.ts:197-199 | with no further prefix the rest is one text segment |
| AnsiParser.SegmentsUnterminated | src/components/ansi-parser.ts:243-247 | a prefix without balanced JSON is kept as text and the search goes on after it |
| AnsiParser.SegmentsPayload | src/components/ansi-parser.ts:210-242 | a prefix followed by balanced JSON becomes a payload segment and the search goes on after the terminator |
| AnsiParser.IndexOfPrefix | src/components/ansi-parser.ts:198 | the search loop computes `FindPrefix` |
| AnsiParser.SplitCustomOscSegments | src/components/ansi-parser.ts:192-259 | the `splitCustomOsc` loop computes `SplitCustomOsc` |
| AnsiParser.NoCustomOsc | src/components/ansi-parser.ts:250-256 | text without the prefix is one text segment |
| AnsiParser.FirstPrefixAfter | src/components/ansi-parser.ts:198 | the prefix is found right after text that does not hold it |
| AnsiParser.PayloadSplits | src/components/ansi-parser.ts:197-248 | text, prefix, JSON, terminator, rest splits into the text, one payload segment holding prefix and JSON, then the rest |
| AnsiParser.TerminatorSkipped | src/components/ansi-parser.ts:235-239 | a BEL, `ESC \` or newline after the JSON is skipped |
| AnsiParser.UnterminatedPayloadKept | src/components/ansi-parser.ts:243-256 | a prefix without JSON is kept as text |
| AnsiParser.KeptPrefixIsPlain | src/components/ansi-parser.ts:243-256 | the kept prefix text is one plain span |
| Sgr.LowPalette | src/components/tty/ScreenBuffer.ts:218-227 | each palette has sixteen colours |
| Sgr.Hex | src/components/tty/ScreenBuffer.ts:239 | `toString(16)` gives at least one hexadecimal digit |
| Sgr.HexValueHex | src/components/tty/ScreenBuffer.ts:239 | reading the hexadecimal digits back gives the number |
| Sgr.HexLength | src/components/tty/ScreenBuffer.ts:239 | a byte takes at most two hexadecimal digits |
| Sgr.Pad2 | src/components/tty/ScreenBuffer.ts:239 | `padStart(2, '0')` gives at least two characters and leaves longer text alone |
| Sgr.Byte2 | src/components/tty/ScreenBuffer.ts:239 | a padded byte is exactly two hexadecimal digits that read back as the byte |
| Sgr.CubeLevel | src/components/tty/ScreenBuffer.ts:239 | a cube level is a byte |
| Sgr.Ansi256 | src/components/tty/ScreenBuffer.ts:232-235 | indices below 16 take the component's 16-colour palette |
| Sgr.ParseThree | src/components/tty/ScreenBuffer.ts:240 | `#RRGGBB` reads back as its three bytes |
| Sgr.CubeColour | src/components/tty/ScreenBuffer.ts:235-240 | indices 16-231 are the 6×6×6 cube: red, green and blue levels from the index's base-6 digits |
| Sgr.GreyColour | src/components/tty/ScreenBuffer.ts:241-245 | indices 232-255 are greys `8 + 10·k` in all three channels |
| Sgr.CubeLevelNotGrey | src/components/tty/ScreenBuffer.ts:239-243 | no cube level is a grey level |
| Sgr.CubeLevelInjective | src/components/tty/ScreenBuffer.ts:239 | different levels give different bytes |
| Sgr.IntensitiesDistinct | src/components/tty/ScreenBuffer.ts:235-245 | two indices from 16 to 255 with the same three intensities are the same index |
| Sgr.Ansi256Distinct | src/components/tty/ScreenBuffer.ts:232-246 | the 240 colours from 16 to 255 are all different |
| Sgr.ApplyCodes | src/components/tty/ScreenBuffer.ts:180-213 | the `applySgr` loop computes `Apply`, which is also `parseAnsi`'s code loop at src/components/ansi-parser.ts:135-173 |
| Sgr.ApplyAppend | src/components/tty/ScreenBuffer.ts:180-213 | applying two code lists one after the other is applying them joined, when the first does not end inside `38;5`/`48;5` |
| Sgr.ResetForgets | src/components/tty/ScreenBuffer.ts:184-186 | code 0 forgets every earlier code |
| Sgr.UnknownIgnored | src/components/tty/ScreenBuffer.ts:180-213 | an unknown code changes nothing |
| Sgr.BoldRed | src/components/tty/ScreenBuffer.ts:187-196 | `1;31` is bold red, and a following `0` gives the plain style |
| AnsiProcessor.ParamLength | src/components/tty/ansi-processor.ts:110-114 | the parameter loop stops at the first character other than a digit or `;` |
| AnsiProcessor.DigitLength | src/components/tty/ansi-processor.ts:122 | `parseInt` reads a run of digits |
| AnsiProcessor.Numbers | src/components/tty/ansi-processor.ts:122 | empty parameters give no numbers, and others give at least one |
| AnsiProcessor.Param | src/components/tty/ansi-processor.ts:133-174 | `numbers[k] \|\| d`: a missing or zero parameter is the default |
| AnsiProcessor.CsiAction | src/components/tty/ansi-processor.ts:124-181 | exactly the final characters `m A B C D H f J K` give an action |
| AnsiProcessor.Csi | src/components/tty/ansi-processor.ts:106-182 | a CSI sequence is recognised exactly when its parameters are followed by a supported final character, and it is never text |
| AnsiProcessor.ScanCsi | src/components/tty/ansi-processor.ts:106-182 | the `parseCSI` loop computes `Csi` |
| AnsiProcessor.SkipTerminator | src/components/tty/ansi-processor.ts:197-202 | skipping BEL or ST moves forward within the text |
| AnsiProcessor.Osc | src/components/tty/ansi-processor.ts:188-230 | only `custom;` followed by balanced JSON that parses gives an action, a custom one |
| AnsiProcessor.ScanOsc | src/components/tty/ansi-processor.ts:188-230 | `parseOSC` computes `Osc` |
| AnsiProcessor.Escape | src/components/tty/ansi-processor.ts:65-91 | a recognised escape consumes more than `ESC` and its second character and is not text |
| AnsiProcessor.ScanEscape | src/components/tty/ansi-processor.ts:65-91 | the ESC branch computes `Escape` |
| AnsiProcessor.Flush | src/components/tty/ansi-processor.ts:32-37 | `flushText` emits a text action exactly when the buffer is not empty |
| AnsiProcessor.ControlAction | src/components/tty/ansi-processor.ts:43-62 | CR, LF and BS map to their actions and nothing else |
| AnsiProcessor.StreamEnd | src/components/tty/ansi-processor.ts:98 | at the end the buffered text is flushed |
| AnsiProcessor.StreamControl | src/components/tty/ansi-processor.ts:43-62 | a control character flushes the text and emits its action |
| AnsiProcessor.StreamEscape | src/components/tty/ansi-processor.ts:65-91 | ESC flushes the text; a recognised sequence emits its action, anything else drops only the ESC |
| AnsiProcessor.StreamText | src/components/tty/ansi-processor.ts:93-95 | any other character is added to the text buffer |
| AnsiProcessor.ParseAnsiStream | src/components/tty/ansi-processor.ts:27-100 | the `parseAnsiStream` loop computes `Stream` |
| AnsiProcessor.NoEscapeRoundTrip | src/components/tty/ansi-processor.ts:27-100 | text without ESC becomes only text and control actions, which put back together give the text |
| AnsiProcessor.TextRunsClean | src/components/tty/ansi-processor.ts:32-37 | no text action is empty or holds CR, LF or BS |
| AnsiProcessor.CsiShape | src/components/tty/ansi-processor.ts:106-124 | a CSI sequence ends right after its final character |
| AnsiProcessor.UnsupportedCsiLeaks | src/components/tty/ansi-processor.ts:88-90 | an unsupported final character drops only the ESC, so `[`, the parameters and the final character are printed |
| AnsiProcessor.TruncatedCsiLeaks | src/components/tty/ansi-processor.ts:116 | a CSI sequence cut off at the end drops only the ESC |
| AnsiProcessor.OtherOscLeaks | src/components/tty/ansi-processor.ts:217-229 | an OSC sequence other than `custom;` drops only the ESC, so its body is printed |
| AnsiProcessor.CursorMoveDefault | src/components/tty/ansi-processor.ts:131-153 | cursor moves are by at least 1, and by 1 when the parameter is missing or 0 |
| AnsiProcessor.CursorPositionZeroBased | src/components/tty/ansi-processor.ts:155-164 | CUP and HVP turn 1-based parameters, 1 by default, into 0-based row and column |
| AnsiProcessor.EmptyParameters | src/components/tty/ansi-processor.ts:125-176 | `m` resets, `J` and `K` erase with mode 0, and `H` goes home |
| CharWidth.Width | src/components/tty/ScreenBuffer.ts:23-40 | a character takes two columns exactly when it is in one of the full-width ranges, and one otherwise |
| CharWidth.WidthExamples | src/components/tty/ScreenBuffer.ts:23-40 | Latin-1 is narrow; hiragana, kanji, Hangul and full-width Latin are wide; half-width katakana (U+FF71) is narrow |
| ScreenBuffer.EmptyRow | src/components/tty/ScreenBuffer.ts:42-44 | `createEmptyRow` is `cols` empty cells |
| ScreenBuffer.EmptyGrid | src/components/tty/ScreenBuffer.ts:66 | the initial grid is `rows` empty rows |
| ScreenBuffer.Initial | src/components/tty/ScreenBuffer.ts:61-67 | a new buffer is well formed: every row `cols` wide, the cursor inside or just past the last column |
| ScreenBuffer.AllCells | src/components/tty/ScreenBuffer.ts:387-389 | `getAllCells` is the scrollback followed by the visible rows |
| ScreenBuffer.SetCell | src/components/tty/ScreenBuffer.ts:82-86 | writing one cell changes that cell and no other, and keeps every row's width |
| ScreenBuffer.Scrolled | src/components/tty/ScreenBuffer.ts:344-355 | scrolling keeps the shape, the cursor and the style, and the scrollback holds at most 1000 rows |
| ScreenBuffer.LineFed | src/components/tty/ScreenBuffer.ts:331-339 | a new line goes to column 0 and the next row, or scrolls on the last row and stays there |
| ScreenBuffer.LineFeedScrolls | src/components/tty/ScreenBuffer.ts:344-355 | on the last row the top row moves to the scrollback, dropping the oldest past 1000, and an empty row is added at the bottom |
| ScreenBuffer.LineFeedKeepsHistory | src/components/tty/ScreenBuffer.ts:344-355 | scrolling adds an empty row to `getAllCells`, and loses only its first row when the scrollback is full |
| ScreenBuffer.Put | src/components/tty/ScreenBuffer.ts:82-87 | writing at the cursor moves it one column on |
| ScreenBuffer.CharWritten | src/components/tty/ScreenBuffer.ts:72-98 | `writeChar` first wraps when needed, puts the character in the current style at the cursor and moves two columns for a wide character that fits, one otherwise |
| ScreenBuffer.DeferredWrap | src/components/tty/ScreenBuffer.ts:72-87 | a narrow character in the last column leaves the cursor one past it, without wrapping |
| ScreenBuffer.NarrowCharInPlace | src/components/tty/ScreenBuffer.ts:82-87 | a narrow character before the last column changes only its own cell |
| ScreenBuffer.WideCharWraps | src/components/tty/ScreenBuffer.ts:75-97 | a wide character in the last column wraps and takes the first two cells of the next row, the second one a skip cell |
| ScreenBuffer.SgrApplied | src/components/tty/ScreenBuffer.ts:180-213 | SGR changes only the current style, with the VS Code palette |
| ScreenBuffer.Clamp | src/components/tty/ScreenBuffer.ts:253-254 | `Math.max(0, Math.min(hi, v))` keeps values in range and moves others to the nearest end |
| ScreenBuffer.CursorMoved | src/components/tty/ScreenBuffer.ts:252-262 | moving the cursor clamps it to the screen and changes no cell |
| ScreenBuffer.ClearFrom | src/components/tty/ScreenBuffer.ts:322-326 | clearing from a column empties exactly the cells from there to the end of the row |
| ScreenBuffer.ClearThrough | src/components/tty/ScreenBuffer.ts:280-282 | clearing through a column empties exactly the cells up to and including it |
| ScreenBuffer.ClearRowsFrom | src/components/tty/ScreenBuffer.ts:271-273 | the rows below the cursor become empty and the others stay |
| ScreenBuffer.ClearRowsBefore | src/components/tty/ScreenBuffer.ts:277-279 | the rows above the cursor become empty and the others stay |
| ScreenBuffer.LineClearedToEnd | src/components/tty/ScreenBuffer.ts:322-326 | clearing to the end of the line keeps the buffer well formed |
| ScreenBuffer.ScreenCleared | src/components/tty/ScreenBuffer.ts:312-317 | clearing the screen empties every cell, homes the cursor, and drops the scrollback and custom renders |
| ScreenBuffer.DisplayErased | src/components/tty/ScreenBuffer.ts:267-288 | every erase-display mode keeps the buffer well formed (mode 1 with the corrected column bound) |
| ScreenBuffer.LineErased | src/components/tty/ScreenBuffer.ts:293-307 | every erase-line mode keeps the buffer well formed (mode 1 with the corrected column bound) |
| ScreenBuffer.EraseDisplayRegions | src/components/tty/ScreenBuffer.ts:268-283 | mode 0 empties exactly the cells at or after the cursor and mode 1 those at or before it, leaving the cursor and scrollback |
| ScreenBuffer.EraseDisplayWhole | src/components/tty/ScreenBuffer.ts:284-287 | modes 2 and 3 clear the screen, other modes do nothing |
| ScreenBuffer.EraseLineRegions | src/components/tty/ScreenBuffer.ts:293-307 | erase-line changes only the cursor row: from the cursor, up to it, or all of it |
| ScreenBuffer.ClearThroughAsWritten | src/components/tty/ScreenBuffer.ts:280-282 | the loop as written empties up to the cursor, and grows the row by one cell when the cursor is past the last column |
| ScreenBuffer.EraseStartAtDeferredWrapGrowsRow | src/components/tty/ScreenBuffer.ts:279-282 | with the cursor past the last column, which one character on a 1×1 screen reaches, modes 1 as written leave a row `cols + 1` wide |
| ScreenBuffer.EraseStartAtDeferredWrapKeepsShape | src/components/tty/ScreenBuffer.ts:279-282 | with the corrected bound, modes 1 there empty the row and keep its width |
| ScreenBuffer.ResizedRow | src/components/tty/ScreenBuffer.ts:361-372 | a resized row is `cols` wide |
| ScreenBuffer.Resized | src/components/tty/ScreenBuffer.ts:360-382 | resizing to a positive size gives a well-formed buffer of that size |
| ScreenBuffer.ResizeKeepsOverlap | src/components/tty/ScreenBuffer.ts:360-382 | the overlap of old and new screen keeps its cells, new cells are empty, and the cursor is pulled inside |
| ScreenBuffer.BackspaceErased | src/components/tty/ScreenBuffer.ts:401-406 | `backspace` moves one column left and empties that cell, and does nothing in column 0 |
| ScreenBuffer.TextWritten | src/components/tty/ScreenBuffer.ts:115-118 | writing text keeps the buffer well formed, its size, style and custom renders |
| ScreenBuffer.ActionProcessed | src/components/tty/ScreenBuffer.ts:113-175 | every action keeps the buffer well formed |
| ScreenBuffer.ActionsProcessed | src/components/tty/ScreenBuffer.ts:105-107 | so does a list of actions |
| ScreenBuffer.Written | src/components/tty/ScreenBuffer.ts:103-108 | so does `write` |
| ScreenBuffer.ControlCharacters | src/components/tty/ScreenBuffer.ts:158-170 | BS moves left without erasing and CR returns to column 0, neither touching a cell |
| ScreenBuffer.RelativeMovesClamp | src/components/tty/ScreenBuffer.ts:124-138 | cursor moves stop at the screen's edges, and one from past the last column lands on it |
| ScreenBuffer.CustomAnchoredAbsolute | src/components/tty/ScreenBuffer.ts:168-174 | a custom payload is recorded at the cursor row counted from the start of the scrollback, changing nothing else |
| ScreenBuffer.ScreenBuffer.constructor | src/components/tty/ScreenBuffer.ts:61-67 | the new buffer is the initial state |
| ScreenBuffer.ScreenBuffer.GetAllCells | src/components/tty/ScreenBuffer.ts:387-389 | returns `AllCells` |
| ScreenBuffer.ScreenBuffer.GetScrollbackLength | src/components/tty/ScreenBuffer.ts:394-396 | returns the scrollback length |
| ScreenBuffer.ScreenBuffer.Scroll | src/components/tty/ScreenBuffer.ts:344-355 | performs `Scrolled` |
| ScreenBuffer.ScreenBuffer.NewLine | src/components/tty/ScreenBuffer.ts:331-339 | performs `LineFed` |
| ScreenBuffer.ScreenBuffer.WriteChar | src/components/tty/ScreenBuffer.ts:72-98 | performs `CharWritten` |
| ScreenBuffer.ScreenBuffer.ApplySgr | src/components/tty/ScreenBuffer.ts:180-213 | performs `SgrApplied` |
| ScreenBuffer.ScreenBuffer.MoveCursor | src/components/tty/ScreenBuffer.ts:252-255 | performs `CursorMoved` |
| ScreenBuffer.ScreenBuffer.MoveCursorRelative | src/components/tty/ScreenBuffer.ts:260-262 | moves to the cursor plus the offsets, clamped |
| ScreenBuffer.ScreenBuffer.ClearToEndOfLine | src/components/tty/ScreenBuffer.ts:322-326 | performs `LineClearedToEnd` |
| ScreenBuffer.ScreenBuffer.ClearScreen | src/components/tty/ScreenBuffer.ts:312-317 | performs `ScreenCleared` |
| ScreenBuffer.ScreenBuffer.ClearStartThroughCursor | src/components/tty/ScreenBuffer.ts:280-282 | empties the cursor row through the cursor, with the corrected bound |
| ScreenBuffer.ScreenBuffer.ClearRowsBelowCursor | src/components/tty/ScreenBuffer.ts:271-273 | empties the rows below the cursor |
| ScreenBuffer.ScreenBuffer.ClearRowsAboveCursor | src/components/tty/ScreenBuffer.ts:277-279 | empties the rows above the cursor |
| ScreenBuffer.ScreenBuffer.EraseDisplay | src/components/tty/ScreenBuffer.ts:267-288 | performs `DisplayErased` |
| ScreenBuffer.ScreenBuffer.EraseLine | src/components/tty/ScreenBuffer.ts:293-307 | performs `LineErased` |
| ScreenBuffer.ScreenBuffer.Resize | src/components/tty/ScreenBuffer.ts:360-382 | performs `Resized` |
| ScreenBuffer.ScreenBuffer.Backspace | src/components/tty/ScreenBuffer.ts:401-406 | performs `BackspaceErased` |
| ScreenBuffer.ScreenBuffer.WriteText | src/components/tty/ScreenBuffer.ts:115-118 | writes the characters one by one |
| ScreenBuffer.ScreenBuffer.ProcessAction | src/components/tty/ScreenBuffer.ts:113-175 | performs `ActionProcessed` |
| ScreenBuffer.ScreenBuffer.Write | src/components/tty/ScreenBuffer.ts:103-108 | performs `Written`: the parsed actions in order |
| Terminal.DisplayWidth | src/components/Terminal.tsx:31-37 | the display width is between one and two columns per character |
| Terminal.GetDisplayWidth | src/components/Terminal.tsx:31-37 | the `getDisplayWidth` loop computes `DisplayWidth` |
| Terminal.DisplayWidthAppend | src/components/Terminal.tsx:31-37 | the width of joined text is the sum of the widths |
| Terminal.NarrowExactly | src/components/Terminal.tsx:31-37 | text is one column per character exactly when it holds no full-width character |
| Terminal.WidthAtCursor | src/components/Terminal.tsx:31-37 | the width splits at the cursor into the width before and after it |
| Terminal.EnvOr | src/components/Terminal.tsx:50 | `env.get(key) \|\| fallback` is the variable when it is set and not empty, and the fallback otherwise |
| Terminal.LastSegment | src/components/Terminal.tsx:57 | `\W` is the last `/`-separated piece of the directory, or `/` when that is empty |
| Terminal.EscapeText | src/components/Terminal.tsx:48-82 | `\[` and `\]` expand to nothing, and an unknown escape is kept with its backslash |
| Terminal.ExpandPs1 | src/components/Terminal.tsx:42-90 | the `expandPS1` loop computes `Expand` |
| Terminal.ExpandLiteral | src/components/Terminal.tsx:84-86 | text without a backslash is copied unchanged |
| Terminal.ExpandEscape | src/components/Terminal.tsx:46-83 | a backslash and the next character expand as one escape, and the rest goes on after them |
| Terminal.TrailingBackslashAndMarkers | src/components/Terminal.tsx:46 | a backslash at the end is kept, and text between `\[` and `\]` is kept without them (with lines 77-79) |
| Terminal.RootMarker | src/components/Terminal.tsx:65-67 | `\$` is `#` exactly when USER is `root`, and `$` otherwise |
| Terminal.ExpandSingle | src/components/Terminal.tsx:46-83 | a lone escape expands to its text |
| Terminal.HomeAbbreviated | src/components/Terminal.tsx:49-55 | `\w` abbreviates the default home `/home/uzimaru0000` to `~`, also when the directory merely starts with the same text |
| Terminal.HomeFromEnvironment | src/components/Terminal.tsx:49-55 | `\w` leaves other directories alone and uses HOME when it is set |
| Terminal.SplitRoot | src/components/Terminal.tsx:57 | `"/".split('/')` is two empty pieces |
| Terminal.SplitUsrBin | src/components/Terminal.tsx:57 | `"/usr/bin".split('/')` is `"", "usr", "bin"` |
| Terminal.SplitUsrBinSlash | src/components/Terminal.tsx:57 | a trailing slash gives a last empty piece |
| Terminal.BaseNameExamples | src/components/Terminal.tsx:56-58 | `\W` is `/` for `/`, `bin` for `/usr/bin`, and `/` for `/usr/bin/` |
| Terminal.DefaultPrompt | src/components/Terminal.tsx:92-96 | without PS1 the prompt is `\w \$ ` expanded |
| Terminal.DefaultPromptExamples | src/components/Terminal.tsx:92-96 | at the default home the prompt is `~ $ `, and for root at `/` it is `/ # ` |
| Terminal.RepeatText | src/components/Terminal.tsx:233 | `s.repeat(n)` is `n` copies of `s` |
| Terminal.PressEnter | src/components/Terminal.tsx:212-218 | Enter keeps the editor well formed |
| Terminal.PressBackspace | src/components/Terminal.tsx:219-234 | Backspace keeps the editor well formed |
| Terminal.PressUp | src/components/Terminal.tsx:235-254 | the up arrow keeps the editor well formed |
| Terminal.PressDown | src/components/Terminal.tsx:255-278 | the down arrow keeps the editor well formed |
| Terminal.PressRight | src/components/Terminal.tsx:279-288 | the right arrow keeps the editor well formed |
| Terminal.PressLeft | src/components/Terminal.tsx:289-298 | the left arrow keeps the editor well formed |
| Terminal.PressRedraw | src/components/Terminal.tsx:299-308 | Ctrl-L keeps the editor well formed |
| Terminal.PressKill | src/components/Terminal.tsx:309-319 | Ctrl-U keeps the editor well formed |
| Terminal.InsertText | src/components/Terminal.tsx:320-335 | typing keeps the editor well formed |
| Terminal.Input | src/components/Terminal.tsx:186-336 | every input keeps the cursor within the line and the history position valid |
| Terminal.InsertSplices | src/components/Terminal.tsx:320-327 | typed text is spliced in at the cursor, which ends right after it |
| Terminal.InsertThenBackspace | src/components/Terminal.tsx:219-229 | typing one character then Backspace gives back the same editor (with lines 320-326) |
| Terminal.BackspaceRemoves | src/components/Terminal.tsx:219-229 | Backspace removes exactly the character before the cursor |
| Terminal.UpRecalls | src/components/Terminal.tsx:235-254 | the up arrow goes to the last entry, or one entry back stopping at the first, and puts it on the line with the cursor at its end |
| Terminal.DownAdvances | src/components/Terminal.tsx:255-278 | the down arrow goes one entry on, or past the last one to an empty line out of the history |
| Terminal.UpThenDown | src/components/Terminal.tsx:235-278 | down after up returns to the entry browsed before |
| Terminal.RightThenLeft | src/components/Terminal.tsx:279-298 | right then left gives back the same editor when the cursor is not at the end |
| Terminal.EnterRecords | src/components/Terminal.tsx:129-138 | Enter empties the line; a non-blank line is run and recorded in the history, a blank one is not (with lines 212-218) |
| Terminal.RunningCommandOwnsInput | src/components/Terminal.tsx:188-209 | while a command runs the line does not change; in interactive mode Ctrl-D and Ctrl-C end its input and anything else is sent to it, otherwise input is dropped |
| Terminal.WrittenAppend | src/components/Terminal.tsx:123-126 | the text written by two lists of writes is the two texts joined |
| Terminal.MovementPlain | src/components/Terminal.tsx:233 | the movement of joined text is the sum, when the first part does not end inside an escape |
| Terminal.MovementPrintable | src/components/Terminal.tsx:330 | printable text moves the cursor by its display width |
| Terminal.MovementRepeatChar | src/components/Terminal.tsx:233 | repeated backspaces move left one column each, other characters right |
| Terminal.MovementRepeatKey | src/components/Terminal.tsx:248 | repeated cursor-right or cursor-left sequences move one column each (with lines 287, 297) |
| Terminal.MovementRubout | src/components/Terminal.tsx:249 | each `\b \b` moves one column left |
| Terminal.EraseMovement | src/components/Terminal.tsx:245-249 | moving to the end and rubbing out the line brings the cursor back to the prompt |
| Terminal.RedrawAfterDelete | src/components/Terminal.tsx:233 | the Backspace echo ends one character's width left of where it started |
| Terminal.BackspaceEcho | src/components/Terminal.tsx:219-234 | the screen cursor follows the line cursor after Backspace |
| Terminal.InsertEcho | src/components/Terminal.tsx:320-335 | the screen cursor follows the line cursor after typing |
| Terminal.ReplaceEcho | src/components/Terminal.tsx:243-253 | erasing the line and writing a history entry leaves the screen cursor at the end of the entry |
| Terminal.UpEcho | src/components/Terminal.tsx:235-254 | the screen cursor follows the line cursor after the up arrow |
| Terminal.DownEcho | src/components/Terminal.tsx:255-278 | the screen cursor follows the line cursor after the down arrow |
| Terminal.KillEcho | src/components/Terminal.tsx:309-319 | the screen cursor follows the line cursor after Ctrl-U |
| Terminal.RightEcho | src/components/Terminal.tsx:279-288 | the screen cursor follows the line cursor after the right arrow |
| Terminal.LeftEcho | src/components/Terminal.tsx:289-298 | the screen cursor follows the line cursor after the left arrow |
| Terminal.EchoTracksCursor | src/components/Terminal.tsx:211-335 | for every editing key the screen cursor moves by the change in the width before the line cursor |
| Terminal.RedrawRestoresCursor | src/components/Terminal.tsx:299-308 | Ctrl-L clears, writes the prompt and the line, and puts the screen cursor back at the line cursor |
| Terminal.WrittenStream | src/components/Terminal.tsx:158-172 | output is written followed by a newline when it does not end with one |
| Terminal.Completion | src/components/Terminal.tsx:140-182 | after a command the prompt is written last, and the terminal closes exactly for the exit marker |
| Terminal.ClearShowsPromptTwiceAsWritten | src/components/Terminal.tsx:143-149 | as written, `clear` leaves the prompt twice on the cleared screen (with lines 179-182) |
| Terminal.ClearShowsPromptOnce | src/components/Terminal.tsx:143-149 | with the prompt shown once, `clear` leaves exactly one prompt |
| Terminal.PromptOnFreshLine | src/components/Terminal.tsx:157-182 | apart from `clear` and `exit`, the prompt starts a fresh line |
| Terminal.ResultEndsLine | src/components/Terminal.tsx:157-172 | the output of a command is empty or ends a line, possibly followed by the colour reset |
| Terminal.LineEditor.constructor | src/components/Terminal.tsx:105-111 | the editor starts with an empty line, no history and nothing running |
| Terminal.LineEditor.EraseOps | src/components/Terminal.tsx:245-249 | writes the move to the end and the rub-out of the line |
| Terminal.LineEditor.Enter | src/components/Terminal.tsx:212-218 | performs `PressEnter` |
| Terminal.LineEditor.Backspace | src/components/Terminal.tsx:219-234 | performs `PressBackspace` |
| Terminal.LineEditor.HistoryUp | src/components/Terminal.tsx:235-254 | performs `PressUp` |
| Terminal.LineEditor.HistoryDown | src/components/Terminal.tsx:255-278 | performs `PressDown` |
| Terminal.LineEditor.Redraw | src/components/Terminal.tsx:299-308 | performs `PressRedraw` without changing the editor |
| Terminal.LineEditor.Insert | src/components/Terminal.tsx:320-335 | performs `InsertText` |
| Terminal.LineEditor.HandleInput | src/components/Terminal.tsx:186-336 | performs `Input` |
| Dispatcher.Received | src/components/Terminal.tsx:140-178 | the terminal gets the output of a run that returns and, in its `catch`, the message of one that throws |
| Dispatcher.MvIntoItselfShown | src/components/Terminal.tsx:173-182 | `mv D D` typed at the terminal writes "Error: Maximum call stack size exceeded" in red, then the prompt, and the terminal stays open |
| Terminal.LineEditor.FinishCommand | src/components/Terminal.tsx:140-182 | marks the command finished and writes `Completion` |
| Markdown.Collect | src/components/renderers/MarkdownRenderer.tsx:124-153 | `processEvents` never moves backwards or past the stream, and takes at least one event when one is left |
| Markdown.MarkdownFolder.constructor | src/components/renderers/MarkdownRenderer.tsx:120-122 | the fold starts at the first event outside any table head |
| Markdown.MarkdownFolder.ProcessEvents | src/components/renderers/MarkdownRenderer.tsx:124-153 | the recursive loop computes `Collect` and restores the table-head flag |
| Markdown.EventsToNodes | src/components/renderers/MarkdownRenderer.tsx:120-122 | `eventsToReact` computes `Render` (with lines 405) |
| Markdown.CollectLeaf | src/components/renderers/MarkdownRenderer.tsx:146-149 | an inline event becomes a leaf keyed by its index |
| Markdown.CollectStart | src/components/renderers/MarkdownRenderer.tsx:135-145 | a `Start` becomes a branch keyed by its own index over the events up to its `End`, with the table-head flag set inside a `TableHead` |
| Markdown.CollectEnd | src/components/renderers/MarkdownRenderer.tsx:130-133 | an `End` closes the level and is consumed |
| Markdown.CollectExhausted | src/components/renderers/MarkdownRenderer.tsx:127 | at the end of the stream the level closes with nothing more (with lines 152) |
| Markdown.FoldOne | src/components/renderers/MarkdownRenderer.tsx:124-153 | the events of one well-formed tree fold back to that tree |
| Markdown.FoldPrefix | src/components/renderers/MarkdownRenderer.tsx:124-153 | the events of well-formed trees fold back to those trees, and the fold goes on after them |
| Markdown.RenderFlatten | src/components/renderers/MarkdownRenderer.tsx:120-153 | rendering the event stream of well-formed trees gives back exactly those trees |
| Markdown.StrayEndDiscards | src/components/renderers/MarkdownRenderer.tsx:130-133 | an `End` with no open `Start` ends rendering and drops everything after it (with lines 405) |
| Markdown.UnclosedStartTakesRest | src/components/renderers/MarkdownRenderer.tsx:127-142 | a `Start` that is never closed takes every remaining event as its children |
| Markdown.TableHeadFlag | src/components/renderers/MarkdownRenderer.tsx:137-144 | every rendered tag knows exactly whether it lies inside a table head |
| Markdown.CellElement | src/components/renderers/MarkdownRenderer.tsx:312-321 | a table cell is `th` or `td` |
| Markdown.CellKinds | src/components/renderers/MarkdownRenderer.tsx:312-321 | cells are `th` inside a table head and `td` elsewhere |
| Markdown.ListElement | src/components/renderers/MarkdownRenderer.tsx:200-213 | a list is `ol` exactly when it has a start number, `ul` otherwise |
| Markdown.ListExamples | src/components/renderers/MarkdownRenderer.tsx:201 | a start number of 0 still gives `ol` |
| Markdown.HeadingClass | src/components/renderers/MarkdownRenderer.tsx:56-63 | levels 1 to 6 take their own class, any other the level-4 class (with lines 170) |
| Markdown.HeadingElement | src/components/renderers/MarkdownRenderer.tsx:169 | the heading element is `h` followed by the level |
| Markdown.EffectiveLanguage | src/components/renderers/MarkdownRenderer.tsx:67-76 | an alias resolves to its grammar, any other language is kept, and no language stays none |
| Markdown.Highlight | src/components/renderers/MarkdownRenderer.tsx:66-88 | the code is highlighted exactly when the resolved language is non-empty and has a loaded grammar, and is never changed |
| Markdown.AliasExamples | src/components/renderers/MarkdownRenderer.tsx:67-75 | `js`, `ts`, `sh`, `shell`, `py`, `yml` and `rs` resolve to their grammars |
| Markdown.RawCodeExamples | src/components/renderers/MarkdownRenderer.tsx:76-80 | `go` is kept, and no language or an empty one leaves the code raw |
| Markdown.TextContentAppend | src/components/renderers/MarkdownRenderer.tsx:384-403 | the text of joined nodes is the texts joined |
| Markdown.TextEventsReadBack | src/components/renderers/MarkdownRenderer.tsx:186 | the text read back from rendered text events is their contents joined (with lines 384-403) |
| Markdown.CodeBlockView | src/components/renderers/MarkdownRenderer.tsx:185-198 | a code block shows its language label exactly when the language is non-empty, and highlights exactly the text of its children |
| Markdown.PropsExamples | src/components/renderers/MarkdownRenderer.tsx:423-429 | `isMarkdownProps` accepts an object whose `events` is an array, and rejects null, undefined, a missing and a non-array `events` |
| Markdown.EmptyRendersNothing | src/components/renderers/MarkdownRenderer.tsx:120-153 | no events render to nothing |
| StdinBuffer.StatusCode | src/shell/stdin-buffer.ts:17-21 | the status words are 0 waiting, 1 data available, 2 end of input |
| StdinBuffer.WriteSlot | src/shell/stdin-buffer.ts:53-62 | a write larger than the data area is refused; otherwise the data is copied to the start of the area, the rest is kept, and the length and "data available" are stored |
| StdinBuffer.ReadSlot | src/shell/stdin-buffer.ts:101-126 | at end of input a read returns nothing and leaves the status; with data it returns the first `min(length, maxLen)` bytes and goes back to waiting |
| StdinBuffer.ReadAfterWrite | src/shell/stdin-buffer.ts:53-62 | a read after a write returns the written bytes, cut to `maxLen` (with lines 101-126) |
| StdinBuffer.SecondWriteOverwrites | src/shell/stdin-buffer.ts:53-62 | a second write before a read replaces the first, which is lost |
| StdinBuffer.EofIsSticky | src/shell/stdin-buffer.ts:111-114 | once end of input is sent every later read returns nothing |
| StdinBuffer.SharedStdin.constructor | src/shell/stdin-buffer.ts:34-40 | the shared area starts waiting, with a data area of the given size |
| StdinBuffer.MainThreadStdinBuffer.constructor | src/shell/stdin-buffer.ts:33-41 | a new buffer is waiting, with a data area of the given size |
| StdinBuffer.MainThreadStdinBuffer.Write | src/shell/stdin-buffer.ts:53-62 | performs `WriteSlot`; an oversized write changes nothing |
| StdinBuffer.MainThreadStdinBuffer.WriteString | src/shell/stdin-buffer.ts:67-69 | writes the encoded string |
| StdinBuffer.MainThreadStdinBuffer.SendEof | src/shell/stdin-buffer.ts:74-77 | stores end of input and changes nothing else |
| StdinBuffer.WorkerStdinBuffer.constructor | src/shell/stdin-buffer.ts:89-93 | the worker side views the same shared area |
| StdinBuffer.WorkerStdinBuffer.BlockingRead | src/shell/stdin-buffer.ts:101-126 | once the status is no longer waiting, performs `ReadSlot` |
| WasmWorker.FlattenAppend | src/shell/wasm-executor.worker.ts:65-73 | the bytes of joined chunk lists are the bytes joined |
| WasmWorker.SetBytes | src/shell/wasm-executor.worker.ts:70 | `result.set(chunk, offset)` changes exactly the bytes from the offset |
| WasmWorker.TotalLength | src/shell/wasm-executor.worker.ts:66 | the `reduce` sums to the number of bytes captured |
| WasmWorker.CopyChunks | src/shell/wasm-executor.worker.ts:66-72 | the copy loop lays the chunks end to end |
| WasmWorker.OutputCapture.constructor | src/shell/wasm-executor.worker.ts:54 | a new capture holds nothing |
| WasmWorker.OutputCapture.Write | src/shell/wasm-executor.worker.ts:57-59 | a write appends a copy of the chunk |
| WasmWorker.OutputCapture.GetOutput | src/shell/wasm-executor.worker.ts:65-74 | the output is all captured bytes, in order, decoded |
| WasmWorker.OutputCapture.Clear | src/shell/wasm-executor.worker.ts:76-78 | clearing drops every chunk |
| WasmWorker.PipeStdin.constructor | src/shell/wasm-executor.worker.ts:204-205 | the pipe holds the encoded input, or nothing when it is absent or empty, and starts at offset 0 |
| WasmWorker.PipeStdin.BlockingRead | src/shell/wasm-executor.worker.ts:208-217 | a read returns the next `min(len, remaining)` bytes, and the bytes read so far are a prefix of the input |
| WasmWorker.InstallStdin | src/shell/wasm-executor.worker.ts:194-219 | with a shared buffer stdin reads from it, otherwise from the piped input |
| WasmWorker.ExecutionResult | src/shell/wasm-executor.worker.ts:144-168 | the result carries the captured stdout; a finished run its exit code and stderr, a failed one exit code 1 and the error appended to stderr |
| WasmExecutor.ConvertChildren | src/shell/wasm-executor.ts:48-59 | each entry of a directory is converted in order |
| WasmExecutor.GetConvertChildren | src/shell/wasm-executor.ts:48-59 | a name is in the converted directory exactly when it is in the directory, converted |
| WasmExecutor.SnapshotMirrorsTree | src/shell/wasm-executor.ts:41-64 | every path finds in the snapshot what it finds in the file system: nothing, the converted directory, or the file's content as `source` |
| WasmExecutor.ChildPath | src/shell/wasm-executor.ts:50 | a child path is the parent's components followed by the name, also under `/` |
| WasmExecutor.ConvertDir | src/shell/wasm-executor.ts:42-61 | `convertDir` computes `ConvertNode` |
| WasmExecutor.ConvertChild | src/shell/wasm-executor.ts:51-58 | one entry is converted as `ConvertEntry` specifies |
| WasmExecutor.ConvertToPreview2Format | src/shell/wasm-executor.ts:41-64 | the snapshot is `ConvertNode` of the root |
| WasmExecutor.OperationsKeepCanonicalNames | src/filesystem/index.ts:141-216 | `writeFile`, `mkdir` and `remove` on a normalised path keep every entry name a single canonical component, as the snapshot conversion needs |
| WasmExecutor.SetEntryCanonical | src/filesystem/index.ts:141-216 | setting or deleting an entry with a canonical name keeps all names canonical |
| WasmExecutor.ResponseOutcome | src/shell/wasm-executor.ts:116-122 | a non-empty error rejects with it; otherwise a result resolves and its absence rejects |
| WasmExecutor.Executor.constructor | src/shell/wasm-executor.ts:13-16 | no stdin buffer and no request outstanding |
| WasmExecutor.Executor.Start | src/shell/wasm-executor.ts:87-136 | an interactive request with shared memory creates a fresh waiting stdin buffer; the request is then outstanding |
| WasmExecutor.Executor.HandleResponse | src/shell/wasm-executor.ts:109-124 | the matching response settles the request and drops the stdin buffer; any other is ignored |
| WasmExecutor.Executor.WriteStdin | src/shell/wasm-executor.ts:144-148 | without a stdin buffer nothing happens; with one the encoded data is written to it |
| WasmExecutor.Executor.SendStdinEof | src/shell/wasm-executor.ts:155-160 | end of input is stored in the buffer, which is then dropped |
| WasmExecutor.Executor.IsInteractiveMode | src/shell/wasm-executor.ts:165-167 | interactive exactly while a stdin buffer is held |
| StdinBuffer.MainThreadStdinBuffer.Default | src/shell/stdin-buffer.ts:33-41 | with no size the data area is the default 65536 bytes and the reader is waiting |
| WasiAdapter.Slice | src/filesystem/wasi-adapter.ts:137 | `slice(start, end)` is the bytes from `start` to `end` cut to the data, and empty when `start` is past that |
| WasiAdapter.SliceConsecutive | src/filesystem/wasi-adapter.ts:135-140 | two reads in a row return what one read of both lengths returns |
| WasiAdapter.Zeros | src/filesystem/wasi-adapter.ts:281 | a new `Uint8Array(n)` is `n` zero bytes |
| WasiAdapter.SetAt | src/filesystem/wasi-adapter.ts:168 | `set(buffer, off)` replaces exactly the bytes from `off` and keeps the length (with lines 279) |
| WasiAdapter.Overlay | src/filesystem/wasi-adapter.ts:165-168 | a write at an offset gives content as long as the longer of the old content and the end of the write (with lines 276-279) |
| WasiAdapter.OverlayBytes | src/filesystem/wasi-adapter.ts:165-168 | the written bytes replace the old ones, older bytes are kept, and a gap is filled with zeros (with lines 276-279) |
| WasiAdapter.ReadBackOverlay | src/filesystem/wasi-adapter.ts:269-287 | reading back where bytes were written returns them |
| WasiAdapter.OverlayAtEndAppends | src/filesystem/wasi-adapter.ts:221-224 | writing at the end of the content appends |
| WasiAdapter.StreamAndDescriptorWrites | src/filesystem/wasi-adapter.ts:158-176 | over an existing file the stream and the descriptor write the same content; for a missing file the stream writes the data alone, ignoring the offset, and the descriptor pads it with zeros up to the offset (with lines 269-287) |
| WasiAdapter.ReadWindow | src/filesystem/wasi-adapter.ts:260-266 | `read` returns the bytes from the offset, at most `length` of them, and end of file exactly when the window reaches the end |
| WasiAdapter.Existing | src/filesystem/wasi-adapter.ts:159 | `readFile` gives content exactly for a file, and that file's content (with lines 210, 255, 270) |
| WasiAdapter.ResolvePathMeaning | src/filesystem/wasi-adapter.ts:199-207 | an absolute path is taken as it is; a relative one is followed from the descriptor's path |
| WasiAdapter.ResolveBelowRoot | src/filesystem/wasi-adapter.ts:203-205 | below `/` the relative path is followed from the root |
| WasiAdapter.ResolveBelow | src/filesystem/wasi-adapter.ts:206 | below any other directory the relative path is followed from it |
| WasiAdapter.PathHash | src/filesystem/wasi-adapter.ts:424-427 | the hash is below 2^64 |
| WasiAdapter.PathHashIsPolynomial | src/filesystem/wasi-adapter.ts:424-427 | reducing at every step gives the base-31 polynomial of the path reduced once |
| WasiAdapter.HashPath | src/filesystem/wasi-adapter.ts:424-427 | the hash loop computes `PathHash` |
| WasiAdapter.DirectoryEntryStream.constructor | src/filesystem/wasi-adapter.ts:113-115 | the stream starts at the first entry |
| WasiAdapter.DirectoryEntryStream.ReadDirectoryEntry | src/filesystem/wasi-adapter.ts:117-122 | each call returns the next entry, and nothing once all are returned |
| WasiAdapter.InputStream.constructor | src/filesystem/wasi-adapter.ts:130-133 | the stream holds the data and the offset |
| WasiAdapter.InputStream.Read | src/filesystem/wasi-adapter.ts:135-140 | returns the next bytes, at most `len`, and moves past them |
| WasiAdapter.InputStream.BlockingRead | src/filesystem/wasi-adapter.ts:142-144 | the same as `read` |
| WasiAdapter.OutputStream.constructor | src/filesystem/wasi-adapter.ts:152-156 | the stream writes to the path from the offset |
| WasiAdapter.OutputStream.Write | src/filesystem/wasi-adapter.ts:158-176 | the file gets the stream's write content, the offset moves past the data, and the data length is returned |
| WasiAdapter.OutputStream.BlockingWriteAndFlush | src/filesystem/wasi-adapter.ts:178-180 | the same as `write` |
| WasiAdapter.OpenAtFailure | src/filesystem/wasi-adapter.ts:373-381 | a failed open leaves the tree unchanged, and opening a missing path without `create` fails |
| WasiAdapter.OpenAtCreatesAndTruncates | src/filesystem/wasi-adapter.ts:373-385 | `create` makes a missing file empty and `truncate` empties an existing file, and the open succeeds |
| WasiAdapter.OpenAtTruncateDirectory | src/filesystem/wasi-adapter.ts:383-387 | truncating a directory is refused by the file system and the open still succeeds, changing nothing |
| WasiAdapter.Descriptor.constructor | src/filesystem/wasi-adapter.ts:193-197 | the descriptor holds the file system, path and flags |
| WasiAdapter.Descriptor.ReadViaStream | src/filesystem/wasi-adapter.ts:209-215 | a missing file is `no-entry`; otherwise a new stream over its content from the offset |
| WasiAdapter.Descriptor.WriteViaStream | src/filesystem/wasi-adapter.ts:217-219 | a new output stream at the offset |
| WasiAdapter.Descriptor.AppendViaStream | src/filesystem/wasi-adapter.ts:221-225 | a new output stream at the end of the file, or at 0 when there is none |
| WasiAdapter.Descriptor.GetType | src/filesystem/wasi-adapter.ts:238-244 | `unknown` exactly for a missing path, `directory` exactly for a directory, `regular-file` exactly for a file |
| WasiAdapter.Descriptor.Read | src/filesystem/wasi-adapter.ts:254-267 | a missing file is `no-entry`; otherwise `ReadWindow` of its content |
| WasiAdapter.Descriptor.Write | src/filesystem/wasi-adapter.ts:269-287 | the file gets the descriptor's write content and the buffer length is returned |
| WasiAdapter.Descriptor.ReadDirectory | src/filesystem/wasi-adapter.ts:289-301 | a path that is not a directory is `no-entry`; otherwise a new stream over its listing with the entry kinds |
| WasiAdapter.Descriptor.CreateDirectoryAt | src/filesystem/wasi-adapter.ts:306-312 | creates the directory as `mkdir` does, or reports `no-entry` and changes nothing |
| WasiAdapter.Descriptor.Stat | src/filesystem/wasi-adapter.ts:314-333 | returns `StatResult` of the descriptor's path |
| WasiAdapter.Descriptor.StatAt | src/filesystem/wasi-adapter.ts:335-355 | returns `StatResult` of the resolved path |
| WasiAdapter.Descriptor.OpenAt | src/filesystem/wasi-adapter.ts:365-388 | leaves the tree `OpenAtState` gives, and returns a new descriptor on the resolved path or `no-entry` |
| WasiAdapter.Descriptor.RemoveDirectoryAt | src/filesystem/wasi-adapter.ts:394-400 | removes the entry as `remove` does, or reports `no-entry` and changes nothing |
| WasiAdapter.Descriptor.UnlinkFileAt | src/filesystem/wasi-adapter.ts:410-416 | removes the entry as `remove` does, or reports `no-entry` and changes nothing |
| WasiAdapter.Descriptor.IsSameObject | src/filesystem/wasi-adapter.ts:418-420 | two descriptors are the same object exactly when their paths are equal, and then their hashes agree |
| WasiAdapter.Descriptor.MetadataHash | src/filesystem/wasi-adapter.ts:422-429 | the lower word is the path hash, below 2^64, and the upper word is 0 |
| WasiAdapter.Descriptor.MetadataHashAt | src/filesystem/wasi-adapter.ts:431-438 | the same for the resolved path |
| WasiAdapter.StatResult | src/filesystem/wasi-adapter.ts:314-333 | a missing path is an error; otherwise one link, its kind, a file's size in bytes and size 0 for a directory |
| WasiAdapter.EntriesOfListing | src/filesystem/wasi-adapter.ts:295-298 | one entry per listed name, in order, a directory exactly when the listing says so |
| WasiAdapter.GetDirectories | src/filesystem/wasi-adapter.ts:443-447 | one preopen: a new descriptor on `/` with read, write and mutate-directory |

## Specification functions

Some functions define what an operation computes and carry no `ensures` of their own; their properties are the lemmas about them and the contracts of the methods proved against them, which have rows above. Each models these source lines:

- `VirtualFs.Normalized` — src/filesystem/index.ts:12-23, `normalizePath`
- `VirtualFs.WriteInternal` — src/filesystem/index.ts:78-94, `writeFileInternal`
- `VirtualFs.Lookup` — src/filesystem/index.ts:96-105, `resolve`
- `VirtualFs.ListDirOf` — src/filesystem/index.ts:107-125, `readDir`
- `VirtualFs.ReadFileOf` — src/filesystem/index.ts:127-139, `readFile`
- `VirtualFs.WriteFileTree` — src/filesystem/index.ts:141-168, `writeFile`
- `VirtualFs.MkdirTree` — src/filesystem/index.ts:170-195, `mkdir`
- `VirtualFs.RemoveTree` — src/filesystem/index.ts:197-216, `remove`
- `VirtualFs.StatOf` — src/filesystem/index.ts:218-232, `stat`
- `VirtualFs.InitialTree` — src/filesystem/index.ts:41-63, `initDefaultStructure`
- `BuiltinSpec.Builtin` — src/shell/dispatcher.ts:15-348, the `builtinCommands` table
- `BuiltinSpec.Cd` — src/shell/dispatcher.ts:19-35, `cd`
- `BuiltinSpec.Export` — src/shell/dispatcher.ts:37-59, `export`
- `BuiltinSpec.Pwd` — src/shell/dispatcher.ts:61-63, `pwd`
- `BuiltinSpec.Mkdir` — src/shell/dispatcher.ts:73-128, `mkdir`
- `BuiltinSpec.MkdirEach` — src/shell/dispatcher.ts:97-125, its loop over the operands
- `BuiltinSpec.MkdirChain` — src/shell/dispatcher.ts:100-112, its `-p` walk over the path's components
- `BuiltinSpec.Touch` — src/shell/dispatcher.ts:130-153, `touch`
- `BuiltinSpec.TouchEach` — src/shell/dispatcher.ts:137-150, its loop over the operands
- `BuiltinSpec.Rm` — src/shell/dispatcher.ts:155-207, `rm`
- `BuiltinSpec.RmEach` — src/shell/dispatcher.ts:185-204, its loop over the targets
- `BuiltinSpec.Mv` — src/shell/dispatcher.ts:209-272, `mv`
- `BuiltinSpec.MvEach` — src/shell/dispatcher.ts:239-268, its loop over the sources
- `BuiltinSpec.MvOne` — src/shell/dispatcher.ts:239-268, one source
- `BuiltinSpec.MvDirectory` — src/shell/dispatcher.ts:250-255, a directory source
- `BuiltinSpec.MvFile` — src/shell/dispatcher.ts:256-267, a file source
- `BuiltinSpec.MoveDirectory` — src/shell/dispatcher.ts:492-537, `moveDirectory`
- `BuiltinSpec.MoveEntries` — src/shell/dispatcher.ts:510-531, its loop over the directory's entries
- `BuiltinSpec.Alias` — src/shell/dispatcher.ts:274-310, `alias`
- `BuiltinSpec.Unalias` — src/shell/dispatcher.ts:312-325, `unalias`
- `BuiltinSpec.Sh` — src/shell/dispatcher.ts:327-347, `sh`
- `DispatchSpec.ExpandAlias` — src/shell/dispatcher.ts:353-382, `expandAlias`
- `DispatchSpec.ExecuteScript` — src/shell/dispatcher.ts:388-417, `executeScript`
- `DispatchSpec.ExecuteSource` — src/shell/dispatcher.ts:422-433, `executeSourceCommand`
- `DispatchSpec.DetectShebang` — src/shell/dispatcher.ts:438-453, `detectShebang`
- `DispatchSpec.ExecuteExecutable` — src/shell/dispatcher.ts:458-487, `executeExecutableFile`
- `DispatchSpec.ResolvePath` — src/shell/dispatcher.ts:542-547, `resolvePath`
- `DispatchSpec.External` — src/shell/dispatcher.ts:609-645, `dispatchExternalCommand`
- `ExecSpec.RunSimple` — src/shell/dispatcher.ts:650-752, `executeSimpleCommand`
- `ExecSpec.Resolved` — src/shell/dispatcher.ts:686-752, its part after alias expansion
- `ExecSpec.Redirects` — src/shell/dispatcher.ts:690-713, its reading of input redirects
- `ExecSpec.Invoke` — src/shell/dispatcher.ts:718-726, its choice between a built-in and an external command
- `ExecSpec.WriteOutput` — src/shell/dispatcher.ts:729-749, its writing of output redirects
- `ExecSpec.Stages` — src/shell/dispatcher.ts:757-793, the loop over a pipeline's commands
- `ExecSpec.RunPipeline` — src/shell/dispatcher.ts:757-793, `executePipeline`
- `ExecSpec.Elements` — src/shell/dispatcher.ts:798-836, the loop over a command list's elements
- `ExecSpec.Substitutions` — src/shell/dispatcher.ts:798-836, the command substitutions a list runs first
- `ExecSpec.ExecuteParseResult` — src/shell/dispatcher.ts:798-836, `executeParseResult`
- `ExecSpec.ExecuteInput` — src/shell/dispatcher.ts:841-859, `executeInput`
- `ExecSpec.Initialize` — src/shell/dispatcher.ts:882-895, `initialize`
- `Lexer.Lex` — crates/shell/src/lexer.rs:185-217, `tokenize`
- `Lexer.LexAt` — crates/shell/src/lexer.rs:189-214, one turn of its loop and the rest
- `ShellParser.ParseString` — crates/shell/src/parser.rs:25-29, `parse_input`
- `ShellParser.ParseFrom` — crates/shell/src/parser.rs:32-78, `Parser::parse`
- `Expander.ExpandWord` — crates/shell/src/expander.rs:7-24, `expand_word`
- `WordExpansion.ExpandWord` — src/shell/shell-parser.ts:112-139, `expandWord`
- `TouchCommand.Touch` — crates/commands/touch/src/lib.rs:9-47, the `touch` command
- `MkdirCommand.Mkdir` — crates/commands/mkdir/src/lib.rs:9-48, the `mkdir` command
- `RmCommand.Rm` — crates/commands/rm/src/lib.rs:9-82, the `rm` command
- `LsCommand.Arrange` — crates/commands/ls/src/lib.rs:57-78, the filtering and sorting of a listing
- `LsCommand.LongLines` — crates/commands/ls/src/lib.rs:101-105, the `-l` layout
- `LsCommand.Grid` — crates/commands/ls/src/lib.rs:110-125, the grid layout
- `LsCommand.Body` — crates/commands/ls/src/lib.rs:101-125, the choice of layout
- `LsCommand.Ls` — crates/commands/ls/src/lib.rs:153-204, the `ls` command
- `AnsiParser.ParseAnsi` — src/components/ansi-parser.ts:112-187, `parseAnsi`
- `AnsiParser.SplitCustomOsc` — src/components/ansi-parser.ts:192-259, the split at custom OSC sequences
- `AnsiProcessor.Stream` — src/components/tty/ansi-processor.ts:27-100, `parseAnsiStream`
- `Sgr.Apply` — src/components/tty/ScreenBuffer.ts:180-213, `applySgr`
- `CharWidth.IsFullWidth` — src/components/tty/ScreenBuffer.ts:23-40, `isFullWidth`
- `Terminal.Expand` — src/components/Terminal.tsx:42-90, `expandPS1`
- `Terminal.Prompt` — src/components/Terminal.tsx:92-96, the default prompt
- `Markdown.Render` — src/components/renderers/MarkdownRenderer.tsx:120-122, the Markdown rendering
- `Markdown.TextContent` — src/components/renderers/MarkdownRenderer.tsx:384-403, `extractTextContent`
- `WasmExecutor.ConvertNode` — src/shell/wasm-executor.ts:42-61, `convertDir` inside `convertToPreview2Format`
- `WasiAdapter.ResolvePath` — src/filesystem/wasi-adapter.ts:199-207, `resolvePath`
- `WasiAdapter.OpenAtState` — src/filesystem/wasi-adapter.ts:365-388, the tree `openAt` leaves

## Left out

- Text.IsSpace: only the ASCII white space characters space, tab, line feed, carriage return, form feed and vertical tab are trimmed. JavaScript's `trim` and Rust's `trim` also strip the other Unicode white space characters, such as no-break space and the line and paragraph separators; the trim lemmas hold for the ASCII set only.
- ShellParser.IsNameChar: a variable-name character is an ASCII letter, digit or `_`, while crates/shell/src/parser.rs:283-296 accepts any Unicode alphanumeric character. ShellParser.NameLength and the expansion rows built on it therefore stop at a non-ASCII letter where the source would go on.
- WasiAdapter.PathHash: the hash runs over the string's Unicode scalar values. src/filesystem/wasi-adapter.ts:425-426 hashes the UTF-16 code units returned by `charCodeAt`, so paths with characters outside the Basic Multilingual Plane hash differently.
- WasiAdapter.StatResult: the access, modification and status-change timestamps come from `Date.now()` and are left out.
- WasiAdapter: the stub calls `advise`, `syncData`, `setSize`, `setTimes`, `sync` and `setTimesAt` do nothing observable. `linkAt`, `readlinkAt`, `renameAt` and `symlinkAt` only throw `unsupported`. None of them is modelled.
- WasiAdapter: `filesystemErrorCode` is not modelled; the adapter's errors are `Err(code)` results instead of thrown `FilesystemError` objects.
- DispatchSpec.Host: these parts are parameters (oracles) of the model, and nothing is proved about what they compute:
  - the shell parser as called from TypeScript;
  - nested script execution;
  - WebAssembly command execution;
  - `TextEncoder` and `TextDecoder`.
- DispatchSpec.Host: `moveDepth` stands for the JavaScript engine's recursion limit for the synchronous `moveDirectory`. A move that needs more depth is `Exhausted` and throws the `RangeError` "Maximum call stack size exceeded", with the tree as far as it got; `BuiltinSpec.MoveIntoItselfThrows` shows this for moving a directory into itself. The limit is a parameter: the engine's actual depth, which depends on its stack size and frame sizes, is not modelled.
- AnsiProcessor.ParseIntOrZero: a parameter is read as an exact natural number. `parseInt` at src/components/tty/ansi-processor.ts:122 gives an IEEE double, which rounds digit strings above 2^53 and becomes `Infinity` for very long ones; those inputs are not modelled.
- AnsiParser.Codes: each code is read as an exact natural number. `Number` in src/components/ansi-parser.ts:130-133 gives an IEEE double, which rounds values above 2^53 and becomes `Infinity` for very long digit strings; those inputs are not modelled.
- CommandCore.FsCalls: the WebAssembly commands call `std::fs` through a WASI shim that is not part of this model. They are modelled over a record of filesystem functions (metadata, read, write, create, remove, rename, read-dir), so only the commands' own logic is proved, not the filesystem they reach.
- LsCommand.ListDir: recursive listing (`-R`) is bounded by a `fuel` depth; listings deeper than the fuel are not modelled.
- LsCommand.HumanSize: the size is exact. crates/commands/ls/src/lib.rs:39 converts it to `f64`, which rounds sizes above 2^53 bytes. The exact-tie rule (to the even tenth) is the rounding Rust's `{:.1}` applies to the exact binary value.
- Lexer.Tokenize: a failed token gives the message `Tokenize error at '<rest>'`. crates/shell/src/lexer.rs:211 also appends `: ` and nom's `{:?}` rendering of its internal error, which depends on which combinator failed. That suffix is not modelled, and neither is the `Parse error:` message of line 191, which `skip_whitespace` never triggers.
- ExecSpec.Invoke: the source's `cmdName in builtinCommands` (src/shell/dispatcher.ts:718) is also true for names inherited from `Object.prototype`, such as `toString`, `constructor`, `hasOwnProperty` and `__proto__`. The source would call that inherited member as a built-in; the model treats only the twelve built-in names as built-ins and sends the others to the PATH lookup.
- ShellParser.NameLength: counts only ASCII letters, digits and `_` as name characters (see ShellParser.IsNameChar), so it stops at a non-ASCII letter where crates/shell/src/parser.rs:283-291 goes on.
- ShellParser.NameLengthAll: holds for names of ASCII letters, digits and `_` only, for the same reason.
- AnsiParser.PayloadSegment: `JSON.parse` is an oracle outcome (`JsonOutcome`); only the choice between a parsed payload and raw text is modelled.
- StdinBuffer.MainThreadStdinBuffer.Write: the source throws when the data is too large; the model returns `Err` with the same message. The main thread and the worker are run one after the other, so the model does not capture `Atomics.wait`/`notify` blocking or interleaving.
- VirtualFs: a `Uint8Array` returned by `readFile` or stored by `writeFile` is a value in the model, so later mutation through an aliasing reference is not modelled.
- WasmWorker: the jco transpile, WebAssembly compile and instantiate, and the preview2 shim are an oracle outcome (exited with a code, or failed with a message).
- WasmExecutor.ConvertToPreview2Format: it requires every entry name to be one canonical path component. `writeFile`, `mkdir` and `remove` keep this (WasmExecutor.OperationsKeepCanonicalNames). The tree the constructor builds meets it when no bundled content path has a `.` or `..` component; that is not proved, and names that are not canonical are not modelled.
- WasmExecutor: `Worker` message passing, `crypto.randomUUID` and the Promise plumbing are left out. Requests and responses are matched by an id parameter.
- ContentLoader: `import.meta.glob` is replaced by the list of bundled files it would produce; fetching is not modelled.
- ScreenBuffer.Resized: it requires at least one row and one column. src/components/tty/Tty.tsx clamps both with `Math.max(1, …)`. With a size of 0 the buffer's own code would put the cursor at -1; that case is not modelled. The same holds for `ScreenBuffer.ScreenBuffer.Resize` and the constructor.
- Terminal.Input: the line buffer is a sequence of code points. The source mixes UTF-16 `slice` with code-point `[...buf]`, so characters outside the Basic Multilingual Plane are not modelled.
- Markdown.TextContent: `extractTextContent` inspects React element props; the model takes the text of the rendered inline nodes.
- Markdown.Highlight: Prism tokenising and token colouring are left out; only the choice between raw and highlighted code is modelled.
- React rendering, DOM events, focus handling and CSS are left out throughout.

## Findings

| source | as written | input that shows it | evidently intended | confidence | as-written member | corrected member |
|---|---|---|---|---|---|---|
| src/components/tty/ScreenBuffer.ts:279-282 | erase-in-display mode 1 here, and erase-in-line mode 1 at lines 298-301, clear cells `c <= cursor.col`, and after a write to the last column the cursor sits at `col == cols` (deferred wrap) | a 1×1 screen, write one character, then `ESC [ 1 J` or `ESC [ 1 K` | clear through the last column, `min(col, cols - 1)`, keeping every row `cols` wide | not executed | ScreenBuffer.EraseStartAtDeferredWrapGrowsRow | ScreenBuffer.EraseStartAtDeferredWrapKeepsShape |
| src/components/Terminal.tsx:143-149 | the `clear` branch shows the prompt and returns, and the `finally` block at lines 179-182 shows it again | the command `clear` | one prompt after clearing the screen | not executed | Terminal.ClearShowsPromptTwiceAsWritten | Terminal.ClearShowsPromptOnce |
| crates/shell/src/lexer.rs:86-99 | a backslash escape inside double quotes skips `&remaining[2..]` bytes, which is not a character boundary when the escaped character is several bytes long, so the slice panics | `"\é"` | step over the backslash and the whole escaped character, so `\é` decodes to those two characters | not executed | Lexer.EscapedMultiByteCharPanics | Lexer.DecodeDouble |
