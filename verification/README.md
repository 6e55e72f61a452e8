# TreeScribe core, modelled in Dafny

TreeScribe prints a directory as an indented tree. With `--output-contents` it
instead prints the text of selected source files, each inside a fenced block.
This project models the core of `cmd/main.go`:

- the filter policy both modes apply to every entry below the root. A
  dot-prefixed entry is dropped unless hidden entries are included; a
  dropped directory takes its whole subtree with it. A directory whose name
  is on the ignore list is pruned, whether or not hidden entries are
  included.
- the tree renderer `printDirStructure`. It writes a root line, then one line
  per kept entry in walk order. Each line is four spaces per ancestor, the
  connector `└── `, the name, and `/` for a directory. Lines are written as
  they are produced, so the lines before a walk error stay on the output.
- the content dumper `printDirStructureWithContents`. It collects
  `relpath:\n\n```\n<text>\n```\n\n` for every kept file whose extension is
  one of eleven, and prints the collected text only when the whole walk
  succeeds.
- the option resolution in `main`: which path flag wins, the hidden flag,
  and the ignore list, which is the five defaults followed by the
  comma-separated fields of `--ignore`.

The filesystem is an in-memory tree (`FileTree.Entry`). Each entry has a
name, a directory flag, and its children in listing order. It also has a
`fault` flag, which marks an entry the walk cannot inspect or list, and its
content: text, or a read failure. `filepath.Walk` is modelled by two
recursive functions, `Renderer.RenderForest` and `Dumper.DumpForest`. Both are
proved equal to one reference pre-order walk, `Walk.Visible`, which lists
the kept entries with their relative paths. The error check in the walk
callback runs before the filter. So a fault stops the walk even on an entry
the filter would have dropped, and that is modelled.

Modules:

- `Wrappers`: `Option` and `Result`.
- `Strings`: prefix and suffix tests, `Split`/`Join` on one separator
  character, and `Ext`, the extension of a path.
- `FileTree`: the tree, the options, the errors, and the filter `Decide`.
- `Walk`: the reference walk.
- `Renderer` and `Dumper`: the two modes.
- `Cli`: the option resolution.
- `Properties`: whole-invocation properties.
- `Scenarios`: small concrete trees worked through both modes.

Two details of the code that the model keeps as written:

- The default ignore list has five names. The fifth is `package-lock.json`
  (cmd/main.go:14). Because the ignore list prunes directories only, a
  regular file of that name is still shown.
- The renderer only ever writes the connector `└── ` and the filler of four
  spaces (cmd/main.go:109-115). It never writes a `├──` or `│` glyph, even for
  entries that are not the last child.

## Model

| member | source | states |
|---|---|---|
| `Strings.Split` | cmd/main.go:108 | Splitting on one separator character gives one more piece than there are separators, and no piece holds the separator. |
| `Strings.JoinSplit` | cmd/main.go:40 | Joining the pieces of a split with the separator gives back the original string. |
| `Strings.SplitJoin` | cmd/main.go:108 | Splitting the join of separator-free pieces gives back exactly those pieces. So a relative path split on '/' yields its segments, one per level below the root. |
| `Strings.SplitNoSeparator` | cmd/main.go:108 | A string without the separator splits into itself alone. |
| `Strings.SplitAfterPiece` | cmd/main.go:108 | Splitting `a + sep + t`, where `a` has no separator, yields `a` followed by the pieces of `t`. |
| `Strings.Ext` | cmd/main.go:175 | The extension is empty, or it starts with '.' and is a suffix of the path with no further '.' or '/'. It is empty exactly when every '.' in the path is followed by a '/'. |
| `Strings.ExtAfterLastDot` | cmd/main.go:175 | The extension of `stem.ext`, for an `ext` with no '.' or '/', is `.ext`, whatever dots the stem holds. |
| `FileTree.HiddenIffLeadingDot` | cmd/main.go:95 | A name is hidden exactly when its first character is '.'. |
| `FileTree.Decide` | cmd/main.go:95-106 | An entry is kept exactly when it is not hidden (or hidden entries are included) and it is not an ignored directory. Only directories are pruned; an ignored directory is pruned even when hidden entries are included; a file's fate depends on the hidden rule alone. |
| `Walk.Visible` | cmd/main.go:85-123 | Soundness only: every visit has no fault and passes the filter. Its path extends the directory walked and ends in the entry's name. Every ancestor segment below that directory passes the filter as a directory. A walk can only fail with a walk error, and a fault-free forest never fails. Completeness and order are stated by the lemmas below. |
| `Walk.VisibleAppend` | cmd/main.go:85-123 | Walking two runs of siblings is walking the first and, unless that stopped with an error, then the second: siblings are visited in listing order and the first error stops the walk. |
| `Walk.VisibleCons` | cmd/main.go:86-88 | A faulty first entry stops the walk at once with its own path, whatever the filter would say of it. Otherwise the entry contributes its own visit when kept, followed by its subtree's visits when it is a kept directory. Then the walk goes on to the siblings, unless the subtree's walk stopped with an error. |
| `Walk.VisibleErrorIff` | cmd/main.go:86-88 | The walk reports no error exactly when no entry it reaches has a fault. It reaches every entry of the forest, and descends only into kept directories. |
| `Walk.VisibleAt` | cmd/main.go:85-123 | When the walk passes the first `i` siblings without a fault, it reaches sibling `i`. If that sibling is faulty, the walk stops there and names it, keeping the earlier visits. Otherwise the sibling's pre-order visits follow the earlier ones, and the walk continues unless the sibling's subtree reports an error. |
| `Walk.KeptEntryVisited` | cmd/main.go:85-123 | Completeness: on a forest where no reached entry has a fault, every entry the filter keeps is visited with its path. So is every visit of a kept directory's subtree. |
| `Walk.HiddenFlagIrrelevant` | cmd/main.go:95-100 | When no name in the tree is dot-prefixed, the walk is the same with hidden entries included or excluded. |
| `Walk.VisibleSlashFree` | cmd/main.go:90 | When no name in the tree holds '/', no segment of a kept entry's relative path does. |
| `Renderer.Lines` | cmd/main.go:108-121 | One line per visit, in order, each the line of that visit. |
| `Renderer.RenderForest` | cmd/main.go:85-123 | The renderer's own walk can only stop with a walk error. Its full output is stated by `Renderer.RenderForestIsVisible`. |
| `Renderer.TreeLine` | cmd/main.go:108-121 | No contract of its own: the reference layout of a line, which `Renderer.EntryLineShape` proves the printed line equal to. |
| `Renderer.EntryLine` | cmd/main.go:108-121 | No contract of its own: the line the callback prints, with its prefix computed from the split relative path. `Renderer.EntryLineShape` and `Renderer.EntryLineSlashIffDir` state what it is. |
| `Renderer.ConnectorsFrom` | cmd/main.go:109-115 | No contract of its own: the prefix loop. `Renderer.ConnectorsShape` states what it writes. |
| `Renderer.RootLabel` | cmd/main.go:75-82 | The label is the root path's base name unless that is ".". Then it is exactly the working directory's base name, or an error when that cannot be found. |
| `Renderer.Render` | cmd/main.go:65-84 | A missing root, a root that is not a directory, or a label that cannot be found yields that error and no output. Otherwise the first line is the label followed by "/". |
| `Renderer.ConnectorsShape` | cmd/main.go:109-115 | The prefix loop over `k` parts writes `k - 1` fillers and then the connector. |
| `Renderer.EntryLineShape` | cmd/main.go:108-121 | An entry's line is one filler per ancestor segment, the connector, the name, and "/" exactly for a directory, then a newline. |
| `Renderer.EntryLineSlashIffDir` | cmd/main.go:117-121 | An entry's line ends in "/\n" exactly when the entry is a directory. |
| `Renderer.NoSlashBeforeNewline` | cmd/main.go:120 | A file's line does not end in "/\n" when its prefix ends in a space and its name has no '/'. |
| `Renderer.LinesAppend` | cmd/main.go:85-123 | The lines of two consecutive runs of visits are the lines of the first followed by those of the second. |
| `Renderer.RenderForestIsVisible` | cmd/main.go:85-123 | The renderer's walk writes exactly the lines of the reference walk's visits, in order, and stops with the same error. This covers a fault met mid-walk, after earlier lines were written. |
| `Renderer.RenderIsVisible` | cmd/main.go:84-85 | A rendered tree is the root line followed by the lines of the reference walk, with the walk's error. |
| `Dumper.Dump` | cmd/main.go:141-148 | A missing root, or a root that is not a directory, yields that error. |
| `Dumper.DumpedFiles` | cmd/main.go:175 | A visit is dumped exactly when it is a kept non-directory entry with an allowed extension. The order is stated by `Dumper.DumpedFilesAppend` and `Dumper.DumpedFilesSingle`. |
| `Dumper.DumpedFilesSingle` | cmd/main.go:175 | A single visit is dumped exactly when it is dumpable. |
| `Dumper.DumpedFilesAppend` | cmd/main.go:175-180 | The dumped visits of two consecutive runs are those of the first followed by those of the second: dumping keeps walk order. |
| `Dumper.DumpableByExtension` | cmd/main.go:127-139 | A file is dumped by its last extension alone: for a name `stem.ext` with no '.' or '/' in `ext`, exactly when `.ext` is one of the eleven allowed extensions and the entry is not a directory. |
| `Dumper.Dumpable` | cmd/main.go:175 | No contract of its own: a non-directory entry whose extension is allowed. `Dumper.DumpableByExtension` states which names qualify. |
| `Dumper.Block` | cmd/main.go:180 | No contract of its own: the text written for one file. `Dumper.Blocks` and `Scenarios.ReadmeScenario` state it. |
| `Dumper.DumpForest` | cmd/main.go:152-184 | The dumper's own walk fails only with a walk error or a read error. Its full outcome is stated by `Dumper.DumpForestIsVisible`. |
| `Dumper.ReadVisits` | cmd/main.go:175-180 | No contract of its own: reading the dumpable visits in order. `Dumper.ReadVisitsSucceeds` and `Dumper.ReadVisitsFirstFailure` state its outcome. |
| `Dumper.Finish` | cmd/main.go:176-179 | A read error comes first, since the walk stops where it happens. Otherwise the walk's error, and only with neither is the reading's result returned. |
| `Dumper.Blocks` | cmd/main.go:180 | One block per dumped file, in order: its relative path, a colon, a blank line, and its text in a fence followed by a blank line. |
| `Dumper.ReadVisitsAppend` | cmd/main.go:152-184 | Reading two consecutive runs of visits is reading the first, then, if that succeeded, the second. |
| `Dumper.AndThenAssociative` | cmd/main.go:152-184 | Sequencing the blocks of three consecutive parts of the walk does not depend on grouping. |
| `Dumper.DumpForestIsVisible` | cmd/main.go:152-184 | The dumper's walk yields exactly the blocks of the reference walk's dumpable visits. It fails with the first read error among them, or else with the walk's own error. |
| `Dumper.ReadVisitsSucceeds` | cmd/main.go:175-180 | Reading succeeds exactly when every dumpable visit has text, and then yields their blocks in walk order. |
| `Dumper.AllReadableCons` | cmd/main.go:175-179 | A list's dumpable visits are all readable exactly when its first visit is not an unreadable dumpable one and the rest are all readable. |
| `Dumper.ReadVisitsFirstFailure` | cmd/main.go:176-179 | When some dumpable visit cannot be read, reading fails with the relative path of the first such visit. |
| `Cli.Resolve` | cmd/main.go:33-40 | `--path` wins over `-p` unless it holds its default ".". Hidden entries are included when either hidden flag is set. The ignore list is the five defaults followed by one field per comma-separated part of `--ignore`; no field holds a comma, and the fields join back to the user's string. |
| `Cli.EmptyIgnoreAddsNothing` | cmd/main.go:40 | An empty `--ignore` adds just the empty name, so the names pruned are exactly the defaults. |
| `Properties.RenderLayout` | cmd/main.go:65-124 | A rendered tree has the root line, then one line per kept entry in walk order, each laid out as `Renderer.TreeLine` for its depth. There is one more line than kept entries, a line ends in "/\n" exactly for a directory, and the walk's error is returned. |
| `Properties.LayoutAfterRoot` | cmd/main.go:84-121 | A report made of a root line and the lines of visits whose paths are non-empty, '/'-free and end in their entries' names has one line per visit after the root line. Each is laid out as `Renderer.TreeLine` for the visit's depth, and ends in "/\n" exactly for a directory. |
| `Properties.VisitLineLayout` | cmd/main.go:108-121 | One visit's printed line is the reference layout for its depth, and ends in "/\n" exactly for a directory. |
| `Properties.WalkShape` | cmd/main.go:90 | Every visit of a walk from the root has a non-empty, '/'-free path that ends in its entry's name. |
| `Properties.DumpOutcome` | cmd/main.go:126-192 | The dumper succeeds exactly when the walk completes and every dumpable kept file can be read, and then prints their blocks in walk order. Otherwise it fails with the first unreadable dumpable file's path, or else with the walk's error. |
| `Properties.ModesAgree` | cmd/main.go:65-192 | Both modes walk the same entries. A rendering error implies a dump error, and a dump's walk error is the renderer's error. A dump succeeds only with the blocks of the kept dumpable entries the renderer shows. |
| `Properties.HiddenFlagNoOp` | cmd/main.go:95-100 | When no name in the tree is dot-prefixed, both modes produce the same result whether hidden entries are included or not. |
| `Properties.PrunedNeverShown` | cmd/main.go:95-106 | With hidden entries excluded, no segment of a kept path is dot-prefixed. No ancestor directory of a kept entry, and no kept directory, is on the ignore list. |
| `Properties.FaultPrecedesFilter` | cmd/main.go:85-88 | A fault on any child of the root, reached after its earlier siblings were walked without a fault, stops both modes there, whatever the filter would say. The renderer keeps the root line and the earlier siblings' lines and names the faulty child. The dumper prints nothing, and names the faulty child unless an earlier read failed. |
| `Properties.WalkErrorIff` | cmd/main.go:85-88 | At any depth, the renderer reports an error exactly when the walk reaches a faulty entry. The dumper can succeed only when it does not, and reports a walk error only when it does. |
| `Scenarios.HiddenCacheExcluded` | cmd/main.go:95-99 | With hidden entries excluded, the hidden `.cache` directory and its contents are not shown; `a.txt` is. |
| `Scenarios.HiddenCacheIncluded` | cmd/main.go:108-121 | With hidden entries included, `.cache/`, then `secret.txt` one level deeper, then `a.txt`. |
| `Scenarios.IgnoredScenario` | cmd/main.go:102-106 | `node_modules` is pruned with its subtree even with hidden entries included, while a file named `package-lock.json` is shown. |
| `Scenarios.IgnoredForestWalk` | cmd/main.go:102-121 | Walking `node_modules` and `package-lock.json` prunes the directory and prints the file's line. |
| `Scenarios.ReadmeScenario` | cmd/main.go:175-190 | Dumping a root holding only `readme.md` with text `hello` prints its single fenced block. |
| `Scenarios.LastExtensionCounts` | cmd/main.go:175 | Only the last extension counts: `archive.tar.json` is dumped. |
| `Scenarios.UpperCaseNotDumped` | cmd/main.go:127-139 | Extensions are compared case-sensitively: `NOTES.MD` is not dumped. |
| `Scenarios.ImageNotDumped` | cmd/main.go:127-139 | `.png` is not an allowed extension. |
| `Scenarios.NoDotNotDumped` | cmd/main.go:175 | A name with no dot has the empty extension, which is not allowed. |
| `Scenarios.NotesDumped` | cmd/main.go:127-139 | `.md` files are dumped. |

## Left out

- Flag parsing, `-h`/`--help` and the help text (cmd/main.go:17-31, 55-63): the `flag` package is not part of this model. `Cli.Flags` holds the parsed values.
- Choosing the mode and printing `Error: <err>` (cmd/main.go:42-52): this is output formatting around the two modes. The modes return their error as a `Failure`.
- `os.Stat`, `os.Getwd`, `ioutil.ReadFile` and directory listing. They become the in-memory tree: `None` for a missing root, `fault` for an entry the walk cannot inspect or list, `Unreadable` for a failed read, and the children's order for the listing order. The working directory's base name is a parameter.
- `filepath.Base` and `filepath.Rel`: the root's base name is a parameter. The relative path is modelled as the entry's segments joined with '/', which is what `Rel` yields for a path the walk reached from the root.
- Symbolic links, permissions and file modes: only the directory flag is modelled.
- Bytes and encodings: file contents and names are strings of characters. The path separator is fixed to '/'.
- Error message texts, such as "%s is not a directory": the errors are a datatype.
- When the output happens: the renderer writes as it walks, and the model returns the written lines together with the error.
- Sharing of the default list's backing array by `append` (cmd/main.go:40): each call builds a fresh list in the model, and the Go code also yields a fresh list on every run.
- `Renderer.Render`: its own contract covers only the error cases and the root line. A root whose listing fails gives the root line and `WalkFailed(".")`, where Go returns the listing error itself. The full output is stated by `Renderer.RenderIsVisible` and `Properties.RenderLayout`.
- `Dumper.Dump`: its own contract covers only the missing root and the root that is not a directory. A root whose listing fails gives `WalkFailed(".")`. The full outcome is stated by `Dumper.DumpForestIsVisible` and `Properties.DumpOutcome`.
- `Walk.Visible`: its own contract states soundness only, because its completeness and order need induction over the forest. They are stated by `Walk.VisibleAppend`, `Walk.VisibleCons`, `Walk.VisibleAt`, `Walk.KeptEntryVisited` and `Walk.VisibleErrorIff`.
- `Renderer.RenderForest` and `Dumper.DumpForest`: their own contracts state only the kind of error. Their full outcome is stated by `Renderer.RenderForestIsVisible` and `Dumper.DumpForestIsVisible`.
