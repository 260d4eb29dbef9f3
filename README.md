# SummarizeGPT core, modelled in Dafny

SummarizeGPT turns a directory into one Markdown document for a chat model.
The document has three parts:

1. a header naming the directory;
2. a fenced, indented tree view of the directories and files, produced by walking `os.walk` top-down;
3. one fenced section per selected text file, in walk order, with blank lines stripped.

In the current version the line count is cut to `--max-lines`. The document
is written as `Context_for_ChatGPT.md` into the summarized directory.

The repository holds three versions of this core, and each has its own module:

| version | source file | module | differences |
|---|---|---|---|
| current | `summarizeGPT/summarizeGPT.py` | `SummarizeGPT` | extension lists, `.git` roots skipped, `max_lines` |
| packaged | `summarizeGPT/summarize_directory.py` | `SummarizeDirectoryPkg` | as the current one, but no `max_lines` and a different test-file name on the suffix denylist |
| oldest | `summarize_directory.py` | `SummarizeDirectoryLegacy` | no extension lists, no `.git` skip, its own substring denylist |

The three versions' bodies of `get_tree_view`, `get_file_contents`,
`remove_empty_lines` and the document layout are the same code up to those
differences. They are modelled once; the version modules instantiate them:

- `OsWalk` (walk.dfy): `os.walk` as CPython runs it. The walk keeps an explicit stack of directories, pops the last one, yields it, and afterwards pushes what is left of its `dirs` in reverse. The function `Walk` states the pre-order sequence of steps that results. `Pruning` says whether the consumer rewrites `dirs[:]`:
  - the tree pass does;
  - the content pass does not;
  - a step skipped as a `.git` root does not get that far.
- `TreeView` (treeview.dfy): `get_tree_view` as a method over that stack loop. It is proved equal to rendering `TreeEntries`, the list of lines. Soundness and completeness of that list are proved against the walk.
- `FileContents` (filecontents.dfy): `get_file_contents` as a method, proved equal to rendering `Sections`. It has soundness and completeness lemmas, the `max_lines` excerpt, and the decode-failure path.
- `Lines` (lines.dfy): `remove_empty_lines`.
- `Classify` (classify.dfy): the per-file classifiers and the `--include`/`--exclude` parsing of `main`.
- `Prompt` (prompt.dfy): `summarize_directory`, shared by the three versions: the document layout, and the method that builds the document from the two passes. Also the ignore predicate and the conflicting-flags message.
- `PyStr` and `FileTree` (pystr.dfy, filetree.dfy): the Python string, list and path operations used, over `seq<char>`.

How the model stands in for the file system and the process:

- The file system is a `Dir` value: a name, files and subdirectories, in the order the OS lists them.
- Reading a file is a function from the path `open()` receives to `Option<string>`. `None` stands for `UnicodeDecodeError`, which skips the file: its message is printed and nothing is added.
- An ignore file is a predicate on paths. Without an ignore file, or with an empty path, the predicate matches nothing. That amounts to skipping the `if gitignore:` filters.

Behaviour of the code that the model keeps:

- **`.git` skip.** The test is `'.git' in root`, a substring test on the whole path. So a `.github` directory is skipped as well, and so is everything when the top's own path contains `.git`. The oldest version has no such skip.
- **Ignored directories and the content pass.** The content pass never prunes `dirs`. It walks into directories the ignore file matches and inlines their files unless those files are matched one by one (`FileContents.IgnoredSubdirStillInlined`).
- **Conflicting flags.** These end with `sys.exit()`, that is, status 0, after printing the message. No file is written. The upstream test `tests/test_cli.py:52` expects `sys.exit(1)`, which none of the three core files calls.
- **Extension lists.** An extension list is checked for presence (`is not None`), not for being non-empty. `main` never passes an empty list.
- **Indentation level.** The level is computed from the path text, so a trailing `/` on the directory, or the directory's text recurring deeper in the tree, gives a level other than the nesting depth (see Findings).
- **No depth limit, no ignore-file discovery.** `tests/test_core.py` calls `get_tree_view(..., max_depth=1)` and `discover_gitignore`. Neither exists in the three core files, so the model has neither.

## Model

| member | source | states |
|---|---|---|
| PyStr.Lower | summarizeGPT/summarizeGPT.py:56 | `str.lower()` keeps the length; every character is lower-cased on its own (ASCII letters) |
| PyStr.LowerIdempotent | summarizeGPT/summarizeGPT.py:62 | lower-casing an already lower-cased name changes nothing |
| PyStr.LowerHasNoUpper | summarizeGPT/summarizeGPT.py:62 | a lower-cased name holds no upper-case ASCII letter |
| PyStr.ReplaceBackslashes | summarizeGPT/summarizeGPT.py:10 | `replace("\\", "/")` keeps the length, turns each backslash into `/` and keeps every other character |
| PyStr.ReplaceBackslashesNormal | summarizeGPT/summarizeGPT.py:70 | a replaced path holds no backslash, and replacing again changes nothing |
| PyStr.ContainsIff | summarizeGPT/summarizeGPT.py:26 | `t in s` holds exactly when `t` occurs at some index of `s` |
| PyStr.ContainsAppend | summarizeGPT/summarizeGPT.py:26 | a substring of `s` stays a substring of any extension of `s` |
| PyStr.EndsWithContains | summarize_directory.py:52 | a suffix is a substring, which is why the oldest version's `.env` suffix test adds nothing |
| PyStr.IndexOf | summarizeGPT/summarizeGPT.py:83 | the index found holds the character and no earlier index does |
| PyStr.LastIndexOf | summarizeGPT/summarizeGPT.py:33 | the index found is -1 or holds the character, and no later index does |
| PyStr.SplitOnPieces | summarizeGPT/summarizeGPT.py:83 | no piece of `text.split("\n")` holds a newline |
| PyStr.JoinSplit | summarizeGPT/summarizeGPT.py:83 | joining the pieces of a split with the separator gives the text back |
| PyStr.SplitJoin | summarizeGPT/summarizeGPT.py:83 | splitting a join of separator-free pieces gives the pieces back |
| PyStr.LowerSplit | summarizeGPT/summarizeGPT.py:127 | lower-casing then splitting on `,` is splitting then lower-casing each piece |
| PyStr.LowerAllIndex | summarizeGPT/summarizeGPT.py:127 | each string of the lower-cased list is the matching string lower-cased |
| PyStr.ConcatReadlines | summarizeGPT/summarizeGPT.py:73-76 | `''.join(f.readlines())` is the whole text |
| PyStr.ReadlinesShape | summarizeGPT/summarizeGPT.py:73 | no line from `readlines()` is empty, and every line but the last ends with a newline |
| PyStr.ReadlinesOfPrefix | summarizeGPT/summarizeGPT.py:74-76 | the first `n` lines, joined and read again, give those `n` lines back |
| PyStr.SliceTo | summarizeGPT/summarizeGPT.py:75 | `contents[:max_lines]` is a prefix, of length `n` capped at the list's length, or counted from the end for negative `n` |
| PyStr.CountRemoveAll | summarizeGPT/summarizeGPT.py:31 | removing text that holds no `/` leaves the number of `/` unchanged |
| FileTree.PathJoinContains | summarizeGPT/summarizeGPT.py:26 | a joined child path contains whatever its parent path contains |
| FileTree.Basename | summarizeGPT/summarizeGPT.py:33 | `os.path.basename` is a suffix of the path with no `/` in it |
| FileTree.BasenameIsLastComponent | summarizeGPT/summarizeGPT.py:33 | the base name is the whole path or is preceded by a `/`; a name is the base name exactly when it is such a suffix |
| FileTree.PathNameOfParent | summarizeGPT/summarizeGPT.py:29 | a descendant's path is its name joined, as `os.path.join(root, d)`, to the path of the directory holding it |
| FileTree.BasenameOfJoin | summarizeGPT/summarizeGPT.py:29-33 | the base name of `os.path.join(root, d)` is `d` |
| FileTree.Ext | summarizeGPT/summarizeGPT.py:55 | `os.path.splitext` gives either no extension or a dot-led, dot-free suffix after a stem that is not all dots |
| FileTree.ExtOfStem | summarizeGPT/summarizeGPT.py:55 | conversely, a stem that is not all dots, a dot and a dot-free tail give that tail as the extension |
| Lines.NonBlankMember | summarizeGPT/summarizeGPT.py:83 | the kept lines are exactly the input lines with non-empty `strip()`, none is blank, and there are no more of them |
| Lines.NonBlankAppend | summarizeGPT/summarizeGPT.py:83 | the filter keeps the order: filtering a concatenation is filtering the parts |
| Lines.NonBlankKeepsAll | summarizeGPT/summarizeGPT.py:83 | a list without blank lines is kept whole |
| Lines.RemoveEmptyLinesLines | summarizeGPT/summarizeGPT.py:82-83 | the lines of the result are exactly the non-blank input lines, in order, or the result is empty |
| Lines.RemoveEmptyLinesNoBlank | summarizeGPT/summarizeGPT.py:82-83 | a non-empty result has no blank line |
| Lines.RemoveEmptyLinesIdempotent | summarizeGPT/summarizeGPT.py:82-83 | stripping twice is stripping once |
| OsWalk.KeptFiles | summarizeGPT/summarizeGPT.py:30 | the kept files are exactly those whose joined path the ignore predicate does not match |
| OsWalk.KeptDirs | summarizeGPT/summarizeGPT.py:29 | the kept subdirectories are exactly those whose joined path the ignore predicate does not match |
| OsWalk.WalkAllIsWalkEach | summarizeGPT/summarizeGPT.py:29 | walking what is left of `dirs[:]` after the edit is walking the subdirectories the walk descends into |
| OsWalk.PendingStep | summarizeGPT/summarizeGPT.py:25 | popping the top of the walk's stack yields its step, then the walk of its remaining `dirs`, then the rest of the stack |
| OsWalk.StepKeepsWalk | summarizeGPT/summarizeGPT.py:25 | one round of the loop over the walk keeps "steps seen + steps pending = the whole walk" |
| OsWalk.Resume | summarizeGPT/summarizeGPT.py:25 | pushing `dirs` in reverse makes the pending steps the walks of `dirs` in order, then what was pending before |
| OsWalk.WalkRootsNotIgnored | summarizeGPT/summarizeGPT.py:29 | with `dirs[:]` pruning, no step below the top is at an ignored path, except under a skipped `.git` root |
| OsWalk.WalkVisitsChild | summarizeGPT/summarizeGPT.py:49 | every subdirectory of the top the walk descends into is a step one level down; without pruning, all of them are |
| OsWalk.PrunedChildInvisible | summarizeGPT/summarizeGPT.py:29 | a pruned subdirectory contributes no step: the walk equals the walk without it |
| OsWalk.PrunedDescendantInvisible | summarizeGPT/summarizeGPT.py:25-29 | a directory at any depth whose path the ignore predicate matches contributes no step, unless the directory holding it is skipped as a `.git` root (which never edits its `dirs`): the walk equals the walk of the tree with that directory removed. An ignored `.github` directory under a root that is not skipped is covered too |
| OsWalk.WalkVisitsDescendant | summarizeGPT/summarizeGPT.py:25 | a descendant the walk descends to at every step is a step of the walk, at its nesting depth below the top's level, with its own files |
| OsWalk.WalkStepIsDescendant | summarizeGPT/summarizeGPT.py:25 | conversely, every step of the walk is such a descendant, at its nesting depth |
| OsWalk.WalkAllContains | summarizeGPT/summarizeGPT.py:25 | the walk of a subdirectory the walk descends into is part of the walk of its run |
| OsWalk.WalkAllStep | summarizeGPT/summarizeGPT.py:25 | every step of the walk of a run comes from one subdirectory the walk descends into |
| OsWalk.WalkAllReplace | summarizeGPT/summarizeGPT.py:25 | replacing one subdirectory by another of the same name and the same walk leaves the walk of the run unchanged |
| OsWalk.WalkAllAppend | summarizeGPT/summarizeGPT.py:25 | the walks of two runs of subdirectories follow one another |
| OsWalk.WalkRootsContain | summarizeGPT/summarizeGPT.py:26 | every path the walk reaches below a root contains whatever the root's path contains |
| TreeView.ListStep | summarizeGPT/summarizeGPT.py:31-38 | one step writes the directory's line at its level, then one line per file one level deeper, skipping the output document |
| TreeView.TreeStep | summarizeGPT/summarizeGPT.py:26-38 | a root containing `.git` writes nothing and keeps `dirs`; otherwise `dirs` and `files` lose the ignored entries and the step's lines are written |
| TreeView.GetTreeView | summarizeGPT/summarizeGPT.py:18-39 | the tree view is the rendering of the lines of every step of the walk, in walk order |
| TreeView.FileEntriesMember | summarizeGPT/summarizeGPT.py:35-38 | a file line is listed exactly for the step's files other than the output document, one level deeper |
| TreeView.EntriesOfMember | summarizeGPT/summarizeGPT.py:25-38 | a line is in the tree view exactly when some step lists it |
| TreeView.EntriesOfAppend | summarizeGPT/summarizeGPT.py:25-38 | the lines of two runs of steps follow one another |
| TreeView.RenderAppend | summarizeGPT/summarizeGPT.py:33-38 | rendering two runs of lines is concatenating their text |
| TreeView.TreeEntriesSound | summarizeGPT/summarizeGPT.py:25-38 | every line comes from a step not skipped, at the top or a path not ignored; a directory line names its root, a file line a file of that step that is neither ignored nor the output document |
| TreeView.TreeEntriesComplete | summarizeGPT/summarizeGPT.py:25-38 | every step not skipped lists its root and each of its files that is neither ignored nor the output document |
| TreeView.IgnoredSubdirInvisible | summarizeGPT/summarizeGPT.py:28-29 | an ignored subdirectory of the top changes nothing in the tree view unless the top is skipped |
| TreeView.IgnoredDescendantInvisible | summarizeGPT/summarizeGPT.py:25-38 | an ignored directory at any depth changes nothing in the tree view, unless the directory holding it is skipped as a `.git` root: no line comes from it or from below it |
| TreeView.IgnoredGithubInvisible | summarizeGPT/summarizeGPT.py:26-29 | an ignored `.github` subdirectory of a top that is not skipped is pruned by the `dirs[:]` edit and changes nothing in the tree view, although its own path contains `.git` |
| TreeView.OutputFileNotListed | summarizeGPT/summarizeGPT.py:35-37 | adding `Context_for_ChatGPT.md` anywhere among the top's files leaves the tree view's lines unchanged |
| TreeView.GitSubdirInvisible | summarizeGPT/summarizeGPT.py:26-27 | a `.git` subdirectory of the top changes nothing in the tree view, whatever the ignore file says |
| TreeView.SourceLevelNoSlash | summarizeGPT/summarizeGPT.py:31 | when the top's path holds no `/`, the level computed is the number of `/` in the step's path |
| TreeView.SourceLevelTrailingSlash | summarizeGPT/summarizeGPT.py:31 | given as `a`, subdirectory `a/b` gets level 1; given as `a/`, it gets level 0, the top's own |
| TreeView.SourceLevelRecurringDirectory | summarizeGPT/summarizeGPT.py:31 | given as `x/y`, the step `x/y/x/y` two levels down gets level 1, because `replace` removes every occurrence of the directory's text |
| TreeView.ListedAtDepth | summarizeGPT/summarizeGPT.py:31-33 | a descendant the walk reaches and does not skip is listed at its nesting depth, whatever text the directory argument has |
| TreeView.DirLineAtDepth | summarizeGPT/summarizeGPT.py:31-33 | conversely, every directory line is at the nesting depth of the descendant it names |
| TreeView.SubdirListedOneDeeper | summarizeGPT/summarizeGPT.py:31-33 | a listed subdirectory of the top is always one level deeper than the top, a trailing `/` included |
| FileContents.ExcerptWhole | summarizeGPT/summarize_directory.py:72 | without a limit the inlined text is the whole file, and `''.join(readlines())` is the same text |
| FileContents.ExcerptFirstLines | summarizeGPT/summarizeGPT.py:74-76 | with `max_lines` at `n >= 0`, the excerpt's lines are the file's first `n` lines (all when fewer) |
| FileContents.ExcerptIsPrefix | summarizeGPT/summarizeGPT.py:74-76 | the excerpt is a prefix of the file's text |
| FileContents.ConcatAppend | summarizeGPT/summarizeGPT.py:76 | `''.join` distributes over concatenation of lists |
| FileContents.RenderSectionsAppend | summarizeGPT/summarizeGPT.py:77 | rendering two runs of sections is concatenating their text |
| FileContents.FilesStep | summarizeGPT/summarizeGPT.py:54-79 | the inner loop appends one section per file the classifier selects that is not the output document and decodes, with its excerpt stripped of blank lines |
| FileContents.ReadExcerpt | summarizeGPT/summarizeGPT.py:73-76 | `readlines`, the optional cut and the join give the excerpt |
| FileContents.ContentStep | summarizeGPT/summarizeGPT.py:49-53 | a root containing `.git` adds nothing; otherwise the ignored files are dropped and the rest go through the inner loop; `dirs` is left alone |
| FileContents.GetFileContents | summarizeGPT/summarizeGPT.py:41-80 | the contents are the rendering of the sections of every step of the walk, in walk order |
| FileContents.FileSectionsMember | summarizeGPT/summarizeGPT.py:54-77 | a file of a step has a section exactly when it is inlined, and the section holds its stripped excerpt |
| FileContents.SectionsSound | summarizeGPT/summarizeGPT.py:49-80 | every section is a file of a step not skipped; it is not ignored, is selected, is not the output document and decodes; its body is its stripped excerpt |
| FileContents.SectionsComplete | summarizeGPT/summarizeGPT.py:49-80 | every file of a step not skipped that is not ignored and is inlined has its section |
| FileContents.IgnoredSubdirStillInlined | summarizeGPT/summarizeGPT.py:49-53 | the content pass walks into an ignored subdirectory and inlines its files unless they are matched one by one |
| FileContents.OutputFileNotInlined | summarizeGPT/summarizeGPT.py:68-69 | adding `Context_for_ChatGPT.md` anywhere among the top's files leaves the sections unchanged |
| FileContents.GitSubdirNotInlined | summarizeGPT/summarizeGPT.py:50-51 | a `.git` subdirectory of the top contributes no section |
| FileContents.SectionsOfSkipped | summarizeGPT/summarizeGPT.py:50-51 | steps that are all skipped contribute no section |
| Classify.DefaultModeIff | summarizeGPT/summarizeGPT.py:61-63 | by default a name passes exactly when its lower-cased form ends with no denied suffix and does not contain `docker` |
| Classify.OnlyDockerIff | summarizeGPT/summarizeGPT.py:64-66 | with `show_only_docker` a name passes exactly when its lower-cased form contains `docker` or `requirements.txt`, whether or not `show_docker` is set |
| Classify.ShowDockerKeepsAll | summarizeGPT/summarizeGPT.py:61-66 | with `show_docker` alone the mode filter keeps every name |
| Classify.DockerfileNeverMatches | summarizeGPT/summarizeGPT.py:43 | a lower-cased name never contains `Dockerfile`, so that list entry matches nothing |
| Classify.SelectedPassesExtLists | summarizeGPT/summarizeGPT.py:57-60 | a selected file's lower-cased extension is in the include list if there is one and not in the exclude list if there is one |
| Classify.PackagedClassifiersAgree | summarizeGPT/summarize_directory.py:61 | the two packaged classifiers agree on every name that ends with neither test-file name |
| Classify.SameSuffixes | summarizeGPT/summarize_directory.py:61 | a suffix the name does not end with does not change `endswith((...))` |
| Classify.LegacyDefaultModeIff | summarize_directory.py:51-53 | by default the oldest version keeps a name exactly when its lower-cased form contains none of `docker`, `requirements.txt`, `.env`, `prompt.md` |
| Classify.UndotDotLower | summarizeGPT/summarizeGPT.py:127 | dropping the dot of each built extension gives the items lower-cased |
| Classify.ExtListItems | summarizeGPT/summarizeGPT.py:127 | a non-empty option gives one extension per comma-separated item, each a dot and the lower-cased item, and they join back to the lower-cased option |
| Classify.IncludeOptionIff | summarizeGPT/summarizeGPT.py:57 | with `--include`, a file passes exactly when its lower-cased extension is a dot and one of the lower-cased items |
| Prompt.PromptMdParts | summarizeGPT/summarizeGPT.py:11-15 | the document is the header and opening fence, then exactly the tree view, the closing fence, then exactly the contents |
| Prompt.SummarizeDirectory | summarizeGPT/summarizeGPT.py:9-16 | the document for the directory with backslashes replaced: header, fenced tree view, then the sections; the same code is at summarizeGPT/summarize_directory.py:8-15 and summarize_directory.py:8-16, each version passing its own content pass |
| Prompt.DocumentNormalisesDirectory | summarizeGPT/summarizeGPT.py:10 | a directory given with backslashes gives the same document as with `/` |
| Prompt.RerunSameDocument | summarizeGPT/summarizeGPT.py:9-16 | adding `Context_for_ChatGPT.md` anywhere among the top's files leaves the whole document unchanged, because both passes skip it (lines 35-37 and 68-69), so a second run over the directory it was written to gives the same text; every version's `Summary` is this document |
| Prompt.NoIgnoreFileIgnoresNothing | summarizeGPT/summarizeGPT.py:20-23 | without an ignore file, or with an empty path, no path is ignored |
| SummarizeGPT.Run | summarizeGPT/summarizeGPT.py:123-136 | fails exactly when both docker flags are set, with the message; otherwise it gives the output path joined to the directory as given, and the document for the parsed options |
| SummarizeGPT.DefaultModeSections | summarizeGPT/summarizeGPT.py:57-69 | by default no section is the output document, fails an extension list, ends with a denied suffix or contains `docker` |
| SummarizeGPT.OnlyDockerSections | summarizeGPT/summarizeGPT.py:64-66 | with `show_only_docker` every section's lower-cased name contains `docker` or `requirements.txt` |
| SummarizeGPT.TruncatedSections | summarizeGPT/summarizeGPT.py:73-77 | with `max_lines` at `n >= 0`, each section shows, stripped, a prefix of its file of at most `n` lines |
| SummarizeGPT.WholeFileSections | summarizeGPT/summarizeGPT.py:73-77 | without `max_lines`, each section shows its whole file, stripped |
| SummarizeDirectoryPkg.Run | summarizeGPT/summarize_directory.py:97-108 | fails exactly when both docker flags are set; otherwise the output path and the document for the parsed extension lists |
| SummarizeDirectoryPkg.DefaultModeSections | summarizeGPT/summarize_directory.py:56-68 | by default no section is the output document, fails an extension list, ends with a denied suffix or contains `docker` |
| SummarizeDirectoryPkg.OnlyDockerSections | summarizeGPT/summarize_directory.py:63-65 | with `show_only_docker` every section's lower-cased name contains `docker` or `requirements.txt` |
| SummarizeDirectoryPkg.WholeFileSections | summarizeGPT/summarize_directory.py:71-73 | every section shows its whole file, stripped |
| SummarizeDirectoryLegacy.Run | summarize_directory.py:90-98 | fails exactly when both docker flags are set; otherwise the output path and the document |
| SummarizeDirectoryLegacy.DefaultModeSections | summarize_directory.py:51-59 | by default no section is the output document or contains `docker`, `requirements.txt`, `.env` or `prompt.md` |
| SummarizeDirectoryLegacy.OnlyDockerSections | summarize_directory.py:54-56 | with `show_only_docker` every section's lower-cased name contains `docker` or `requirements.txt` |
| SummarizeDirectoryLegacy.ListsEveryStep | summarize_directory.py:25-36 | every step of the walk is listed, `.git` directories included, with its files that are neither ignored nor the output document |
| SummarizeDirectoryLegacy.InlinesEveryStep | summarize_directory.py:47-64 | every file of every step that is not ignored and is inlined has its section, inside `.git` directories too |
| SummarizeDirectoryLegacy.WholeFileSections | summarize_directory.py:62-64 | every section shows its whole file, stripped |

## Left out

- `print_summary` and its token count: statistics printed after the document is written. They use `tiktoken`, whose encodings are not part of this model, so `--encoding` is carried by nothing.
- `argparse`: `Args` holds the already parsed command line. `Run` starts after parsing.
- `print` and `sys.exit`: the conflict check is a `Result` failure carrying the printed message, and the exit status is not modelled. The oldest version's echo of the two flags and the decode-failure message are left out too.
- Writing `Context_for_ChatGPT.md`: `Run` returns the path and the text it would write. Real file reads and writes, and their errors other than `UnicodeDecodeError`, are not modelled.
- `gitignore_parser.parse_gitignore`: its matching rules are not part of this model. The parser is a parameter from the ignore-file path to a predicate on paths.
- `str.lower()` beyond ASCII: only `A`-`Z` are lower-cased.
- Newline translation on reading: the read function yields the decoded text, `\n`-terminated.
- Symbolic links, directories that cannot be listed, and the OS order of entries: the `Dir` value fixes one order. `os.walk`'s `onerror` and its handling of links are not modelled.
- Windows paths: `os.sep` and `os.path.join` are the POSIX ones.
- TreeView.GetTreeView: the indentation level is the step's nesting depth, not `root.replace(directory, '').count(os.sep)`. The two differ when the directory is given with a trailing `/`, and when the directory's text recurs further down the tree (see Findings). `TreeView.SourceLevel` states the computation as written.

## Findings

| source | as written | input that shows it | evidently intended | confidence | as-written member | corrected member |
|---|---|---|---|---|---|---|
| summarizeGPT/summarizeGPT.py:31 | `level = root.replace(directory, '').count(os.sep)` | directory `a/` with subdirectory `b`: the walk's root is `a/b`, the replacement leaves `b`, and the level is 0, so `b/` is listed at the top's indentation. Directory `x/y` with a subdirectory `x` holding a subdirectory `y`: the step `x/y/x/y` is two levels down, the replacement removes both occurrences of `x/y` and leaves `/`, and the level is 1, so `y/` is listed at the indentation of its parent `x/` (also summarizeGPT/summarize_directory.py:30, summarize_directory.py:29) | a subdirectory is listed one level below its parent, whatever form the directory argument takes | not executed | TreeView.SourceLevelTrailingSlash, TreeView.SourceLevelRecurringDirectory | TreeView.ListedAtDepth, TreeView.DirLineAtDepth |
