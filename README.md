# Context loader core, modelled in Dafny

The context loader is a desktop tool. It crawls a workspace and shows the files as a tree of check boxes. It then concatenates the chosen files into one text, each file under a `@@@ ./path @@@` header, ready to be pasted into a language-model prompt. This project models the logic at the centre of that tool and proves what it promises:

- **The file tree** (`file_tree_nodes.dfy`, `file_tree_build.dfy`, `file_tree_selection.dfy`, `file_tree_toggle.dfy`):
  - `build_tree_from_file_info` turns the crawled file records and the set of selected paths into a forest. It sorts by path, creates folders on demand through `find_or_create_blueprint_node`, and hands out ids from one counter.
  - The tri-state folder states come from `calculate_folder_selection_state` and `update_folder_selection_states_recursive`.
  - A check box, "Select All" and "Deselect All" change the selected-path set.
- **`.gitignore` text handling** (`gitignore.dfy`): `str::lines` on the file content, and `preprocess_gitignore_lines`.
- **File-system helpers** (`fs_utils.dfy`): `is_hidden`, `ProgressState`, and the layout `concat_files` produces. That layout covers the common-parent walk, the headers with their `./` rule, and the blank-line separators.
- **Paths** (`paths.dfy`): a path is the sequence of its `Path::components`. The file gives the `PathBuf` order used by the sort, `starts_with`, `parent`, `has_root` and `file_name`.
- **Settings** (`settings.dfy`): the recent-workspaces list, which keeps the most recent first, drops duplicates and holds at most five entries.
- **Token estimators** (`tokenizer.dfy`): their persisted names, labels and the character-count heuristic.
- **Token cache** (`cache.dfy`): the in-memory entry map and the reuse decision on load.
- **Filter type** (`filter_input.dfy`): its spelling and placeholder text.
- **Footer** (`footer.dfy`): the token total of the selected files and the 32,000-token warning.

## How the model is built

- **Tree nodes are values.** The source has a plain "blueprint" node and a display node whose `is_expanded` and `selection_state` sit in reactive cells. Converting one into the other copies every field, so both are the single datatype `FileTreeNodes.Node`.
- **The build.** Building the tree is a method loop over the sorted files, and its invariant ties it to the function `BuildFrom`. The per-file walk down the nested child vectors uses a mutable cursor. It is modelled as the recursive function `InsertComponents`, which returns the rebuilt level and the advanced counter.
- **The selection update.** The recursive update is a method with a loop, proved equal to the function `RecomputeForest`. It returns the updated forest instead of writing into cells.
- **The selected-path set** is the field of a class (`SelectedPaths`), changed by the check-box and button handlers.
- **The sort.** `sort_by_key` is modelled as a stable insertion sort (`SortByPath`), proved sorted and a permutation.
- **Inputs instead of I/O.** File contents, the parsed cache file and the cl100k token count enter as inputs.
- **Full paths in the tree.** The tree is built from the full stored paths. No workspace root is stripped, because the tree component is never handed one: `src/main.rs:367` passes a `workspace_root` property that `FileTreeProps` does not declare.
- **Shortened test strings.** Some examples use shorter literal strings than the source's tests, with the same cases: blank lines, comments, a `#` inside a pattern, a leading `!`, and a final newline.

## Model

| member | source | states |
|---|---|---|
| Paths.PathLessIrreflexive | src/components/file_tree.rs:112 | no path sorts before itself |
| Paths.PathLessTransitive | src/components/file_tree.rs:112 | the path order used as the sort key is transitive |
| Paths.PathLessTotal | src/components/file_tree.rs:112 | any two different paths are ordered one way round |
| FileTreeNodes.FileListIffFileNode | src/components/file_tree.rs:49-66 | a path is in a node's file list exactly when a file node with that path occurs in the subtree |
| FileTreeNodes.InForestFileList | src/components/file_tree.rs:56-63 | a path is listed by a forest exactly when some tree of it lists it |
| FileTreeBuild.InsertByPathCorrect | src/components/file_tree.rs:111-112 | inserting into a sorted list keeps it sorted and adds exactly the one record |
| FileTreeBuild.SortByPathCorrect | src/components/file_tree.rs:111-112 | the sorted copy is ordered by path and is a permutation of the input |
| FileTreeBuild.Position | src/components/file_tree.rs:79-81 | a found position lies inside the child list |
| FileTreeBuild.PositionIsFirstMatch | src/components/file_tree.rs:79-81 | the position is the first child with that name and node type; none is found exactly when no child matches |
| FileTreeBuild.FindOrCreateBlueprintNode | src/components/file_tree.rs:70-100 | the returned index lies inside the resulting child list |
| FileTreeBuild.FindOrCreateSpec | src/components/file_tree.rs:70-100 | the returned node is the first child matching both name and type. When one exists nothing changes. Otherwise a new empty NotSelected node takes the next id and is appended, expanded at depth 0 and `is_root_folder` elsewhere, and the counter goes up by one |
| FileTreeBuild.BuildTreeFromFileInfo | src/components/file_tree.rs:102-176 | the loop returns the forest of `BuildTree`, which sorts with `SortByPath` and then runs `BuildFrom`; empty input gives the empty forest |
| FileTreeBuild.FileStepIds | src/components/file_tree.rs:132-157 | at the last component, `InsertComponents` pushes a file node with the counter's id and advances the counter by one exactly when no file node of that path is on the level; otherwise level and counter stay as they were |
| FileTreeBuild.FoundIds | src/components/file_tree.rs:79-99 | find-or-create adds to the level's ids exactly the ids it handed out |
| FileTreeBuild.FolderStepIds | src/components/file_tree.rs:158-171 | descending into the found folder adds exactly the ids handed out meanwhile |
| FileTreeBuild.InsertIds | src/components/file_tree.rs:125-173 | `InsertComponents`: walking one path adds to the forest's ids exactly the counter values used, each once |
| FileTreeBuild.FileListShape | src/components/file_tree.rs:120-171 | every file below a well-formed node lies under that node's path |
| FileTreeBuild.LastComponentLookup | src/components/file_tree.rs:134-136 | the duplicate check on a level sees every copy of the path in the subtree |
| FileTreeBuild.InnerComponentLookup | src/components/file_tree.rs:158-171 | a subtree not rooted at the folder of the path's component cannot hold the path |
| FileTreeBuild.InnerLevelLookup | src/components/file_tree.rs:158-171 | above the last component, the path can only be listed under the folder named by its component |
| FileTreeBuild.FolderUnique | src/components/file_tree.rs:79-81 | well-formed siblings hold at most one folder of a name |
| FileTreeBuild.InsertWellFormed | src/components/file_tree.rs:125-173 | `InsertComponents`: walking one path keeps a level well-formed and non-empty. Well-formed means: depth is the component index; a folder's path is the accumulated prefix; only depth-0 folders are expanded; files are collapsed, have the input path and are Selected exactly when in the set; no two siblings share (name, Folder) or (path, File) |
| FileTreeBuild.FolderLookup | src/components/file_tree.rs:158-171 | the folder descended into is well-formed one level down and lists the path exactly when the level does |
| FileTreeBuild.FolderPathLookup | src/components/file_tree.rs:158-171 | the path is listed on the level exactly when it is listed below the folder of its component |
| FileTreeBuild.InsertFiles | src/components/file_tree.rs:125-173 | `InsertComponents`: walking one path adds that path to the forest's file list exactly when it was missing, and nothing else |
| FileTreeBuild.FolderStepFiles | src/components/file_tree.rs:158-171 | descending into the found folder changes the file list as the folder's own file list changes |
| FileTreeBuild.BuildFromInvariant | src/components/file_tree.rs:114-175 | `BuildFrom`: after each file the forest is well formed, its ids are exactly 0..counter-1, and it lists each path seen so far exactly once |
| FileTreeBuild.InsertPreservesInvariant | src/components/file_tree.rs:117-173 | one more file keeps that invariant |
| FileTreeBuild.BuildTreeIds | src/components/file_tree.rs:111-175 | the ids of the `BuildTree` forest are pairwise distinct and are exactly 0..N-1 for N nodes |
| FileTreeBuild.BuildTreeWellFormed | src/components/file_tree.rs:102-176 | the `BuildTree` forest is well formed as above, with the file states taken from the selected set |
| FileTreeBuild.BuildTreeFiles | src/components/file_tree.rs:132-157 | the `BuildTree` forest holds one file node per distinct input path and no other file nodes; a repeated record adds nothing |
| FileTreeBuild.FileAndFolderOfOneName | src/components/file_tree_test.rs:255-297 | a file `a` and a file `a/b` give two roots named `a`: the file (id 0), then the folder (id 1) holding `a/b` |
| FileTreeSelection.CalculateFolderSelectionState | src/components/file_tree.rs:206-246 | on a file, its own state. On a folder, `Aggregate` of the children's states: NotSelected when there are no children, Selected when all children are, PartiallySelected when some child is Selected or PartiallySelected, otherwise NotSelected |
| FileTreeSelection.UpdateFolderSelectionStatesRecursive | src/components/file_tree.rs:250-270 | the bottom-up pass returns `RecomputeForest` of its input |
| FileTreeSelection.RecomputeIsConsistent | src/components/file_tree.rs:250-270 | after `RecomputeNode` every folder's state is the aggregate of its children's states, at every depth |
| FileTreeSelection.ConsistentIsFixpoint | src/components/file_tree.rs:262-267 | a consistent tree is left unchanged by the pass |
| FileTreeSelection.RecomputeIdempotent | src/components/file_tree.rs:250-270 | running the pass twice gives what running it once gives |
| FileTreeSelection.RecomputeKeepsSkeleton | src/components/file_tree.rs:250-270 | the pass changes folder states and nothing else |
| FileTreeSelection.RecomputeKeepsFiles | src/components/file_tree.rs:250-270 | the pass keeps a node's file list |
| FileTreeSelection.RecomputeForestKeepsFiles | src/components/file_tree.rs:250-270 | the pass keeps a forest's file list |
| FileTreeSelection.RecomputeReflects | src/components/file_tree.rs:206-270 | after the pass each node is Selected exactly when all files below it are selected and NotSelected exactly when none is (so PartiallySelected exactly when some but not all are) |
| FileTreeSelection.WellFormedIsLabelled | src/components/file_tree.rs:140-144 | a built node's file states come from the selected set and its folders are non-empty |
| FileTreeSelection.DisplayedTreeReflectsSelection | src/components/file_tree.rs:293-300 | in the forest the tree shows (build, then the pass) every root's state tells whether all, none or some of its files are selected |
| FileTreeSelection.AggregateOfTwo | src/components/file_tree.rs:239-245 | `Aggregate` of two states: Selected when both are, PartiallySelected when either is not NotSelected, else NotSelected |
| FileTreeSelection.SrcTreeRecompute | src/components/file_tree_test.rs:797-929 | in the `src`/`components` example tree, each folder gets the aggregate of its children |
| FileTreeSelection.SrcTreeStates | src/components/file_tree_test.rs:797-929 | with only `button.rs` selected both folders are PartiallySelected; with all of `components` it is Selected and `src` Partially; with everything both are Selected |
| FileTreeToggle.CollectAllFilePathsRecursive | src/components/file_tree.rs:49-66 | a file gives its own path; a folder gives the paths of all file nodes below it, in order (so an empty folder gives none) |
| FileTreeToggle.SelectedPaths.constructor | src/components/file_tree.rs:277 | the cell starts with the given set |
| FileTreeToggle.SelectedPaths.OnCheckboxInput | src/components/file_tree.rs:431-446 | the set becomes `Toggled` of the old one: checking adds, and unchecking removes, exactly the paths of the files below the node (its own path for a file) |
| FileTreeToggle.SelectedPaths.SelectAll | src/components/file_tree.rs:312-321 | the set becomes the paths of all crawled files |
| FileTreeToggle.SelectedPaths.DeselectAll | src/components/file_tree.rs:326-330 | the set becomes empty |
| FileTreeToggle.CheckThenUncheck | src/components/file_tree.rs:431-446 | check then uncheck removes the node's files; it restores the selection exactly when none of them was selected |
| FileTreeToggle.ToggleIsLocal | src/components/file_tree.rs:431-446 | a check box never changes a path outside its node |
| FileTreeToggle.ToggledNodesShowNewState | src/components/file_tree.rs:431-446 | after a box is checked (unchecked), every node whose files all lie below it shows Selected (NotSelected) |
| FileTreeToggle.SelectAllShowsSelected | src/components/file_tree.rs:312-321 | after "Select All" every root of the displayed forest is Selected |
| FileTreeToggle.DeselectAllShowsNotSelected | src/components/file_tree.rs:326-330 | after "Deselect All" every root of the displayed forest is NotSelected |
| GitignoreHandler.TrimStart | src/gitignore_handler.rs:50 | only leading whitespace is removed, and what is left does not start with whitespace |
| GitignoreHandler.TrimEnd | src/gitignore_handler.rs:50 | only trailing whitespace is removed, and what is left does not end with whitespace |
| GitignoreHandler.TrimStartIsSuffix | src/gitignore_handler.rs:50 | the left-trimmed string is a suffix of the input |
| GitignoreHandler.TrimEndIsPrefix | src/gitignore_handler.rs:50 | the right-trimmed string is a prefix of the input |
| GitignoreHandler.TrimIsTrimmed | src/gitignore_handler.rs:50 | `Trim` (`str::trim`) leaves no whitespace at either end and never lengthens |
| GitignoreHandler.TrimStartOfTrimmed | src/gitignore_handler.rs:50 | a string without leading whitespace is unchanged by the left trim |
| GitignoreHandler.TrimEndOfTrimmed | src/gitignore_handler.rs:50 | a string without trailing whitespace is unchanged by the right trim |
| GitignoreHandler.TrimOfTrimmed | src/gitignore_handler.rs:50 | a trimmed string is unchanged by `trim` |
| GitignoreHandler.TrimIdempotent | src/gitignore_handler.rs:50 | trimming twice is trimming once |
| GitignoreHandler.TrimStartSkips | src/gitignore_handler.rs:50 | leading whitespace makes no difference to the left trim |
| GitignoreHandler.TrimEndSkips | src/gitignore_handler.rs:50 | trailing whitespace makes no difference to the right trim |
| GitignoreHandler.TrimAround | src/gitignore_handler.rs:50 | `trim` removes exactly the whitespace around a non-empty trimmed core |
| GitignoreHandler.BlankIsDropped | src/gitignore_handler.rs:50-51 | a whitespace-only line trims to nothing and is dropped |
| GitignoreHandler.PreprocessYieldsPatterns | src/gitignore_handler.rs:47-53 | `PreprocessGitignoreLines`: every output line is trimmed, non-empty and does not start with `#`; there are never more outputs than inputs |
| GitignoreHandler.PreprocessMembership | src/gitignore_handler.rs:47-53 | `PreprocessGitignoreLines`: a string is output exactly when it is a non-empty, non-comment trimmed form of some input line (so `#` inside a line and a leading `!` are kept) |
| GitignoreHandler.PreprocessConcat | src/gitignore_handler.rs:48-52 | the reduction works line by line in input order: it splits over concatenation |
| GitignoreHandler.PreprocessKeepsPatterns | src/gitignore_handler.rs:47-53 | already effective patterns pass through unchanged |
| GitignoreHandler.PreprocessIdempotent | src/gitignore_handler.rs:47-53 | `PreprocessGitignoreLines` twice is preprocessing once |
| GitignoreHandler.PreprocessDropsBlanksAndComments | src/gitignore_handler.rs:259-268 | a blank line, a comment and an indented comment all disappear |
| GitignoreHandler.PreprocessTrimsPatterns | src/gitignore_handler.rs:278-282 | surrounding blanks go, a `#` after the start and a leading `!` stay |
| GitignoreHandler.NewlineAt | src/gitignore_handler.rs:33 | the index of the first newline, or the length when there is none |
| GitignoreHandler.LinesHaveNoNewline | src/gitignore_handler.rs:33 | `Lines` (`str::lines`): no line holds a newline |
| GitignoreHandler.NewlineAfter | src/gitignore_handler.rs:33 | the first newline after a newline-free line is the one that ends it |
| GitignoreHandler.LinesStep | src/gitignore_handler.rs:33 | a line ended by `\n` comes off the front, losing a final `\r` |
| GitignoreHandler.LinesOfTerminated | src/gitignore_handler.rs:33 | `Lines` gives back lines that were each written followed by `\n` (round trip) |
| GitignoreHandler.LinesOfEmpty | src/gitignore_handler.rs:166-180 | empty content has no lines |
| GitignoreHandler.LinesOfNewline | src/gitignore_handler.rs:196-207 | a lone newline is one empty line |
| GitignoreHandler.LinesWithFinalNewline | src/gitignore_handler.rs:182-194 | a final newline adds no empty line |
| GitignoreHandler.LinesOfCrlf | src/gitignore_handler.rs:33 | `\r\n` ends a line like `\n` |
| GitignoreHandler.LinesKeepBlankAndComment | src/gitignore_handler.rs:144-164 | blank and comment lines are kept as lines |
| FsUtils.IsHidden | src/fs_utils.rs:197-209 | hidden exactly when the last component is a plain name starting with `.`; a path without a file name is not hidden |
| FsUtils.HiddenExamples | src/fs_utils.rs:197-209 | `.git` and `.env` are hidden; a file under a hidden directory, the root, the empty path and `..` are not |
| FsUtils.ProgressState.constructor | src/fs_utils.rs:26-32 | zero counts and an empty message |
| FsUtils.ProgressState.Update | src/fs_utils.rs:34-38 | sets exactly the three fields to the arguments |
| FsUtils.StartParent | src/fs_utils.rs:254 | the start of the walk is a prefix of the first path |
| FsUtils.Climb | src/fs_utils.rs:256-276 | the upward walk from `StartParent` ends at an ancestor of where it started that every path starts with |
| FsUtils.ClimbIsLongest | src/fs_utils.rs:256-276 | the walk stops as early as possible: every longer prefix of the start is missed by some path |
| FsUtils.CommonParentProperties | src/fs_utils.rs:252-280 | `CommonParentOf`: empty input gives the empty path; otherwise the result prefixes every path and the first path's parent, and no longer prefix of that parent does |
| FsUtils.CommonParent | src/fs_utils.rs:252-280 | the `while !found` loop computes `CommonParentOf` |
| FsUtils.ConcatOutput | src/fs_utils.rs:282-306 | the output function: no paths give the empty text |
| FsUtils.ConcatStep | src/fs_utils.rs:282-306 | each further file adds `\n\n` (not before the first) and then its header and content |
| FsUtils.ConcatFiles | src/fs_utils.rs:247-309 | succeeds exactly when every file can be read, and then returns `ConcatOutput` under `CommonParentOf`; otherwise the error names a file that cannot be read |
| FsUtils.StripNeverFallsBack | src/fs_utils.rs:290 | `RelativePath`: stripping the common parent always succeeds, and parent plus relative path is the path |
| FsUtils.DotSlashIffNotRooted | src/fs_utils.rs:291-294 | `Header`: the printed path starts with `./` exactly when the relative path is not rooted |
| FsUtils.ConcatSplit | src/fs_utils.rs:282-306 | two runs of blocks join with exactly one `\n\n` and no trailing separator |
| FsUtils.PlainHeader | src/fs_utils.rs:289-295 | `Header`: a plain name without `/` directly under the parent, hidden or not, gets the header `@@@ ./name @@@` and a blank line |
| FsUtils.HiddenHeader | src/fs_utils.rs:289-295 | a hidden file `.env` gets `@@@ ./.env @@@` too |
| FsUtils.PlainBlock | src/fs_utils.rs:289-302 | `Block`: such a file's block is that header followed by its content |
| FsUtils.CommonParentExample | src/fs_utils.rs:252-277 | `/w/a.txt` and `/w/b.txt` share `/w` |
| FsUtils.TwoFileExample | src/fs_utils.rs:282-306 | the two files give `@@@ ./a.txt @@@\n\nX\n\n@@@ ./b.txt @@@\n\nY` |
| Settings.Without | src/settings.rs:37 | `retain` keeps every other entry and never lengthens the list |
| Settings.Settings.constructor | src/settings.rs:8-13 | the default settings remember no workspace |
| Settings.Settings.AddRecentWorkspace | src/settings.rs:35-44 | the list becomes `AddRecent` of the old list (`Without`, then the path in front, then at most five) |
| Settings.WithoutKeepsDistinct | src/settings.rs:37 | `retain` keeps a list without repeats without repeats |
| Settings.WithoutAbsent | src/settings.rs:37 | `retain` of an absent path changes nothing |
| Settings.WithoutFront | src/settings.rs:37-39 | removing the path from a list headed by it leaves the rest |
| Settings.WithoutConcat | src/settings.rs:37 | `retain` works entry by entry in list order |
| Settings.AddRecentShape | src/settings.rs:35-44 | `AddRecent`: the opened path is first and only there; at most five entries; the rest are the old entries other than it, in their old order, cut at the end |
| Settings.AddRecentFromOld | src/settings.rs:35-44 | every remembered workspace is the new one or an old one |
| Settings.AddRecentKeepsDistinct | src/settings.rs:35-44 | a list without repeats stays without repeats |
| Settings.AddRecentIdempotent | src/settings.rs:35-44 | reopening the first workspace changes nothing |
| Settings.Reverse | src/settings.rs:39 | the newest-first order: entry k is the k-th from the end |
| Settings.AddFresh | src/settings.rs:35-44 | opening a workspace not remembered pushes it in front of the remembered ones, keeping five |
| Settings.AddDistinctInTurn | src/settings.rs:35-44 | `AddAll`: opening distinct workspaces in turn remembers the last five, newest first |
| Settings.SamePathThrice | src/settings.rs:106-118 | opening one workspace three times leaves just that one |
| Settings.TenWorkspaces | src/settings.rs:91-103 | opening `/path/0` to `/path/9` in turn keeps five, `/path/9` first and `/path/5` last |
| Tokenizer.EstimateTokens | src/tokenizer.rs:57-73 | for CharDiv4, Llama2 and SentencePiece the estimate is the character count divided by four, rounded down; cl100k gives the encoder's count |
| Tokenizer.FromStrOfToString | src/tokenizer.rs:16-39 | `FromStr` of `ToString`: every estimator parses back from its display name |
| Tokenizer.FromStrAccepts | src/tokenizer.rs:27-39 | `FromStr`: what parses is the display name of the result; any other string is rejected with "Unknown token estimator: " and the string |
| Tokenizer.NamesAreDistinct | src/tokenizer.rs:16-55 | no two estimators share a display name (`ToString`) or a label (`Name`) |
| Tokenizer.FallbacksMatchHeuristic | src/tokenizer.rs:64-71 | Llama2 and SentencePiece count exactly as CharDiv4 |
| Tokenizer.HeuristicMonotone | src/tokenizer.rs:59 | the `EstimateTokens` heuristic grows with the text, and pieces never count more than the whole |
| Tokenizer.HeuristicExamples | src/tokenizer.rs:94-99 | "Hello" is 1 token, "Hello World" 2, "abc" 0 |
| Cache.TokenCache.constructor | src/cache.rs:57-73 | the new cache holds exactly what `Reuse` picks; without a loaded cache of the requested estimator it knows no path |
| Cache.TokenCache.InsertEntry | src/cache.rs:88-90 | the entry is stored at its path, which then returns it; other paths and the estimator are unchanged |
| Cache.TokenCache.Clear | src/cache.rs:92-94 | every entry goes and every lookup fails; the estimator stays |
| Cache.ReuseDecision | src/cache.rs:61-72 | `Reuse`: the cache in use always has the requested estimator; a loaded cache is used exactly when its estimator matches; otherwise it is empty |
| Cache.NoStaleEstimator | src/cache.rs:61-72 | under `Reuse`, counts made by another estimator are never served |
| Cache.LookupInFresh | src/cache.rs:57-86 | a new cache has the requested estimator; with no loaded cache, or one of another estimator, every lookup misses; a reused cache answers from the loaded entries |
| Cache.InsertTwice | src/cache.rs:84-90 | on a new cache, a second insert at a path wins, and a lookup at any other path returns what it did before the inserts |
| Cache.CacheOperations | src/cache.rs:111-131 | a fresh cache misses, returns an inserted entry, and misses again after clearing |
| FilterInput.FromStrOfToString | src/components/filter_input.rs:15-36 | `FromStr` of `ToString`: every filter type parses back from its display name |
| FilterInput.FromStrAccepts | src/components/filter_input.rs:25-36 | `FromStr`: what parses is the display name of the result; any other string is rejected with "Unknown filter type: " and the string |
| FilterInput.PlaceholderIdentifiesFilter | src/components/filter_input.rs:57-61 | the three `Placeholder` texts differ, so the hint names the active filter |
| FilterInput.RegexPlaceholderSpelling | src/components/filter_input.rs:60 | the regex hint has a single backslash before `.rs$` |
| Footer.NothingSelected | src/components/footer.rs:27-34 | `TotalTokens`: an empty selection totals 0 |
| Footer.EverythingSelected | src/components/footer.rs:27-34 | with every file selected `TotalTokens` is the sum over all files (`AllTokens`) |
| Footer.TotalConcat | src/components/footer.rs:27-34 | the total of a list is the sum of the totals of its parts |
| Footer.TotalMonotone | src/components/footer.rs:27-34 | selecting more never lowers the total, which never exceeds the sum over all files |
| Footer.TotalInclusionExclusion | src/components/footer.rs:31 | files count once for each selection they are in: union plus overlap equals the two totals |
| Footer.SelectingOneFile | src/components/footer.rs:31 | selecting one more path adds exactly that path's counts |
| Footer.FooterExample | src/components/footer.rs:82-117 | 10, 20 and 30 tokens with the first two selected total 30, and `IsOverLimit` is false |
| Footer.LimitExamples | src/components/footer.rs:37 | `IsOverLimit`: 32,000 is not over the limit; 32,001 is |

## Left out

- Directory crawling, file metadata, hashing, and reading and writing the settings, cache and `.gitignore` files are I/O. File contents and the parsed cache file are inputs instead.
- The JSON and serde plumbing (`path_serde`, `path_map_serde`, `Settings::load`/`save`, `TokenCache::save`) is I/O.
- `is_file_ignored` and `check_for_gitignore` are left out. The first hands the patterns to the `ignore` crate's matcher; the second probes the file system.
- The cl100k encoder is a foreign library. Its count is the `cl100kCount` parameter of `Tokenizer.EstimateTokens`. `estimate_file_tokens` and `count_tokens` read files and are left out.
- Cache.TokenCache.constructor: does not model the error returned when the configuration directory cannot be found. A cache file that cannot be read or parsed is the `None` input.
- The cursor walk: `find_or_create_blueprint_node` returns a mutable reference into the nested child vectors. The model returns the rebuilt level by value, so the aliasing of that reference is not modelled.
- The reactive cells: `update_folder_selection_states_recursive` writes folder states into cells. The model returns the updated forest instead. It therefore does not model the source skipping the write when a state is unchanged, a difference no reader of the states can see.
- Path rendering (`to_string_lossy`) assumes the canonical spelling, with components joined by `/`. Non-UTF-8 names and redundant separators are not modelled.
- Integer widths are unbounded: `usize` ids and counts, `u64` sizes and times. The footer's `usize` sum cannot overflow in the model.
- FileTreeBuild.SortByPathCorrect: proves the sorted copy ordered and a permutation, but not stability. `SortByPath` is a stable insertion sort by construction; that fact is not stated, and it is what fixes which record names a repeated path.
- FileTreeBuild.BuildTreeIds: states that the ids are exactly 0..N-1. It does not state the order in which nodes receive them, beyond the counter in the walk.
- FsUtils.CommonParentProperties: the maximality half is stated only when the first path has the shape `Path::components` produces (`ValidPath`).
- Settings.Settings.GetRecentWorkspaces: returns the field as it stands and carries no contract of its own.
- The rendering, menus, clipboard and event wiring of the UI components are left out.
- FileTreeToggle.SelectedPaths.OnCheckboxInput: takes the already parsed `is_checked` flag. Parsing `event.value()` as a `bool`, and treating a value that does not parse as unchecked (src/components/file_tree.rs:425-428), is part of the event wiring and is not modelled.
- `format_size` and the progress percentage use floating point and are left out.
- `workspace_event_handler.rs` is a logging stub and is not part of this model.
