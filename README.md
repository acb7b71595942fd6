# trenza merge orchestration in Dafny

trenza joins several git repositories into one. Every repository below a root
directory goes into a new repository, `<root><suffix>`, under a subdirectory
named by its path relative to the root (its *alias*). This project models the
orchestration in `src/merge.rs` and the `to_anyhow` adapter in `src/lib.rs`.
Each step is modelled by the commands it issues, the order it issues them in,
where it stops, what it returns and what it does to the joined repository's
working tree.

The model works against a command port:

- **Port** (`port.dfy`): `Result`/`Error` in the style of anyhow, with `?` as
  `:-`. `ToAnyhow`. The commands the program issues (`Cmd`), including the
  exact `git` argument vectors.
- **Env** (`env.dfy`): the outside world is an `Oracle`. Given the trace of
  commands issued so far, it answers what a process returns, what a
  filesystem call returns, and which paths a `git merge` brings in.
  - `Exec` issues one command and `ExecAll` chains commands with `?`.
  - `World` is the live port. Its `Run` and `ListDir` (`fs::read_dir`, in an
    order the filesystem chooses) are proved against `Exec` and the tree.
- **Tree** (`tree.dfy`): the joined repository's working tree, as a set of
  component paths. It defines the effects of `git mv` (rename or move into),
  `fs::create_dir_all` and the two-phase relocation.
  - `Placed` describes the tree after one repository has been moved under
    its alias.
- **Segments**, **Order**, **Manifest**: splitting and joining on `/`; the
  orders used by `str::cmp` and `Path::cmp`, plus a sort; the leftmost-first
  scan for `m\/\S* -> (\S*)`.
- **Merge** (`merge.dfy`): each function of `src/merge.rs` as a function of
  the oracle and the state before the call.
- **Runner** (`runner.dfy`): the same steps written imperatively on a
  `World`: one command at a time, `?` after each, and the exclusion set
  updated inside the loop. Each method is proved to leave the port in the
  state, and to return the result, that the matching `Merge` function gives.
- **MergeProps** (`merge_props.dfy`): the properties, as lemmas about the
  `Merge` functions.

Three behaviours of the code worth noting:

- `find_repos` sorts `PathBuf`s. That order is component by component, not
  the order of the printed path strings (`Order.ComponentOrderIsNotTextOrder`).
- The list of discovered repositories is not deduplicated
  (`MergeProps.FindReposKeepsDuplicates`).
- An unreadable glob entry is dropped, not reported. Only an invalid pattern
  is an error.

## Model

| member | source | states |
|---|---|---|
| Port.ToAnyhow | src/lib.rs:9-21 | Ok exactly when the process was spawned and its status is a success, and then the value is the process output unchanged; a spawn failure is an error with a context over the I/O error |
| Port.SpawnFailureIsError | src/lib.rs:11 | a spawn failure is reported as "failed to execute process" wrapping the I/O error |
| Port.FailureCarriesStderr | src/lib.rs:13-18 | an unsuccessful status is an error whose message is "failed to run command: " followed by stderr, so it ends with the captured stderr |
| Port.StatusAloneDecides | src/lib.rs:13 | two outputs with the same status are judged alike whatever they printed |
| Port.SuccessIsIdentity | src/lib.rs:20 | a successful output is returned unchanged |
| Port.FromIo | src/merge.rs:57 | a filesystem call fails exactly when the I/O call fails, with that I/O error |
| Env.World.Run | src/merge.rs:59-64 | issuing a command appends it to the trace, yields the oracle's outcome (through `to_anyhow` for git commands, and as the I/O result for filesystem calls), and changes the tree only on success |
| Env.World.ListDir | src/merge.rs:146-147 | lists every top-level name of the working tree exactly once, nothing else |
| Env.Outcome | src/lib.rs:9-21 | a git command's outcome is `to_anyhow` of what the process returned; a filesystem call succeeds exactly when the I/O call does, prints nothing, and fails with that I/O error |
| Env.Exec | src/merge.rs:59-64 | one command is recorded whether or not it succeeds, its result is its outcome, and only a success changes the tree |
| Env.ExecAll | src/merge.rs:167-205 | a `?` chain issues a prefix of its commands, all of them when it succeeds |
| Env.MvEffect | src/merge.rs:167-199 | `Env.Effect` of a successful `git mv` is `Tree.GitMv` of that move |
| Env.QuietEffect | src/merge.rs:178-182 | `Env.Effect` of a commit, an amend, a remote add, a fetch, a branch listing or a checkout leaves the joined tree as it was |
| Env.ExecAllStops | src/merge.rs:96-118 | a chain of `?`-propagated commands succeeds up to the last command issued; on failure the last command issued is the one that failed, and its error is the result |
| Env.ExecAllAppend | src/merge.rs:96-118 | two chains run back to back: the second starts only when the first succeeded |
| Env.ExecAllOk | src/merge.rs:96-118 | a chain that succeeded applied every command's effect, in order |
| Env.ExecAllErr | src/merge.rs:96-118 | a chain that failed leaves the tree as its successful prefix left it |
| Merge.FindRepos | src/merge.rs:39-53 | an invalid pattern is the only error, carrying the pattern message; otherwise the result is sorted by path order and holds exactly the parents of the readable matches, each as often as it was matched |
| Merge.Parents | src/merge.rs:42-48 | at most one parent per glob item |
| Merge.ParentOf | src/merge.rs:45-46 | one glob item yields at most one parent |
| Merge.PrepareRequestedBranch | src/merge.rs:259-267 | issues exactly `git checkout <branch>` in the source repository; Ok exactly when that succeeds, and then the result is the requested branch; on failure the error is the checkout's own error |
| Merge.PrepareManifestBranch | src/merge.rs:210-257 | issues `git branch -r` first, then at most one more command |
| Merge.PrepareBranch | src/merge.rs:75-87 | the chosen strategy issues at least one command and only appends to the trace |
| Merge.FetchCmds | src/merge.rs:96-116 | three git commands in the joined repository, with argument vectors `remote add <alias> <path>`, `fetch <alias>` and `merge <alias>/<branch> --allow-unrelated-histories` |
| Merge.RelocationCmds | src/merge.rs:166-205 | four commands, five when the alias holds `/`, all in the joined repository: argument vectors `mv <names> TMP/`, `commit -m "Move <alias> repo contents"`, the parent's `create_dir_all` when the alias holds `/`, `mv TMP <alias>` and `commit --amend --no-edit` |
| Merge.MoveRepoContents | src/merge.rs:140-144 | the staging directory's `create_dir_all` is issued first; when it fails nothing else is issued, the tree is unchanged and the error is wrapped in "failed to create temporary repo target path" |
| Merge.Unexcluded | src/merge.rs:146-158 | keeps exactly the listed names outside the exclusion set, and introduces no duplicates |
| Merge.Selected | src/merge.rs:146-159 | the names moved are sorted in `str` order, distinct, and exactly the top-level names outside the exclusion set |
| Merge.StripPrefix | src/merge.rs:90 | succeeds exactly when the root is a component prefix of the repository path, and then the alias splits on `/` into the remaining components; otherwise fails with the strip-prefix error |
| Merge.MergeOne | src/merge.rs:89-121 | a repository outside the root fails with the strip-prefix error before any command is issued; a merged repository yields its stripped alias |
| Merge.MergeFrom | src/merge.rs:89-127 | the exclusion set never shrinks, and the loop succeeds exactly when every repository was merged |
| Merge.MergeRepos | src/merge.rs:73-129 | the exclusion set always holds `.git` and the staging name, and the loop succeeds exactly when every repository was merged |
| Merge.CreateJoinedRepo | src/merge.rs:56-65 | a failing `create_dir` is the result, with nothing else issued and the tree unchanged; on success exactly `create_dir` and `git init` were issued |
| Merge.MergeRepositories | src/merge.rs:22-37 | an invalid pattern issues nothing and is reported as "failed to find repositories" over the pattern message; every error carries a context |
| Manifest.RunEnd | src/merge.rs:16 | the greedy `\S*`: the longest run of non-whitespace from a position |
| Manifest.FindFrom | src/merge.rs:220 | the first position, at or after a start, where the pattern matches, or none |
| Manifest.MatchesAtIffPattern | src/merge.rs:16 | `Manifest.MatchesAt`: the scan matches at a position exactly when `m/`, non-whitespace and ` -> ` can be found there, and the stretch is then the greedy one |
| Manifest.CaptureIsGreedy | src/merge.rs:16 | `Manifest.CaptureAt`: the capture is the whole run of non-whitespace after the arrow |
| Manifest.CapturesIsLeftmost | src/merge.rs:220-221 | `Manifest.Captures`: the capture comes from the leftmost match, and there is none exactly when the pattern matches nowhere |
| Manifest.Classify | src/merge.rs:223-229 | a capture holding `/` names a branch, its last segment (slash-free, the capture being its parent, `/` and it); a capture without `/` names a tag, itself |
| Manifest.PointerLineCaptured | src/merge.rs:220-221 | a listing starting with a pointer line `m/<name> -> <target>`, after any whitespace indentation such as the two spaces `git branch -r` prints, yields that target |
| Manifest.NoPointerNoCapture | src/merge.rs:220 | a listing with no `m/` has no capture |
| Manifest.BranchTarget | src/merge.rs:225-229 | a target `<remote path>/<name>` denotes the branch `<name>` |
| Manifest.ReleaseLineExample | src/merge.rs:220-221 | the indented listing line `  m/main -> origin/release-1.0` captures `origin/release-1.0` |
| Manifest.ReleaseBranchExample | src/merge.rs:223-229 | `origin/release-1.0` denotes the branch `release-1.0` |
| Manifest.TagExample | src/merge.rs:239-252 | the indented listing line `  m/main -> v1.2` captures `v1.2`, which denotes a tag |
| Order.PathLeTotalOrder | src/merge.rs:51 | the path order is a total order |
| Order.StrLeTotalOrder | src/merge.rs:159 | the `str` order is a total order |
| Order.ComponentOrderIsNotTextOrder | src/merge.rs:51 | `a/b` sorts before `a-b` as a path, although `a-b` sorts before `a/b` as text |
| Order.SortSorted | src/merge.rs:51 | sorting yields a sorted permutation of the input |
| Order.SortedIsUnique | src/merge.rs:50-51 | under a total order a sorted list is determined by its elements |
| Order.SortIgnoresInputOrder | src/merge.rs:50-51 | the sorted result does not depend on the order the elements came in |
| Order.SortedNamesSpec | src/merge.rs:159 | the sorted names of a set are sorted, distinct and exactly the set |
| Order.SortDistinctIsSortedNames | src/merge.rs:146-159 | sorting any duplicate-free listing of the names gives the same list |
| Segments.SplitJoin | src/merge.rs:121 | splitting a printed alias on `/` gives back its components |
| Segments.AliasPieces | src/merge.rs:121 | the first segment, last segment and parent of a printed alias are its first component, last component and all but the last |
| Segments.SlashIffSeveralPieces | src/merge.rs:187 | a text holds `/` exactly when splitting it gives more than one piece |
| Segments.LastSegmentIsSuffix | src/merge.rs:225-229 | the last segment is slash-free, and a text with a slash is its parent, `/` and its last segment |
| Tree.StageAll | src/merge.rs:143-176 | `Tree.Staged`: after the staging directory is created, the first `git mv` leaves the excluded entries in place and nests every other entry under staging |
| Tree.UnstageAll | src/merge.rs:187-199 | after creating the alias's parents, renaming staging to the alias gives `Placed` |
| Tree.PlacedHasNoStaging | src/merge.rs:195-199 | in `Tree.Placed` the staging name is gone from the top level |
| Tree.PlacedKeepsExcluded | src/merge.rs:151-153 | excluded entries stay, and nothing new appears under an excluded name other than the alias's head |
| Tree.PlacedHoldsMoved | src/merge.rs:137-139 | every entry that was not excluded is below the alias at its old path, even one named like the alias |
| Tree.PlacedTopLevel | src/merge.rs:118-121 | the top level afterwards is the excluded names that were there plus the alias's head |
| Tree.SelfCollisionExample | src/merge.rs:137-139 | a repository `foo` holding a directory `foo` ends up with it at `foo/foo` |
| MergeProps.FindReposFindsParents | src/merge.rs:39-53 | a path is returned exactly when it is the parent of a readable match |
| MergeProps.FindReposReturnsRepositories | src/merge.rs:40-46 | when every match ends in `.git`, every path returned is a directory whose `.git` was matched, never the `.git` path itself |
| MergeProps.FindReposIgnoresGlobOrder | src/merge.rs:50-51 | the repositories found, and the merge order, do not depend on the order the glob yields its matches |
| MergeProps.FindReposKeepsDuplicates | src/merge.rs:42-51 | a repository matched twice is returned twice |
| MergeProps.ParentsPermutation | src/merge.rs:42-48 | reordering the glob items reorders the parents |
| MergeProps.ManifestBranch | src/merge.rs:220-237 | a manifest pointing at a branch: its last segment is checked out and returned, a failing checkout is the result, the tree is untouched |
| MergeProps.ManifestTag | src/merge.rs:239-252 | a manifest pointing at a tag: `git checkout -b tmp_join_branch <tag>` is issued and `tmp_join_branch` is returned whether or not it succeeded |
| MergeProps.ManifestMissingFails | src/merge.rs:220-256 | a listing without a pointer fails with "failed to find manifest branch" after the listing alone |
| MergeProps.ManifestListingFails | src/merge.rs:212-216 | a failing `git branch -r` is the result and nothing else is issued |
| MergeProps.RequestedStrategy | src/merge.rs:259-267 | with an explicit branch, resolution is one checkout of that branch, returning it on success |
| MergeProps.StrategyForBranch | src/merge.rs:75-87 | `Merge.StrategyFor`: the manifest strategy is used exactly when no branch is given |
| MergeProps.ResolutionStaysInSource | src/merge.rs:210-267 | resolution issues only listings and checkouts in the source repository and leaves the joined tree alone |
| MergeProps.ManifestStaysInSource | src/merge.rs:210-257 | the manifest strategy issues only listings and checkouts in the source repository |
| MergeProps.ResolutionFailureStops | src/merge.rs:93 | a failed resolution ends the iteration with its error; no remote is added and nothing is fetched, merged or moved |
| MergeProps.MergeFromIgnoresRest | src/merge.rs:89-118 | once a repository fails, the run is the same whatever repositories follow |
| MergeProps.RelocationPlacesContents | src/merge.rs:132-208 | when relocation succeeds on a tree without the staging name, the tree afterwards is `Placed`: excluded names untouched, staging gone, everything else under the alias at its old path |
| MergeProps.SelfCollisionRelocation | src/merge.rs:137-139 | relocating a tree `.git`, `foo`, `foo/x`, `README` under `foo` gives `.git`, `foo`, `foo/foo`, `foo/foo/x`, `foo/README` |
| MergeProps.StageStep | src/merge.rs:143-176 | `Tree.MakeDirs` of the staging directory and then `Tree.GitMv` of the selected names into `TMP/` give the staged tree |
| MergeProps.UnstageStep | src/merge.rs:187-199 | `Tree.MakeDirs` of the alias's parents and then `Tree.GitMv` of staging onto the alias give `Tree.Placed` |
| MergeProps.RelocationShape | src/merge.rs:167-205 | the relocation commands: move the selected names into `TMP/`, commit "Move <alias> repo contents", create the alias's parent exactly when the alias holds `/`, rename staging to the alias, amend |
| MergeProps.AliasShape | src/merge.rs:187-192 | a printed alias never ends in `/`, holds `/` exactly when it has a parent, and its parent's components are all but the last |
| MergeProps.StagingComponents | src/merge.rs:140-173 | the staging directory is one top-level component, with or without the trailing slash |
| MergeProps.MoveIsPlan | src/merge.rs:143-144 | relocation issues its plan with `?`, and a failure to create the staging directory is wrapped in "failed to create temporary repo target path" |
| MergeProps.RelocationTrace | src/merge.rs:132-208 | relocation issues a prefix of its plan, all of it on success; on failure the last command issued is the one that failed, and a failure of the first carries the staging context |
| MergeProps.MergeOneIsPlan | src/merge.rs:96-118 | after resolution one iteration issues remote add, fetch, merge and then the relocation plan with `?`; its error is the failing command's error, wrapped in "failed to create temporary repo target path" when that command is the staging `create_dir_all` |
| MergeProps.MergeOneOrder | src/merge.rs:89-118 | per repository, after resolution the commands follow that plan in order, all of it on success; on failure the last command issued is the one that failed, and the error is that command's error, wrapped in the staging context when it is the fourth |
| MergeProps.MergeFromExclusion | src/merge.rs:118-121 | after the loop the exclusion set is the starting set plus the first segment of the alias of every merged repository, and only those; every merged repository lies under the root |
| MergeProps.MergeReposExclusion | src/merge.rs:73-121 | the exclusion set starts as `.git` and the staging name and grows only by the heads of merged aliases; the loop succeeds exactly when every repository was merged |
| MergeProps.CreateJoinedRepoSteps | src/merge.rs:56-65 | `create_dir` and then `git init`, stopping at the first failure with that error; on success the tree holds only `.git` |
| MergeProps.MergeRepositoriesStages | src/merge.rs:22-37 | success exactly when discovery, creation and every merge succeed; a discovery failure issues nothing and is wrapped in "failed to find repositories"; a creation failure is wrapped in "failed to create target repository"; every failure carries the context of its stage |
| MergeProps.MergeRepositoriesMergeFails | src/merge.rs:35-36 | a failing merge loop is reported as "failed to merge repositories" over the loop's error |
| Runner.PrepareRequestedBranch | src/merge.rs:259-267 | the port ends in the state, and the result is the one, that `Merge.PrepareRequestedBranch` gives |
| Runner.PrepareManifestBranch | src/merge.rs:210-257 | the port ends in the state, and the result is the one, that `Merge.PrepareManifestBranch` gives |
| Runner.PrepareBranch | src/merge.rs:75-87 | dispatches on the strategy fixed before the loop, as `Merge.PrepareBranch` |
| Runner.SelectFiles | src/merge.rs:146-159 | the names it yields are `Merge.Selected` of the current tree, whatever order the listing came in |
| Runner.RunRelocation | src/merge.rs:167-205 | the port ends as `ExecAll` of the relocation commands leaves it |
| Runner.MoveRepoContents | src/merge.rs:132-208 | the port ends in the state, and the result is the one, that `Merge.MoveRepoContents` gives |
| Runner.MergeOne | src/merge.rs:89-121 | one loop iteration, as `Merge.MergeOne` |
| Runner.MergeRepos | src/merge.rs:67-130 | the loop leaves the port in the state, and returns the result, of `Merge.MergeRepos` |
| Runner.CreateJoinedRepo | src/merge.rs:56-65 | as `Merge.CreateJoinedRepo` |
| Runner.MergeRepositories | src/merge.rs:22-37 | as `Merge.MergeRepositories` |

## Left out

- Running processes and touching the filesystem. Every outcome is a parameter (the `Oracle`), so git's own behaviour (history, merging, conflicts) is not modelled. Only which paths a merge brings in is taken from the oracle.
- A failing command is assumed to leave the joined repository's working tree as it was. A partly applied `git mv` is not modelled.
- Glob traversal is not modelled. `find_repos` takes the iterator's items as input: matched paths or unreadable entries.
- `fs::read_dir` returning an error, and the panic of its `unwrap`, are not modelled. Neither are unreadable directory entries, which the source skips.
- Paths and names are modelled as Unicode strings. The lossy UTF-8 conversions and the panic of `to_str().unwrap()` on a non-UTF-8 path are not modelled.
- `strip_prefix` is modelled on paths already split into normal components. `.`, `..`, repeated and trailing separators, and absolute versus relative roots are not modelled.
- The regex engine is not modelled. The one fixed pattern is implemented as a scan, and the compiled-pattern cache is not modelled.
- The "failed to identify manifest branch" context (src/merge.rs:229) and the "failed to find parent of repo target path" context (src/merge.rs:191) cannot fire. `split('/').last()` always yields a piece, and a path with a slash always has a parent, so both branches are absent.
- Logging (`info!`, `debug!`, `warn!`), the command-line front end and process exit codes.
- Concurrency, and changes other processes make to the filesystem between two commands.
- MergeProps.RelocationPlacesContents: not stated for a tree that already holds the staging name, for an alias whose first component is the staging name, and when the alias's first component is excluded and the alias itself is already a path of the tree. The source does not handle those cases either.
- Merge.PrepareManifestBranch: its own contract only bounds the trace. What it returns in each case is stated by MergeProps.ManifestBranch, ManifestTag, ManifestMissingFails and ManifestListingFails.
