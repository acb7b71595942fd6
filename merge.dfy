/** The merge orchestration of src/merge.rs, as functions of the oracle and the
    state before the call: which commands each step issues, in which order,
    where it stops, and what it returns. */
module Merge {
  import opened Port
  import opened Segments
  import opened Order
  import opened Manifest
  import opened Tree
  import opened Env

  /** The staging directory every repository passes through. */
  const TmpTargetPath := "z_tmp_unique_target_directory_@@@"
  /** The branch a manifest tag is checked out to. */
  const TmpJoinBranch := "tmp_join_branch"
  /** Names that are never moved: the joined repository's `.git` and the staging directory. */
  const InitialExclude: set<string> := {".git", TmpTargetPath}

  const ManifestMissing := "failed to find manifest branch"
  const StripPrefixFailed := "prefix not found"
  const TmpCreateFailed := "failed to create temporary repo target path"
  const FindFailed := "failed to find repositories"
  const CreateFailed := "failed to create target repository"
  const MergeFailed := "failed to merge repositories"

  // ---------------------------------------------------------------------------
  // Discovery

  /** One item of the glob iterator: a matched path, or an entry that could not be read. */
  datatype GlobEntry = Found(path: Path) | Unreadable(cause: string)

  /** What `glob(pattern)` yields: an invalid pattern, or the iterator's items. */
  datatype Glob = PatternError(message: string) | Matches(entries: seq<GlobEntry>)

  /** The `filter_map` of `find_repos`: the parent of every readable match, in
      iteration order; unreadable entries and paths without a parent drop out. */
  function Parents(entries: seq<GlobEntry>): (r: seq<Path>)
    ensures |r| <= |entries|
    decreases |entries|
  {
    if entries == [] then [] else ParentOf(entries[0]) + Parents(entries[1..])
  }

  /** `res.ok().and_then(|path| path.parent())`: nothing for an unreadable entry
      or for a path without a parent. */
  function ParentOf(e: GlobEntry): (r: seq<Path>)
    ensures |r| <= 1
  {
    if e.Found? && e.path != [] then [e.path[..|e.path| - 1]] else []
  }

  /** `find_repos`: a bad pattern is an error; otherwise the parents of the
      matches, sorted the way `Vec<PathBuf>::sort` orders paths. */
  function FindRepos(g: Glob): (r: Result<seq<Path>>)
    ensures r.Err? <==> g.PatternError?
    ensures r.Err? ==> r.error == Failure(g.message)
    ensures r.Ok? ==> SortedBy(r.value, PathLe) && multiset(r.value) == multiset(Parents(g.entries))
  {
    match g
    case PatternError(m) => Err(Failure(m))
    case Matches(entries) =>
      PathLeTotalOrder();
      SortSorted(Parents(entries), PathLe);
      Ok(Sort(Parents(entries), PathLe))
  }

  // ---------------------------------------------------------------------------
  // Branch resolution

  /** How the branch to merge is chosen, fixed once per run from the `branch` argument. */
  datatype Strategy = Requested(branch: string) | FromManifest

  function StrategyFor(branch: Option<string>): Strategy {
    match branch
    case Some(b) => Requested(b)
    case None => FromManifest
  }

  /** `prepare_requested_branch`: check the branch out in the source repository
      and merge it under the name it was given. */
  function PrepareRequestedBranch(o: Oracle, s: State, repo: string, branch: string): (r: (State, Result<string>))
    ensures r.0.trace == s.trace + [Checkout(repo, branch)]
    ensures r.1.Ok? <==> Outcome(o, s.trace, Checkout(repo, branch)).Ok?
    ensures r.1.Ok? ==> r.1.value == branch
    ensures r.1.Err? ==> r.1.error == Outcome(o, s.trace, Checkout(repo, branch)).error
  {
    var (s1, res) := Exec(o, s, Checkout(repo, branch));
    if res.Err? then (s1, Err(res.error)) else (s1, Ok(branch))
  }

  /** `prepare_manifest_branch`: list the remote branches, find the manifest
      pointer, and either check out the branch it names or put the tag it names
      on `tmp_join_branch`, whose failure is only warned about. */
  function PrepareManifestBranch(o: Oracle, s: State, repo: string): (r: (State, Result<string>))
    ensures |s.trace| < |r.0.trace| <= |s.trace| + 2 && r.0.trace[..|s.trace| + 1] == s.trace + [ListRemoteBranches(repo)]
  {
    var (s1, listed) := Exec(o, s, ListRemoteBranches(repo));
    if listed.Err? then (s1, Err(listed.error))
    else
      match Captures(listed.value.stdout)
      case None => (s1, Err(Failure(ManifestMissing)))
      case Some(capture) =>
        match Classify(capture)
        case Branch(name) =>
          var (s2, res) := Exec(o, s1, Checkout(repo, name));
          if res.Err? then (s2, Err(res.error)) else (s2, Ok(name))
        case Tag(tag) =>
          var (s2, _) := Exec(o, s1, CheckoutNew(repo, TmpJoinBranch, tag));
          (s2, Ok(TmpJoinBranch))
  }

  /** The `prepare_branch` closure the loop calls. */
  function PrepareBranch(o: Oracle, s: State, st: Strategy, repo: string): (r: (State, Result<string>))
    ensures |s.trace| < |r.0.trace| && r.0.trace[..|s.trace|] == s.trace
  {
    match st
    case Requested(b) => PrepareRequestedBranch(o, s, repo, b)
    case FromManifest => PrepareManifestBranch(o, s, repo)
  }

  // ---------------------------------------------------------------------------
  // Relocation

  /** The commands of `move_repo_contents` after the staging directory exists:
      move the selected names into staging, commit, create the alias's parent
      when the alias has one, rename staging to the alias, amend. */
  function RelocationCmds(tp: string, name: string, files: seq<string>): (r: seq<Cmd>)
    ensures |r| == (if '/' in name then 5 else 4)
    ensures !r[0].IsFs() && r[0].GitArgs() == ["mv"] + files + [TmpTargetPath + "/"]
    ensures !r[1].IsFs() && r[1].GitArgs() == ["commit", "-m", "Move " + name + " repo contents"]
    ensures '/' in name ==> r[2].IsFs() && r[2].FsPath() == tp + "/" + ParentName(name)
    ensures !r[|r| - 2].IsFs() && r[|r| - 2].GitArgs() == ["mv", TmpTargetPath, name]
    ensures !r[|r| - 1].IsFs() && r[|r| - 1].GitArgs() == ["commit", "--amend", "--no-edit"]
    ensures forall k :: 0 <= k < |r| ==> (!r[k].IsFs() && r[k].dir == tp) || (r[k].CreateDirAll? && r[k].base == tp)
  {
    [Mv(tp, files, TmpTargetPath + "/"), Commit(tp, "Move " + name + " repo contents")] +
    (if '/' in name then [CreateDirAll(tp, ParentName(name))] else []) +
    [Mv(tp, [TmpTargetPath], name), Amend(tp)]
  }

  /** The `filter_map` of `move_repo_contents`: the listed names outside the
      exclusion set, in listing order. */
  function Unexcluded(names: seq<string>, exclude: set<string>): (r: seq<string>)
    ensures forall x :: x in r <==> x in names && x !in exclude
    ensures Distinct(names) ==> Distinct(r)
    decreases |names|
  {
    if names == [] then []
    else
      var rest := Unexcluded(names[1..], exclude);
      if names[0] in exclude then rest else [names[0]] + rest
  }

  /** The names `move_repo_contents` moves: every top-level name outside the
      exclusion set, in `str` order. */
  ghost function Selected(t: Tree, exclude: set<string>): (r: seq<string>)
    ensures SortedBy(r, StrLe) && Distinct(r)
    ensures forall x :: x in r <==> x in TopLevel(t) && x !in exclude
  {
    SortedNamesSpec(TopLevel(t) - exclude);
    SortedNames(TopLevel(t) - exclude)
  }

  /** `move_repo_contents`: create the staging directory (an error here gets a
      context), then run the relocation commands, stopping at the first failure. */
  ghost function MoveRepoContents(o: Oracle, s: State, exclude: set<string>, name: string, tp: string): (r: (State, Result<()>))
    ensures |s.trace| < |r.0.trace| && r.0.trace[..|s.trace| + 1] == s.trace + [CreateDirAll(tp, TmpTargetPath)]
    ensures Outcome(o, s.trace, CreateDirAll(tp, TmpTargetPath)).Err? ==>
              r == (State(s.trace + [CreateDirAll(tp, TmpTargetPath)], s.tree),
                    Err(Context(TmpCreateFailed, Outcome(o, s.trace, CreateDirAll(tp, TmpTargetPath)).error)))
  {
    var (s1, made) := Exec(o, s, CreateDirAll(tp, TmpTargetPath));
    if made.Err? then (s1, Err(Context(TmpCreateFailed, made.error)))
    else ExecAll(o, s1, RelocationCmds(tp, name, Selected(s1.tree, exclude)))
  }

  // ---------------------------------------------------------------------------
  // The loop

  /** `repo_path.strip_prefix(root)`, printed: the alias of a repository. */
  function StripPrefix(root: Path, repo: Path): (r: Result<string>)
    ensures r.Ok? <==> IsPrefix(root, repo)
    ensures r.Ok? && |repo| > |root| && SlashFree(repo[|root|..]) ==> Split(r.value) == repo[|root|..]
    ensures r.Err? ==> r.error == Failure(StripPrefixFailed)
  {
    if IsPrefix(root, repo) then
      var rest := repo[|root|..];
      if |rest| >= 1 && SlashFree(rest) then SplitJoin(rest); Ok(Join(rest)) else Ok(Join(rest))
    else Err(Failure(StripPrefixFailed))
  }

  /** Adding the source as a remote, fetching it and merging the resolved branch. */
  function FetchCmds(tp: string, name: string, url: string, branch: string): (r: seq<Cmd>)
    ensures |r| == 3 && forall k :: 0 <= k < 3 ==> !r[k].IsFs() && r[k].dir == tp
    ensures r[0].GitArgs() == ["remote", "add", name, url]
    ensures r[1].GitArgs() == ["fetch", name]
    ensures r[2].GitArgs() == ["merge", name + "/" + branch, "--allow-unrelated-histories"]
  {
    [RemoteAdd(tp, name, url), Fetch(tp, name), Merge(tp, name + "/" + branch)]
  }

  /** One iteration of `merge_repos`; yields the alias on success. */
  ghost function MergeOne(o: Oracle, s: State, st: Strategy, exclude: set<string>, root: Path, repo: Path, tp: string): (r: (State, Result<string>))
    ensures StripPrefix(root, repo).Err? ==> r == (s, Err(Failure(StripPrefixFailed)))
    ensures r.1.Ok? ==> r.1 == StripPrefix(root, repo)
  {
    match StripPrefix(root, repo)
    case Err(e) => (s, Err(e))
    case Ok(name) =>
      var (s1, resolved) := PrepareBranch(o, s, st, Join(repo));
      if resolved.Err? then (s1, Err(resolved.error))
      else
        var (s2, fetched) := ExecAll(o, s1, FetchCmds(tp, name, Join(repo), resolved.value));
        if fetched.Err? then (s2, Err(fetched.error))
        else
          var (s3, moved) := MoveRepoContents(o, s2, exclude, name, tp);
          if moved.Err? then (s3, Err(moved.error)) else (s3, Ok(name))
  }

  /** Where the loop ended: the state, the result, the exclusion set and the
      number of repositories merged. */
  datatype Run = Run(state: State, result: Result<()>, exclude: set<string>, done: nat)

  /** The loop of `merge_repos` from a given exclusion set on. */
  ghost function MergeFrom(o: Oracle, s: State, st: Strategy, exclude: set<string>, root: Path, repos: seq<Path>, tp: string): (r: Run)
    ensures exclude <= r.exclude
    ensures r.done <= |repos|
    ensures r.result.Ok? <==> r.done == |repos|
    decreases |repos|
  {
    if repos == [] then Run(s, Ok(()), exclude, 0)
    else
      var (s1, res) := MergeOne(o, s, st, exclude, root, repos[0], tp);
      if res.Err? then Run(s1, Err(res.error), exclude, 0)
      else
        var rest := MergeFrom(o, s1, st, exclude + {FirstSegment(res.value)}, root, repos[1..], tp);
        rest.(done := rest.done + 1)
  }

  /** `merge_repos`. */
  ghost function MergeRepos(o: Oracle, s: State, branch: Option<string>, root: Path, repos: seq<Path>, tp: string): (r: Run)
    ensures InitialExclude <= r.exclude
    ensures r.result.Ok? <==> r.done == |repos|
  {
    MergeFrom(o, s, StrategyFor(branch), InitialExclude, root, repos, tp)
  }

  // ---------------------------------------------------------------------------
  // The entry points

  /** `create_joined_repo`: create the directory and run `git init` in it. */
  function CreateJoinedRepo(o: Oracle, s: State, tp: string): (r: (State, Result<()>))
    ensures Outcome(o, s.trace, CreateDir(tp)).Err? ==>
              r == (State(s.trace + [CreateDir(tp)], s.tree), Err(Outcome(o, s.trace, CreateDir(tp)).error))
    ensures r.1.Ok? ==> r.0.trace == s.trace + [CreateDir(tp), GitInit(tp)]
  {
    ExecAll(o, s, [CreateDir(tp), GitInit(tp)])
  }

  /** `merge_repositories`: the target is the root with the suffix appended;
      each of the three stages wraps its error in its own context. */
  ghost function MergeRepositories(o: Oracle, s: State, root: string, suffix: string, branch: Option<string>, g: Glob): (r: (State, Result<()>))
    ensures g.PatternError? ==> r == (s, Err(Context(FindFailed, Failure(g.message))))
    ensures r.1.Err? ==> r.1.error.Context?
  {
    var tp := root + suffix;
    match FindRepos(g)
    case Err(e) => (s, Err(Context(FindFailed, e)))
    case Ok(repos) =>
      var (s1, created) := CreateJoinedRepo(o, s, tp);
      if created.Err? then (s1, Err(Context(CreateFailed, created.error)))
      else
        var run := MergeRepos(o, s1, branch, Components(root), repos, tp);
        if run.result.Err? then (run.state, Err(Context(MergeFailed, run.result.error)))
        else (run.state, Ok(()))
  }
}
