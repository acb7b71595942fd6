/** The steps of src/merge.rs written the way the program performs them:
    commands issued one by one on the command port, `?` on each, the
    exclusion set updated inside the loop. Each method leaves the port in the
    state, and returns the result, that the corresponding function of `Merge`
    describes. */
module Runner {
  import opened Port
  import opened Segments
  import opened Order
  import opened Manifest
  import opened Tree
  import opened Env
  import opened Merge

  method PrepareRequestedBranch(w: World, repo: string, branch: string) returns (r: Result<string>)
    modifies w
    ensures (w.Snapshot(), r) == Merge.PrepareRequestedBranch(w.oracle, old(w.Snapshot()), repo, branch)
  {
    var checkedOut :- w.Run(Checkout(repo, branch));
    return Ok(branch);
  }

  method PrepareManifestBranch(w: World, repo: string) returns (r: Result<string>)
    modifies w
    ensures (w.Snapshot(), r) == Merge.PrepareManifestBranch(w.oracle, old(w.Snapshot()), repo)
  {
    var output :- w.Run(ListRemoteBranches(repo));
    var caps := Captures(output.stdout);
    if caps.Some? {
      var target := Classify(caps.value);
      if target.Branch? {
        var checkedOut :- w.Run(Checkout(repo, target.name));
        return Ok(target.name);
      } else {
        var res := w.Run(CheckoutNew(repo, TmpJoinBranch, target.name));
        return Ok(TmpJoinBranch);
      }
    }
    return Err(Failure(ManifestMissing));
  }

  method PrepareBranch(w: World, st: Strategy, repo: string) returns (r: Result<string>)
    modifies w
    ensures (w.Snapshot(), r) == Merge.PrepareBranch(w.oracle, old(w.Snapshot()), st, repo)
  {
    match st
    case Requested(b) =>
      r := PrepareRequestedBranch(w, repo, b);
    case FromManifest =>
      r := PrepareManifestBranch(w, repo);
  }

  /** The names to move: list the joined repository, drop the excluded names,
      sort the rest. */
  method SelectFiles(w: World, exclude: set<string>) returns (files: seq<string>)
    ensures files == Selected(w.tree, exclude)
  {
    var listing := w.ListDir();
    files := Unexcluded(listing, exclude);
    files := Sort(files, StrLe);
    SortDistinctIsSortedNames(Unexcluded(listing, exclude), TopLevel(w.tree) - exclude);
  }

  /** The relocation commands, each followed by `?`. */
  method RunRelocation(w: World, tp: string, name: string, files: seq<string>) returns (r: Result<()>)
    modifies w
    ensures (w.Snapshot(), r) == ExecAll(w.oracle, old(w.Snapshot()), RelocationCmds(tp, name, files))
  {
    var stage := Mv(tp, files, TmpTargetPath + "/");
    var commit := Commit(tp, "Move " + name + " repo contents");
    var rename := Mv(tp, [TmpTargetPath], name);
    ghost var tail := (if '/' in name then [CreateDirAll(tp, ParentName(name))] else []) + [rename, Amend(tp)];
    assert RelocationCmds(tp, name, files) == [stage] + ([commit] + tail);
    ExecAllCons(w.oracle, w.Snapshot(), stage, [commit] + tail);
    var staged :- w.Run(stage);
    ExecAllCons(w.oracle, w.Snapshot(), commit, tail);
    var committed :- w.Run(commit);
    if '/' in name {
      ExecAllCons(w.oracle, w.Snapshot(), CreateDirAll(tp, ParentName(name)), [rename, Amend(tp)]);
      var parent :- w.Run(CreateDirAll(tp, ParentName(name)));
    }
    ExecAllCons(w.oracle, w.Snapshot(), rename, [Amend(tp)]);
    var renamed :- w.Run(rename);
    ExecAllCons(w.oracle, w.Snapshot(), Amend(tp), []);
    var amended :- w.Run(Amend(tp));
    return Ok(());
  }

  method MoveRepoContents(w: World, exclude: set<string>, name: string, tp: string) returns (r: Result<()>)
    modifies w
    ensures (w.Snapshot(), r) == Merge.MoveRepoContents(w.oracle, old(w.Snapshot()), exclude, name, tp)
  {
    var made := w.Run(CreateDirAll(tp, TmpTargetPath));
    if made.Err? {
      return Err(Context(TmpCreateFailed, made.error));
    }
    var files := SelectFiles(w, exclude);
    r := RunRelocation(w, tp, name, files);
  }

  method MergeOne(w: World, st: Strategy, exclude: set<string>, root: Path, repo: Path, tp: string) returns (r: Result<string>)
    modifies w
    ensures (w.Snapshot(), r) == Merge.MergeOne(w.oracle, old(w.Snapshot()), st, exclude, root, repo, tp)
  {
    var name :- StripPrefix(root, repo);
    var branch :- PrepareBranch(w, st, Join(repo));
    var add, fetch, merge := RemoteAdd(tp, name, Join(repo)), Fetch(tp, name), Cmd.Merge(tp, name + "/" + branch);
    assert FetchCmds(tp, name, Join(repo), branch) == [add] + ([fetch] + ([merge] + []));
    ExecAllCons(w.oracle, w.Snapshot(), add, [fetch] + ([merge] + []));
    var added :- w.Run(add);
    ExecAllCons(w.oracle, w.Snapshot(), fetch, [merge] + []);
    var fetched :- w.Run(fetch);
    ExecAllCons(w.oracle, w.Snapshot(), merge, []);
    var merged :- w.Run(merge);
    var moved :- MoveRepoContents(w, exclude, name, tp);
    return Ok(name);
  }

  /** The run with `done` moved on by `i`: the loop's bookkeeping. */
  function Shift(run: Run, i: nat): Run {
    run.(done := run.done + i)
  }

  /** `merge_repos`: the strategy is fixed before the loop; after each merged
      repository the first segment of its alias joins the exclusion set. */
  method MergeRepos(w: World, repos: seq<Path>, tp: string, root: Path, branch: Option<string>) returns (r: Result<()>)
    modifies w
    ensures var run := Merge.MergeRepos(w.oracle, old(w.Snapshot()), branch, root, repos, tp);
            w.Snapshot() == run.state && r == run.result
  {
    var exclude := InitialExclude;
    var st := StrategyFor(branch);
    ghost var total := Merge.MergeRepos(w.oracle, w.Snapshot(), branch, root, repos, tp);
    var i := 0;
    while i < |repos|
      invariant 0 <= i <= |repos|
      invariant Shift(MergeFrom(w.oracle, w.Snapshot(), st, exclude, root, repos[i..], tp), i) == total
    {
      assert repos[i..][1..] == repos[i + 1..];
      var name :- MergeOne(w, st, exclude, root, repos[i], tp);
      exclude := exclude + {FirstSegment(name)};
      i := i + 1;
    }
    assert repos[i..] == [];
    return Ok(());
  }

  method CreateJoinedRepo(w: World, tp: string) returns (r: Result<()>)
    modifies w
    ensures (w.Snapshot(), r) == Merge.CreateJoinedRepo(w.oracle, old(w.Snapshot()), tp)
  {
    assert [CreateDir(tp), GitInit(tp)] == [CreateDir(tp)] + ([GitInit(tp)] + []);
    ExecAllCons(w.oracle, w.Snapshot(), CreateDir(tp), [GitInit(tp)] + []);
    var made := w.Run(CreateDir(tp));
    ExecAllCons(w.oracle, w.Snapshot(), GitInit(tp), []);
    if made.Err? {
      return Err(made.error);
    }
    var initialized :- w.Run(GitInit(tp));
    return Ok(());
  }

  method MergeRepositories(w: World, root: string, suffix: string, branch: Option<string>, g: Glob) returns (r: Result<()>)
    modifies w
    ensures (w.Snapshot(), r) == Merge.MergeRepositories(w.oracle, old(w.Snapshot()), root, suffix, branch, g)
  {
    var tp := root + suffix;
    var repos := Merge.FindRepos(g);
    if repos.Err? {
      return Err(Context(FindFailed, repos.error));
    }
    var created := CreateJoinedRepo(w, tp);
    if created.Err? {
      return Err(Context(CreateFailed, created.error));
    }
    var merged := MergeRepos(w, repos.value, tp, Components(root), branch);
    if merged.Err? {
      return Err(Context(MergeFailed, merged.error));
    }
    return Ok(());
  }
}
