/** What the merge orchestration guarantees, proved about the functions of `Merge`. */
module MergeProps {
  import opened Port
  import opened Segments
  import opened Order
  import opened Manifest
  import opened Tree
  import opened Env
  import opened Merge

  // ---------------------------------------------------------------------------
  // Discovery

  /** The parents are collected piecewise. */
  lemma {:induction false} ParentsAppend(a: seq<GlobEntry>, b: seq<GlobEntry>)
    ensures Parents(a + b) == Parents(a) + Parents(b)
    decreases |a|
  {
    if a != [] {
      assert (a + b)[0] == a[0];
      assert (a + b)[1..] == a[1..] + b;
      ParentsAppend(a[1..], b);
      assert Parents(a + b) == ParentOf(a[0]) + Parents(a[1..] + b);
      assert Parents(a) == ParentOf(a[0]) + Parents(a[1..]);
    } else {
      assert a + b == b;
    }
  }

  /** Taking one item out of a sequence takes one copy out of its multiset. */
  lemma RemoveAtCount<T>(b: seq<T>, j: nat)
    requires j < |b|
    ensures multiset(b[..j] + b[j + 1..]) == multiset(b) - multiset{b[j]}
  {
    var b1, b2 := b[..j], b[j + 1..];
    assert b == b1 + [b[j]] + b2;
    calc {
      multiset(b);
      multiset(b1 + [b[j]] + b2);
      multiset(b1) + multiset([b[j]]) + multiset(b2);
      multiset(b1 + b2) + multiset{b[j]};
    }
  }

  /** A sequence is what comes before an index, the item there, and what follows. */
  lemma SplitAt<T>(b: seq<T>, j: nat)
    requires j < |b|
    ensures b == b[..j] + ([b[j]] + b[j + 1..])
  {
  }

  /** A nonempty sequence is its head and its tail. */
  lemma HeadTail<T>(a: seq<T>)
    requires a != []
    ensures a == [a[0]] + a[1..] && multiset(a[1..]) == multiset(a) - multiset{a[0]}
  {
    assert a == [a[0]] + a[1..];
  }

  /** Taking one item out of the glob's items takes its parent out of the parents. */
  lemma RemoveAt(b: seq<GlobEntry>, j: nat)
    requires j < |b|
    ensures multiset(Parents(b)) == multiset(ParentOf(b[j])) + multiset(Parents(b[..j] + b[j + 1..]))
  {
    var b1, b2 := b[..j], b[j + 1..];
    SplitAt(b, j);
    ParentsAppend(b1, b2);
    ParentsAppend(b1, [b[j]] + b2);
    assert ([b[j]] + b2)[1..] == b2;
    assert Parents([b[j]] + b2) == ParentOf(b[j]) + Parents(b2);
  }

  /** Reordering the glob's items does not change which parents are found. */
  lemma {:induction false} ParentsPermutation(a: seq<GlobEntry>, b: seq<GlobEntry>)
    requires multiset(a) == multiset(b)
    ensures multiset(Parents(a)) == multiset(Parents(b))
    decreases |a|
  {
    if a == [] {
      assert b == [];
    } else {
      assert a[0] in multiset(b);
      var j :| 0 <= j < |b| && b[j] == a[0];
      RemoveAt(b, j);
      RemoveAtCount(b, j);
      HeadTail(a);
      ParentsPermutation(a[1..], b[..j] + b[j + 1..]);
      assert Parents(a) == ParentOf(a[0]) + Parents(a[1..]);
    }
  }

  /** A repository is found exactly when it is the parent of a readable match. */
  lemma {:induction false} InParents(entries: seq<GlobEntry>, q: Path)
    ensures q in Parents(entries) <==>
              exists i :: 0 <= i < |entries| && entries[i].Found? && entries[i].path != [] &&
                          q == entries[i].path[..|entries[i].path| - 1]
    decreases |entries|
  {
    if entries != [] {
      InParents(entries[1..], q);
      if q in Parents(entries[1..]) {
        var i :| 0 <= i < |entries[1..]| && entries[1..][i].Found? && entries[1..][i].path != [] &&
                 q == entries[1..][i].path[..|entries[1..][i].path| - 1];
        assert entries[i + 1] == entries[1..][i];
      }
      if exists i :: 0 <= i < |entries| && entries[i].Found? && entries[i].path != [] &&
                     q == entries[i].path[..|entries[i].path| - 1] {
        var i :| 0 <= i < |entries| && entries[i].Found? && entries[i].path != [] &&
                 q == entries[i].path[..|entries[i].path| - 1];
        if i > 0 {
          assert entries[1..][i - 1] == entries[i];
        }
      }
    }
  }

  /** `find_repos` yields, in sorted order, the parent of every readable match,
      as often as it was matched, and nothing else. */
  lemma FindReposFindsParents(g: Glob, q: Path)
    requires g.Matches?
    ensures FindRepos(g).Ok? && SortedBy(FindRepos(g).value, PathLe)
    ensures q in FindRepos(g).value <==>
              exists i :: 0 <= i < |g.entries| && g.entries[i].Found? && g.entries[i].path != [] &&
                          q == g.entries[i].path[..|g.entries[i].path| - 1]
  {
    InParents(g.entries, q);
    assert q in FindRepos(g).value <==> q in multiset(FindRepos(g).value);
  }

  /** Every match of `<root>/**/.git` ends in `.git`; what is returned is the
      directory holding it, never the `.git` path itself. */
  lemma FindReposReturnsRepositories(g: Glob, q: Path)
    requires g.Matches?
    requires forall i :: 0 <= i < |g.entries| && g.entries[i].Found? ==>
               g.entries[i].path != [] && g.entries[i].path[|g.entries[i].path| - 1] == ".git"
    requires q in FindRepos(g).value
    ensures Found(q + [".git"]) in g.entries
  {
    FindReposFindsParents(g, q);
    var i :| 0 <= i < |g.entries| && g.entries[i].Found? && g.entries[i].path != [] &&
             q == g.entries[i].path[..|g.entries[i].path| - 1];
    var p := g.entries[i].path;
    LastAndRest(p);
    assert g.entries[i] == Found(q + [".git"]);
  }

  /** A nonempty sequence is all but its last item, then that item. */
  lemma LastAndRest<T>(p: seq<T>)
    requires p != []
    ensures p == p[..|p| - 1] + [p[|p| - 1]]
  {
  }

  /** The merge order does not depend on the order in which the glob delivers
      its items: the sort makes it deterministic. */
  lemma FindReposIgnoresGlobOrder(a: seq<GlobEntry>, b: seq<GlobEntry>)
    requires multiset(a) == multiset(b)
    ensures FindRepos(Matches(a)) == FindRepos(Matches(b))
  {
    ParentsPermutation(a, b);
    PathLeTotalOrder();
    SortIgnoresInputOrder(Parents(a), Parents(b), PathLe);
  }

  /** Nothing is deduplicated: a repository matched twice is merged twice. */
  lemma FindReposKeepsDuplicates(p: Path)
    requires p != []
    ensures FindRepos(Matches([Found(p), Found(p)])) == Ok([p[..|p| - 1], p[..|p| - 1]])
  {
    var q := p[..|p| - 1];
    assert Parents([Found(p), Found(p)]) == [q, q] by {
      assert [Found(p), Found(p)][1..] == [Found(p)];
      assert [Found(p)][1..] == [];
    }
    PathLeTotalOrder();
    SortSorted([q, q], PathLe);
    SortedIsUnique(Sort([q, q], PathLe), [q, q], PathLe);
  }

  // ---------------------------------------------------------------------------
  // Branch resolution

  /** The output of `git branch -r` in `repo`, when that command succeeds. */
  function Listing(o: Oracle, s: State, repo: string): Result<Output> {
    Outcome(o, s.trace, ListRemoteBranches(repo))
  }

  /** Manifest pointing at a branch: its last segment is checked out and
      returned, and a failing checkout is the result. */
  lemma ManifestBranch(o: Oracle, s: State, repo: string, capture: string)
    requires Listing(o, s, repo).Ok? && Captures(Listing(o, s, repo).value.stdout) == Some(capture)
    requires '/' in capture
    ensures var name := LastSegment(capture);
            var r := PrepareManifestBranch(o, s, repo);
            var after := s.trace + [ListRemoteBranches(repo)];
            '/' !in name && capture == ParentName(capture) + "/" + name &&
            r.0.trace == after + [Checkout(repo, name)] &&
            r.0.tree == s.tree &&
            (r.1.Ok? <==> Outcome(o, after, Checkout(repo, name)).Ok?) &&
            (r.1.Ok? ==> r.1.value == name) &&
            (r.1.Err? ==> r.1 == Outcome(o, after, Checkout(repo, name)).PropagateFailure())
  {
    LastSegmentIsSuffix(capture);
  }

  /** Manifest pointing at a tag: it is checked out to `tmp_join_branch`, and
      that name is returned whether or not the checkout succeeded. */
  lemma ManifestTag(o: Oracle, s: State, repo: string, capture: string)
    requires Listing(o, s, repo).Ok? && Captures(Listing(o, s, repo).value.stdout) == Some(capture)
    requires '/' !in capture
    ensures var r := PrepareManifestBranch(o, s, repo);
            r.0.trace == s.trace + [ListRemoteBranches(repo), CheckoutNew(repo, TmpJoinBranch, capture)] &&
            r.0.tree == s.tree &&
            r.1 == Ok("tmp_join_branch")
  {
  }

  /** No manifest pointer in the listing: resolution fails with
      "failed to find manifest branch" after the listing alone. */
  lemma ManifestMissingFails(o: Oracle, s: State, repo: string)
    requires Listing(o, s, repo).Ok? && Captures(Listing(o, s, repo).value.stdout) == None
    ensures PrepareManifestBranch(o, s, repo) ==
              (State(s.trace + [ListRemoteBranches(repo)], s.tree), Err(Failure("failed to find manifest branch")))
  {
  }

  /** A failing `git branch -r` is the result, and nothing else is issued. */
  lemma ManifestListingFails(o: Oracle, s: State, repo: string)
    requires Listing(o, s, repo).Err?
    ensures PrepareManifestBranch(o, s, repo) ==
              (State(s.trace + [ListRemoteBranches(repo)], s.tree), Err(Listing(o, s, repo).error))
  {
  }

  /** The strategy follows the `branch` argument: a requested branch is checked
      out and returned unchanged. */
  lemma RequestedStrategy(o: Oracle, s: State, repo: string, branch: string)
    ensures var r := PrepareBranch(o, s, StrategyFor(Some(branch)), repo);
            r.0 == State(s.trace + [Checkout(repo, branch)], s.tree) &&
            (r.1.Ok? <==> Outcome(o, s.trace, Checkout(repo, branch)).Ok?) &&
            (r.1.Ok? ==> r.1.value == branch)
  {
  }

  /** A command of branch resolution: it runs in the source repository and is
      a listing or a checkout. */
  predicate ResolutionCmd(c: Cmd, repo: string) {
    (c.ListRemoteBranches? || c.Checkout? || c.CheckoutNew?) && c.dir == repo
  }

  /** Resolution only issues commands in the source repository, and leaves the
      joined repository's tree alone. */
  lemma ResolutionStaysInSource(o: Oracle, s: State, st: Strategy, repo: string)
    ensures var r := PrepareBranch(o, s, st, repo);
            r.0.tree == s.tree &&
            forall k :: |s.trace| <= k < |r.0.trace| ==> ResolutionCmd(r.0.trace[k], repo)
  {
    match st
    case Requested(b) =>
      QuietEffect(o, s, Checkout(repo, b));
    case FromManifest =>
      ManifestStaysInSource(o, s, repo);
  }

  /** The manifest strategy issues a listing and at most one checkout, all in
      the source repository. */
  lemma ManifestStaysInSource(o: Oracle, s: State, repo: string)
    ensures var r := PrepareManifestBranch(o, s, repo);
            r.0.tree == s.tree &&
            forall k :: |s.trace| <= k < |r.0.trace| ==> ResolutionCmd(r.0.trace[k], repo)
  {
    var (s1, listed) := Exec(o, s, ListRemoteBranches(repo));
    QuietEffect(o, s, ListRemoteBranches(repo));
    if listed.Ok? && Captures(listed.value.stdout).Some? {
      var target := Classify(Captures(listed.value.stdout).value);
      QuietEffect(o, s1, Checkout(repo, target.name));
      QuietEffect(o, s1, CheckoutNew(repo, TmpJoinBranch, target.name));
    }
  }

  // ---------------------------------------------------------------------------
  // The loop

  /** A failed resolution ends the iteration with its error: no remote is
      added, nothing is fetched or merged, nothing is moved. */
  lemma ResolutionFailureStops(o: Oracle, s: State, st: Strategy, exclude: set<string>,
                               root: Path, repo: Path, tp: string)
    requires StripPrefix(root, repo).Ok?
    requires PrepareBranch(o, s, st, Join(repo)).1.Err?
    ensures var (s1, res) := PrepareBranch(o, s, st, Join(repo));
            var r := MergeOne(o, s, st, exclude, root, repo, tp);
            r == (s1, Err(res.error)) &&
            forall k :: |s.trace| <= k < |r.0.trace| ==>
              !(r.0.trace[k].RemoteAdd? || r.0.trace[k].Fetch? || r.0.trace[k].Merge? || r.0.trace[k].Mv?)
  {
    ResolutionStaysInSource(o, s, st, Join(repo));
  }

  /** The head and tail of a concatenation with a nonempty left part. */
  lemma ConcatTail<T>(a: seq<T>, b: seq<T>)
    requires a != []
    ensures (a + b)[0] == a[0] && (a + b)[1..] == a[1..] + b
  {
  }

  /** Once a repository fails, the ones after it are never looked at: the run is
      the same whatever follows. */
  lemma {:induction false} MergeFromIgnoresRest(o: Oracle, s: State, st: Strategy, exclude: set<string>,
                                                root: Path, repos: seq<Path>, more: seq<Path>, tp: string)
    requires MergeFrom(o, s, st, exclude, root, repos, tp).result.Err?
    ensures MergeFrom(o, s, st, exclude, root, repos + more, tp) == MergeFrom(o, s, st, exclude, root, repos, tp)
    decreases |repos|
  {
    var all := repos + more;
    ConcatTail(repos, more);
    var one := MergeOne(o, s, st, exclude, root, repos[0], tp);
    if one.1.Ok? {
      var e1 := exclude + {FirstSegment(one.1.value)};
      MergeFromIgnoresRest(o, one.0, st, e1, root, repos[1..], more, tp);
      assert MergeFrom(o, s, st, exclude, root, all, tp) == MergeFrom(o, one.0, st, e1, root, all[1..], tp).(done := MergeFrom(o, one.0, st, e1, root, all[1..], tp).done + 1);
    }
  }

  // ---------------------------------------------------------------------------
  // Relocation

  /** The staging directory is a single top-level component, with or without
      the trailing slash the first `git mv` writes. */
  lemma StagingComponents()
    ensures Components(TmpTargetPath) == [TmpTargetPath]
    ensures Components(TmpTargetPath + "/") == [TmpTargetPath]
    ensures TmpTargetPath + "/" != [] && (TmpTargetPath + "/")[|TmpTargetPath + "/"| - 1] == '/'
  {
    StagingSlashFree();
    SingleComponent(TmpTargetPath);
  }

  /** A nonempty name without a slash is one component, also with a slash appended. */
  lemma SingleComponent(x: string)
    requires '/' !in x && x != ""
    ensures Components(x) == [x] && Components(x + "/") == [x]
    ensures (x + "/")[|x + "/"| - 1] == '/'
  {
    SplitSlashFree(x);
    SplitSlashFree("");
    assert x + "/" == x + "/" + "";
    SplitAtSlash(x, "");
    assert NonEmpty([x, ""]) == [x] by {
      assert [x, ""][1..] == [""];
      assert [""][1..] == [];
    }
    assert NonEmpty([x]) == [x] by {
      assert [x][1..] == [];
    }
  }

  /** The staging name is a single path component. */
  lemma StagingSlashFree()
    ensures '/' !in TmpTargetPath && TmpTargetPath != ""
  {
  }

  /** An alias printed from the components of a relative path is those
      components again, never ends with a slash, and holds a slash exactly
      when it has a parent, whose components are all but the last. */
  lemma AliasShape(parts: seq<string>)
    requires |parts| >= 1 && SlashFree(parts)
    requires forall k :: 0 <= k < |parts| ==> parts[k] != ""
    ensures var name := Join(parts);
            Components(name) == parts &&
            name != [] && name[|name| - 1] != '/' &&
            ('/' in name <==> |parts| > 1) &&
            ('/' in name ==> Components(ParentName(name)) == parts[..|parts| - 1])
  {
    var name := Join(parts);
    var n := |parts|;
    ComponentsOfJoin(parts);
    AliasPieces(parts);
    AliasEnd(parts);
    if '/' in name {
      assert parts[..n - 1] != [] && SlashFree(parts[..n - 1]);
      ComponentsOfJoin(parts[..n - 1]);
    }
  }

  /** Such an alias is nonempty and does not end with a slash. */
  lemma AliasEnd(parts: seq<string>)
    requires |parts| >= 1 && SlashFree(parts)
    requires forall k :: 0 <= k < |parts| ==> parts[k] != ""
    ensures Join(parts) != [] && Join(parts)[|Join(parts)| - 1] != '/'
  {
    var name := Join(parts);
    var last := parts[|parts| - 1];
    AliasPieces(parts);
    LastSegmentIsSuffix(name);
    assert last != [] && last[|last| - 1] != '/';
    if '/' in name {
      var before := ParentName(name) + "/";
      assert name == before + last;
      assert name[|name| - 1] == last[|last| - 1];
    }
  }

  /** Phase one on the working tree: after the staging directory is created,
      the first `git mv` nests every selected name beneath it. */
  lemma StageStep(t0: Tree, exclude: set<string>)
    requires WellFormed(t0)
    requires TmpTargetPath in exclude
    requires forall p :: p in t0 ==> p[0] != TmpTargetPath
    ensures var t1 := MakeDirs(t0, [TmpTargetPath]);
            GitMv(t1, Selected(t1, exclude), TmpTargetPath + "/") == Staged(t0, exclude, TmpTargetPath)
  {
    var t1 := MakeDirs(t0, [TmpTargetPath]);
    StagingComponents();
    var files := Selected(t1, exclude);
    assert (set x | x in files) == TopLevel(t1) - exclude;
    StageAll(t0, exclude, TmpTargetPath);
  }

  /** Phase two on the working tree: after the parents are created, the second
      `git mv` renames the staging directory to the alias. */
  lemma UnstageStep(t0: Tree, exclude: set<string>, parts: seq<string>)
    requires WellFormed(t0)
    requires forall p :: p in t0 ==> p[0] != TmpTargetPath
    requires |parts| >= 1 && SlashFree(parts) && forall k :: 0 <= k < |parts| ==> parts[k] != ""
    requires parts[0] != TmpTargetPath
    requires parts[0] in exclude ==> parts !in t0
    ensures var t3 := MakeDirs(Staged(t0, exclude, TmpTargetPath), parts[..|parts| - 1]);
            GitMv(t3, [TmpTargetPath], Join(parts)) == Placed(t0, exclude, parts)
  {
    var t3 := MakeDirs(Staged(t0, exclude, TmpTargetPath), parts[..|parts| - 1]);
    UnstageRelocates(t0, exclude, parts);
    AliasEnd(parts);
    RenameCase(t3, TmpTargetPath, Join(parts));
  }

  /** The relocation `UnstageStep` performs, stated on the components. */
  lemma UnstageRelocates(t0: Tree, exclude: set<string>, parts: seq<string>)
    requires WellFormed(t0)
    requires forall p :: p in t0 ==> p[0] != TmpTargetPath
    requires |parts| >= 1 && SlashFree(parts) && forall k :: 0 <= k < |parts| ==> parts[k] != ""
    requires parts[0] != TmpTargetPath
    requires parts[0] in exclude ==> parts !in t0
    ensures var t3 := MakeDirs(Staged(t0, exclude, TmpTargetPath), parts[..|parts| - 1]);
            Components(Join(parts)) !in t3 &&
            Relocate(t3, Components(TmpTargetPath), Components(Join(parts))) == Placed(t0, exclude, parts)
  {
    StagingComponents();
    ComponentsOfJoin(parts);
    UnstageAll(t0, exclude, TmpTargetPath, parts);
  }

  /** `git mv` of one source onto a fresh name not written as a directory renames. */
  lemma RenameCase(t: Tree, source: string, dest: string)
    requires Components(dest) !in t && dest != [] && dest[|dest| - 1] != '/'
    ensures GitMv(t, [source], dest) == Relocate(t, Components(source), Components(dest))
  {
  }

  /** The commands after the commit: create the parent when there is one,
      rename the staging directory to the alias, amend. */
  lemma FinishEffect(o: Oracle, s3: State, exclude: set<string>, parts: seq<string>, tp: string, t0: Tree)
    requires WellFormed(t0)
    requires forall p :: p in t0 ==> p[0] != TmpTargetPath
    requires |parts| >= 1 && SlashFree(parts) && forall k :: 0 <= k < |parts| ==> parts[k] != ""
    requires parts[0] != TmpTargetPath
    requires parts[0] in exclude ==> parts !in t0
    requires s3.tree == Staged(t0, exclude, TmpTargetPath)
    ensures var name := Join(parts);
            var mk := if '/' in name then [CreateDirAll(tp, ParentName(name))] else [];
            ApplyAll(o, s3, mk + [Mv(tp, [TmpTargetPath], name), Amend(tp)]).tree == Placed(t0, exclude, parts)
  {
    var name := Join(parts);
    var n := |parts|;
    AliasShape(parts);
    var rename := Mv(tp, [TmpTargetPath], name);
    var mk := if '/' in name then [CreateDirAll(tp, ParentName(name))] else [];
    ApplyAllAppend(o, s3, mk, [rename, Amend(tp)]);
    var s4 := ApplyAll(o, s3, mk);
    assert s4.tree == MakeDirs(s3.tree, parts[..n - 1]) by {
      if '/' in name {
        ApplyAllCons(o, s3, CreateDirAll(tp, ParentName(name)), []);
      } else {
        assert parts[..n - 1] == [];
      }
    }
    ApplyAllCons(o, s4, rename, [Amend(tp)]);
    UnstageStep(t0, exclude, parts);
    var t3 := MakeDirs(Staged(t0, exclude, TmpTargetPath), parts[..n - 1]);
    assert s4.tree == t3;
    MvEffect(o, s4, tp, [TmpTargetPath], name);
    var s5 := State(s4.trace + [rename], GitMv(t3, [TmpTargetPath], name));
    ApplyAllCons(o, s5, Amend(tp), []);
    QuietEffect(o, s5, Amend(tp));
  }

  /** All relocation commands, applied to the tree with the staging directory. */
  lemma RelocationEffect(o: Oracle, s1: State, exclude: set<string>, parts: seq<string>, tp: string, t0: Tree)
    requires WellFormed(t0)
    requires forall p :: p in t0 ==> p[0] != TmpTargetPath
    requires TmpTargetPath in exclude
    requires |parts| >= 1 && SlashFree(parts) && forall k :: 0 <= k < |parts| ==> parts[k] != ""
    requires parts[0] != TmpTargetPath
    requires parts[0] in exclude ==> parts !in t0
    requires s1.tree == MakeDirs(t0, [TmpTargetPath])
    ensures ApplyAll(o, s1, RelocationCmds(tp, Join(parts), Selected(s1.tree, exclude))).tree == Placed(t0, exclude, parts)
  {
    var name := Join(parts);
    var files := Selected(s1.tree, exclude);
    var stage, commit := Mv(tp, files, TmpTargetPath + "/"), Commit(tp, "Move " + name + " repo contents");
    var mk := if '/' in name then [CreateDirAll(tp, ParentName(name))] else [];
    var tail := mk + [Mv(tp, [TmpTargetPath], name), Amend(tp)];
    assert RelocationCmds(tp, name, files) == [stage] + ([commit] + tail);
    ApplyAllCons(o, s1, stage, [commit] + tail);
    MvEffect(o, s1, tp, files, TmpTargetPath + "/");
    StageStep(t0, exclude);
    var s2 := State(s1.trace + [stage], Staged(t0, exclude, TmpTargetPath));
    ApplyAllCons(o, s2, commit, tail);
    QuietEffect(o, s2, commit);
    FinishEffect(o, State(s2.trace + [commit], s2.tree), exclude, parts, tp, t0);
  }

  /** Creating the staging directory adds it at the top of the tree. */
  lemma StagingEffect(o: Oracle, s: State, tp: string)
    ensures var (s1, made) := Exec(o, s, CreateDirAll(tp, TmpTargetPath));
            made.Ok? ==> s1.tree == MakeDirs(s.tree, [TmpTargetPath])
  {
    StagingComponents();
  }

  /** The relocation theorem: when `move_repo_contents` succeeds on a tree
      without the staging name, for an alias that is not already an excluded
      path, the tree afterwards is `Placed`: excluded names untouched, the
      staging name gone, everything else under the alias at its old path. */
  lemma RelocationPlacesContents(o: Oracle, s: State, exclude: set<string>, parts: seq<string>, tp: string)
    requires WellFormed(s.tree)
    requires forall p :: p in s.tree ==> p[0] != TmpTargetPath
    requires TmpTargetPath in exclude
    requires |parts| >= 1 && SlashFree(parts) && forall k :: 0 <= k < |parts| ==> parts[k] != ""
    requires parts[0] != TmpTargetPath
    requires parts[0] in exclude ==> parts !in s.tree
    requires MoveRepoContents(o, s, exclude, Join(parts), tp).1.Ok?
    ensures MoveRepoContents(o, s, exclude, Join(parts), tp).0.tree == Placed(s.tree, exclude, parts)
  {
    var (s1, made) := Exec(o, s, CreateDirAll(tp, TmpTargetPath));
    StagingEffect(o, s, tp);
    ExecAllOk(o, s1, RelocationCmds(tp, Join(parts), Selected(s1.tree, exclude)));
    RelocationEffect(o, s1, exclude, parts, tp, s.tree);
  }

  /** The self-collision case: a source repository with a top-level `foo`
      merged under the alias `foo` ends up with its `foo` at `foo/foo`, its
      other names under `foo`, and `.git` untouched. */
  lemma SelfCollisionRelocation(o: Oracle, s: State, tp: string)
    requires s.tree == {[".git"], ["foo"], ["foo", "x"], ["README"]}
    requires MoveRepoContents(o, s, InitialExclude, "foo", tp).1.Ok?
    ensures MoveRepoContents(o, s, InitialExclude, "foo", tp).0.tree ==
              {[".git"], ["foo"], ["foo", "foo"], ["foo", "foo", "x"], ["foo", "README"]}
  {
    var t0 := s.tree;
    SelfCollisionFits(t0);
    RelocationPlacesContents(o, s, InitialExclude, ["foo"], tp);
    SelfCollisionExample();
  }

  /** The self-collision tree meets the relocation theorem's conditions. */
  lemma SelfCollisionFits(t0: Tree)
    requires t0 == {[".git"], ["foo"], ["foo", "x"], ["README"]}
    ensures WellFormed(t0) && (forall p :: p in t0 ==> p[0] != TmpTargetPath)
    ensures SlashFree(["foo"]) && Join(["foo"]) == "foo" && "foo" != TmpTargetPath && "foo" !in InitialExclude
  {
    assert '/' !in "foo";
    assert TmpTargetPath != "foo" && TmpTargetPath != ".git" && TmpTargetPath != "README";
  }

  /** The shape of the relocation commands: the names go into staging, the
      commit names the alias, the parent directory is created exactly when the
      alias holds a slash (and it is the directory holding the alias), then
      staging is renamed to the alias and the commit amended. */
  lemma RelocationShape(tp: string, name: string, files: seq<string>)
    ensures var cmds := RelocationCmds(tp, name, files);
            (|cmds| == 5 <==> '/' in name) && (|cmds| == 4 <==> '/' !in name) &&
            cmds[0] == Mv(tp, files, TmpTargetPath + "/") &&
            cmds[1] == Commit(tp, "Move " + name + " repo contents") &&
            ((exists k :: 0 <= k < |cmds| && cmds[k].CreateDirAll?) <==> '/' in name) &&
            ('/' in name ==> cmds[2] == CreateDirAll(tp, ParentName(name)) &&
                             cmds[2].FsPath() + "/" + LastSegment(name) == tp + "/" + name) &&
            cmds[|cmds| - 2] == Mv(tp, [TmpTargetPath], name) && cmds[|cmds| - 1] == Amend(tp)
  {
    var cmds := RelocationCmds(tp, name, files);
    LastSegmentIsSuffix(name);
    if '/' in name {
      assert cmds[2].CreateDirAll?;
    } else {
      assert forall k :: 0 <= k < |cmds| ==> !cmds[k].CreateDirAll?;
    }
  }

  /** Every command `move_repo_contents` may issue, in order: the staging
      directory, then the relocation commands for the names selected from the
      tree that has it. */
  ghost function RelocationPlan(o: Oracle, s: State, exclude: set<string>, name: string, tp: string): seq<Cmd> {
    var s1 := Exec(o, s, CreateDirAll(tp, TmpTargetPath)).0;
    [CreateDirAll(tp, TmpTargetPath)] + RelocationCmds(tp, name, Selected(s1.tree, exclude))
  }

  /** `move_repo_contents` behaves as issuing its plan with `?`, except that a
      failure to create the staging directory gets a context. */
  lemma MoveIsPlan(o: Oracle, s: State, exclude: set<string>, name: string, tp: string)
    ensures var r := MoveRepoContents(o, s, exclude, name, tp);
            var p := ExecAll(o, s, RelocationPlan(o, s, exclude, name, tp));
            r.0 == p.0 && (r.1.Ok? <==> p.1.Ok?) &&
            (r.1.Err? && |r.0.trace| == |s.trace| + 1 ==> r.1.error == Context(TmpCreateFailed, p.1.error)) &&
            (r.1.Err? && |r.0.trace| > |s.trace| + 1 ==> r.1.error == p.1.error)
  {
    var s1 := Exec(o, s, CreateDirAll(tp, TmpTargetPath)).0;
    ExecAllCons(o, s, CreateDirAll(tp, TmpTargetPath), RelocationCmds(tp, name, Selected(s1.tree, exclude)));
  }

  /** A step that behaves as issuing `plan` with `?` issues a prefix of it,
      all of it on success, and on failure the last command it issued is the
      one that failed. */
  lemma FollowsPlan<T>(o: Oracle, s: State, plan: seq<Cmd>, r: (State, Result<T>))
    requires r.0 == ExecAll(o, s, plan).0 && (r.1.Ok? <==> ExecAll(o, s, plan).1.Ok?)
    ensures var n := |r.0.trace| - |s.trace|;
            n <= |plan| && r.0.trace == s.trace + plan[..n] &&
            (r.1.Ok? ==> n == |plan|) &&
            (r.1.Err? ==> n >= 1 && Outcome(o, s.trace + plan[..n - 1], plan[n - 1]) == Err(ExecAll(o, s, plan).1.error))
  {
    ExecAllLast(o, s, plan);
  }

  /** `move_repo_contents` issues a prefix of its plan, all of it on success;
      on failure the last command it issued is the one that failed, and a
      failure of the first carries the staging context. */
  lemma RelocationTrace(o: Oracle, s: State, exclude: set<string>, name: string, tp: string)
    ensures var r := MoveRepoContents(o, s, exclude, name, tp);
            var plan := RelocationPlan(o, s, exclude, name, tp);
            var n := |r.0.trace| - |s.trace|;
            n <= |plan| && r.0.trace == s.trace + plan[..n] &&
            (r.1.Ok? ==> n == |plan|) &&
            (r.1.Err? ==> n >= 1 && Outcome(o, s.trace + plan[..n - 1], plan[n - 1]).Err?) &&
            (r.1.Err? && n == 1 ==> r.1.error == Context(TmpCreateFailed, Outcome(o, s.trace, plan[0]).error))
  {
    var plan := RelocationPlan(o, s, exclude, name, tp);
    MoveIsPlan(o, s, exclude, name, tp);
    FollowsPlan(o, s, plan, MoveRepoContents(o, s, exclude, name, tp));
    assert s.trace + plan[..0] == s.trace;
  }

  /** Every command one iteration may issue once the branch is resolved: remote
      add, fetch and merge, then the relocation plan for the tree the merge
      left. */
  ghost function IterationPlan(o: Oracle, s1: State, exclude: set<string>, name: string, url: string,
                               branch: string, tp: string): seq<Cmd> {
    var fetch := FetchCmds(tp, name, url, branch);
    fetch + RelocationPlan(o, ApplyAll(o, s1, fetch), exclude, name, tp)
  }

  /** `FollowsPlan` for a step whose error is the plan's, except when the
      `k`-th command fails: that one is reported inside the staging context. */
  lemma FollowsPlanWrapped<T>(o: Oracle, s: State, plan: seq<Cmd>, r: (State, Result<T>), k: nat)
    requires r.0 == ExecAll(o, s, plan).0 && (r.1.Ok? <==> ExecAll(o, s, plan).1.Ok?)
    requires r.1.Err? && |r.0.trace| == |s.trace| + k ==> r.1.error == Context(TmpCreateFailed, ExecAll(o, s, plan).1.error)
    requires r.1.Err? && |r.0.trace| != |s.trace| + k ==> r.1.error == ExecAll(o, s, plan).1.error
    ensures var n := |r.0.trace| - |s.trace|;
            n <= |plan| && r.0.trace == s.trace + plan[..n] &&
            (r.1.Ok? ==> n == |plan|) &&
            (r.1.Err? ==> n >= 1 && Outcome(o, s.trace + plan[..n - 1], plan[n - 1]).Err?) &&
            (r.1.Err? && n == k ==> r.1.error == Context(TmpCreateFailed, Outcome(o, s.trace + plan[..k - 1], plan[k - 1]).error)) &&
            (r.1.Err? && n != k ==> r.1.error == Outcome(o, s.trace + plan[..n - 1], plan[n - 1]).error)
  {
    FollowsPlan(o, s, plan, r);
  }

  /** After resolution, one iteration behaves as issuing its plan with `?`. */
  lemma MergeOneIsPlan(o: Oracle, s: State, st: Strategy, exclude: set<string>, root: Path, repo: Path, tp: string)
    requires StripPrefix(root, repo).Ok?
    requires PrepareBranch(o, s, st, Join(repo)).1.Ok?
    ensures var name := StripPrefix(root, repo).value;
            var (s1, resolved) := PrepareBranch(o, s, st, Join(repo));
            var p := ExecAll(o, s1, IterationPlan(o, s1, exclude, name, Join(repo), resolved.value, tp));
            var r := MergeOne(o, s, st, exclude, root, repo, tp);
            r.0 == p.0 && (r.1.Ok? <==> p.1.Ok?) && (r.1.Ok? ==> r.1.value == name) &&
            (r.1.Err? && |r.0.trace| == |s1.trace| + 4 ==> r.1.error == Context(TmpCreateFailed, p.1.error)) &&
            (r.1.Err? && |r.0.trace| != |s1.trace| + 4 ==> r.1.error == p.1.error)
  {
    var name := StripPrefix(root, repo).value;
    var (s1, resolved) := PrepareBranch(o, s, st, Join(repo));
    var fetch := FetchCmds(tp, name, Join(repo), resolved.value);
    var s2 := ApplyAll(o, s1, fetch);
    ExecAllAppend(o, s1, fetch, RelocationPlan(o, s2, exclude, name, tp));
    if ExecAll(o, s1, fetch).1.Ok? {
      ExecAllOk(o, s1, fetch);
      MoveIsPlan(o, s2, exclude, name, tp);
    }
  }

  /** Per repository, after resolution the commands follow the plan in order,
      and the first failure stops the iteration: the failing command is the
      last one issued. */
  lemma MergeOneOrder(o: Oracle, s: State, st: Strategy, exclude: set<string>, root: Path, repo: Path, tp: string)
    requires StripPrefix(root, repo).Ok?
    requires PrepareBranch(o, s, st, Join(repo)).1.Ok?
    ensures var name := StripPrefix(root, repo).value;
            var (s1, resolved) := PrepareBranch(o, s, st, Join(repo));
            var plan := IterationPlan(o, s1, exclude, name, Join(repo), resolved.value, tp);
            var r := MergeOne(o, s, st, exclude, root, repo, tp);
            var n := |r.0.trace| - |s1.trace|;
            n <= |plan| && r.0.trace == s1.trace + plan[..n] &&
            (r.1.Ok? ==> n == |plan| && r.1.value == name) &&
            (r.1.Err? ==> n >= 1 && Outcome(o, s1.trace + plan[..n - 1], plan[n - 1]).Err?) &&
            (r.1.Err? && n == 4 ==> r.1.error == Context(TmpCreateFailed, Outcome(o, s1.trace + plan[..3], plan[3]).error)) &&
            (r.1.Err? && n != 4 ==> r.1.error == Outcome(o, s1.trace + plan[..n - 1], plan[n - 1]).error)
  {
    var name := StripPrefix(root, repo).value;
    var (s1, resolved) := PrepareBranch(o, s, st, Join(repo));
    MergeOneIsPlan(o, s, st, exclude, root, repo, tp);
    FollowsPlanWrapped(o, s1, IterationPlan(o, s1, exclude, name, Join(repo), resolved.value, tp),
                       MergeOne(o, s, st, exclude, root, repo, tp), 4);
  }

  // ---------------------------------------------------------------------------
  // The exclusion set

  /** The first segments of the aliases of `repos`, for those that have one. */
  function AliasHeads(root: Path, repos: seq<Path>): set<string>
    decreases |repos|
  {
    if repos == [] then {}
    else
      (if StripPrefix(root, repos[0]).Ok? then {FirstSegment(StripPrefix(root, repos[0]).value)} else {}) +
      AliasHeads(root, repos[1..])
  }

  /** Collecting the heads of a first repository and then of the rest. */
  lemma AliasHeadsCons(root: Path, repos: seq<Path>, n: nat)
    requires 1 <= n <= |repos|
    ensures StripPrefix(root, repos[0]).Ok? ==>
              AliasHeads(root, repos[..n]) == {FirstSegment(StripPrefix(root, repos[0]).value)} + AliasHeads(root, repos[1..][..n - 1])
  {
    assert repos[..n][0] == repos[0];
    assert repos[..n][1..] == repos[1..][..n - 1];
  }

  /** The loop performs one iteration and, when it succeeds, goes on with
      the alias's head excluded. */
  lemma MergeFromStep(o: Oracle, s: State, st: Strategy, exclude: set<string>, root: Path, repos: seq<Path>, tp: string)
    requires repos != []
    ensures var one := MergeOne(o, s, st, exclude, root, repos[0], tp);
            var r := MergeFrom(o, s, st, exclude, root, repos, tp);
            (one.1.Err? ==> r.done == 0 && r.exclude == exclude) &&
            (one.1.Ok? ==> StripPrefix(root, repos[0]) == one.1) &&
            (one.1.Ok? ==> var rest := MergeFrom(o, one.0, st, exclude + {FirstSegment(one.1.value)}, root, repos[1..], tp);
                           r.done == rest.done + 1 && r.exclude == rest.exclude)
  {
  }

  /** One iteration in front of the rest of the loop: a failed one merges
      nothing, a successful one adds its head to what the rest collects. */
  lemma ExclusionStep(root: Path, repos: seq<Path>, exclude: set<string>, r: Run, alias: Result<string>, rest: Run)
    requires |repos| >= 1 && rest.done <= |repos| - 1
    requires alias.Err? ==> r.done == 0 && r.exclude == exclude
    requires alias.Ok? ==> StripPrefix(root, repos[0]) == alias && r.done == rest.done + 1 && r.exclude == rest.exclude
    requires alias.Ok? ==> rest.exclude == exclude + {FirstSegment(alias.value)} + AliasHeads(root, repos[1..][..rest.done])
    requires alias.Ok? ==> forall k :: 0 <= k < rest.done ==> IsPrefix(root, repos[1..][k])
    ensures r.exclude == exclude + AliasHeads(root, repos[..r.done])
    ensures forall k :: 0 <= k < r.done ==> IsPrefix(root, repos[k])
  {
    if alias.Err? {
      assert repos[..r.done] == [];
    } else {
      AliasHeadsCons(root, repos, rest.done + 1);
      forall k | 1 <= k < rest.done + 1 ensures IsPrefix(root, repos[k]) {
        assert repos[k] == repos[1..][k - 1];
      }
    }
  }

  /** The exclusion set only grows, and exactly by the first segment of the alias
      of every repository merged: after the loop it is the starting set plus
      those heads, and every merged repository lies under the root. */
  lemma {:induction false} MergeFromExclusion(o: Oracle, s: State, st: Strategy, exclude: set<string>,
                                              root: Path, repos: seq<Path>, tp: string)
    ensures var r := MergeFrom(o, s, st, exclude, root, repos, tp);
            r.exclude == exclude + AliasHeads(root, repos[..r.done]) &&
            forall k :: 0 <= k < r.done ==> IsPrefix(root, repos[k])
    decreases |repos|
  {
    var r := MergeFrom(o, s, st, exclude, root, repos, tp);
    if repos == [] {
      assert repos[..r.done] == [];
    } else {
      var one := MergeOne(o, s, st, exclude, root, repos[0], tp);
      var e1 := if one.1.Ok? then exclude + {FirstSegment(one.1.value)} else exclude;
      MergeFromStep(o, s, st, exclude, root, repos, tp);
      if one.1.Ok? {
        MergeFromExclusion(o, one.0, st, e1, root, repos[1..], tp);
      }
      ExclusionStep(root, repos, exclude, r, one.1, MergeFrom(o, one.0, st, e1, root, repos[1..], tp));
    }
  }

  /** `merge_repos` starts from `.git` and the staging directory. */
  lemma MergeReposExclusion(o: Oracle, s: State, branch: Option<string>, root: Path, repos: seq<Path>, tp: string)
    ensures var r := MergeRepos(o, s, branch, root, repos, tp);
            r.exclude == {".git", TmpTargetPath} + AliasHeads(root, repos[..r.done]) &&
            (r.result.Ok? <==> r.done == |repos|)
  {
    MergeFromExclusion(o, s, StrategyFor(branch), InitialExclude, root, repos, tp);
  }

  /** The strategy is fixed by the `branch` argument alone. */
  lemma StrategyForBranch(branch: Option<string>)
    ensures StrategyFor(branch).Requested? <==> branch.Some?
    ensures branch.Some? ==> StrategyFor(branch).branch == branch.value
  {
  }

  // ---------------------------------------------------------------------------
  // The entry points

  /** `create_joined_repo` creates the directory and initialises it, stopping at
      the first failure; on success the working tree holds only `.git`. */
  lemma CreateJoinedRepoSteps(o: Oracle, s: State, tp: string)
    ensures var r := CreateJoinedRepo(o, s, tp);
            var made := Outcome(o, s.trace, CreateDir(tp));
            var init := Outcome(o, s.trace + [CreateDir(tp)], GitInit(tp));
            (made.Err? ==> r == (State(s.trace + [CreateDir(tp)], s.tree), Err(made.error))) &&
            (made.Ok? && init.Err? ==> r == (State(s.trace + [CreateDir(tp), GitInit(tp)], {}), Err(init.error))) &&
            (r.1.Ok? <==> made.Ok? && init.Ok?) &&
            (r.1.Ok? ==> r.0 == State(s.trace + [CreateDir(tp), GitInit(tp)], {[".git"]}))
  {
    var s1 := Exec(o, s, CreateDir(tp)).0;
    ExecAllCons(o, s, CreateDir(tp), [GitInit(tp)]);
    ExecAllCons(o, s1, GitInit(tp), []);
    assert [CreateDir(tp)] + [GitInit(tp)] == [CreateDir(tp), GitInit(tp)];
    assert s1.trace + [GitInit(tp)] == s.trace + [CreateDir(tp), GitInit(tp)];
  }

  /** `merge_repositories` succeeds exactly when discovery, creation and every
      merge succeed; an invalid pattern issues nothing; every failure carries
      the context of the stage it came from. */
  lemma MergeRepositoriesStages(o: Oracle, s: State, root: string, suffix: string, branch: Option<string>, g: Glob)
    ensures var r := MergeRepositories(o, s, root, suffix, branch, g);
            var tp := root + suffix;
            (g.PatternError? ==> r == (s, Err(Context(FindFailed, Failure(g.message))))) &&
            (FindRepos(g).Err? ==> r == (s, Err(Context(FindFailed, FindRepos(g).error)))) &&
            (FindRepos(g).Ok? && CreateJoinedRepo(o, s, tp).1.Err? ==>
               r == (CreateJoinedRepo(o, s, tp).0, Err(Context(CreateFailed, CreateJoinedRepo(o, s, tp).1.error)))) &&
            (r.1.Ok? <==> FindRepos(g).Ok? && CreateJoinedRepo(o, s, tp).1.Ok? &&
                          MergeRepos(o, CreateJoinedRepo(o, s, tp).0, branch, Components(root), FindRepos(g).value, tp).done
                            == |FindRepos(g).value|) &&
            (r.1.Err? ==> r.1.error.Context? && r.1.error.context in {FindFailed, CreateFailed, MergeFailed})
  {
  }

  /** A failing merge is reported with its context, wrapping the error of the
      repository that failed. */
  lemma MergeRepositoriesMergeFails(o: Oracle, s: State, root: string, suffix: string, branch: Option<string>, g: Glob)
    requires FindRepos(g).Ok?
    requires CreateJoinedRepo(o, s, root + suffix).1.Ok?
    ensures var run := MergeRepos(o, CreateJoinedRepo(o, s, root + suffix).0, branch, Components(root), FindRepos(g).value, root + suffix);
            var r := MergeRepositories(o, s, root, suffix, branch, g);
            r.0 == run.state &&
            (run.result.Err? ==> r.1 == Err(Context(MergeFailed, run.result.error)))
  {
  }
}
