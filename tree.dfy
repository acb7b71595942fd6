/** The working tree of the joined repository, abstracted to the set of paths
    (lists of components) that exist in it, and what `git mv` and
    `fs::create_dir_all` do to it. */
module Tree {
  import opened Segments

  type Path = seq<string>
  type Tree = set<Path>

  predicate IsPrefix(a: Path, b: Path) {
    |a| <= |b| && b[..|a|] == a
  }

  /** Every entry has a name: the empty path is the root itself, not an entry. */
  predicate WellFormed(t: Tree) {
    forall p :: p in t ==> p != []
  }

  /** The names `fs::read_dir` lists at the top of the tree. */
  function TopLevel(t: Tree): set<string> {
    set p | p in t && p != [] :: p[0]
  }

  /** Renaming `src` to `dst`: everything at or below `src` now lives at or below `dst`. */
  function Relocate(t: Tree, src: Path, dst: Path): Tree {
    (set p | p in t && !IsPrefix(src, p)) +
    (set p | p in t && IsPrefix(src, p) :: dst + p[|src|..])
  }

  /** Moving the top-level entries `names` into the directory `dir`. */
  function Nest(t: Tree, names: set<string>, dir: Path): Tree {
    (set p | p in t && (p == [] || p[0] !in names)) +
    (set p | p in t && p != [] && p[0] in names :: dir + p)
  }

  /** `fs::create_dir_all(d)`: `d` and every directory above it exist afterwards. */
  function MakeDirs(t: Tree, d: Path): Tree {
    t + (set k | 1 <= k <= |d| :: d[..k])
  }

  /** `git mv <sources> <dest>`: with one source and a destination that does not
      exist (and is not written as a directory) it is a rename; otherwise the
      sources, which this program always names at the top level, move into
      the destination directory. */
  function GitMv(t: Tree, sources: seq<string>, dest: string): Tree {
    var d := Components(dest);
    if |sources| == 1 && d !in t && (dest == [] || dest[|dest| - 1] != '/') then
      Relocate(t, Components(sources[0]), d)
    else
      Nest(t, (set x | x in sources), d)
  }

  /** Where the two-phase move is meant to leave things: the excluded entries
      where they were, the directories leading to the alias, the alias, and
      below it every entry that was not excluded, under its old path. */
  function Placed(t0: Tree, exclude: set<string>, alias: Path): Tree {
    (set p | p in t0 && p != [] && p[0] in exclude) +
    (set k | 1 <= k <= |alias| :: alias[..k]) +
    (set p | p in t0 && p != [] && p[0] !in exclude :: alias + p)
  }

  /** The tree after phase one: the excluded entries in place, the staging
      directory, and below it everything else. */
  function Staged(t0: Tree, exclude: set<string>, staging: string): Tree {
    (set p | p in t0 && p != [] && p[0] in exclude) + {[staging]} +
    (set p | p in t0 && p != [] && p[0] !in exclude :: [staging] + p)
  }

  /** Phase one: after the staging directory is created, every top-level entry
      outside the exclusion set moves into it. */
  lemma {:induction false} StageAll(t0: Tree, exclude: set<string>, staging: string)
    requires WellFormed(t0)
    requires staging in exclude
    requires forall p :: p in t0 ==> p[0] != staging
    ensures var t1 := MakeDirs(t0, [staging]);
            Nest(t1, TopLevel(t1) - exclude, [staging]) == Staged(t0, exclude, staging)
  {
    var t1 := MakeDirs(t0, [staging]);
    assert (set k | 1 <= k <= 1 :: [staging][..k]) == {[staging]} by {
      assert [staging][..1] == [staging];
    }
    assert t1 == t0 + {[staging]};
    var names := TopLevel(t1) - exclude;
    var lhs := Nest(t1, names, [staging]);
    var rhs := Staged(t0, exclude, staging);
    forall q | q in lhs ensures q in rhs {
      if q in t1 && (q == [] || q[0] !in names) {
        if q != [staging] {
          assert q in t0;
          assert q[0] in TopLevel(t1);
        }
      } else {
        var p :| p in t1 && p != [] && p[0] in names && q == [staging] + p;
        assert p in t0;
      }
    }
    forall q | q in rhs ensures q in lhs {
      if q == [staging] {
        assert staging !in names;
      } else if q in t0 && q[0] in exclude {
        assert q in t1;
      } else {
        var p :| p in t0 && p != [] && p[0] !in exclude && q == [staging] + p;
        assert p in t1 && p[0] in TopLevel(t1);
        assert p[0] in names;
      }
    }
  }

  /** The directories `create_dir_all` makes above the alias are its proper prefixes. */
  lemma ParentsOfAlias(t: Tree, alias: Path)
    requires alias != []
    ensures MakeDirs(t, alias[..|alias| - 1]) == t + (set k | 1 <= k < |alias| :: alias[..k])
  {
    var pre := alias[..|alias| - 1];
    forall k | 1 <= k <= |pre| ensures pre[..k] == alias[..k] {
    }
    assert (set k | 1 <= k <= |pre| :: pre[..k]) == (set k | 1 <= k < |alias| :: alias[..k]);
  }

  /** The alias does not exist before the final rename, so `git mv` renames. */
  lemma AliasFree(t0: Tree, exclude: set<string>, staging: string, alias: Path)
    requires WellFormed(t0)
    requires alias != [] && alias[0] != staging
    requires alias[0] in exclude ==> alias !in t0
    ensures alias !in MakeDirs(Staged(t0, exclude, staging), alias[..|alias| - 1])
  {
    ParentsOfAlias(Staged(t0, exclude, staging), alias);
  }

  /** Everything the final rename produces is where `Placed` says. */
  lemma UnstageInPlaced(t0: Tree, exclude: set<string>, staging: string, alias: Path)
    requires WellFormed(t0)
    requires forall p :: p in t0 ==> p[0] != staging
    requires alias != [] && alias[0] != staging
    ensures var t3 := MakeDirs(Staged(t0, exclude, staging), alias[..|alias| - 1]);
            Relocate(t3, [staging], alias) <= Placed(t0, exclude, alias)
  {
    var t2 := Staged(t0, exclude, staging);
    var t3 := MakeDirs(t2, alias[..|alias| - 1]);
    ParentsOfAlias(t2, alias);
    var rhs := Placed(t0, exclude, alias);
    forall q | q in t3 && !IsPrefix([staging], q) ensures q in rhs {
    }
    forall p | p in t3 && IsPrefix([staging], p) ensures alias + p[1..] in rhs {
      if p == [staging] {
        assert alias + p[1..] == alias[..|alias|];
      } else if p in (set p | p in t0 && p != [] && p[0] !in exclude :: [staging] + p) {
        var r :| r in t0 && r != [] && r[0] !in exclude && p == [staging] + r;
        assert p[1..] == r;
      }
    }
  }

  /** Everything `Placed` names is produced by the final rename. */
  lemma PlacedInUnstage(t0: Tree, exclude: set<string>, staging: string, alias: Path)
    requires WellFormed(t0)
    requires forall p :: p in t0 ==> p[0] != staging
    requires alias != [] && alias[0] != staging
    ensures var t3 := MakeDirs(Staged(t0, exclude, staging), alias[..|alias| - 1]);
            Placed(t0, exclude, alias) <= Relocate(t3, [staging], alias)
  {
    var t2 := Staged(t0, exclude, staging);
    var t3 := MakeDirs(t2, alias[..|alias| - 1]);
    ParentsOfAlias(t2, alias);
    var lhs := Relocate(t3, [staging], alias);
    forall q | q in t0 && q != [] && q[0] in exclude ensures q in lhs {
      assert q in t3 && !IsPrefix([staging], q);
    }
    forall k | 1 <= k <= |alias| ensures alias[..k] in lhs {
      if k < |alias| {
        assert alias[..k] in t3 && alias[..k][0] == alias[0];
      } else {
        assert [staging] in t3 && IsPrefix([staging], [staging]);
        assert alias[..k] == alias + [staging][1..];
      }
    }
    forall p | p in t0 && p != [] && p[0] !in exclude ensures alias + p in lhs {
      var s := [staging] + p;
      assert s in t3 && IsPrefix([staging], s);
      assert s[1..] == p;
    }
  }

  /** Phase two: creating the alias's parents and renaming the staging
      directory to the alias yields `Placed`, provided the alias is free. */
  lemma UnstageAll(t0: Tree, exclude: set<string>, staging: string, alias: Path)
    requires WellFormed(t0)
    requires forall p :: p in t0 ==> p[0] != staging
    requires alias != [] && alias[0] != staging
    requires alias[0] in exclude ==> alias !in t0
    ensures var t3 := MakeDirs(Staged(t0, exclude, staging), alias[..|alias| - 1]);
            alias !in t3 && Relocate(t3, [staging], alias) == Placed(t0, exclude, alias)
  {
    AliasFree(t0, exclude, staging, alias);
    UnstageInPlaced(t0, exclude, staging, alias);
    PlacedInUnstage(t0, exclude, staging, alias);
  }

  /** The staging name is gone from the top level after the move. */
  lemma PlacedHasNoStaging(t0: Tree, exclude: set<string>, staging: string, alias: Path)
    requires WellFormed(t0)
    requires forall p :: p in t0 ==> p[0] != staging
    requires alias != [] && alias[0] != staging
    ensures staging !in TopLevel(Placed(t0, exclude, alias))
  {
  }

  /** Excluded entries are left alone: each is still there, and under an
      excluded name other than the alias's first segment nothing new appears. */
  lemma PlacedKeepsExcluded(t0: Tree, exclude: set<string>, alias: Path)
    requires WellFormed(t0)
    requires alias != []
    ensures forall p :: p in t0 && p[0] in exclude ==> p in Placed(t0, exclude, alias)
    ensures forall p :: p in Placed(t0, exclude, alias) && p != [] && p[0] in exclude && p[0] != alias[0]
              ==> p in t0
  {
  }

  /** Every entry that was not excluded ends up below the alias, under its old
      path, even one whose name is the alias itself. */
  lemma PlacedHoldsMoved(t0: Tree, exclude: set<string>, alias: Path)
    requires WellFormed(t0)
    ensures forall p :: p in t0 && p[0] !in exclude ==> alias + p in Placed(t0, exclude, alias)
  {
  }

  /** The top level afterwards: the excluded names that were there, and the
      alias's first segment. */
  lemma PlacedTopLevel(t0: Tree, exclude: set<string>, alias: Path)
    requires WellFormed(t0)
    requires alias != []
    ensures TopLevel(Placed(t0, exclude, alias)) == (TopLevel(t0) * exclude) + {alias[0]}
  {
    var t := Placed(t0, exclude, alias);
    assert alias[..1] in t;
    forall x | x in TopLevel(t) ensures x in (TopLevel(t0) * exclude) + {alias[0]} {
      var q :| q in t && q != [] && q[0] == x;
      if exists k :: 1 <= k <= |alias| && q == alias[..k] {
        var k :| 1 <= k <= |alias| && q == alias[..k];
        assert q[0] == alias[0];
      } else if q in t0 {
      } else {
        var p :| p in t0 && p != [] && p[0] !in exclude && q == alias + p;
        assert q[0] == alias[0];
      }
    }
    forall x | x in (TopLevel(t0) * exclude) + {alias[0]} ensures x in TopLevel(t) {
      if x != alias[0] {
        var q :| q in t0 && q != [] && q[0] == x;
        assert q in t;
      } else {
        assert alias[..1] in t && alias[..1][0] == x;
      }
    }
  }

  /** The self-collision case: a repository `foo` whose own top level holds a
      directory `foo` ends up with that directory at `foo/foo`. */
  lemma SelfCollisionExample()
    ensures var exclude := {".git", "z_tmp_unique_target_directory_@@@"};
            var t0 := {[".git"], ["foo"], ["foo", "x"], ["README"]};
            Placed(t0, exclude, ["foo"]) ==
              {[".git"], ["foo"], ["foo", "foo"], ["foo", "foo", "x"], ["foo", "README"]}
  {
    var exclude := {".git", "z_tmp_unique_target_directory_@@@"};
    var t0 := {[".git"], ["foo"], ["foo", "x"], ["README"]};
    var alias := ["foo"];
    assert "foo" !in exclude && "README" !in exclude;
    assert (set p | p in t0 && p != [] && p[0] in exclude) == {[".git"]};
    assert (set k | 1 <= k <= |alias| :: alias[..k]) == {["foo"]} by {
      assert alias[..1] == ["foo"];
    }
    assert (set p | p in t0 && p != [] && p[0] !in exclude :: alias + p) ==
           {["foo", "foo"], ["foo", "foo", "x"], ["foo", "README"]} by {
      assert alias + ["foo"] == ["foo", "foo"];
      assert alias + ["foo", "x"] == ["foo", "foo", "x"];
      assert alias + ["README"] == ["foo", "README"];
    }
  }
}
