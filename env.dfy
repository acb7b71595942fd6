/** The environment the program runs in, seen through its command port: every
    git command and filesystem call it issues is appended to a trace, its
    outcome is supplied by an oracle that may consult everything issued
    before, and a successful call changes the working tree of the joined
    repository as that call does. */
module Env {
  import opened Port
  import opened Segments
  import opened Tree
  import opened Order

  /** Outcomes of the outside world, as functions of the trace so far and the
      command being issued: what a process returns, what a filesystem call
      returns, and which paths a `git merge` brings into the working tree. */
  datatype Oracle = Oracle(
    run: (seq<Cmd>, Cmd) -> SpawnResult,
    fs: (seq<Cmd>, Cmd) -> IoResult,
    merged: (seq<Cmd>, Cmd) -> Tree)

  /** The commands issued so far and the working tree of the joined repository. */
  datatype State = State(trace: seq<Cmd>, tree: Tree)

  /** What a filesystem call hands back on success: nothing was printed. */
  const NoOutput := Output(Exited(0), "", "")

  /** The outcome of issuing `c` after `trace`: a filesystem call is a plain
      I/O result, a git command goes through `to_anyhow`. */
  function Outcome(o: Oracle, trace: seq<Cmd>, c: Cmd): (r: Result<Output>)
    ensures c.IsFs() ==> (r.Ok? <==> o.fs(trace, c).IoOk?)
    ensures c.IsFs() && r.Ok? ==> r.value == NoOutput
    ensures c.IsFs() && r.Err? ==> r.error == FromIo(o.fs(trace, c)).error
    ensures !c.IsFs() ==> r == ToAnyhow(o.run(trace, c))
  {
    if c.IsFs() then
      match FromIo(o.fs(trace, c))
      case Ok(_) => Ok(NoOutput)
      case Err(e) => Err(e)
    else
      ToAnyhow(o.run(trace, c))
  }

  /** What a successful call does to the working tree of the joined repository.
      `fs::create_dir` makes the repository directory, which is then empty;
      `git init` adds `.git`; a merge brings in the merged paths; `git mv`
      moves; the other commands leave the working tree as it is. */
  function Effect(o: Oracle, s: State, c: Cmd): Tree {
    match c
    case CreateDir(_) => {}
    case CreateDirAll(_, rel) => MakeDirs(s.tree, Components(rel))
    case GitInit(_) => s.tree + {[".git"]}
    case Merge(_, _) => s.tree + o.merged(s.trace, c)
    case Mv(_, sources, dest) => GitMv(s.tree, sources, dest)
    case _ => s.tree
  }

  /** `git mv` moves. */
  lemma MvEffect(o: Oracle, s: State, dir: string, sources: seq<string>, dest: string)
    ensures Effect(o, s, Mv(dir, sources, dest)) == GitMv(s.tree, sources, dest)
  {
  }

  /** Commits, checkouts and the other commands that only touch history or
      another repository leave the working tree as it is. */
  lemma QuietEffect(o: Oracle, s: State, c: Cmd)
    requires c.Commit? || c.Amend? || c.RemoteAdd? || c.Fetch? || c.ListRemoteBranches? || c.Checkout? || c.CheckoutNew?
    ensures Effect(o, s, c) == s.tree
  {
  }

  /** Issuing one command: it is recorded whatever happens, and only a
      successful one changes the tree. */
  function Exec(o: Oracle, s: State, c: Cmd): (r: (State, Result<Output>))
    ensures r.0.trace == s.trace + [c]
    ensures r.1 == Outcome(o, s.trace, c)
    ensures r.0.tree == if r.1.Ok? then Effect(o, s, c) else s.tree
  {
    var res := Outcome(o, s.trace, c);
    (State(s.trace + [c], if res.Ok? then Effect(o, s, c) else s.tree), res)
  }

  /** Issuing commands one after another with `?`: the first failure ends the
      sequence and is the result. What was issued is a prefix of `cs`, all of
      it when the result is a success. */
  function ExecAll(o: Oracle, s: State, cs: seq<Cmd>): (r: (State, Result<()>))
    ensures |s.trace| <= |r.0.trace| <= |s.trace| + |cs|
    ensures r.0.trace == s.trace + cs[..|r.0.trace| - |s.trace|]
    ensures r.1.Ok? ==> r.0.trace == s.trace + cs
    decreases |cs|
  {
    if cs == [] then
      (s, Ok(()))
    else
      var (s1, res) := Exec(o, s, cs[0]);
      if res.Err? then
        assert cs[..1] == [cs[0]];
        (s1, Err(res.error))
      else
        var r := ExecAll(o, s1, cs[1..]);
        assert s1.trace + cs[1..][..|r.0.trace| - |s1.trace|] == s.trace + cs[..|r.0.trace| - |s.trace|];
        assert s1.trace + cs[1..] == s.trace + cs;
        r
  }

  /** The number of commands `ExecAll` issued. */
  function Issued(o: Oracle, s: State, cs: seq<Cmd>): nat {
    |ExecAll(o, s, cs).0.trace| - |s.trace|
  }

  /** `ExecAll` stops exactly at the first failure: every command before the
      last one issued succeeded, the last one too when the result is a success,
      and a failure is the failure of the last command issued. */
  lemma {:induction false} ExecAllStops(o: Oracle, s: State, cs: seq<Cmd>)
    ensures var n, r := Issued(o, s, cs), ExecAll(o, s, cs).1;
            (r.Err? ==> n >= 1 && Outcome(o, s.trace + cs[..n - 1], cs[n - 1]) == Err(r.error)) &&
            (forall k :: 0 <= k < n && (r.Ok? || k < n - 1) ==> Outcome(o, s.trace + cs[..k], cs[k]).Ok?)
    decreases |cs|
  {
    if cs != [] {
      var (s1, res) := Exec(o, s, cs[0]);
      assert s.trace + cs[..0] == s.trace;
      if res.Ok? {
        ExecAllStops(o, s1, cs[1..]);
        var n := Issued(o, s, cs);
        assert Issued(o, s1, cs[1..]) == n - 1;
        forall k | 1 <= k <= n ensures s1.trace + cs[1..][..k - 1] == s.trace + cs[..k] {
          assert cs[..k] == [cs[0]] + cs[1..][..k - 1];
        }
      }
    }
  }

  /** A failure of `ExecAll` is the failure of the last command it issued. */
  lemma ExecAllLast(o: Oracle, s: State, cs: seq<Cmd>)
    ensures var n, r := Issued(o, s, cs), ExecAll(o, s, cs).1;
            r.Err? ==> n >= 1 && Outcome(o, s.trace + cs[..n - 1], cs[n - 1]) == Err(r.error)
  {
    ExecAllStops(o, s, cs);
  }

  /** Issuing a first command and then the rest. */
  lemma ExecAllCons(o: Oracle, s: State, c: Cmd, cs: seq<Cmd>)
    ensures var (s1, res) := Exec(o, s, c);
            ExecAll(o, s, [c] + cs) == if res.Err? then (s1, Err(res.error)) else ExecAll(o, s1, cs)
  {
    assert ([c] + cs)[1..] == cs;
  }

  /** Issuing two sequences of commands with `?`: the second runs only when
      the first succeeded. */
  lemma {:induction false} ExecAllAppend(o: Oracle, s: State, a: seq<Cmd>, b: seq<Cmd>)
    ensures var first := ExecAll(o, s, a);
            ExecAll(o, s, a + b) == if first.1.Err? then first else ExecAll(o, first.0, b)
    decreases |a|
  {
    if a == [] {
      assert a + b == b;
    } else {
      assert a + b == [a[0]] + (a[1..] + b);
      assert a == [a[0]] + a[1..];
      ExecAllCons(o, s, a[0], a[1..] + b);
      ExecAllCons(o, s, a[0], a[1..]);
      ExecAllAppend(o, Exec(o, s, a[0]).0, a[1..], b);
    }
  }

  /** Once every command succeeded, the state is the one reached by applying
      the effects one after another. */
  function ApplyAll(o: Oracle, s: State, cs: seq<Cmd>): State
    decreases |cs|
  {
    if cs == [] then s
    else ApplyAll(o, State(s.trace + [cs[0]], Effect(o, s, cs[0])), cs[1..])
  }

  /** Applying a first effect and then the rest. */
  lemma ApplyAllCons(o: Oracle, s: State, c: Cmd, cs: seq<Cmd>)
    ensures ApplyAll(o, s, [c] + cs) == ApplyAll(o, State(s.trace + [c], Effect(o, s, c)), cs)
  {
    assert ([c] + cs)[1..] == cs;
  }

  /** Applying two sequences of effects one after the other. */
  lemma {:induction false} ApplyAllAppend(o: Oracle, s: State, a: seq<Cmd>, b: seq<Cmd>)
    ensures ApplyAll(o, s, a + b) == ApplyAll(o, ApplyAll(o, s, a), b)
    decreases |a|
  {
    if a == [] {
      assert a + b == b;
    } else {
      assert (a + b)[0] == a[0] && (a + b)[1..] == a[1..] + b;
      ApplyAllAppend(o, State(s.trace + [a[0]], Effect(o, s, a[0])), a[1..], b);
    }
  }

  /** A successful sequence applied every effect, in order. */
  lemma {:induction false} ExecAllOk(o: Oracle, s: State, cs: seq<Cmd>)
    requires ExecAll(o, s, cs).1.Ok?
    ensures ExecAll(o, s, cs).0 == ApplyAll(o, s, cs)
    decreases |cs|
  {
    if cs != [] {
      ExecAllOk(o, Exec(o, s, cs[0]).0, cs[1..]);
    }
  }

  /** A failure leaves the tree as the successful prefix left it. */
  lemma {:induction false} ExecAllErr(o: Oracle, s: State, cs: seq<Cmd>)
    requires ExecAll(o, s, cs).1.Err?
    ensures var n := Issued(o, s, cs);
            n >= 1 && ExecAll(o, s, cs).0.tree == ApplyAll(o, s, cs[..n - 1]).tree
    decreases |cs|
  {
    var (s1, res) := Exec(o, s, cs[0]);
    if res.Ok? {
      ExecAllErr(o, s1, cs[1..]);
      var n := Issued(o, s, cs);
      assert cs[..n - 1] == [cs[0]] + cs[1..][..n - 2];
      assert ([cs[0]] + cs[1..][..n - 2])[1..] == cs[1..][..n - 2];
    } else {
      assert cs[..0] == [];
    }
  }

  /** The command port: the live counterpart of `State`, with the oracle that
      answers it. */
  class World {
    const oracle: Oracle
    var trace: seq<Cmd>
    var tree: Tree

    function Snapshot(): State
      reads this
    {
      State(trace, tree)
    }

    constructor (o: Oracle, s: State)
      ensures oracle == o && Snapshot() == s
    {
      oracle := o;
      trace := s.trace;
      tree := s.tree;
    }

    /** `Command::output()` followed by `to_anyhow()`, or an `fs` call. */
    method Run(c: Cmd) returns (r: Result<Output>)
      modifies this
      ensures (Snapshot(), r) == Exec(oracle, old(Snapshot()), c)
    {
      r := Outcome(oracle, trace, c);
      if r.Ok? {
        tree := Effect(oracle, Snapshot(), c);
      }
      trace := trace + [c];
    }

    /** `fs::read_dir` of the joined repository: each top-level name once, in an
        order the filesystem chooses. */
    method ListDir() returns (names: seq<string>)
      ensures Distinct(names)
      ensures forall x :: x in names <==> x in TopLevel(tree)
    {
      var rest := TopLevel(tree);
      names := [];
      while rest != {}
        invariant Distinct(names)
        invariant forall x :: x in names <==> x in TopLevel(tree) && x !in rest
        invariant rest <= TopLevel(tree)
        decreases |rest|
      {
        var x :| x in rest;
        names := names + [x];
        rest := rest - {x};
      }
    }
  }
}
