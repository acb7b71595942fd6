/** The command port: what a finished process looks like, the error values the
    program builds, the commands it issues, and `to_anyhow`, which decides
    whether a finished process counts as a success (src/lib.rs). */
module Port {

  /** How a process ended. On Unix `ExitStatus::success()` holds exactly for
      a normal exit with code 0; a process killed by a signal has no code. */
  datatype ExitStatus = Exited(code: int) | Signalled(signal: int) {
    predicate Success() {
      Exited? && code == 0
    }
  }

  /** `std::process::Output`: the status and the captured streams (as text). */
  datatype Output = Output(status: ExitStatus, stdout: string, stderr: string)

  /** What `Command::output()` yields: the process ran, or it could not be spawned. */
  datatype SpawnResult = Spawned(output: Output) | SpawnFailed(cause: string)

  /** What a filesystem call (`fs::create_dir`, `fs::create_dir_all`) yields. */
  datatype IoResult = IoOk | IoErr(cause: string)

  /** The errors of the program: an I/O error, an error made by `bail!` (or by a
      library error's message), and an error wrapped with a context message. */
  datatype Error =
    | Io(cause: string)
    | Failure(message: string)
    | Context(context: string, source: Error)
  {
    /** The top-level message, as anyhow's `Display` prints it. */
    function Message(): string {
      match this
      case Io(c) => c
      case Failure(m) => m
      case Context(c, _) => c
    }
  }

  /** `anyhow::Result<T>`; usable with `:-` the way the source uses `?`. */
  datatype Result<+T> = Ok(value: T) | Err(error: Error) {
    predicate IsFailure() {
      Err?
    }

    function PropagateFailure<U>(): Result<U>
      requires Err?
    {
      Err(error)
    }

    function Extract(): T
      requires Ok?
    {
      value
    }
  }

  const ExecFailedContext := "failed to execute process"
  const RunFailedPrefix := "failed to run command: "

  /** `ToAnyhow::to_anyhow`: a process that could not be spawned is an error with
      context, a process whose status is not a success is an error carrying its
      stderr, and a successful process is passed through. Only the status is
      looked at. */
  function ToAnyhow(res: SpawnResult): (r: Result<Output>)
    ensures r.Ok? <==> res.Spawned? && res.output.status.Success()
    ensures r.Ok? ==> r.value == res.output
    ensures res.SpawnFailed? ==> r.Err? && r.error.Context? && r.error.source == Io(res.cause)
  {
    match res
    case SpawnFailed(cause) => Err(Context(ExecFailedContext, Io(cause)))
    case Spawned(output) =>
      if !output.status.Success() then
        Err(Failure(RunFailedPrefix + output.stderr))
      else
        Ok(output)
  }

  /** A spawn failure is reported as "failed to execute process". */
  lemma SpawnFailureIsError(cause: string)
    ensures ToAnyhow(SpawnFailed(cause)) == Err(Context(ExecFailedContext, Io(cause)))
    ensures ToAnyhow(SpawnFailed(cause)).error.Message() == "failed to execute process"
  {
  }

  /** A process that ran but did not succeed yields an error whose message ends
      with the captured stderr, whatever it printed on stdout. */
  lemma FailureCarriesStderr(out: Output)
    requires !out.status.Success()
    ensures ToAnyhow(Spawned(out)).Err?
    ensures ToAnyhow(Spawned(out)).error.Message() == RunFailedPrefix + out.stderr
    ensures var m := ToAnyhow(Spawned(out)).error.Message();
            |out.stderr| <= |m| && m[|m| - |out.stderr|..] == out.stderr
  {
    var m := RunFailedPrefix + out.stderr;
    assert m[|m| - |out.stderr|..] == out.stderr;
  }

  /** Two processes with the same exit status are judged alike, whatever they
      printed: stdout and stderr never decide success. */
  lemma StatusAloneDecides(a: Output, b: Output)
    requires a.status == b.status
    ensures ToAnyhow(Spawned(a)).Ok? == ToAnyhow(Spawned(b)).Ok?
  {
  }

  /** A successful process is returned unchanged, including its stdout. */
  lemma SuccessIsIdentity(out: Output)
    requires out.status.Success()
    ensures ToAnyhow(Spawned(out)) == Ok(out)
  {
  }

  /** The commands the program issues. `dir` is the working directory a git
      command runs in; the filesystem calls name the joined repository and the
      path beneath it, `base + "/" + rel`, which together are the path the
      program passes. */
  datatype Cmd =
    | CreateDir(path: string)
    | CreateDirAll(base: string, rel: string)
    | GitInit(dir: string)
    | RemoteAdd(dir: string, name: string, url: string)
    | Fetch(dir: string, name: string)
    | Merge(dir: string, rev: string)
    | Mv(dir: string, sources: seq<string>, dest: string)
    | Commit(dir: string, message: string)
    | Amend(dir: string)
    | ListRemoteBranches(dir: string)
    | Checkout(dir: string, branch: string)
    | CheckoutNew(dir: string, branch: string, start: string)
  {
    /** True of the calls that go to the filesystem rather than to a process. */
    predicate IsFs() {
      CreateDir? || CreateDirAll?
    }

    /** The argument vector passed to `git`, as the source writes it. */
    function GitArgs(): seq<string>
      requires !IsFs()
    {
      match this
      case GitInit(_) => ["init"]
      case RemoteAdd(_, n, u) => ["remote", "add", n, u]
      case Fetch(_, n) => ["fetch", n]
      case Merge(_, rev) => ["merge", rev, "--allow-unrelated-histories"]
      case Mv(_, srcs, d) => ["mv"] + srcs + [d]
      case Commit(_, m) => ["commit", "-m", m]
      case Amend(_) => ["commit", "--amend", "--no-edit"]
      case ListRemoteBranches(_) => ["branch", "-r"]
      case Checkout(_, b) => ["checkout", b]
      case CheckoutNew(_, b, s) => ["checkout", "-b", b, s]
    }

    /** The path a filesystem call creates. */
    function FsPath(): string
      requires IsFs()
    {
      match this
      case CreateDir(p) => p
      case CreateDirAll(b, r) => b + "/" + r
    }
  }

  /** The filesystem calls are `?`-propagated as plain I/O errors. */
  function FromIo(res: IoResult): (r: Result<()>)
    ensures r.Ok? <==> res.IoOk?
    ensures res.IoErr? ==> r == Err(Io(res.cause))
  {
    match res
    case IoOk => Ok(())
    case IoErr(c) => Err(Io(c))
  }
}
