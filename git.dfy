/** The version-control bridge: running `git` and turning what the process did into a result.
    The process itself is outside the model; a run is described by a function from the argument
    list to the outcome, so that "which command was run" is part of every statement. */
module Git {
  import opened Errors
  import opened Text

  /** What running `git` with some arguments did: the process could not be started or awaited,
      or it exited with a success flag, its standard output (`None` when that is not valid UTF-8)
      and its standard error (already decoded, lossily, so always text). */
  datatype ProcessOutcome =
    | SpawnFailed
    | Exited(success: bool, stdout: Option<string>, stderr: string)

  /** The repository probe. */
  const ProbeArgs: seq<string> := ["rev-parse", "--is-inside-work-tree"]

  /** The staged diff, without pager, colour or external diff tools, leaving out lock files. */
  const DiffArgs: seq<string> :=
    ["--no-pager", "diff", "--staged", "--minimal", "--no-color", "--no-ext-diff", "--", ":!*.lock"]

  function CommitArgs(message: string): seq<string>
  {
    ["commit", "-m", message]
  }

  /** `run_git_command`: the standard output of a successful run; the standard error text when the
      exit status is not a success; and the fixed errors when the process cannot run or its output
      is not text. */
  function RunGitCommand(git: seq<string> -> ProcessOutcome, args: seq<string>): (r: Result<string>)
    ensures r.Ok? <==> git(args).Exited? && git(args).success && git(args).stdout.Some?
    ensures r.Ok? ==> r.value == git(args).stdout.value
    ensures git(args).SpawnFailed? ==> r == Err(ExecutionFailed)
    ensures git(args).Exited? && !git(args).success ==> r == Err(CommandFailed(git(args).stderr))
    ensures git(args).Exited? && git(args).success && git(args).stdout.None? ==> r == Err(DecodeFailed)
  {
    match git(args)
    case SpawnFailed => Err(ExecutionFailed)
    case Exited(success, stdout, stderr) =>
      if !success then Err(CommandFailed(stderr))
      else if stdout.None? then Err(DecodeFailed)
      else Ok(stdout.value)
  }

  /** `git_checks`: `git` must be on the search path (`onPath`), and the probe must succeed; a
      failing probe is reported as "not a repository" around the probe's own error. */
  function GitChecks(onPath: bool, git: seq<string> -> ProcessOutcome): (r: Result<()>)
    ensures !onPath ==> r == Err(GitNotInstalled)
    ensures r.Ok? <==> onPath && RunGitCommand(git, ProbeArgs).Ok?
    ensures onPath && RunGitCommand(git, ProbeArgs).Err? ==>
              r == Err(NotARepository(RunGitCommand(git, ProbeArgs).error))
  {
    if !onPath then Err(GitNotInstalled)
    else match RunGitCommand(git, ProbeArgs)
      case Err(e) => Err(NotARepository(e))
      case Ok(_) => Ok(())
  }

  /** `git_diff`: the staged diff with surrounding whitespace removed; a diff with nothing but
      whitespace means there is nothing to commit. Errors of the command pass through. */
  function GitDiff(git: seq<string> -> ProcessOutcome): (r: Result<string>)
    ensures RunGitCommand(git, DiffArgs).Err? ==> r == RunGitCommand(git, DiffArgs)
    ensures r == Err(NoStagedChanges) <==> RunGitCommand(git, DiffArgs).Ok? && IsBlank(RunGitCommand(git, DiffArgs).value)
    ensures r.Ok? <==> RunGitCommand(git, DiffArgs).Ok? && !IsBlank(RunGitCommand(git, DiffArgs).value)
    ensures r.Ok? ==> r.value == Trim(RunGitCommand(git, DiffArgs).value) && r.value != []
  {
    var out :- RunGitCommand(git, DiffArgs);
    var diff := Trim(out);
    if diff == [] then Err(NoStagedChanges) else Ok(diff)
  }

  /** `git_commit`: commits with the message as the only argument after `-m`, and returns what
      `git` printed, trimmed. */
  function GitCommit(git: seq<string> -> ProcessOutcome, message: string): (r: Result<string>)
    ensures r.Ok? <==> RunGitCommand(git, CommitArgs(message)).Ok?
    ensures r.Ok? ==> r.value == Trim(RunGitCommand(git, CommitArgs(message)).value)
    ensures r.Err? ==> r == RunGitCommand(git, CommitArgs(message))
  {
    var out :- RunGitCommand(git, CommitArgs(message));
    Ok(Trim(out))
  }

  // ---------------------------------------------------------------------------------------------
  // Properties

  /** A returned diff is already trimmed and has a visible character. */
  lemma DiffIsTrimmed(git: seq<string> -> ProcessOutcome)
    requires GitDiff(git).Ok?
    ensures Trim(GitDiff(git).value) == GitDiff(git).value && !IsBlank(GitDiff(git).value)
  {
    TrimIdempotent(RunGitCommand(git, DiffArgs).value);
  }

  /** The diff depends on nothing but the outcome of the diff command. */
  lemma DiffReadsOnlyDiffCommand(git1: seq<string> -> ProcessOutcome, git2: seq<string> -> ProcessOutcome)
    requires git1(DiffArgs) == git2(DiffArgs)
    ensures GitDiff(git1) == GitDiff(git2)
  {
    assert RunGitCommand(git1, DiffArgs) == RunGitCommand(git2, DiffArgs);
  }

  /** The commit result depends on nothing but the outcome of `git commit -m <message>`: the
      message is passed as a single argument, whatever it contains. */
  lemma CommitReadsOnlyCommitCommand(git1: seq<string> -> ProcessOutcome, git2: seq<string> -> ProcessOutcome, message: string)
    requires git1(CommitArgs(message)) == git2(CommitArgs(message))
    ensures GitCommit(git1, message) == GitCommit(git2, message)
  {
    assert RunGitCommand(git1, CommitArgs(message)) == RunGitCommand(git2, CommitArgs(message));
  }

  /** A failing `git` surfaces its standard error text as the message, unchanged. */
  lemma FailureShowsStderr(git: seq<string> -> ProcessOutcome, args: seq<string>)
    requires git(args).Exited? && !git(args).success
    ensures RunGitCommand(git, args).Err? && Message(RunGitCommand(git, args).error) == git(args).stderr
  {
  }
}
