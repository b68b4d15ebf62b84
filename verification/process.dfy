/** What one run of the `git` executable hands back, and how an invocation is written out
    as the single command line that the command stubs of the test suite match against. */
module Process {
  import Text

  /** Exit status and captured streams of a finished `git` child process. */
  datatype ProcessResult = ProcessResult(exitCode: int, stdout: string, stderr: string)

  /** A nonzero exit that no invocation-specific rule recognises. */
  datatype GitError = ExecutionFailure(exitCode: int, stderr: string)

  /** The `(value, error)` pair of a Go call returning a value: exactly one of them is meaningful. */
  datatype Result<T> = Ok(value: T) | Err(error: GitError)

  /** The `error` return of a Go call returning only an error: `nil` or a failure. */
  datatype Outcome = Pass | Fail(error: GitError)

  /** Runs `git` with an argument vector and hands back what the child process produced. */
  type Runner = seq<string> -> ProcessResult

  const Git := "git"

  /** The command line `git a1 a2 ...`, the argument vector joined with single spaces. */
  function CommandLine(args: seq<string>): string
  {
    Text.Join([Git] + args, ' ')
  }

  /** No argument contains a space, so the words of a command line are its arguments. */
  predicate SpaceFree(args: seq<string>) {
    forall k :: 0 <= k < |args| ==> ' ' !in args[k]
  }

  /** Splitting a command line on spaces gives back `git` and the argument vector. */
  lemma CommandLineWords(args: seq<string>)
    requires SpaceFree(args)
    ensures Text.Split(CommandLine(args), ' ') == [Git] + args
  {
    var words := [Git] + args;
    assert forall k :: 1 <= k < |words| ==> words[k] == args[k - 1];
    Text.SplitJoin(words, ' ');
  }

  /** Two space-free argument vectors with the same command line are the same vector, so a
      stub that matches the command line matches exactly one invocation. */
  lemma CommandLineInjective(a: seq<string>, b: seq<string>)
    requires SpaceFree(a) && SpaceFree(b)
    requires CommandLine(a) == CommandLine(b)
    ensures a == b
  {
    CommandLineWords(a);
    CommandLineWords(b);
    assert a == ([Git] + a)[1..];
    assert b == ([Git] + b)[1..];
  }

  /** A command stub like the test suite's `Register(command, exitCode, stdout)`: the
      registered command line answers with that exit status and stdout and an empty stderr;
      any other command fails with exit status 1 and a complaint on stderr. */
  function Stub(command: string, exitCode: int, stdout: string): (run: Runner)
    ensures forall args :: CommandLine(args) == command ==> run(args) == ProcessResult(exitCode, stdout, "")
    ensures forall args :: CommandLine(args) != command ==> run(args).exitCode != 0
  {
    args => if CommandLine(args) == command then ProcessResult(exitCode, stdout, "")
            else ProcessResult(1, "", "unregistered command")
  }

  /** The error value that Go's `Output()` returns for a finished process. */
  function Failure(p: ProcessResult): (r: Outcome)
    ensures r.Pass? <==> p.exitCode == 0
    ensures r.Fail? ==> r.error.exitCode == p.exitCode && r.error.stderr == p.stderr
  {
    if p.exitCode == 0 then Pass else Fail(ExecutionFailure(p.exitCode, p.stderr))
  }
}
