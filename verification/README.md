# git command adapter: text and argument logic

This project models, in Dafny, the pure logic inside the `git` package of the GitHub CLI
that sits between the CLI and the `git` executable. Its tests in `git/git_test.go` pin down
four pieces of it, each a total function once the subprocess is replaced by its result:

- **`UncommittedChangeCount`**: runs `git status --porcelain` and counts the non-empty
  lines of its output. Every entry counts once, whatever its status marker (` M`, `??`, ...).
- **`CurrentBranch`**: runs `git symbolic-ref --quiet HEAD`. On exit status 0 the model
  removes one trailing `\n` and a leading `refs/heads/` and returns the rest verbatim (how
  output of more than one line is treated is a choice of this model, see below). On any
  nonzero exit it reports the recognised condition `ErrNotOnAnyBranch` (detached HEAD).
- **`parseCloneArgs`**: splits the extra arguments of a clone into flags passed through to
  `git clone` and an optional target directory (`""` when absent). The first token is the
  directory when it does not start with `-`.
- **`AddNamedRemote`**: builds `git -C DIR remote add [-t BRANCH]... -f NAME URL`, one
  `-t` pair per tracked branch in the given order, and runs it.

The subprocess is never run. Running `git` is a parameter of each operation, a
`Process.Runner` that maps an argument vector to a
`Process.ProcessResult(exitCode, stdout, stderr)`. Each operation's contract names the
vector it runs. `Process.CommandLine` joins a vector with spaces; that joined string is what
the tests' command stubs register, and `Process.Stub` is such a stub.

Layout, one module per component:

| file | module | contents |
|---|---|---|
| `text.dfy` | `Text` | `HasPrefix`, `TrimPrefix`, `TrimSuffix`, `Split`, `Join` with Go's meaning, and the split/join round trips |
| `process.dfy` | `Process` | process result, error and outcome types, command-line rendering |
| `status.dfy` | `Status` | porcelain change counting |
| `branch.dfy` | `Branch` | symbolic-ref parsing and the detached-HEAD classification |
| `clone.dfy` | `Clone` | clone-argument splitting |
| `remote.dfy` | `Remote` | `remote add` argument construction and its inverse parser |

Each operation comes with a partner:
- change counting is paired with rendering entries one per line (`Text.Join`);
- branch parsing is paired with the four textual forms of a ref (`Branch.RefText`);
- clone splitting is paired with re-assembling the argument list (`Clone.CloneArgsList`);
- remote-add construction is paired with a parser that reads the vector back
  (`Remote.ParseRemoteAddArgs`).

Lemmas connect each pair in both directions where that holds. Every test case of
`git/git_test.go` for these functions is restated as a lemma.

The package's implementation files are not part of this model: the behaviour is taken from
`git/git_test.go`. Each definition is the simplest one consistent with every test case there.
These choices are not pinned down by the tests:
- Only the first clone token is inspected. A bare token in a later position is passed
  through as a flag argument. A flag is never recognised as taking a separate value.
- Output of `symbolic-ref` loses only its final `\n`: `"main\n\n"` gives `"main\n"` and
  `"a\nb\n"` gives `"a\nb"` (`Branch.ShortNameMultiLine`). The tests only show one line
  ending in one `\n`, which cutting the output at its first `\n` would fit just as well.
- A nonzero exit of `symbolic-ref` is `NotOnAnyBranch` whatever `stdout` and `stderr` hold.
  The tests exercise only exit status 1 with empty output.
- Exit status 0 with an empty ref (`""`, `"\n"`, `"refs/heads/"`, `"refs/heads/\n"`) gives
  the branch name `""`, not `NotOnAnyBranch`. An empty result could also be read as "not on
  any branch", but nothing in the tests supports that. This model follows the trimming rule,
  and `Branch.ShortNameEmpty` states exactly which outputs produce the
  empty name.
- A nonzero exit of `git status` or of `git remote add` is returned as
  `ExecutionFailure(exitCode, stderr)`.

One consequence of Go's `""` standing for "no directory" is proved rather than hidden. The
argument lists `[""]` and `[]` split alike (`Clone.EmptyLeadingToken`). So the partition
"no directory means the flags are the whole input" holds for every input except one whose
first token is the empty string (`Clone.ClonePartition`).

## Model

| member | source | states |
|---|---|---|
| `Status.UncommittedChangeCount` | git/git_test.go:53-63 | the operation runs exactly the vector `status --porcelain`; the count reported for a successful run is the number of non-empty lines of its stdout; a nonzero exit is reported as an execution failure carrying the exit status and stderr, and only then |
| `Status.ChangeCountOfEntries` | git/git_test.go:47-50 | any k non-empty entries without line terminators, written one per line, are counted as exactly k changes |
| `Status.ChangeCountConcat` | git/git_test.go:49-50 | the lines before and after a `\n` are counted independently, so a second entry adds one whatever its status marker |
| `Status.ChangeCountTrailingNewline` | git/git_test.go:47-50 | a trailing line terminator adds no change |
| `Status.ChangeCountSingleLine` | git/git_test.go:48-49 | output without a line terminator is one change when non-empty and none when empty |
| `Status.ChangeCountZero` | git/git_test.go:48 | the count is zero exactly when the output contains nothing but line terminators |
| `Status.NoChangesCase` | git/git_test.go:48 | empty output counts 0 changes |
| `Status.OneChangeCase` | git/git_test.go:49 | `" M poem.txt"` counts 1 change |
| `Status.UntrackedFileCase` | git/git_test.go:50 | `" M poem.txt\n?? new.txt"` counts 2 changes |
| `Status.StatusCommandLine` | git/git_test.go:57 | the vector `UncommittedChangeCount` runs has the command line `git status --porcelain`, so the stub registered under that line answers it |
| `Branch.ShortName` | git/git_test.go:73-84 | the name is the output with at most a leading `refs/heads/` and at most one trailing `\n` taken away, every other character kept in place |
| `Branch.ShortNameOfRefText` | git/git_test.go:73-84 | a branch name printed with or without `refs/heads/` and with or without a trailing `\n` is recovered exactly, given only that the bare form does not itself start with `refs/heads/` and the unterminated form does not end in `\n` |
| `Branch.ShortNameVerbatim` | git/git_test.go:81-84 | output with neither the namespace nor a line terminator comes back unchanged, whatever characters (such as U+00A0) it holds |
| `Branch.ShortNameMultiLine` | git/git_test.go:73-84 | output of several lines keeps all of them but the final `\n`: `first\nrest\n` gives `first\nrest` when it does not start with `refs/heads/` |
| `Branch.ShortNameEmpty` | git/git_test.go:73-84 | the name is empty exactly for the outputs `""`, `"\n"`, `"refs/heads/"` and `"refs/heads/\n"` |
| `Branch.CurrentBranch` | git/git_test.go:87-113 | the operation runs the vector `symbolic-ref --quiet HEAD`; the detached-HEAD condition is returned exactly when its exit status is nonzero, whatever was printed; otherwise the stdout is the returned name with at most `refs/heads/` in front and at most one `\n` behind |
| `Branch.SymbolicRefCommandLine` | git/git_test.go:89 | the vector `CurrentBranch` runs has the command line `git symbolic-ref --quiet HEAD`, so the stub registered under that line answers it |
| `Branch.CurrentBranchOfStub` | git/git_test.go:87-91 | with a stub registered under `git symbolic-ref --quiet HEAD`, exit 0 gives the short name of the stubbed output and any other exit status gives `NotOnAnyBranch` |
| `Branch.CurrentBranchBareCase` | git/git_test.go:73-76 | the stub answering `"branch-name\n"` with exit 0 gives branch `branch-name` |
| `Branch.CurrentBranchQualifiedCase` | git/git_test.go:77-80 | the stub answering `"refs/heads/branch-name\n"` with exit 0 gives branch `branch-name` |
| `Branch.CurrentBranchNonBreakingSpaceCase` | git/git_test.go:81-84 | a qualified name whose words are separated by U+00A0 comes back with the non-breaking spaces intact |
| `Branch.CurrentBranchDetachedCase` | git/git_test.go:102-113 | the stub answering exit status 1 with empty output gives `NotOnAnyBranch`, not a branch name |
| `Clone.ParseCloneArgs` | git/git_test.go:116-172 | a leading token not starting with `-` is the directory and the directory followed by the arguments is the input; otherwise the arguments are the input unchanged and the directory is `""`; the directory never looks like a flag and the arguments are a suffix of the input in their original order |
| `Clone.ClonePartition` | git/git_test.go:126-157 | re-assembling the split (the directory in front when it is not `""`) gives back the input exactly when the input does not start with an empty token |
| `Clone.CloneArgsRoundTrip` | git/git_test.go:126-157 | every `WellFormed` split (a directory that is not a flag, and no directory only with no arguments or a flag first) is recovered from its argument list |
| `Clone.EmptyLeadingToken` | git/git_test.go:150-157 | a lone empty token splits exactly like the empty list, and the split of `["", "x"]` is not recovered from its argument list: splitting `["x"]` again makes `x` the directory |
| `Clone.ParseCloneArgsCases` | git/git_test.go:126-157 | the four cases: directory with flags, flags only, directory only, nothing |
| `Remote.TrackingFlags` | git/git_test.go:196-197 | one `-t BRANCH` pair per branch: twice as many words as branches, `-t` at even positions, the branches in order at odd positions |
| `Remote.RemoteAddArgs` | git/git_test.go:184-197 | the vector has 7 + 2·(number of branches) words: `-C DIR remote add`, then `-t` and each branch in order, then `-f NAME URL` |
| `Remote.RemoteAddRoundTrip` | git/git_test.go:183-198 | reading a built vector back recovers the URL, name, directory and branch list, so no two requests share a vector |
| `Remote.RemoteAddParseExact` | git/git_test.go:183-198 | every vector the reader accepts is exactly the one built for the request it reads |
| `Remote.AddNamedRemote` | git/git_test.go:200-211 | the append loop produces exactly the vector described by `Remote.RemoteAddArgs`; the call runs that vector and succeeds exactly when `git` exits with status 0, and otherwise fails with that status and stderr |
| `Remote.FetchAllCase` | git/git_test.go:183-190 | with no branches there is no `-t`: `git -C DIRECTORY remote add -f test URL` |
| `Remote.FetchBranchesCase` | git/git_test.go:191-198 | branches `trunk`, `dev` put `-t trunk -t dev` right before `-f`: `git -C DIRECTORY remote add -t trunk -t dev -f test URL` |
| `Process.Stub` | git/git_test.go:55-57 | a stub answers the registered command line with the registered exit status and stdout, and fails every other command |
| `Process.CommandLineWords` | git/git_test.go:205 | splitting a command line on spaces gives `git` followed by the argument vector, when no argument contains a space |
| `Process.CommandLineInjective` | git/git_test.go:205 | two space-free argument vectors with the same command line are equal, so a registered command line stands for one invocation |

## Left out

- `LastCommit` and `CommitBody`: their expected SHA, title and body come from a fixture repository selected through `GIT_DIR`, not from logic the tests show.
- Real process execution: running `git` is a `Runner` parameter. `Register` matches a regular expression against the command line; `Process.Stub` compares the command line exactly, and a stub's unmatched command fails instead of failing the test.
- Go's distinction between a nil and an empty slice, which `reflect.DeepEqual` observes: Dafny sequences have no such distinction.
- Go strings are UTF-8 bytes; the model works on code points. No operation here looks inside a multi-byte character, so trimming and splitting agree.
- Recognising clone flags that take a separate value, and treating bare tokens after the first: the tests never exercise either.
- Classifying a nonzero `symbolic-ref` exit by its stderr: every nonzero exit is `NotOnAnyBranch`, because the tests show only exit status 1 with empty output.
- Remote.FetchAllCase: states the words of the registered command line, not the joined string itself. Proving equality of long string literals is costly for the solver. `Process.CommandLine` joins exactly these words, and `Process.CommandLineWords` recovers them from the string.
- Remote.FetchBranchesCase: states the words of the registered command line, not the joined string itself, for the same reason.
- Branch.ShortName: removes only the final `\n`, so output of more than one line keeps its later lines. The tests do not decide between this and cutting at the first `\n`.
- Branch.CurrentBranch: exit status 0 with an empty ref gives `OnBranch("")`, not `NotOnAnyBranch`, so an empty branch name on success is not ruled out. `Branch.ShortNameEmpty` lists the four outputs that produce it.
