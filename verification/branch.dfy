/** `CurrentBranch`: the short name of the branch HEAD points at, read from
    `git symbolic-ref --quiet HEAD`, or the recognised condition `ErrNotOnAnyBranch`. */
module Branch {
  import Text
  import opened Process

  const SymbolicRefArgs := ["symbolic-ref", "--quiet", "HEAD"]

  /** The ref namespace that local branches live in. */
  const HeadsPrefix := "refs/heads/"

  /** Either HEAD names a branch, or it is detached (Go's `ErrNotOnAnyBranch`). */
  datatype HeadState = OnBranch(name: string) | NotOnAnyBranch

  /** The branch name inside symbolic-ref output: one trailing `\n` and one leading
      `refs/heads/` are removed when present, and nothing else is touched. */
  function ShortName(output: string): (name: string)
    ensures || output == name
            || output == name + "\n"
            || output == HeadsPrefix + name
            || output == HeadsPrefix + name + "\n"
  {
    Text.TrimPrefix(Text.TrimSuffix(output, "\n"), HeadsPrefix)
  }

  /** The text git would print for branch `name`: with or without the ref namespace, with or
      without the line terminator. */
  function RefText(name: string, qualified: bool, terminated: bool): string
  {
    (if qualified then HeadsPrefix else "") + name + (if terminated then "\n" else "")
  }

  /** `ShortName` recovers the branch name from every form of ref text that is not ambiguous:
      a bare name must not itself look qualified, an unterminated one must not end in `\n`. */
  lemma ShortNameOfRefText(name: string, qualified: bool, terminated: bool)
    requires !qualified ==> !Text.HasPrefix(name, HeadsPrefix)
    requires !terminated ==> !Text.HasSuffix(name, "\n")
    ensures ShortName(RefText(name, qualified, terminated)) == name
  {
    var lead := if qualified then HeadsPrefix else "";
    var line := lead + name;
    var text := RefText(name, qualified, terminated);
    if terminated {
      assert text == line + "\n";
      assert Text.HasSuffix(text, "\n");
      assert Text.TrimSuffix(text, "\n") == line;
    } else {
      assert text == line;
      if |name| > 0 {
        assert line[|line| - 1..] == name[|name| - 1..];
      }
    }
    if qualified {
      assert line[..|HeadsPrefix|] == HeadsPrefix;
      assert line[|HeadsPrefix|..] == name;
    }
  }

  /** Output with a prefix other than `refs/heads/` and no line terminator is taken verbatim. */
  lemma ShortNameVerbatim(output: string)
    requires !Text.HasPrefix(output, HeadsPrefix)
    requires !Text.HasSuffix(output, "\n")
    ensures ShortName(output) == output
  {
  }

  /** The only outputs that leave an empty name are the empty ref text in its four forms. */
  lemma ShortNameEmpty(output: string)
    ensures ShortName(output) == "" <==> output in {"", "\n", HeadsPrefix, HeadsPrefix + "\n"}
  {
    if output == HeadsPrefix + "\n" {
      ShortNameOfRefText("", true, true);
      assert RefText("", true, true) == output;
    } else if output == HeadsPrefix {
      ShortNameOfRefText("", true, false);
      assert RefText("", true, false) == output;
    }
  }

  /** Output of more than one line keeps every line after the first: only the final `\n`
      goes. A rule that cut the output at its first `\n` would give `first` instead. */
  lemma ShortNameMultiLine(first: string, rest: string)
    requires !Text.HasPrefix(first + "\n" + rest, HeadsPrefix)
    ensures ShortName(first + "\n" + rest + "\n") == first + "\n" + rest
  {
    ShortNameOfRefText(first + "\n" + rest, false, true);
    assert RefText(first + "\n" + rest, false, true) == first + "\n" + rest + "\n";
  }

  /** The Go function: a zero exit yields the short name of the printed ref; any nonzero exit
      is the detached-HEAD condition, whatever was printed. */
  function CurrentBranch(run: Runner): (r: HeadState)
    ensures r == NotOnAnyBranch <==> run(SymbolicRefArgs).exitCode != 0
    ensures r.OnBranch? ==>
              var out := run(SymbolicRefArgs).stdout;
              || out == r.name
              || out == r.name + "\n"
              || out == HeadsPrefix + r.name
              || out == HeadsPrefix + r.name + "\n"
  {
    var p := run(SymbolicRefArgs);
    if p.exitCode == 0 then OnBranch(ShortName(p.stdout)) else NotOnAnyBranch
  }

  /** The command line the test registers for this query, so a stub registered under it
      answers `CurrentBranch`. */
  lemma SymbolicRefCommandLine()
    ensures CommandLine(SymbolicRefArgs) == "git symbolic-ref --quiet HEAD"
  {
    Text.JoinCons("git", SymbolicRefArgs, ' ');
    Text.JoinCons("symbolic-ref", ["--quiet", "HEAD"], ' ');
    Text.JoinCons("--quiet", ["HEAD"], ' ');
    Text.JoinCons("HEAD", [], ' ');
  }

  /** The command line `git symbolic-ref --quiet HEAD` that the test suite registers. */
  const SymbolicRefLine := "git symbolic-ref --quiet HEAD"

  /** What `CurrentBranch` returns when the registered stub answers with `exitCode` and `stdout`. */
  lemma CurrentBranchOfStub(exitCode: int, stdout: string)
    ensures CurrentBranch(Stub(SymbolicRefLine, exitCode, stdout))
            == if exitCode == 0 then OnBranch(ShortName(stdout)) else NotOnAnyBranch
  {
    SymbolicRefCommandLine();
  }

  /** A bare branch name followed by a line terminator, as in the test suite. */
  lemma CurrentBranchBareCase()
    ensures CurrentBranch(Stub(SymbolicRefLine, 0, "branch-name\n")) == OnBranch("branch-name")
  {
    var plain := "branch-name";
    assert plain[0] != HeadsPrefix[0];
    ShortNameOfRefText(plain, false, true);
    assert RefText(plain, false, true) == "branch-name\n";
    CurrentBranchOfStub(0, "branch-name\n");
  }

  /** A fully qualified ref followed by a line terminator, as in the test suite. */
  lemma CurrentBranchQualifiedCase()
    ensures CurrentBranch(Stub(SymbolicRefLine, 0, "refs/heads/branch-name\n")) == OnBranch("branch-name")
  {
    ShortNameOfRefText("branch-name", true, true);
    assert RefText("branch-name", true, true) == "refs/heads/branch-name\n";
    CurrentBranchOfStub(0, "refs/heads/branch-name\n");
  }

  /** The branch name of the test suite whose words are separated by U+00A0 NO-BREAK SPACE. */
  const NoBreakName := "branch\U{00A0}with\U{00A0}non\U{00A0}breaking\U{00A0}space"

  /** Non-breaking spaces inside the name survive unchanged, as in the test suite. */
  lemma CurrentBranchNonBreakingSpaceCase()
    ensures CurrentBranch(Stub(SymbolicRefLine, 0, "refs/heads/" + NoBreakName + "\n")) == OnBranch(NoBreakName)
  {
    ShortNameOfRefText(NoBreakName, true, true);
    CurrentBranchOfStub(0, "refs/heads/" + NoBreakName + "\n");
  }

  /** The detached-HEAD case of the test suite: exit status 1, nothing printed. */
  lemma CurrentBranchDetachedCase()
    ensures CurrentBranch(Stub(SymbolicRefLine, 1, "")) == NotOnAnyBranch
  {
    CurrentBranchOfStub(1, "");
  }
}
