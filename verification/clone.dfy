/** `parseCloneArgs`: the extra arguments a user gives to a clone, split into the flags
    passed through to `git clone` and an optional target directory.

    Only the first token is inspected: it is the target directory when it does not start
    with `-`. Bare tokens in later positions, and flags that take a separate value such as
    `--depth 1`, are passed through untouched; how `parseCloneArgs` treats them beyond the
    first position is not pinned down by its tests and is an assumption of this model. */
module Clone {
  import Text

  /** Pass-through flags and the target directory, `""` when there is none. */
  datatype CloneArgs = CloneArgs(args: seq<string>, dir: string)

  predicate IsFlag(token: string) {
    Text.HasPrefix(token, "-")
  }

  /** The first token names the directory to clone into. */
  predicate LeadsWithDirectory(extra: seq<string>) {
    |extra| > 0 && !IsFlag(extra[0])
  }

  function ParseCloneArgs(extra: seq<string>): (r: CloneArgs)
    ensures LeadsWithDirectory(extra) <==> [r.dir] + r.args == extra
    ensures !LeadsWithDirectory(extra) <==> r.args == extra && r.dir == ""
    ensures !IsFlag(r.dir)
    ensures |extra| - 1 <= |r.args| <= |extra|
    ensures r.args == extra[|extra| - |r.args|..]
  {
    if LeadsWithDirectory(extra) then CloneArgs(extra[1..], extra[0]) else CloneArgs(extra, "")
  }

  /** The argument list a split stands for: the directory, when there is one, in front. */
  function CloneArgsList(c: CloneArgs): seq<string>
  {
    if c.dir == "" then c.args else [c.dir] + c.args
  }

  /** A split that re-assembles into a list `ParseCloneArgs` splits back the same way: a
      directory that is not a flag, and, when there is no directory, no arguments or a flag
      first. Some splits the function produces are not of this kind: `["", "x"]` splits into
      no directory and the arguments `["x"]`. */
  predicate WellFormed(c: CloneArgs) {
    && !IsFlag(c.dir)
    && (c.dir == "" ==> |c.args| == 0 || IsFlag(c.args[0]))
  }

  /** The partition the tests check: without a directory the arguments are the input, with one
      the directory followed by the arguments is the input. A leading empty token is the one
      input this fails for, as the directory `""` then reads as no directory. */
  lemma ClonePartition(extra: seq<string>)
    ensures var r := ParseCloneArgs(extra);
            CloneArgsList(r) == extra <==> !(|extra| > 0 && extra[0] == "")
  {
  }

  /** Every well-formed split is recovered from its argument list. */
  lemma CloneArgsRoundTrip(c: CloneArgs)
    requires WellFormed(c)
    ensures ParseCloneArgs(CloneArgsList(c)) == c
  {
    if c.dir != "" {
      assert ([c.dir] + c.args)[1..] == c.args;
    }
  }

  /** A lone empty token is split exactly like an empty list: its directory is lost. After
      a leading empty token, re-assembling and splitting again moves the next bare token into
      the directory, so such a split is not recovered from its argument list. */
  lemma EmptyLeadingToken()
    ensures ParseCloneArgs([""]) == ParseCloneArgs([])
    ensures ParseCloneArgs(["", "x"]) == CloneArgs(["x"], "")
    ensures ParseCloneArgs(CloneArgsList(ParseCloneArgs(["", "x"]))) == CloneArgs([], "x")
  {
    assert ["", "x"][1..] == ["x"];
    assert !IsFlag("x") by { assert "x"[0] != '-'; }
    assert ["x"][1..] == [];
  }

  /** The four cases of the test suite. */
  lemma ParseCloneArgsCases()
    ensures ParseCloneArgs(["target_directory", "-o", "upstream", "--depth", "1"])
            == CloneArgs(["-o", "upstream", "--depth", "1"], "target_directory")
    ensures ParseCloneArgs(["-o", "upstream", "--depth", "1"])
            == CloneArgs(["-o", "upstream", "--depth", "1"], "")
    ensures ParseCloneArgs(["target_directory"]) == CloneArgs([], "target_directory")
    ensures ParseCloneArgs([]) == CloneArgs([], "")
  {
    var flags := ["-o", "upstream", "--depth", "1"];
    assert !IsFlag("target_directory") by { assert "target_directory"[0] != '-'; }
    assert IsFlag("-o") by { assert "-o"[..1] == "-"; }
    CloneArgsRoundTrip(CloneArgs(flags, "target_directory"));
    CloneArgsRoundTrip(CloneArgs(flags, ""));
    CloneArgsRoundTrip(CloneArgs([], "target_directory"));
    assert ["target_directory"] + flags == ["target_directory", "-o", "upstream", "--depth", "1"];
    assert ["target_directory"] + [] == ["target_directory"];
  }
}
