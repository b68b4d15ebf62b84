/** `UncommittedChangeCount`: how many entries `git status --porcelain` reported. */
module Status {
  import Text
  import opened Process

  const StatusArgs := ["status", "--porcelain"]

  /** Number of non-empty strings in `lines`. */
  function CountNonEmpty(lines: seq<string>): (n: nat)
    ensures n <= |lines|
  {
    if |lines| == 0 then 0
    else (if lines[0] != "" then 1 else 0) + CountNonEmpty(lines[1..])
  }

  /** Porcelain output is one entry per line; an entry counts once whatever its status marker. */
  function ChangeCount(output: string): nat
  {
    CountNonEmpty(Text.Split(output, '\n'))
  }

  lemma {:induction false} CountNonEmptyAppend(xs: seq<string>, ys: seq<string>)
    ensures CountNonEmpty(xs + ys) == CountNonEmpty(xs) + CountNonEmpty(ys)
  {
    if |xs| == 0 {
      assert xs + ys == ys;
    } else {
      assert (xs + ys)[1..] == xs[1..] + ys;
      CountNonEmptyAppend(xs[1..], ys);
    }
  }

  lemma {:induction false} CountNonEmptyAll(entries: seq<string>)
    requires forall k :: 0 <= k < |entries| ==> entries[k] != ""
    ensures CountNonEmpty(entries) == |entries|
  {
    if |entries| > 0 {
      CountNonEmptyAll(entries[1..]);
    }
  }

  /** Reading back what git wrote: `k` non-empty entries, one per line, are counted as `k` changes. */
  lemma ChangeCountOfEntries(entries: seq<string>)
    requires forall k :: 0 <= k < |entries| ==> entries[k] != "" && '\n' !in entries[k]
    ensures ChangeCount(Text.Join(entries, '\n')) == |entries|
  {
    if |entries| > 0 {
      Text.SplitJoin(entries, '\n');
      CountNonEmptyAll(entries);
    }
  }

  /** Each line counts independently of the others. */
  lemma ChangeCountConcat(a: string, b: string)
    ensures ChangeCount(a + "\n" + b) == ChangeCount(a) + ChangeCount(b)
  {
    Text.SplitConcat(a, b, '\n');
    CountNonEmptyAppend(Text.Split(a, '\n'), Text.Split(b, '\n'));
  }

  /** A trailing line terminator adds no change. */
  lemma ChangeCountTrailingNewline(output: string)
    ensures ChangeCount(output + "\n") == ChangeCount(output)
  {
    ChangeCountConcat(output, "");
    assert output + "\n" + "" == output + "\n";
  }

  /** Output without a line terminator is one change exactly when it is not empty. */
  lemma ChangeCountSingleLine(line: string)
    requires '\n' !in line
    ensures ChangeCount(line) == if line == "" then 0 else 1
  {
  }

  /** No change is reported exactly when the output holds nothing but line terminators. */
  lemma {:induction false} ChangeCountZero(output: string)
    ensures ChangeCount(output) == 0 <==> forall k :: 0 <= k < |output| ==> output[k] == '\n'
    decreases |output|
  {
    if '\n' in output {
      var i := Text.FirstIndex(output, '\n');
      var a, b := output[..i], output[i + 1..];
      assert output == a + "\n" + b;
      ChangeCountConcat(a, b);
      ChangeCountZero(b);
      ChangeCountSingleLine(a);
      assert forall k :: 0 <= k < |b| ==> b[k] == output[k + i + 1];
      assert forall k :: 0 <= k < |a| ==> a[k] == output[k];
    } else {
      ChangeCountSingleLine(output);
      assert output != "" ==> output[0] in output;
    }
  }

  /** The Go function: run `git status --porcelain`, split its stdout on `\n`, count non-empty
      lines; a failed run reports its error. */
  method UncommittedChangeCount(run: Runner) returns (r: Result<nat>)
    ensures run(StatusArgs).exitCode != 0 <==> r.Err?
    ensures r.Err? ==> r.error == ExecutionFailure(run(StatusArgs).exitCode, run(StatusArgs).stderr)
    ensures r.Ok? ==> r.value == ChangeCount(run(StatusArgs).stdout)
  {
    var p := run(StatusArgs);
    if p.exitCode != 0 {
      return Err(ExecutionFailure(p.exitCode, p.stderr));
    }
    var lines := Text.Split(p.stdout, '\n');
    var count := 0;
    var i := 0;
    while i < |lines|
      invariant i <= |lines|
      invariant count == CountNonEmpty(lines[..i])
    {
      CountNonEmptyAppend(lines[..i], [lines[i]]);
      assert lines[..i + 1] == lines[..i] + [lines[i]];
      if lines[i] != "" {
        count := count + 1;
      }
      i := i + 1;
    }
    assert lines[..i] == lines;
    return Ok(count);
  }

  /** The command line the test registers for this query, so a stub registered under it
      answers `UncommittedChangeCount`. */
  lemma StatusCommandLine()
    ensures CommandLine(StatusArgs) == "git status --porcelain"
  {
    Text.JoinCons("git", StatusArgs, ' ');
    Text.JoinCons("status", ["--porcelain"], ' ');
    Text.JoinCons("--porcelain", [], ' ');
  }

  /** "no changes" in the test suite. */
  lemma NoChangesCase()
    ensures ChangeCount("") == 0
  {
  }

  /** "one change" in the test suite. */
  lemma OneChangeCase()
    ensures ChangeCount(" M poem.txt") == 1
  {
    ChangeCountSingleLine(" M poem.txt");
  }

  /** "untracked file" in the test suite: a modified and an untracked entry count alike. */
  lemma UntrackedFileCase()
    ensures ChangeCount(" M poem.txt\n?? new.txt") == 2
  {
    var first, second := " M poem.txt", "?? new.txt";
    ChangeCountSingleLine(first);
    ChangeCountSingleLine(second);
    ChangeCountConcat(first, second);
    assert first + "\n" + second == " M poem.txt\n?? new.txt";
  }
}
