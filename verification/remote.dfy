/** `AddNamedRemote`: register a remote under a name and fetch it, optionally tracking only
    some of its branches, with `git -C DIR remote add [-t BRANCH]... -f NAME URL`. */
module Remote {
  import Text
  import opened Process

  /** What the caller asks for: the remote's URL and name, the local repository directory,
      and the branches to track in the order given (none means all). */
  datatype RemoteSpec = RemoteSpec(url: string, name: string, dir: string, branches: seq<string>)

  datatype Option<T> = None | Some(value: T)

  /** One `-t BRANCH` pair per branch, in order. */
  function TrackingFlags(branches: seq<string>): (flags: seq<string>)
    ensures |flags| == 2 * |branches|
    ensures forall i :: 0 <= i < |branches| ==> flags[2 * i] == "-t" && flags[2 * i + 1] == branches[i]
  {
    if |branches| == 0 then []
    else
      var rest := TrackingFlags(branches[1..]);
      var flags := ["-t", branches[0]] + rest;
      assert forall i :: 0 <= i < |branches| ==> flags[2 * i] == "-t" && flags[2 * i + 1] == branches[i] by {
        forall i | 1 <= i < |branches|
          ensures flags[2 * i] == "-t" && flags[2 * i + 1] == branches[i]
        {
          var j := i - 1;
          assert 2 * i == 2 * j + 2;
          assert branches[i] == branches[1..][j];
        }
      }
      flags
  }

  lemma {:induction false} TrackingFlagsSnoc(branches: seq<string>, b: string)
    ensures TrackingFlags(branches + [b]) == TrackingFlags(branches) + ["-t", b]
  {
    if |branches| == 0 {
      assert branches + [b] == [b];
    } else {
      assert (branches + [b])[1..] == branches[1..] + [b];
      TrackingFlagsSnoc(branches[1..], b);
    }
  }

  /** The argument vector for `git`: every position is fixed by the request, so the list is
      `-C DIR remote add`, the tracking pairs, then `-f NAME URL`. */
  function RemoteAddArgs(spec: RemoteSpec): (args: seq<string>)
    ensures |args| == 7 + 2 * |spec.branches|
    ensures args[..4] == ["-C", spec.dir, "remote", "add"]
    ensures forall i :: 0 <= i < |spec.branches| ==> args[4 + 2 * i] == "-t" && args[5 + 2 * i] == spec.branches[i]
    ensures args[|args| - 3..] == ["-f", spec.name, spec.url]
  {
    var flags := TrackingFlags(spec.branches);
    var args := ["-C", spec.dir, "remote", "add"] + flags + ["-f", spec.name, spec.url];
    assert forall i :: 0 <= i < |spec.branches| ==> args[4 + 2 * i] == flags[2 * i] && args[5 + 2 * i] == flags[2 * i + 1];
    args
  }

  /** The branch names of a run of `-t BRANCH` pairs, or nothing when the run is malformed. */
  function TrackedBranches(flags: seq<string>): Option<seq<string>>
    decreases |flags|
  {
    if |flags| == 0 then Some([])
    else if |flags| == 1 || flags[0] != "-t" then None
    else match TrackedBranches(flags[2..])
      case None => None
      case Some(rest) => Some([flags[1]] + rest)
  }

  /** Reads a `remote add` argument vector back into the request it was built from. */
  function ParseRemoteAddArgs(args: seq<string>): Option<RemoteSpec>
  {
    if |args| < 7 || args[0] != "-C" || args[2] != "remote" || args[3] != "add" || args[|args| - 3] != "-f" then None
    else match TrackedBranches(args[4..|args| - 3])
      case None => None
      case Some(branches) => Some(RemoteSpec(args[|args| - 1], args[|args| - 2], args[1], branches))
  }

  lemma {:induction false} TrackedBranchesOfFlags(branches: seq<string>)
    ensures TrackedBranches(TrackingFlags(branches)) == Some(branches)
  {
    if |branches| > 0 {
      var flags := TrackingFlags(branches);
      assert flags[2..] == TrackingFlags(branches[1..]);
      TrackedBranchesOfFlags(branches[1..]);
      assert [branches[0]] + branches[1..] == branches;
    }
  }

  lemma {:induction false} FlagsOfTrackedBranches(flags: seq<string>)
    requires TrackedBranches(flags).Some?
    ensures TrackingFlags(TrackedBranches(flags).value) == flags
    decreases |flags|
  {
    if |flags| > 0 {
      FlagsOfTrackedBranches(flags[2..]);
      var rest := TrackedBranches(flags[2..]).value;
      assert ([flags[1]] + rest)[1..] == rest;
      assert flags == flags[..2] + flags[2..];
    }
  }

  /** No two requests share an argument vector: parsing recovers the request exactly. */
  lemma RemoteAddRoundTrip(spec: RemoteSpec)
    ensures ParseRemoteAddArgs(RemoteAddArgs(spec)) == Some(spec)
  {
    var args := RemoteAddArgs(spec);
    var n := |args|;
    var flags := TrackingFlags(spec.branches);
    assert args == ["-C", spec.dir, "remote", "add"] + flags + ["-f", spec.name, spec.url];
    assert args[4..n - 3] == flags;
    assert args[0] == "-C" && args[1] == spec.dir && args[2] == "remote" && args[3] == "add";
    assert args[n - 3] == "-f" && args[n - 2] == spec.name && args[n - 1] == spec.url;
    TrackedBranchesOfFlags(spec.branches);
  }

  /** Every vector the parser accepts is the one built for the request it yields. */
  lemma RemoteAddParseExact(args: seq<string>)
    requires ParseRemoteAddArgs(args).Some?
    ensures RemoteAddArgs(ParseRemoteAddArgs(args).value) == args
  {
    var n := |args|;
    var flags := args[4..n - 3];
    var branches := TrackedBranches(flags).value;
    var spec := RemoteSpec(args[n - 1], args[n - 2], args[1], branches);
    assert ParseRemoteAddArgs(args) == Some(spec);
    FlagsOfTrackedBranches(flags);
    assert args[..4] == ["-C", spec.dir, "remote", "add"];
    assert args[n - 3..] == ["-f", spec.name, spec.url];
    assert args == args[..4] + flags + args[n - 3..];
  }

  /** The Go function: grow the argument list pair by pair, then hand it to `git`; the error it
      returns is that of the finished process. */
  method AddNamedRemote(url: string, name: string, dir: string, branches: seq<string>, run: Runner)
    returns (args: seq<string>, err: Outcome)
    ensures args == RemoteAddArgs(RemoteSpec(url, name, dir, branches))
    ensures err.Pass? <==> run(args).exitCode == 0
    ensures err.Fail? ==> err.error == ExecutionFailure(run(args).exitCode, run(args).stderr)
  {
    var head := ["-C", dir, "remote", "add"];
    args := head;
    var i := 0;
    while i < |branches|
      invariant i <= |branches|
      invariant args == head + TrackingFlags(branches[..i])
    {
      TrackingFlagsSnoc(branches[..i], branches[i]);
      assert branches[..i + 1] == branches[..i] + [branches[i]];
      args := args + ["-t", branches[i]];
      i := i + 1;
    }
    assert branches[..i] == branches;
    args := args + ["-f", name, url];
    err := Failure(run(args));
  }

  /** "fetch all" in the test suite: no branches, so no `-t`; the words are those of the
      registered command line `git -C DIRECTORY remote add -f test URL`. */
  lemma FetchAllCase()
    ensures [Git] + RemoteAddArgs(RemoteSpec("URL", "test", "DIRECTORY", []))
            == ["git", "-C", "DIRECTORY", "remote", "add", "-f", "test", "URL"]
  {
  }

  /** "fetch specific branches only" in the test suite: one `-t` pair per branch, in order; the
      words are those of `git -C DIRECTORY remote add -t trunk -t dev -f test URL`. */
  lemma FetchBranchesCase()
    ensures [Git] + RemoteAddArgs(RemoteSpec("URL", "test", "DIRECTORY", ["trunk", "dev"]))
            == ["git", "-C", "DIRECTORY", "remote", "add", "-t", "trunk", "-t", "dev", "-f", "test", "URL"]
  {
  }
}
