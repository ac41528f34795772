/** `JavaInstall` (index.ts): one candidate executable path and the state of
    its probe. The child process `ensureInfo` starts (the path run as
    `-jar PrintJavaVersion.jar` with a 1000 ms timeout) is not modelled; its
    outcome is the argument of `EnsureInfo`. */
module Install {
  import opened Wrappers
  import opened JsString
  import opened JavaVersion

  /** The strings "x86", "x64" and "unknown" that `_arch` takes. */
  datatype Arch = X86 | X64 | Unknown

  /** What `execFile` hands its callback: an error (non-zero exit, spawn
      failure, timeout) or the standard output. */
  datatype ExecResult = ExecError | Output(stdout: string)

  /** How the promise `ensureInfo` returns ends: it resolves, it rejects
      with the `execFile` error, or the `JavaVersion` constructor throws
      inside the callback and the promise never settles. */
  datatype ProbeOutcome = Resolved | Rejected | Threw

  /** The helper's standard output, trimmed and split into lines. */
  function ProbeLines(stdout: string): (lines: seq<string>)
    ensures |lines| >= 1
    ensures forall i :: 0 <= i < |lines| ==> '\n' !in lines[i]
  {
    Split(Trim(stdout), '\n')
  }

  /** The `switch` on the second line; a missing line is `undefined`. */
  function ArchOf(lines: seq<string>): Arch {
    if |lines| < 2 then Unknown
    else if lines[1] == "32" then X86
    else if lines[1] == "64" then X64
    else Unknown
  }

  /** Output with no second line leaves the architecture unknown. */
  lemma NoSecondLine(stdout: string)
    requires '\n' !in Trim(stdout)
    ensures ProbeLines(stdout) == [Trim(stdout)] && ArchOf(ProbeLines(stdout)) == Unknown
  {
  }

  /** Output of the form "version\nbits" followed by white space (a CRLF or
      LF line end) reads back as exactly its two lines, so the architecture
      is that of the second line. */
  lemma HelperOutputLines(v: string, bits: string, trail: string)
    requires v != [] && !IsWhiteSpace(v[0]) && '\n' !in v
    requires bits != [] && !IsWhiteSpace(bits[|bits| - 1]) && '\n' !in bits
    requires forall k :: 0 <= k < |trail| ==> IsWhiteSpace(trail[k])
    ensures ProbeLines(v + "\n" + bits + trail) == [v, bits]
    ensures ArchOf(ProbeLines(v + "\n" + bits + trail)) ==
              (if bits == "32" then X86 else if bits == "64" then X64 else Unknown)
  {
    var x := v + "\n" + bits;
    assert (x + trail)[0] == v[0];
    assert TrimStart(x + trail) == x + trail;
    TrimEndAppendSpace(x, trail);
    assert x[|x| - 1] == bits[|bits| - 1];
    assert TrimEnd(x) == x;
    assert Trim(x + trail) == x;
    assert Join([v, bits], '\n') == x;
    SplitJoin([v, bits], '\n');
  }

  /** The helper's output as a Windows JVM prints it, with CRLF line ends:
      the carriage return stays on the version line (which the unanchored
      regex skips, see `JavaVersion.ParseCarriageReturn`). */
  lemma WindowsHelperOutput()
    ensures ProbeLines("1.8.0_151\r\n64\r\n") == ["1.8.0_151\r", "64"]
    ensures ArchOf(ProbeLines("1.8.0_151\r\n64\r\n")) == X64
  {
    assert "1.8.0_151\r\n64\r\n" == "1.8.0_151\r" + "\n" + "64" + "\r\n";
    HelperOutputLines("1.8.0_151\r", "64", "\r\n");
  }

  class JavaInstall {
    const path: string
    var arch: Option<Arch>
    var version: Option<Version>
    var gotInfo: bool
    var invalid: bool

    /** `_gotInfo` is never set, and `_version` is written only after `_arch`. */
    ghost predicate Valid()
      reads this
    {
      !gotInfo && (version.Some? ==> arch.Some?)
    }

    constructor (path: string)
      ensures Valid()
      ensures this.path == path && arch == None && version == None
      ensures !gotInfo && !invalid
    {
      this.path := path;
      arch := None;
      version := None;
      gotInfo := false;
      invalid := false;
    }

    /** `ensureInfo()`, with `exec` the result of the child process it would
        start. `spawned` says whether it starts one. */
    method EnsureInfo(exec: ExecResult) returns (spawned: bool, outcome: ProbeOutcome)
      requires Valid()
      modifies this
      ensures Valid()
      ensures spawned == !old(invalid)
      ensures old(invalid) ==> invalid
      ensures !spawned ==> outcome == Resolved && arch == old(arch) && version == old(version)
      ensures spawned && exec.ExecError? ==>
                outcome == Rejected && invalid && arch == old(arch) && version == old(version)
      ensures spawned && exec.Output? ==>
                !invalid && arch == Some(ArchOf(ProbeLines(exec.stdout)))
                && var parsed := Parse(ProbeLines(exec.stdout)[0]);
                   (parsed.Some? ==> outcome == Resolved && version == parsed)
                   && (parsed.None? ==> outcome == Threw && version == old(version))
    {
      if !gotInfo && !invalid {
        spawned := true;
        match exec
        case ExecError =>
          invalid := true;
          outcome := Rejected;
        case Output(stdout) =>
          var lines := ProbeLines(stdout);
          arch := Some(ArchOf(lines));
          var parsed := Parse(lines[0]);
          if parsed.Some? {
            version := parsed;
            outcome := Resolved;
          } else {
            outcome := Threw;
          }
      } else {
        spawned := false;
        outcome := Resolved;
      }
    }
  }

  /** A fresh install probed once per element of `results`, sequentially
      (each call made after the previous one settled): every call
      starts a child process until the first one fails, and none after it.
      A successful probe never stops the next call from probing again. */
  method ProbeRepeatedly(path: string, results: seq<ExecResult>) returns (spawns: nat, invalid: bool)
    ensures invalid <==> ExecError in results
    ensures ExecError !in results ==> spawns == |results|
    ensures ExecError in results ==>
              0 < spawns <= |results| && results[spawns - 1] == ExecError
              && ExecError !in results[..spawns - 1]
  {
    var install := new JavaInstall(path);
    spawns := 0;
    for i := 0 to |results|
      invariant install.Valid()
      invariant install.invalid <==> ExecError in results[..i]
      invariant ExecError !in results[..i] ==> spawns == i
      invariant ExecError in results[..i] ==>
                  0 < spawns <= i && results[spawns - 1] == ExecError
                  && ExecError !in results[..spawns - 1]
    {
      assert results[..i + 1] == results[..i] + [results[i]];
      var spawned, _ := install.EnsureInfo(results[i]);
      if spawned {
        spawns := spawns + 1;
      }
    }
    assert results[..|results|] == results;
    invalid := install.invalid;
  }
}
