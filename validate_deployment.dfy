/** The pre-flight validator: each probe is decided from the result of one shell
    command, and `main` runs the probes in a fixed order, gates the juju-specific
    ones and derives the exit code from a flag it clears step by step. Commands
    are run by an oracle `run` from the command line to its result. */
module ValidateDeployment {
  import opened Wrappers
  import opened Strings

  /** What `run_command` returns: stripped stdout, stripped stderr and the exit code. */
  datatype CommandResult = CommandResult(stdout: string, stderr: string, code: int)

  /** What `run_command` returns when the 60-second timeout expires. */
  const TimedOut := CommandResult("", "Command timed out", 1)

  /** The shell command that checks that a tool is on the search path. */
  function ToolCommand(tool: string): string {
    "command -v " + tool
  }

  const VersionCommand := "juju version"
  const WhoamiCommand := "juju whoami"
  const NotLoggedIn := "Not logged in"

  /** The tool probes in the order `main` runs them. */
  const ToolCommands := [ToolCommand("ansible"), ToolCommand("juju"), ToolCommand("lxd")]

  // ---------------------------------------------------------------------------
  // The probes
  // ---------------------------------------------------------------------------

  /** `check_tool_installed`: the tool is present iff `command -v` exits with 0. */
  predicate ToolInstalled(r: CommandResult) {
    r.code == 0
  }

  /** `stdout.split('-')[0]`: the version without its build suffix. */
  function VersionString(stdout: string): string {
    PrefixBefore(stdout, '-')
  }

  /** `version_str.split('.')[0]`: the leading component of the output, up to the
      first `-` or `.`, whichever comes first. */
  function MajorField(stdout: string): (m: string)
    ensures m <= stdout && '-' !in m && '.' !in m
    ensures |m| < |stdout| ==> stdout[|m|] == '-' || stdout[|m|] == '.'
  {
    PrefixBefore(VersionString(stdout), '.')
  }

  /** `check_juju_version`: a failing `juju version` is a failed probe; otherwise
      the probe passes iff the major version is at least 3. None stands for the
      ValueError that `int` raises on a major field that is not a number. */
  function CheckJujuVersion(r: CommandResult): Option<bool> {
    if r.code != 0 then Some(false)
    else
      match ParseNat(MajorField(r.stdout))
      case None => None
      case Some(major) => Some(major >= 3)
  }

  /** `check_juju_login`: logged in iff `juju whoami` exits with 0 and its stderr
      does not contain "Not logged in". */
  function LoggedIn(r: CommandResult): (ok: bool)
    ensures ok <==> r.code == 0 && forall i: nat :: !OccursAt(r.stderr, NotLoggedIn, i)
  {
    r.code == 0 && !Contains(r.stderr, NotLoggedIn)
  }

  // ---------------------------------------------------------------------------
  // Properties of the probes
  // ---------------------------------------------------------------------------

  /** A command that exits with a non-zero code fails every probe, and none of
      them faults: in particular a failing `juju version` is not parsed. */
  lemma FailedCommandFailsProbes(r: CommandResult)
    requires r.code != 0
    ensures !ToolInstalled(r)
    ensures CheckJujuVersion(r) == Some(false)
    ensures !LoggedIn(r)
  {
  }

  /** A command that timed out fails every probe, and none of them faults. */
  lemma TimedOutProbeFails()
    ensures !ToolInstalled(TimedOut)
    ensures CheckJujuVersion(TimedOut) == Some(false)
    ensures !LoggedIn(TimedOut)
  {
    FailedCommandFailsProbes(TimedOut);
  }

  /** On a successful `juju version`, whatever follows the major number after a
      `.` or `-`, the probe passes iff the major number is at least 3. */
  lemma VersionCheckReadsMajor(major: nat, rest: string, stderr: string)
    requires rest == [] || rest[0] == '.' || rest[0] == '-'
    ensures MajorField(Decimal(major) + rest) == Decimal(major)
    ensures CheckJujuVersion(CommandResult(Decimal(major) + rest, stderr, 0)) == Some(major >= 3)
  {
    var digits := Decimal(major);
    forall k | 0 <= k < |digits| ensures digits[k] != '-' && digits[k] != '.' {
      assert IsDigit(digits[k]);
    }
    TwoSeparators(digits + rest, digits);
    PrefixBeforeUnique(VersionString(digits + rest), '.', digits);
    ParseDecimal(major);
  }

  /** A prefix free of both separators and ended by one of them (or by the end
      of the output) is what remains after cutting at `-` and then at `.`. */
  lemma TwoSeparators(out: string, digits: string)
    requires digits <= out && '-' !in digits && '.' !in digits
    requires |digits| < |out| ==> out[|digits|] == '-' || out[|digits|] == '.'
    ensures digits <= VersionString(out)
    ensures |digits| < |VersionString(out)| ==> VersionString(out)[|digits|] == '.'
  {
    var version := VersionString(out);
    assert digits == out[..|digits|];
    assert version == out[..|version|];
  }

  /** The example from the source: "3.6.0-ubuntu-amd64" has version 3.6.0,
      major 3, and passes. */
  lemma VersionExample()
    ensures VersionString("3.6.0-ubuntu-amd64") == "3.6.0"
    ensures MajorField("3.6.0-ubuntu-amd64") == "3"
    ensures CheckJujuVersion(CommandResult("3.6.0-ubuntu-amd64", "", 0)) == Some(true)
  {
    PrefixBeforeUnique("3.6.0-ubuntu-amd64", '-', "3.6.0");
    PrefixBeforeUnique("3.6.0", '.', "3");
    assert Decimal(3) == "3";
    ParseDecimal(3);
  }

  /** A successful `juju version` makes the probe fault rather than fail exactly
      when its major field is not a non-empty string of digits (an empty output,
      a leading letter, "3a"). */
  lemma VersionCheckFaults(r: CommandResult)
    requires r.code == 0
    ensures CheckJujuVersion(r) == None <==> !(MajorField(r.stdout) != [] && AllDigits(MajorField(r.stdout)))
  {
  }

  // ---------------------------------------------------------------------------
  // main
  // ---------------------------------------------------------------------------

  /** How `main` ends: a `sys.exit` with a code, or the ValueError of the version
      probe, which `main` does not catch. */
  datatype Outcome = Exit(code: int) | Crash

  /** What one run of `main` does: how it ends, the commands it issued in order,
      and the advisory login result if the login probe ran. */
  datatype Report = Report(outcome: Outcome, issued: seq<string>, loggedIn: Option<bool>)

  predicate AllToolsInstalled(run: string -> CommandResult) {
    ToolInstalled(run(ToolCommand("ansible")))
    && ToolInstalled(run(ToolCommand("juju")))
    && ToolInstalled(run(ToolCommand("lxd")))
  }

  /** The gate of the juju-specific probes: `'juju' in sys.argv or all_checks_passed`. */
  predicate JujuChecksRun(argv: seq<string>, run: string -> CommandResult) {
    "juju" in argv || AllToolsInstalled(run)
  }

  /** The reference description of a run of `main`. `argv` is the whole of
      `sys.argv`, program name included. */
  function Preflight(argv: seq<string>, run: string -> CommandResult): Report {
    if !JujuChecksRun(argv, run) then
      Report(Exit(1), ToolCommands, None)
    else
      match CheckJujuVersion(run(VersionCommand))
      case None => Report(Crash, ToolCommands + [VersionCommand], None)
      case Some(versionOk) =>
        Report(Exit(if AllToolsInstalled(run) && versionOk then 0 else 1),
               ToolCommands + [VersionCommand, WhoamiCommand],
               Some(LoggedIn(run(WhoamiCommand))))
  }

  /** `main`: the three tool probes, then the gated version and login probes,
      with the flag `all_checks_passed` cleared by each failed critical probe. */
  method RunPreflight(argv: seq<string>, run: string -> CommandResult) returns (report: Report)
    ensures report == Preflight(argv, run)
  {
    var issued: seq<string> := [];
    var allChecksPassed := true;

    var ansible := run(ToolCommand("ansible"));
    issued := issued + [ToolCommand("ansible")];
    if !ToolInstalled(ansible) {
      allChecksPassed := false;
    }
    var juju := run(ToolCommand("juju"));
    issued := issued + [ToolCommand("juju")];
    if !ToolInstalled(juju) {
      allChecksPassed := false;
    }
    var lxd := run(ToolCommand("lxd"));
    issued := issued + [ToolCommand("lxd")];
    if !ToolInstalled(lxd) {
      allChecksPassed := false;
    }

    var loggedIn: Option<bool> := None;
    if "juju" in argv || allChecksPassed {
      var version := run(VersionCommand);
      issued := issued + [VersionCommand];
      var versionOk := CheckJujuVersion(version);
      if versionOk.None? {
        return Report(Crash, issued, None);
      }
      if !versionOk.value {
        allChecksPassed := false;
      }
      var whoami := run(WhoamiCommand);
      issued := issued + [WhoamiCommand];
      loggedIn := Some(LoggedIn(whoami));
    }

    report := Report(Exit(if allChecksPassed then 0 else 1), issued, loggedIn);
  }

  // ---------------------------------------------------------------------------
  // Properties of main
  // ---------------------------------------------------------------------------

  /** All three tool probes always run, first and in order, whatever their results. */
  lemma ToolProbesAlwaysRun(argv: seq<string>, run: string -> CommandResult)
    ensures |Preflight(argv, run).issued| >= 3
    ensures Preflight(argv, run).issued[..3] == ToolCommands
  {
  }

  /** The version probe runs iff `juju` is an argument or every tool probe passed;
      the login probe runs iff the version probe ran and did not fault. */
  lemma JujuProbesGated(argv: seq<string>, run: string -> CommandResult)
    ensures VersionCommand in Preflight(argv, run).issued <==> JujuChecksRun(argv, run)
    ensures WhoamiCommand in Preflight(argv, run).issued
        <==> JujuChecksRun(argv, run) && CheckJujuVersion(run(VersionCommand)).Some?
    ensures Preflight(argv, run).loggedIn.Some? <==> WhoamiCommand in Preflight(argv, run).issued
  {
    assert ToolCommands[0][0] == 'c' && ToolCommands[1][0] == 'c' && ToolCommands[2][0] == 'c';
    assert VersionCommand[0] == 'j' && WhoamiCommand[0] == 'j';
    assert VersionCommand[5] != WhoamiCommand[5];
  }

  /** The exit code is 0 iff every tool probe and the version probe passed, and 1
      otherwise; a version field that is not a number crashes the run instead. */
  lemma ExitCodeRule(argv: seq<string>, run: string -> CommandResult)
    ensures Preflight(argv, run).outcome == Exit(0)
        <==> AllToolsInstalled(run) && CheckJujuVersion(run(VersionCommand)) == Some(true)
    ensures Preflight(argv, run).outcome == Crash
        <==> JujuChecksRun(argv, run) && CheckJujuVersion(run(VersionCommand)).None?
    ensures Preflight(argv, run).outcome.Exit? ==> Preflight(argv, run).outcome.code in {0, 1}
  {
  }

  /** The login probe is advisory: two runs that differ only in what `juju whoami`
      answers end the same way and issue the same commands. */
  lemma LoginIsAdvisory(argv: seq<string>, run1: string -> CommandResult, run2: string -> CommandResult)
    requires forall c :: c != WhoamiCommand ==> run1(c) == run2(c)
    ensures Preflight(argv, run1).outcome == Preflight(argv, run2).outcome
    ensures Preflight(argv, run1).issued == Preflight(argv, run2).issued
  {
    assert ToolCommand("ansible")[0] != WhoamiCommand[0];
    assert ToolCommand("juju")[0] != WhoamiCommand[0];
    assert ToolCommand("lxd")[0] != WhoamiCommand[0];
    assert VersionCommand[5] != WhoamiCommand[5];
  }

  /** With every tool present and `juju version` reporting 3.6.0, the run passes
      whatever the login probe says. */
  lemma AllPresentExample(argv: seq<string>, run: string -> CommandResult)
    requires AllToolsInstalled(run)
    requires run(VersionCommand) == CommandResult("3.6.0-ubuntu-amd64", "", 0)
    ensures Preflight(argv, run).outcome == Exit(0)
  {
    VersionExample();
  }

  /** With juju missing and no `juju` argument, the run fails after the tool
      probes without running the juju-specific ones; with the argument, the
      version probe runs anyway. */
  lemma JujuMissingExample(argv: seq<string>, run: string -> CommandResult)
    requires !ToolInstalled(run(ToolCommand("juju")))
    ensures "juju" !in argv ==> Preflight(argv, run) == Report(Exit(1), ToolCommands, None)
    ensures "juju" in argv ==> Preflight(argv, run).issued[3] == VersionCommand
    ensures Preflight(argv, run).outcome != Exit(0)
  {
  }
}
