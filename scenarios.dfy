/**
 Concrete runs of the harness rules: the runner names mentioned in the
 harness's usage text, the default workload per language, and whole runs
 over small discovery results.
 */
module BenchScenarios {
  import opened PyText
  import opened Bench

  /** Labels of typical runner names, including a name the `--default` filter keeps although it is a variant script. */
  lemma RunnerNameLabels()
    ensures VariantLabel("run.sh") == "release"
    ensures VariantLabel("run_pgo.sh") == "pgo"
    ensures VariantLabel("run_pypy.sh") == "pypy"
    ensures VariantLabel("run_release.sh") == "release"
    ensures VariantLabel("run-safe.sh") == "release"
  {
    ReleaseNameLabels();
    VariantName("pgo");
    assert "run_" + "pgo" + ".sh" == "run_pgo.sh";
    VariantNameLabels();
  }

  lemma ReleaseNameLabels()
    ensures VariantLabel("run.sh") == "release"
    ensures VariantLabel("run-safe.sh") == "release"
  {
    ReleaseName("run.sh");
    ReleaseName("run-safe.sh");
  }

  lemma VariantNameLabels()
    ensures VariantLabel("run_pypy.sh") == "pypy"
    ensures VariantLabel("run_release.sh") == "release"
  {
    VariantName("pypy");
    assert "run_" + "pypy" + ".sh" == "run_pypy.sh";
    VariantName("release");
    assert "run_" + "release" + ".sh" == "run_release.sh";
  }

  /** `run_<body>.sh` has label `body`. */
  lemma VariantName(body: string)
    requires '\n' !in body
    ensures VariantLabel("run_" + body + ".sh") == body
  {
    var name := "run_" + body + ".sh";
    assert name[..3] == "run";
    assert name[|name| - 3..] == ".sh";
    assert name[..4] == "run_";
    forall k | 0 <= k < |name|
      ensures name[k] != '\n'
    {
      if 4 <= k < 4 + |body| {
        assert name[k] == body[k - 4];
      }
    }
    VariantLabelOfRunnerName(name);
    assert name[4..|name| - 3] == body;
  }

  /** A one-line runner name whose fourth character is not `_` has label "release". */
  lemma ReleaseName(name: string)
    requires IsRunnerName(name) && '\n' !in name && name[3] != '_'
    ensures VariantLabel(name) == Release
  {
    VariantLabelOfRunnerName(name);
  }

  /** The regex's `.` stops at a newline: with no `.sh` tail before it, a two-line name gets no variant label. */
  lemma TwoLineRunnerName()
    ensures IsRunnerName("run_a\nb.sh")
    ensures VariantLabel("run_a\nb.sh") == "release"
  {
    var name := "run_a\nb.sh";
    assert name[5] == '\n';
    assert LineEnd(name, 5) == 5;
    assert LineEnd(name, 4) == 5;
    assert !ShAt(name, 4);
  }

  /** A `.sh` tail on the first line still matches, whatever follows the newline. */
  lemma TwoLineRunnerNameWithTail()
    ensures IsRunnerName("run_a.sh\nb.sh")
    ensures VariantLabel("run_a.sh\nb.sh") == "a"
  {
    var name := "run_a.sh\nb.sh";
    assert name[8] == '\n';
    assert LineEnd(name, 8) == 8;
    assert LineEnd(name, 4) == 8;
    assert !ShAt(name, 7) && !ShAt(name, 6) && ShAt(name, 5);
    assert name[4..5] == "a";
  }

  /** With the default `--frames`, what each kind of runner is asked to profile. */
  lemma DefaultWorkloads()
    ensures ScaleFrames("go", "release", DefaultFrames) == 600
    ensures ScaleFrames("py", "release", DefaultFrames) == 60
    ensures ScaleFrames("php", "release", DefaultFrames) == 60
    ensures ScaleFrames("zig", "safe", DefaultFrames) == 60
    ensures ScaleFrames("zig", "release", DefaultFrames) == 6000
    ensures ScaleFrames("rs", "safe", DefaultFrames) == 6000
    ensures ScaleFrames("py", "release", 99) == 1
    ensures ScaleFrames("go", "release", -25) == 1
  {
  }

  /** The output of a passing `go` runner: a progress line, then the throughput line. */
  const GoOutput: string := "init\n600 frames\n"

  /** A runner that passes in `go` and fails elsewhere. */
  function GoPassesRsFails(inv: Invocation): Outcome
  {
    if inv.cwd == "go" then Outcome(0, GoOutput) else Outcome(1, "panic")
  }

  /** The reported line of a passing run is its last line that mentions "frames", not the trailing empty line. */
  lemma GoOutputStatus()
    ensures ReportOf(Outcome(0, GoOutput)) == Passed("600 frames")
  {
    var lines := ["init", "600 frames", ""];
    GoOutputLines();
    assert '\n' !in lines[0] && '\n' !in lines[1] && '\n' !in lines[2];
    SplitJoin(lines, '\n');
    GoOutputLastStatus();
  }

  lemma GoOutputLines()
    ensures Join(["init", "600 frames", ""], '\n') == GoOutput
  {
    var lines := ["init", "600 frames", ""];
    assert lines[1..] == ["600 frames", ""];
    assert lines[1..][1..] == [""];
    assert Join(lines[1..], '\n') == "600 frames" + "\n" + "";
    assert Join(lines, '\n') == "init" + "\n" + ("600 frames" + "\n" + "");
  }

  lemma GoOutputLastStatus()
    ensures LastStatusLine(["init", "600 frames", ""]) == "600 frames"
  {
    var lines := ["init", "600 frames", ""];
    assert OccursAt(lines[1], Marker, 4);
    assert !Contains(lines[2], Marker);
    assert lines[..2] == [lines[0], lines[1]];
  }

  /** Both runners are selected, in discovery order, with the unscaled frame count. */
  lemma GoRsSelection()
    ensures Selected(Args(false, false, DefaultFrames, ["go", "rs"]), [RunnerPath("go", "run.sh"), RunnerPath("rs", "run.sh")])
            == [TestCase("go", "run.sh", "release", 6000), TestCase("rs", "run.sh", "release", 6000)]
  {
    var args := Args(false, false, DefaultFrames, ["go", "rs"]);
    var found := [RunnerPath("go", "run.sh"), RunnerPath("rs", "run.sh")];
    RunnerNameLabels();
    assert Keeps(args, found[0]) && Keeps(args, found[1]);
    assert found[..1] == [found[0]];
    assert found[..1][..0] == [];
  }

  /** `go/run.sh` passes and reports its throughput line, `rs/run.sh` fails, so the run exits with 1. */
  lemma GoPassesRsFailsRun()
    ensures var args := Args(false, false, DefaultFrames, ["go", "rs"]);
            var found := [RunnerPath("go", "run.sh"), RunnerPath("rs", "run.sh")];
            var tests := Selected(args, found);
            && tests == [TestCase("go", "run.sh", "release", 6000), TestCase("rs", "run.sh", "release", 6000)]
            && InvocationOf(tests[0]) == Invocation("go", "run.sh", 600)
            && ReportOf(GoPassesRsFails(InvocationOf(tests[0]))) == Passed("600 frames")
            && ReportOf(GoPassesRsFails(InvocationOf(tests[1]))) == Failed("panic")
            && RunExitCode(args, found, GoPassesRsFails) == 1
  {
    var args := Args(false, false, DefaultFrames, ["go", "rs"]);
    var found := [RunnerPath("go", "run.sh"), RunnerPath("rs", "run.sh")];
    GoRsSelection();
    GoOutputStatus();
    var tests := Selected(args, found);
    assert ScaleFrames("go", "release", 6000) == 600;
    assert InvocationOf(tests[0]) == Invocation("go", "run.sh", 600);
    assert GoPassesRsFails(InvocationOf(tests[0])) == Outcome(0, GoOutput);
    assert GoPassesRsFails(InvocationOf(tests[1])) == Outcome(1, "panic");
    RunExitCodeZeroIff(args, found, GoPassesRsFails);
    assert tests[1] in tests;
  }

  /** `--default` skips a `run_pgo.sh` variant but keeps `run_release.sh`, whose label is "release". */
  lemma DefaultOnlyKeepsReleaseLabels()
    ensures var args := Args(true, false, 100, []);
            var found := [RunnerPath("cpp", "run_pgo.sh"), RunnerPath("cpp", "run_release.sh"), RunnerPath("go", "run.sh")];
            Selected(args, found) == [TestCase("cpp", "run_release.sh", "release", 100), TestCase("go", "run.sh", "release", 100)]
  {
    var args := Args(true, false, 100, []);
    var found := [RunnerPath("cpp", "run_pgo.sh"), RunnerPath("cpp", "run_release.sh"), RunnerPath("go", "run.sh")];
    assert VariantLabel(found[0].runner) == "pgo" && VariantLabel(found[1].runner) == Release
        && VariantLabel(found[2].runner) == Release by {
      RunnerNameLabels();
    }
    assert !Keeps(args, found[0]) && Keeps(args, found[1]) && Keeps(args, found[2]);
    assert found[..2] == [found[0], found[1]];
    assert found[..2][..1] == [found[0]];
    assert found[..2][..1][..0] == [];
    assert Selected(args, found[..2][..1]) == [];
    assert Selected(args, found[..2]) == [CaseOf(args, found[1])];
    assert Selected(args, found) == [CaseOf(args, found[1]), CaseOf(args, found[2])];
  }

  /** With no runner discovered nothing runs and the run succeeds. */
  lemma NothingFoundSucceeds(args: Args, exec: Invocation -> Outcome)
    ensures Selected(args, []) == []
    ensures RunExitCode(args, [], exec) == 0
  {
    RunExitCodeZeroIff(args, [], exec);
  }
}
