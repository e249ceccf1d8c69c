/**
 The deterministic rules inside the rosettaboy benchmark harness
 (`utils/bench.py`): how a runner script's file name gives its variant
 label, which discovered runners are selected, how the requested frame
 count is scaled per language, which output line is reported, and how the
 per-runner results give the harness's exit code.

 Discovery, the subprocess and the console are inputs: a discovered runner
 is a `RunnerPath`, and running a runner is a total function
 `exec: Invocation -> Outcome` from what the harness starts to what the
 process returns.
 */
module Bench {
  import opened PyText

  datatype Option<T> = None | Some(value: T)

  /** `--frames` when it is not given. */
  const DefaultFrames: int := 6000
  /** The label of a runner that is not a `run_<variant>.sh` script. */
  const Release: string := "release"
  /** The word that marks the throughput line in a runner's output. */
  const Marker: string := "frames"

  // ---------------------------------------------------------------------------
  // Frame scaling (`test`, before the subprocess starts)
  // ---------------------------------------------------------------------------

  /** Python's `int(a / d)`: division rounded toward zero (the float step is not modelled). */
  function TruncDiv(a: int, d: int): (q: int)
    requires d > 0
    ensures a >= 0 ==> 0 <= q && q * d <= a < q * d + d
    ensures a < 0 ==> q <= 0 && q * d - d < a <= q * d
  {
    if a >= 0 then
      DivBounds(a, d);
      a / d
    else
      DivBounds(-a, d);
      assert -((-a) / d) * d == -(((-a) / d) * d);
      -((-a) / d)
  }

  /** Dafny's `/` on a non-negative dividend: the quotient is the number of whole `d`s in `a`. */
  lemma DivBounds(a: int, d: int)
    requires a >= 0 && d > 0
    ensures 0 <= a / d && (a / d) * d <= a < (a / d) * d + d
  {
    var q, r := a / d, a % d;
    assert a == d * q + r && 0 <= r < d;
    assert q * d == d * q;
  }

  function Max(a: int, b: int): int
  {
    if a >= b then a else b
  }

  /** The frame count a runner is asked to profile: slow languages get a smaller workload, never less than one frame. */
  function ScaleFrames(lang: string, sub: string, frames: int): (n: int)
    ensures n >= 1
  {
    var scaled :=
      if lang in {"go"} then TruncDiv(frames, 10)
      else if lang in {"py", "php"} || (lang == "zig" && sub == "safe") then TruncDiv(frames, 100)
      else frames;
    Max(scaled, 1)
  }

  /** The per-language slow-down factor, as configuration data. */
  function Divisor(lang: string, sub: string): (d: int)
  {
    match (lang, sub)
    case ("go", _) => 10
    case ("py", _) => 100
    case ("php", _) => 100
    case ("zig", "safe") => 100
    case _ => 1
  }

  /**
   The scaled count is the requested count divided by the language's factor
   (rounding toward zero or down makes no difference), clamped to one.
   */
  lemma ScaleFramesByLanguage(lang: string, sub: string, frames: int)
    ensures lang == "go" ==> ScaleFrames(lang, sub, frames) == Max(frames / 10, 1)
    ensures lang == "py" || lang == "php" || (lang == "zig" && sub == "safe") ==>
              ScaleFrames(lang, sub, frames) == Max(frames / 100, 1)
    ensures lang != "go" && lang != "py" && lang != "php" && !(lang == "zig" && sub == "safe") ==>
              ScaleFrames(lang, sub, frames) == Max(frames, 1)
    ensures ScaleFrames(lang, sub, frames) == Max(frames / Divisor(lang, sub), 1)
  {
  }

  /** Above the factor, the runner gets exactly the whole number of "factor-sized" chunks of the requested work. */
  lemma ScaleFramesBounded(lang: string, sub: string, frames: int)
    ensures frames >= Divisor(lang, sub) ==>
              ScaleFrames(lang, sub, frames) * Divisor(lang, sub) <= frames
                < (ScaleFrames(lang, sub, frames) + 1) * Divisor(lang, sub)
    ensures frames < Divisor(lang, sub) ==> ScaleFrames(lang, sub, frames) == 1
    ensures ScaleFrames(lang, sub, frames) <= Max(frames, 1)
  {
    ScaleFramesByLanguage(lang, sub, frames);
  }

  /** Asking for more frames never gives a runner fewer. */
  lemma ScaleFramesMonotone(lang: string, sub: string, f1: int, f2: int)
    requires f1 <= f2
    ensures ScaleFrames(lang, sub, f1) <= ScaleFrames(lang, sub, f2)
  {
    ScaleFramesByLanguage(lang, sub, f1);
    ScaleFramesByLanguage(lang, sub, f2);
    if Divisor(lang, sub) == 10 {
      assert f1 / 10 <= f2 / 10;
    } else if Divisor(lang, sub) == 100 {
      assert f1 / 100 <= f2 / 100;
    }
  }

  // ---------------------------------------------------------------------------
  // Variant label (`main`, `re.match("run_(.*).sh", runner)`)
  // ---------------------------------------------------------------------------

  /** The pattern's `.sh` tail can match at `j`: any character at `j`, then "sh". */
  predicate ShAt(name: string, j: int)
  {
    0 <= j && j + 3 <= |name| && name[j + 1] == 's' && name[j + 2] == 'h'
  }

  /** The end of the line that starts at `from`: where `.` stops matching. */
  function LineEnd(s: string, from: nat): (e: nat)
    requires from <= |s|
    ensures from <= e <= |s|
    ensures e < |s| ==> s[e] == '\n'
    ensures forall k | from <= k < e :: s[k] != '\n'
    decreases |s| - from
  {
    if from == |s| || s[from] == '\n' then from else LineEnd(s, from + 1)
  }

  /** The largest `j` in `[lo, hi)` where the `.sh` tail matches, if any. */
  function LastShBelow(name: string, lo: nat, hi: nat): (j: Option<nat>)
    requires hi <= |name|
    ensures j.Some? ==> lo <= j.value < hi && ShAt(name, j.value)
    ensures j.Some? ==> forall k | j.value < k < hi :: !ShAt(name, k)
    ensures j.None? ==> forall k | lo <= k < hi :: !ShAt(name, k)
    decreases hi
  {
    if hi <= lo then None
    else if ShAt(name, hi - 1) then Some(hi - 1)
    else LastShBelow(name, lo, hi - 1)
  }

  /**
   `re.match("run_(.*).sh", name)` and its group 1: the pattern is anchored at
   the start only, `.` does not match a newline, and the greedy group ends at
   the last place where the `.sh` tail still matches.
   */
  function MatchRunVariant(name: string): (g: Option<string>)
    ensures g.Some? ==> |name| >= 4 && name[..4] == "run_"
    ensures g.Some? ==> 4 + |g.value| + 3 <= |name|
  {
    if |name| >= 4 && name[..4] == "run_" then
      match LastShBelow(name, 4, LineEnd(name, 4))
      case Some(j) => Some(name[4..j])
      case None => None
    else None
  }

  /** What the regex engine finds: a match exactly when a `.sh` tail fits on the first line, and then the longest group. */
  lemma MatchRunVariantSpec(name: string)
    ensures MatchRunVariant(name).Some? <==>
              |name| >= 4 && name[..4] == "run_" &&
              exists j | 4 <= j < LineEnd(name, 4) :: ShAt(name, j)
    ensures MatchRunVariant(name).Some? ==>
              exists j | 4 <= j < LineEnd(name, 4) :: ShAt(name, j) && MatchRunVariant(name).value == name[4..j] &&
                forall k | j < k < LineEnd(name, 4) :: !ShAt(name, k)
  {
    if |name| >= 4 && name[..4] == "run_" {
      var r := LastShBelow(name, 4, LineEnd(name, 4));
      if r.Some? {
        assert ShAt(name, r.value);
      }
    }
  }

  /** The variant label of a runner script: the regex group when the pattern matches, "release" otherwise. */
  function VariantLabel(runner: string): (sub: string)
    ensures !(|runner| >= 4 && runner[..4] == "run_") ==> sub == Release
  {
    match MatchRunVariant(runner)
    case Some(g) => g
    case None => Release
  }

  /** A base name that the runner glob (`run*.sh` inside a language directory) can return. */
  predicate IsRunnerName(name: string)
  {
    |name| >= 6 && name[..3] == "run" && name[|name| - 3..] == ".sh"
  }

  /**
   For a one-line runner name found by the glob, the label is the text between
   `run_` and the final `.sh`, or "release" when the name does not start with `run_`.
   */
  lemma VariantLabelOfRunnerName(name: string)
    requires IsRunnerName(name)
    requires '\n' !in name
    ensures name[..4] != "run_" ==> VariantLabel(name) == Release
    ensures name[..4] == "run_" ==> 4 <= |name| - 3 && VariantLabel(name) == name[4..|name| - 3]
  {
    if name[..4] == "run_" {
      assert name[3] == '_';
      assert name[|name| - 3..][0] == name[|name| - 3] == '.';
      var e := LineEnd(name, 4);
      assert forall k | 0 <= k < |name| :: name[k] != '\n';
      assert e == |name|;
      var last := |name| - 3;
      assert name[last..][1] == name[last + 1] && name[last..][2] == name[last + 2];
      assert ShAt(name, last);
      MatchRunVariantSpec(name);
      var g := MatchRunVariant(name);
      var j :| 4 <= j < e && ShAt(name, j) && g.value == name[4..j] &&
               forall k | j < k < e :: !ShAt(name, k);
      assert j == last;
    }
  }

  // ---------------------------------------------------------------------------
  // Test selection (`main`, the loop over the glob results)
  // ---------------------------------------------------------------------------

  /** One glob hit `<lang>/<runner>`, split by `os.path.dirname` / `os.path.basename`. */
  datatype RunnerPath = RunnerPath(lang: string, runner: string)

  /** The parsed command line. */
  datatype Args = Args(defaultOnly: bool, parallel: bool, frames: int, langs: seq<string>)

  /** One benchmark to run; `frames` is the unscaled `--frames` value. */
  datatype TestCase = TestCase(lang: string, runner: string, sub: string, frames: int)

  /** Neither the language filter nor `--default` skips a runner with this language and label. */
  predicate Wanted(args: Args, lang: string, sub: string)
  {
    !(|args.langs| > 0 && lang !in args.langs) && !(args.defaultOnly && sub != Release)
  }

  predicate Keeps(args: Args, p: RunnerPath)
  {
    Wanted(args, p.lang, VariantLabel(p.runner))
  }

  function CaseOf(args: Args, p: RunnerPath): TestCase
  {
    TestCase(p.lang, p.runner, VariantLabel(p.runner), args.frames)
  }

  /** The test list built from the runners found so far, in discovery order. */
  function Selected(args: Args, found: seq<RunnerPath>): (tests: seq<TestCase>)
  {
    if |found| == 0 then []
    else
      var last := found[|found| - 1];
      Selected(args, found[..|found| - 1]) + (if Keeps(args, last) then [CaseOf(args, last)] else [])
  }

  /** The selection loop: builds exactly the list `Selected` describes. */
  method SelectTests(args: Args, found: seq<RunnerPath>) returns (tests: seq<TestCase>)
    ensures tests == Selected(args, found)
  {
    tests := [];
    for k := 0 to |found|
      invariant tests == Selected(args, found[..k])
    {
      assert found[..k + 1][..k] == found[..k];
      var lang, runner := found[k].lang, found[k].runner;
      var sub := Release;
      var m := MatchRunVariant(runner);
      if m.Some? {
        sub := m.value;
      }
      if |args.langs| > 0 && lang !in args.langs {
        continue;
      }
      if args.defaultOnly && sub != Release {
        continue;
      }
      tests := tests + [TestCase(lang, runner, sub, args.frames)];
    }
    assert found[..|found|] == found;
  }

  /** A test is selected exactly when some discovered runner passes both filters and gives that test. */
  lemma {:induction false} SelectedMembers(args: Args, found: seq<RunnerPath>, t: TestCase)
    ensures t in Selected(args, found) <==>
              exists i | 0 <= i < |found| :: Keeps(args, found[i]) && t == CaseOf(args, found[i])
  {
    if |found| > 0 {
      var init := found[..|found| - 1];
      SelectedMembers(args, init, t);
      if t in Selected(args, found) && t !in Selected(args, init) {
        assert Keeps(args, found[|found| - 1]) && t == CaseOf(args, found[|found| - 1]);
      }
      if exists i | 0 <= i < |found| :: Keeps(args, found[i]) && t == CaseOf(args, found[i]) {
        var i :| 0 <= i < |found| && Keeps(args, found[i]) && t == CaseOf(args, found[i]);
        if i < |found| - 1 {
          assert init[i] == found[i];
        }
      }
    }
  }

  /**
   Every selected test obeys both filters, carries its runner's label and
   the unscaled `--frames` value, and comes from a discovered runner.
   */
  lemma {:induction false} SelectedObeysFilters(args: Args, found: seq<RunnerPath>, t: TestCase)
    requires t in Selected(args, found)
    ensures |args.langs| > 0 ==> t.lang in args.langs
    ensures args.defaultOnly ==> t.sub == Release
    ensures t.frames == args.frames && t.sub == VariantLabel(t.runner)
    ensures RunnerPath(t.lang, t.runner) in found
  {
    SelectedMembers(args, found, t);
  }

  /** With no language list and no `--default`, every discovered runner is selected, in order. */
  lemma {:induction false} SelectedUnfiltered(args: Args, found: seq<RunnerPath>)
    requires |args.langs| == 0 && !args.defaultOnly
    ensures |Selected(args, found)| == |found|
    ensures forall i | 0 <= i < |found| :: Selected(args, found)[i] == CaseOf(args, found[i])
  {
    if |found| > 0 {
      var init, last := found[..|found| - 1], found[|found| - 1];
      SelectedUnfiltered(args, init);
      assert Keeps(args, last);
      var sel := Selected(args, found);
      assert sel == Selected(args, init) + [CaseOf(args, last)];
      forall i | 0 <= i < |found|
        ensures sel[i] == CaseOf(args, found[i])
      {
        if i < |init| {
          assert found[i] == init[i];
        }
      }
    }
  }

  /** Selection never adds runners, and it drops none exactly when every discovered runner passes both filters. */
  lemma {:induction false} SelectedLength(args: Args, found: seq<RunnerPath>)
    ensures |Selected(args, found)| <= |found|
    ensures |Selected(args, found)| == |found| <==> forall i | 0 <= i < |found| :: Keeps(args, found[i])
  {
    if |found| > 0 {
      var init, last := found[..|found| - 1], found[|found| - 1];
      SelectedLength(args, init);
      assert forall i | 0 <= i < |init| :: init[i] == found[i];
      if !Keeps(args, last) {
        assert !Keeps(args, found[|found| - 1]);
      }
    }
  }

  /** Selection keeps discovery order: it maps concatenation to concatenation. */
  lemma {:induction false} SelectedAppend(args: Args, a: seq<RunnerPath>, b: seq<RunnerPath>)
    ensures Selected(args, a + b) == Selected(args, a) + Selected(args, b)
  {
    if |b| == 0 {
      assert a + b == a;
    } else {
      var b', last := b[..|b| - 1], b[|b| - 1];
      var tail := if Keeps(args, last) then [CaseOf(args, last)] else [];
      SelectedAppend(args, a, b');
      assert (a + b)[..|a + b| - 1] == a + b';
      assert (a + b)[|a + b| - 1] == last;
      assert Selected(args, a + b) == Selected(args, a + b') + tail;
      assert Selected(args, b) == Selected(args, b') + tail;
    }
  }

  predicate Distinct<T(==)>(s: seq<T>)
  {
    forall i, j | 0 <= i < j < |s| :: s[i] != s[j]
  }

  /** Runners the glob returns once each are selected at most once each. */
  lemma {:induction false} SelectedDistinct(args: Args, found: seq<RunnerPath>)
    requires Distinct(found)
    ensures Distinct(Selected(args, found))
  {
    if |found| > 0 {
      var init := found[..|found| - 1];
      var last := found[|found| - 1];
      SelectedDistinct(args, init);
      if Keeps(args, last) {
        var t := CaseOf(args, last);
        SelectedMembers(args, init, t);
        forall i | 0 <= i < |init|
          ensures t != CaseOf(args, init[i])
        {
          assert init[i] == found[i];
        }
        assert t !in Selected(args, init);
      }
    }
  }

  // ---------------------------------------------------------------------------
  // One benchmark (`test`)
  // ---------------------------------------------------------------------------

  /** What the harness starts: runner `./<runner>` in directory `<cwd>`, profiling this many frames. */
  datatype Invocation = Invocation(cwd: string, runner: string, profileFrames: int)

  /** What a finished runner gives back: its exit code and its combined stdout and stderr. */
  datatype Outcome = Outcome(returncode: int, output: string)

  /** What the harness prints for one test: the failure with the runner's output, or the status line. */
  datatype Report = Failed(output: string) | Passed(status: string)

  /** The runner a test starts, with the scaled frame count. */
  function InvocationOf(t: TestCase): (inv: Invocation)
    ensures inv.cwd == t.lang && inv.runner == t.runner && inv.profileFrames >= 1
  {
    Invocation(t.lang, t.runner, ScaleFrames(t.lang, t.sub, t.frames))
  }

  /** The last line that mentions "frames", or "" when none does. */
  function LastStatusLine(lines: seq<string>): (r: string)
    ensures r == "" <==> forall i | 0 <= i < |lines| :: !Contains(lines[i], Marker)
    ensures r != "" ==>
              exists i | 0 <= i < |lines| :: lines[i] == r && Contains(r, Marker) &&
                forall j | i < j < |lines| :: !Contains(lines[j], Marker)
  {
    if |lines| == 0 then ""
    else if Contains(lines[|lines| - 1], Marker) then lines[|lines| - 1]
    else LastStatusLine(lines[..|lines| - 1])
  }

  /** What a runner's outcome is reported as. */
  function ReportOf(o: Outcome): (r: Report)
    ensures r.Failed? <==> o.returncode != 0
    ensures r.Failed? ==> r.output == o.output
    ensures r.Passed? ==> '\n' !in r.status && (r.status == "" || Contains(r.status, Marker))
  {
    if o.returncode != 0 then Failed(o.output)
    else Passed(LastStatusLine(Split(o.output, '\n')))
  }

  /**
   One benchmark: scale the frame count, run the runner, and on success scan
   its output lines, keeping the last one that mentions "frames".
   */
  method Test(lang: string, runner: string, sub: string, frames: int, exec: Invocation -> Outcome)
    returns (passed: bool, report: Report)
    ensures var o := exec(Invocation(lang, runner, ScaleFrames(lang, sub, frames)));
            passed == (o.returncode == 0) && report == ReportOf(o)
  {
    var n := frames;
    if lang in {"go"} {
      n := TruncDiv(n, 10);
    } else if lang in {"py", "php"} || (lang == "zig" && sub == "safe") {
      n := TruncDiv(n, 100);
    }
    n := Max(n, 1);
    var proc := exec(Invocation(lang, runner, n));
    if proc.returncode != 0 {
      return false, Failed(proc.output);
    }
    var lines := Split(proc.output, '\n');
    var status := "";
    for i := 0 to |lines|
      invariant status == LastStatusLine(lines[..i])
    {
      assert lines[..i + 1][..i] == lines[..i];
      if Contains(lines[i], Marker) {
        status := lines[i];
      }
    }
    assert lines[..|lines|] == lines;
    return true, Passed(status);
  }

  // ---------------------------------------------------------------------------
  // The whole run (`main`)
  // ---------------------------------------------------------------------------

  /** Python's `all(results)`. */
  function All(results: seq<bool>): (r: bool)
    ensures r <==> forall i | 0 <= i < |results| :: results[i]
  {
    if |results| == 0 then true else results[0] && All(results[1..])
  }

  /** The harness's exit code: 0 exactly when every test passed, 1 otherwise. */
  function ExitCode(results: seq<bool>): (code: int)
    ensures code == 0 || code == 1
    ensures code == 0 <==> forall i | 0 <= i < |results| :: results[i]
  {
    if All(results) then 0 else 1
  }

  /** Whether the runner of test `t` exits with 0. */
  predicate Passes(t: TestCase, exec: Invocation -> Outcome)
  {
    exec(InvocationOf(t)).returncode == 0
  }

  /** The results of running `tests` in order. */
  function Results(tests: seq<TestCase>, exec: Invocation -> Outcome): seq<bool>
  {
    seq(|tests|, i requires 0 <= i < |tests| => Passes(tests[i], exec))
  }

  /** The exit code of a whole run, as a function of its inputs. */
  function RunExitCode(args: Args, found: seq<RunnerPath>, exec: Invocation -> Outcome): (code: int)
    ensures code == 0 || code == 1
  {
    ExitCode(Results(Selected(args, found), exec))
  }

  /** A run succeeds exactly when every selected runner exits with 0; with none selected it succeeds. */
  lemma RunExitCodeZeroIff(args: Args, found: seq<RunnerPath>, exec: Invocation -> Outcome)
    ensures RunExitCode(args, found, exec) == 0 <==>
              forall t | t in Selected(args, found) :: exec(InvocationOf(t)).returncode == 0
    ensures RunExitCode(args, found, exec) == 0 || RunExitCode(args, found, exec) == 1
    ensures |Selected(args, found)| == 0 ==> RunExitCode(args, found, exec) == 0
  {
    var tests := Selected(args, found);
    var results := Results(tests, exec);
    if RunExitCode(args, found, exec) == 0 {
      forall t | t in tests ensures exec(InvocationOf(t)).returncode == 0 {
        var i :| 0 <= i < |tests| && tests[i] == t;
        assert results[i] == Passes(tests[i], exec);
      }
    } else {
      assert |results| == |tests|;
      var i :| 0 <= i < |results| && !results[i];
      assert results[i] == Passes(tests[i], exec);
      assert exec(InvocationOf(tests[i])).returncode != 0;
      assert tests[i] in tests;
    }
  }

  /**
   The worker pool's `starmap(test, tests)` followed by `all`: each test runs
   once, results come back in input order, and they fold into the exit code.
   `reports` are the lines printed, one per test; their order is the printed
   order only with one worker (with eight, tests print as they finish).
   */
  method RunAll(tests: seq<TestCase>, exec: Invocation -> Outcome) returns (code: int, reports: seq<Report>)
    ensures |reports| == |tests|
    ensures forall i | 0 <= i < |tests| :: reports[i] == ReportOf(exec(InvocationOf(tests[i])))
    ensures code == ExitCode(Results(tests, exec))
  {
    var results: seq<bool> := [];
    reports := [];
    for i := 0 to |tests|
      invariant |results| == i && |reports| == i
      invariant forall k | 0 <= k < i :: results[k] == Passes(tests[k], exec)
      invariant forall k | 0 <= k < i :: reports[k] == ReportOf(exec(InvocationOf(tests[k])))
    {
      var t := tests[i];
      var ok, report := Test(t.lang, t.runner, t.sub, t.frames, exec);
      assert InvocationOf(t) == Invocation(t.lang, t.runner, ScaleFrames(t.lang, t.sub, t.frames));
      results := results + [ok];
      reports := reports + [report];
    }
    assert results == Results(tests, exec);
    code := ExitCode(results);
  }

  /** `main` after argument parsing: select the tests, then run them all. */
  method Bench(args: Args, found: seq<RunnerPath>, exec: Invocation -> Outcome)
    returns (code: int, reports: seq<Report>)
    ensures var tests := Selected(args, found);
            |reports| == |tests| &&
            forall i | 0 <= i < |tests| :: reports[i] == ReportOf(exec(InvocationOf(tests[i])))
    ensures code == RunExitCode(args, found, exec)
  {
    var tests := SelectTests(args, found);
    code, reports := RunAll(tests, exec);
  }
}
