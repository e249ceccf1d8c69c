# rosettaboy benchmark harness — verified model

rosettaboy implements one Game Boy emulator in many languages. `utils/bench.py`
is its benchmark harness. It finds every `run*.sh` runner script in the
language directories. It runs each runner headless at full speed for a number
of frames. It prints the throughput line each runner reports. It exits with 0
only when every runner succeeded.

This project models the deterministic rules inside that harness as Dafny
functions, methods and lemmas:

- **Frame scaling** (`Bench.ScaleFrames`). The requested frame count is divided
  by 10 for `go`. It is divided by 100 for `py`, `php` and the `zig` `safe`
  variant. It is never less than 1. Python's `int(frames / d)` rounds toward
  zero, and `Bench.TruncDiv` models that rounding explicitly.
- **Variant labels** (`Bench.MatchRunVariant`, `Bench.VariantLabel`). These model
  `re.match("run_(.*).sh", runner)` as the regex engine evaluates it. The match
  is anchored at the start only. `.` does not match a newline. The greedy group
  ends at the last position where the `.sh` tail still matches.
- **Test selection** (`Bench.SelectTests`, specified by `Bench.Selected`). This
  is the loop over the discovered runners. It applies the language filter and
  the `--default` filter, then appends `(lang, runner, sub, frames)` cases.
- **One benchmark** (`Bench.Test`). It scales the frame count, runs the runner
  and passes exactly on exit code 0. On success it scans the output lines and
  keeps the last one that mentions "frames", or "" if none does.
- **The whole run** (`Bench.Bench`, specified by `Bench.RunExitCode`). It runs the
  selected tests in order, collects one report per test, and folds the results
  with `all` into exit code 0 or 1.

The harness's inputs are parameters of the model:
- Discovery is a `seq<RunnerPath>` of `(directory, file name)` pairs in glob order.
- The parsed command line is an `Args` value.
- Running a runner is a total function `exec: Invocation -> Outcome`. An
  `Invocation` holds the working directory, the runner and the scaled frame
  count. An `Outcome` holds the exit code and the combined output.

`PyText` holds the Python string operations the harness uses: `in` on strings
and `str.split` on one separator character. The harness never joins text.
`PyText.Join` exists only as the partner of `Split`, so that the two
round-trip lemmas can say that splitting loses nothing. `BenchScenarios` holds
concrete cases:
- the runner names from the harness's usage text;
- the default workload of each language;
- a run where `go` passes and `rs` fails;
- a `--default` run;
- a run with nothing discovered.

Two behaviours of the code are easy to misread:
- The `--default` help text (utils/bench.py:70) says only the default `run.sh`
  runs. The code keeps every runner whose label is "release". That includes
  `run_release.sh`, and any name that does not start with `run_` (such as
  `run-safe.sh`). The model follows the code.
  `BenchScenarios.DefaultOnlyKeepsReleaseLabels` and
  `BenchScenarios.RunnerNameLabels` show both cases.
- A label is `runner[4..|runner|-3]` for a `run_*.sh` name only when the name
  has no newline. With a newline inside, the regex matches only if some `.sh`
  tail starts before the first newline, and the group then ends at the last
  such tail. So `run_a\nb.sh` gets "release"
  (`BenchScenarios.TwoLineRunnerName`), while `run_a.sh\nb.sh` gets "a"
  (`BenchScenarios.TwoLineRunnerNameWithTail`).

## Model

| member | source | states |
|---|---|---|
| `PyText.Split` | utils/bench.py:57 | `str.split` on one separator character gives at least one piece and no piece contains the separator. There is one more piece than there are separators in the text. |
| `PyText.JoinSplit` | utils/bench.py:57 | Splitting the output into lines loses nothing: joining the pieces with the separator gives back the original text. |
| `PyText.SplitJoin` | utils/bench.py:57 | Conversely, separator-free pieces joined and then split come back unchanged. |
| `Bench.TruncDiv` | utils/bench.py:33-35 | `int(a / d)` rounds toward zero. For `a >= 0`, `q*d <= a < q*d + d`. For `a < 0`, `q*d - d < a <= q*d`, and `q` is never positive. |
| `Bench.ScaleFrames` | utils/bench.py:32-36 | The frame count passed to a runner is at least 1, whatever count is requested, including zero or negative counts. |
| `Bench.ScaleFramesByLanguage` | utils/bench.py:32-36 | `go` gets `max(frames div 10, 1)`. `py`, `php` and `zig`/`safe` get `max(frames div 100, 1)`. Every other language and variant gets `max(frames, 1)`, including `zig` with another variant. Equivalently, the count is `max(frames div Divisor(lang, sub), 1)`, so rounding toward zero and rounding down agree after the clamp. |
| `Bench.ScaleFramesBounded` | utils/bench.py:32-36 | At or above the language's factor, the runner gets the whole number of factor-sized chunks of the request. Below the factor, it gets 1 frame. It never gets more than `max(frames, 1)`. |
| `Bench.ScaleFramesMonotone` | utils/bench.py:32-36 | Requesting more frames never gives a runner fewer. |
| `Bench.MatchRunVariant` | utils/bench.py:89 | `re.match("run_(.*).sh", name)` and its group: the name must start with `run_`, and the greedy group runs from index 4 to the last `.sh` tail that starts before the first newline. Its contract: a match implies the `run_` prefix, and the group plus `run_` plus the 3-character tail fits inside the name. |
| `Bench.VariantLabel` | utils/bench.py:88-90 | The label is the regex group when the pattern matches and "release" otherwise. Its contract: a name that does not start with `run_` always gets "release". |
| `Bench.MatchRunVariantSpec` | utils/bench.py:89-90 | The pattern matches exactly when the name starts with `run_` and some `.sh` tail starts inside the first line after the prefix. The group is the text from index 4 up to the last such tail. |
| `Bench.VariantLabelOfRunnerName` | utils/bench.py:85-90 | Take a glob-found runner name: it starts with `run`, ends with `.sh` and has no newline. Its label is "release" unless it starts with `run_`. If it does, the label is the text between `run_` and the final `.sh`. |
| `Bench.SelectedLength` | utils/bench.py:84-96 | `Selected` is the list the loop builds: the discovered runners, in order, that pass the language filter and the `--default` filter, each turned into `(lang, runner, label, frames)`. It never has more cases than runners, and it has as many exactly when every runner passes both filters. |
| `Bench.SelectTests` | utils/bench.py:84-96 | The selection loop builds exactly `Selected(args, found)`. |
| `Bench.SelectedMembers` | utils/bench.py:84-96 | A case is selected if and only if some discovered runner passes both filters and yields that case: its directory, its file name, its label and the unscaled `--frames` value. |
| `Bench.SelectedObeysFilters` | utils/bench.py:92-96 | With a language list, every selected case's language is in it. With `--default`, every selected case has label "release". Every case carries the unscaled `--frames` value and comes from a discovered runner. |
| `Bench.SelectedUnfiltered` | utils/bench.py:92-95 | With no language list and no `--default`, every discovered runner is selected, in discovery order. |
| `Bench.SelectedAppend` | utils/bench.py:84-96 | Selection keeps discovery order: selecting from `a + b` gives the selection from `a` followed by the selection from `b`. |
| `Bench.SelectedDistinct` | utils/bench.py:85-96 | When the glob returns each runner once, each runner is selected at most once. Together with `SelectedMembers`, each runner that passes both filters appears exactly once. |
| `PyText.Contains` | utils/bench.py:58 | Python's `needle in s`: `needle` occurs as a contiguous slice of `s`, so a text can contain only a needle no longer than itself. |
| `Bench.InvocationOf` | utils/bench.py:37-51 | The runner a test starts: `./<runner>` in its language directory, with the frame count scaled for its language and variant. That count is at least 1. |
| `Bench.LastStatusLine` | utils/bench.py:56-59 | The result is "" exactly when no line mentions "frames". Otherwise it is a line that mentions "frames", and no later line does. |
| `Bench.ReportOf` | utils/bench.py:52-61 | What one test reports for a finished runner. It fails exactly when the exit code is not 0, and then it carries the runner's output. Otherwise it carries the last output line that mentions "frames", which has no newline and is either "" or mentions "frames". |
| `Bench.Test` | utils/bench.py:30-61 | The runner starts in its language directory with the scaled frame count. The test passes if and only if the exit code is 0. A failure reports the runner's output. A pass reports the last output line that mentions "frames", or "". |
| `Bench.All` | utils/bench.py:100 | `all(results)` is true if and only if every result is true. |
| `Bench.ExitCode` | utils/bench.py:100 | The exit code is 0 or 1. It is 0 if and only if every result is true. |
| `Bench.RunExitCode` | utils/bench.py:100 | The exit code of a whole run: `all` over the results of the selected tests, as 0 or 1. Its contract: the code is 0 or 1. |
| `Bench.RunExitCodeZeroIff` | utils/bench.py:98-100 | A run exits with 0 if and only if every selected runner exits with 0. It exits with 0 when nothing is selected. |
| `Bench.RunAll` | utils/bench.py:98-100 | Each test runs once, and the i-th report is the report of the i-th test's outcome. The results come back in input order, as `starmap` returns them, and fold with `all` into 0 or 1. The reports are in the printed order only with one worker. |
| `Bench.Bench` | utils/bench.py:84-100 | The run gives one report per selected test, in selection order, each the report of that test's outcome. That is the printed order only without `--parallel`. Its exit code is `RunExitCode` of its inputs. |
| `BenchScenarios.RunnerNameLabels` | utils/bench.py:88-90 | `run.sh` → "release", `run_pgo.sh` → "pgo", `run_pypy.sh` → "pypy", `run_release.sh` → "release", `run-safe.sh` → "release". |
| `BenchScenarios.VariantName` | utils/bench.py:88-90 | `run_<body>.sh` with a one-line body has label `body`. |
| `BenchScenarios.ReleaseName` | utils/bench.py:88-90 | A one-line runner name whose fourth character is not `_` has label "release". |
| `BenchScenarios.TwoLineRunnerName` | utils/bench.py:89 | `run_a\nb.sh` is a runner name the glob can return. No `.sh` tail starts before its newline, so the regex does not match it and its label is "release". |
| `BenchScenarios.TwoLineRunnerNameWithTail` | utils/bench.py:89 | `run_a.sh\nb.sh` is a runner name the glob can return. A `.sh` tail starts before its newline, so the regex matches and its label is "a". |
| `BenchScenarios.DefaultWorkloads` | utils/bench.py:32-36 | With the default 6000 frames: `go` gets 600, `py`, `php` and `zig`/`safe` get 60, and `zig`/`release` and `rs` get 6000. 99 frames for `py` and -25 frames for `go` both give 1. |
| `BenchScenarios.GoOutputStatus` | utils/bench.py:56-59 | A passing run printing "init", then "600 frames", then a trailing newline reports "600 frames", not the empty last piece. |
| `BenchScenarios.GoPassesRsFailsRun` | utils/bench.py:84-100 | With `langs = [go, rs]`, runner `go/run.sh` passes and runner `rs/run.sh` fails. Both are selected in order, and `go` is asked for 600 frames. `go` reports its throughput line, `rs` reports failure, and the run exits with 1. |
| `BenchScenarios.DefaultOnlyKeepsReleaseLabels` | utils/bench.py:88-95 | `--default` skips `cpp/run_pgo.sh` and keeps `cpp/run_release.sh` and `go/run.sh`, in that order. |
| `BenchScenarios.NothingFoundSucceeds` | utils/bench.py:100 | With no runner discovered, nothing is selected and the run exits with 0. |

## Left out

- Downloading the test ROM with `wget` when the file is missing (utils/bench.py:18-27): network I/O.
- Discovery with `glob("*/run*.sh")`, `os.path.dirname` and `os.path.basename` (utils/bench.py:85-87): filesystem I/O. Discovery is a given sequence of `(directory, file name)` pairs. `IsRunnerName` states what the glob guarantees about a file name.
- The subprocess call (utils/bench.py:37-51): process I/O. The argv text is reduced to the parts the harness varies: the working directory, the runner and the `--profile` count. The fixed flags `--silent --headless --turbo ../opus5.gb` are not modelled. Exit code and output are the result of the `exec` parameter.
- The console formatting of the status lines (utils/bench.py:53, utils/bench.py:60): console output. The model keeps what each line carries, as a `Report`.
- The thread pool of 1 or 8 workers (utils/bench.py:98-99): concurrency. `starmap` returns results in input order, and the model runs the tests sequentially in that order. The `parallel` flag changes nothing in the model.
- argparse (utils/bench.py:65-82). The parsed flags are the `Args` parameter. `DefaultFrames` records the `--frames` default of 6000.
- Bench.RunAll: `subprocess.run` can raise (utils/bench.py:37-51). Examples are `OSError` for a runner that is not executable or has a bad interpreter line, and `UnicodeDecodeError` under `text=True` for output that is not valid text. `starmap` (utils/bench.py:99) then re-raises, `main` ends with a traceback and exit status 1, and the test that raised prints no report. The model's `exec` always returns an `Outcome`, so it has no such path. There is also no timeout, so a runner that hangs blocks the harness forever; the model cannot express that either.
- Bench.RunAll: under `--parallel`, each report is printed by a worker thread (utils/bench.py:53, utils/bench.py:60) as its test finishes, so the printed order is completion order. Only the results come back from `starmap` in input order. The model's `reports` follow input order.
- Bench.TruncDiv: does not model the float division behind `int(frames / d)`. It is exact integer truncation, which agrees with Python for counts below 2^53.
- js/src/index.d.ts is not part of this model: it declares TypeScript type aliases only and has no behaviour.
