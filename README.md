# GPU task scheduler, modelled in Dafny

`GPUTaskScheduler` (in `gpu_task_scheduler/scheduler.py`) takes a list of shell
commands and hands each one to a GPU. Before every attempt it runs the
`nvidia-smi` memory query. It reads one `index, free, total` line per device.
It picks the first device that passes three tests:

- the device is on the allow-list, or the allow-list is empty;
- fewer than `max_tasks_per_gpu` of its own jobs run on it;
- it has enough free memory.

"Enough free memory" means at least `min_memory` MiB. When `min_memory` is a
float strictly between 0 and 1, it means at least that fraction of the
device's total memory instead.

A job runs on its own thread. The thread increments the device's entry in
`gpu_task_counts` (a `defaultdict(int)`) and runs the command. A `finally`
block decrements the entry again. When no device qualifies, the loop sleeps
for `wait_interval` seconds and tries the same task again.

The model has five modules:

- `ProbeParsing` (`probe_parsing.dfy`) covers one probe line: Python's
  `str.strip()`, `split(',')`, `int()`, and the unpacking of `map(int, …)`
  into three names.
- `Selection` (`selection.dfy`) covers the memory threshold, eligibility and
  the first-fit scan of `get_available_gpu`, including its two error paths.
- `Dispatch` (`dispatch.dfy`) states the `run_tasks` loop as a function,
  `Run`. The environment is given as a finite list of rounds. Each round holds
  what the probe reports on one pass and which jobs finished since the
  previous pass.
- `Scheduler` (`scheduler.dfy`) holds the class `GpuTaskScheduler`. Its
  `gpuTaskCounts` map field is updated in place by methods for the
  constructor, the table read, the increment and the decrement, the job
  thread, `get_available_gpu` and `run_tasks`. Each method is proved against
  the functions above.
- `Scenarios` (`scenarios.dfy`) contains whole runs on scripted probes.

Behaviours of the code that its docstrings (`scheduler.py` lines 9-17 and
55-60) do not mention, and that the model keeps:

- An `nvidia-smi` that cannot be started is not caught. `FileNotFoundError`
  is not a `CalledProcessError`, so it propagates out of `get_available_gpu`
  and ends `run_tasks`. The model has it as `ProbeNotRunnable` and
  `Err(ProbeMissing)`. Only a probe that exits with an error counts as "no
  device this round".
- A malformed probe line raises `ValueError` out of `run_tasks`
  (`Err(MalformedLine(..))`). The line is not skipped.
- The constructor checks nothing. Any allow-list, cap or threshold is
  accepted.
- "Current usage" (line 56) means free memory and this scheduler's own task
  counts. No query is made of the processes already on a device.

## Model

| member | source | states |
|---|---|---|
| `ProbeParsing.Strip` | gpu_task_scheduler/scheduler.py:73 | `line.strip()`: the line with every `isspace` character removed from both ends; its meaning is proved in `StripSpec` and `StripPadded` |
| `ProbeParsing.StripSpec` | gpu_task_scheduler/scheduler.py:73 | `line.strip()`, and the whitespace skipping of `int()`, yield a contiguous slice of the input, with only the whitespace of that set cut off on either side, and none of it at either end of the result |
| `ProbeParsing.StripPadded` | gpu_task_scheduler/scheduler.py:73 | trimming leading whitespace off a string with non-space ends gives that string back |
| `ProbeParsing.Split` | gpu_task_scheduler/scheduler.py:73 | `split(',')` always has at least one field, no field contains a comma, and joining the fields with commas gives the input back |
| `ProbeParsing.SplitJoin` | gpu_task_scheduler/scheduler.py:73 | splitting undoes joining for comma-free fields |
| `ProbeParsing.ParseInt` | gpu_task_scheduler/scheduler.py:73 | `int(field)` in base 10: skip the blanks `int()` skips at both ends, an optional `+` or `-`, then one or more ASCII digits, else `None` for the `ValueError`; proved in `ParseIntShowInt`, `ParseIntKeepsSeparators`, `ParseIntRejects` and `ParseIntBlank` |
| `ProbeParsing.ParseIntShowInt` | gpu_task_scheduler/scheduler.py:73 | `int()` reads back every rendered integer, negatives included, after any leading whitespace that `int()` skips (the 4300-digit limit of recent interpreters is not modelled: see `ProbeParsing.ParseInt` under "## Left out") |
| `ProbeParsing.ParseIntAccepts` | gpu_task_scheduler/scheduler.py:73 | the converse: a field `int()` accepts is, once blanks are skipped, an optional sign followed by one or more ASCII digits, so a lone sign is rejected |
| `ProbeParsing.ParseIntKeepsSeparators` | gpu_task_scheduler/scheduler.py:73 | `int()` rejects a number preceded by U+001C, which `strip()` removes but `int()` does not skip |
| `ProbeParsing.ParseIntRejects` | gpu_task_scheduler/scheduler.py:73 | `int()` raises on a field holding a non-digit after the optional sign |
| `ProbeParsing.ParseIntBlank` | gpu_task_scheduler/scheduler.py:73 | `int()` raises on an empty or all-blank field |
| `ProbeParsing.ConvertAll` | gpu_task_scheduler/scheduler.py:73 | `map(int, fields)` consumed in order: the values of all fields, or the error of the first field `int()` rejects; proved in `ConvertAllSpec` |
| `ProbeParsing.ConvertAllSpec` | gpu_task_scheduler/scheduler.py:73 | converting fields succeeds exactly when every field converts, gives the values in order, and otherwise reports the first field that fails |
| `ProbeParsing.ParseLine` | gpu_task_scheduler/scheduler.py:73 | unpacking `map(int, line.strip().split(','))` into `idx, free_mem, total_mem`: at most four fields are drawn; fewer than three, a fourth that converts, or a field `int()` rejects is a `ValueError`; proved in `ParseLineOk` and `ParseLineFieldCount` |
| `ProbeParsing.ParseLineOk` | gpu_task_scheduler/scheduler.py:73 | a line gives a row exactly when it has three fields that all convert; the row holds the three values in order |
| `ProbeParsing.ParseLineFieldCount` | gpu_task_scheduler/scheduler.py:73 | a line without exactly three fields is an error |
| `ProbeParsing.ParseFormatRow` | gpu_task_scheduler/scheduler.py:63-73 | a line in the probe's `csv,noheader,nounits` format for `index,memory.free,memory.total` parses back to the row it prints (for numbers within `int()`'s digit limit, see `ProbeParsing.ParseInt` under "## Left out") |
| `Selection.CountOf` | gpu_task_scheduler/scheduler.py:24-26 | reading the `defaultdict(int)`: a device's entry, or 0 for a device never referenced |
| `Selection.RequiredMemory` | gpu_task_scheduler/scheduler.py:75-78 | the free memory asked for: `total * min_memory` for a float strictly between 0 and 1, otherwise `min_memory` itself; proved in `HalfOfTotalThreshold` and `FloatOneIsAbsolute` |
| `Selection.Eligible` | gpu_task_scheduler/scheduler.py:81 | the test of one parsed line: allowed (empty allow-list or listed), count strictly below the cap, and free memory at least the required amount |
| `Selection.SelectLines` | gpu_task_scheduler/scheduler.py:72-82 | the scan over the probe lines in order: a malformed line raises, the first eligible line returns its device, and no eligible line gives `None`; characterised in `SelectLinesSpec` and `SelectLinesFirstFit` |
| `Selection.Select` | gpu_task_scheduler/scheduler.py:61-85 | `get_available_gpu`: the scan on the probe's lines, `None` when the probe exits with an error, and a raise when it cannot be started; characterised in `SelectOutcomes` and `SelectSafe` |
| `Selection.FirstFit` | gpu_task_scheduler/scheduler.py:72-82 | first-fit over parsed rows returns the index of the first eligible row, and `None` exactly when no row is eligible |
| `Selection.SelectLinesSpec` | gpu_task_scheduler/scheduler.py:72-85 | the scan returns `None` exactly when every line parsed and none was eligible; a device only from the first eligible line; an error only for the first malformed line it reaches, with every earlier line parsed and passed over |
| `Selection.SelectOutcomes` | gpu_task_scheduler/scheduler.py:61-85 | `get_available_gpu` returns `None` exactly on an erroring probe or when no line qualifies, and raises exactly on a probe that cannot start or on a reached malformed line |
| `Selection.SelectSafe` | gpu_task_scheduler/scheduler.py:75-82 | a returned device is on the allow-list when there is one, is strictly below the cap, and appears on a probe line whose free memory meets the threshold |
| `Selection.SelectLinesFirstFit` | gpu_task_scheduler/scheduler.py:72-82 | when every line parses, the scan agrees with first-fit over the parsed rows |
| `Selection.SelectFormattedRows` | gpu_task_scheduler/scheduler.py:63-82 | on the probe output printed for a list of rows, selection is first-fit over those rows |
| `Selection.SelectSameCounts` | gpu_task_scheduler/scheduler.py:81 | selection sees the table only through its counts, so explicit zero entries change nothing |
| `Selection.HalfOfTotalThreshold` | gpu_task_scheduler/scheduler.py:75-81 | with `min_memory = 0.5` and a total of 10000 MiB, 4000 MiB free is refused and 6000 MiB free is accepted |
| `Selection.FloatOneIsAbsolute` | gpu_task_scheduler/scheduler.py:75-78 | the float `1.0` is not a fraction: it asks for 1 MiB whatever the total |
| `Dispatch.Acquire` | gpu_task_scheduler/scheduler.py:43 | `gpu_task_counts[d] += 1`, a missing entry read as 0; proved in `AcquireRelease` |
| `Dispatch.Release` | gpu_task_scheduler/scheduler.py:50 | `gpu_task_counts[d] -= 1` for a device with a job in flight; proved in `AcquireRelease` |
| `Dispatch.ReleaseAll` | gpu_task_scheduler/scheduler.py:48-50 | the `finally` decrements of the jobs that finished since the previous pass, in order |
| `Dispatch.Run` | gpu_task_scheduler/scheduler.py:87-104 | per round the finished jobs release, then selection runs; a device takes task `i` and the index advances; no device is one sleep on the same index; a raise ends the run; the loop returns when the index reaches the number of tasks; its properties are `RunInOrder`, `RunCompletes`, `RunDispatchesAllowed`, `RunWithinCap`, `RunAnswers` and `RunRounds` |
| `Dispatch.AvailableGpuSelectorProperties` | gpu_task_scheduler/scheduler.py:81 | the scheduler's selection only returns allowed devices below the cap, and depends on the counts alone |
| `Dispatch.AcquireRelease` | gpu_task_scheduler/scheduler.py:42-50 | the increment raises one device's count by one and leaves every other device alone; the decrement in `finally` restores the count |
| `Dispatch.RunInOrder` | gpu_task_scheduler/scheduler.py:94-101 | the dispatched commands are a prefix of the task list, in order, each once |
| `Dispatch.RunCompletes` | gpu_task_scheduler/scheduler.py:95 | the loop reports completion exactly when the last task has been dispatched |
| `Dispatch.RunDispatchesAllowed` | gpu_task_scheduler/scheduler.py:96-100 | with a selector that only returns allowed devices, no task goes to a device outside the allow-list |
| `Dispatch.RunWithinCap` | gpu_task_scheduler/scheduler.py:87-104 | with such a selector, no count goes negative, and no non-zero count exceeds `max_tasks_per_gpu` |
| `Dispatch.RunAnswers` | gpu_task_scheduler/scheduler.py:95-104 | each trace event records selection's answer on its pass: a sleep exactly where no device was found, a dispatch to the device returned; a raise is the last answer and leaves no event; so the sleeps number the passes that found no device |
| `Dispatch.RunRounds` | gpu_task_scheduler/scheduler.py:95-104 | every trace event is a dispatch or a sleep, at most one per round; the rounds are all used when the run ends out of rounds, and the loop stops early only when all tasks are out or selection raised |
| `Dispatch.RunSameCounts` | gpu_task_scheduler/scheduler.py:24-26 | tables that differ only in zero entries, which the `defaultdict` creates on a read, run alike |
| `Dispatch.RunTasksProperties` | gpu_task_scheduler/scheduler.py:87-104 | under the scheduler's own selection: all tasks sent in order when the loop returns, only a prefix otherwise, only to allowed devices, and counts kept within the cap |
| `Scheduler.GpuTaskScheduler.constructor` | gpu_task_scheduler/scheduler.py:19-27 | the defaults are 30 s, no allow-list, one task per device and `0.8`; `None` becomes the empty allow-list; the table starts empty |
| `Scheduler.GpuTaskScheduler.ReadCount` | gpu_task_scheduler/scheduler.py:24-26 | reading an unseen device yields 0 and inserts a 0 entry; no count changes |
| `Scheduler.GpuTaskScheduler.ExecuteTaskOnGpu` | gpu_task_scheduler/scheduler.py:42-43 | dispatch adds one to the chosen device's count and changes no other count |
| `Scheduler.GpuTaskScheduler.TaskFinished` | gpu_task_scheduler/scheduler.py:48-50 | a job's end subtracts one from its device's count and changes no other count |
| `Scheduler.GpuTaskScheduler.RunTaskThread` | gpu_task_scheduler/scheduler.py:38-50 | for every job outcome, every count is back where it was when the thread ends; the "Task failed" message is printed exactly for a non-zero exit |
| `Scheduler.GpuTaskScheduler.GetAvailableGpu` | gpu_task_scheduler/scheduler.py:54-85 | the loop over the probe lines returns what `Select` specifies for the table as it was, and changes no count |
| `Scheduler.GpuTaskScheduler.InspectLine` | gpu_task_scheduler/scheduler.py:73-82 | a malformed line stops the scan with its error; otherwise the scan stops exactly at an eligible device, which it returns |
| `Scheduler.GpuTaskScheduler.ReleaseFinished` | gpu_task_scheduler/scheduler.py:48-50 | the finished jobs' decrements leave the table that `ReleaseAll` specifies |
| `Scheduler.GpuTaskScheduler.Pass` | gpu_task_scheduler/scheduler.py:96-104 | one pass selects as `get_available_gpu` specifies after the finished jobs' releases, and increments the chosen device only |
| `Scheduler.GpuTaskScheduler.RunTasks` | gpu_task_scheduler/scheduler.py:87-104 | the loop's status, event trace and final counts are those of `Run` under the scheduler's selection; hence tasks go out in order, only to allowed devices, all of them on return, and counts stay within the cap |
| `Scheduler.GpuTaskScheduler.RunTasksLoop` | gpu_task_scheduler/scheduler.py:94-104 | the `while` loop over `task_index` computes `Run` for any function that answers as `get_available_gpu` does |
| `Scenarios.AlwaysEligibleDrains` | gpu_task_scheduler/scheduler.py:94-101 | when a device is always eligible, N tasks give exactly N dispatches, all to that device, in list order, with no sleep |
| `Scenarios.TwoDevicesScenario` | gpu_task_scheduler/scheduler.py:94-104 | with devices 0 and 1 allowed, a cap of two and both devices free, four tasks go out without a sleep: two to device 0, then two to device 1 |
| `Scenarios.BusyThenFreeScenario` | gpu_task_scheduler/scheduler.py:94-104 | with one device and a cap of one, the loop sleeps while the probe reports too little memory, dispatches once it reports enough, then sleeps on the cap until the first job finishes |

## Left out

- Threads and the lock: a job's start is recorded when it is dispatched, and its end is an explicit `TaskFinished` call or a `finished` entry of a round. Each table update is one atomic step.
- The window between starting a job's thread and its increment: in the code, the loop can select again before the new thread has incremented. The model does not claim the cap across that window. It models dispatch as "increment, then return".
- `subprocess`: the probe is given as its outcome (`ProbeOutcome`). A job's command is given as its exit (`JobOutcome`). `check_output(...).strip().splitlines()` is not modelled; the probe result is its list of lines.
- `os.environ` and `CUDA_VISIBLE_DEVICES`: the job's environment is not modelled.
- `print`: the log lines are not modelled, except whether a job's "Task failed" message is printed. The start message and the traceback a crashed job's thread prints are not modelled.
- `time.sleep`: a sleep is a `Waited(wait_interval)` event in the trace.
- The unbounded loop: `run_tasks` does not end while a task waits for a device. The model runs for a finite list of rounds and reports `OutOfRounds` when they run out.
- Float arithmetic: `total_mem * min_memory` is computed with exact reals, not IEEE doubles. The fraction is held as a real.
- Python `int()` edge cases: underscores between digits and non-ASCII decimal digits are not accepted by the model.
- `ProbeParsing.ParseInt`: the limit of 4300 digits that recent Python versions put on `int()` of a decimal string is not modelled. Such a field raises `ValueError` there, but the model converts it. `ParseIntShowInt` and `ParseFormatRow` hold for renderings of any length. The probe prints no such numbers.
- Reports of a finished job on a device with no job in flight are ignored by `Release` and `ReleaseFinished`. In the code such a report cannot occur.
- `wait_interval` is an integer.
- `Dispatch.Run`: a negative `wait_interval`, or one too large for the platform's time type, makes `time.sleep` raise (`ValueError` or `OverflowError`) and end `run_tasks`. The model records `Waited(wait_interval)` for any interval and goes on. `RunAnswers`, `RunRounds` and `RunTasks` inherit this.
- `setup.py` is not part of this model.
