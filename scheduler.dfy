/**
 * The scheduler object: its configuration, the per-device task table it
 * updates in place, and its three operations (select, dispatch, run the queue).
 *
 * Threads and the lock are not modelled: each table update is one atomic method
 * call, a dispatched job's start is recorded as soon as it is dispatched, and
 * its end is an explicit `TaskFinished` call.
 */
module Scheduler {
  import opened Wrappers
  import opened ProbeParsing
  import opened Selection
  import opened Dispatch

  /** How a job's shell command ended. */
  datatype JobOutcome =
    | Succeeded
    | ExitedNonZero                  // `CalledProcessError`: reported, not propagated
    | Crashed                        // any other exception: escapes the job's thread

  class GpuTaskScheduler {
    const waitInterval: int
    const allowedGpuIds: seq<int>
    const maxTasksPerGpu: int
    const minMemory: MinMemory

    /** `gpu_task_counts`: entries are created on first reference and never removed. */
    var gpuTaskCounts: map<int, int>

    /** The devices of the jobs in flight, one occurrence per job. */
    ghost var running: multiset<int>

    function Settings(): Config {
      Config(waitInterval, allowedGpuIds, maxTasksPerGpu, minMemory)
    }

    /** The number of this scheduler's tasks running on device `d`. */
    function Count(d: int): int
      reads this
    {
      CountOf(gpuTaskCounts, d)
    }

    /** Each device's count is the number of its jobs in flight. */
    ghost predicate Valid()
      reads this
    {
      forall d :: Count(d) == running[d]
    }

    /** A `None` allow-list is the empty list, which admits every device. */
    constructor (waitInterval: int := 30, allowedGpuIds: Option<seq<int>> := None,
                 maxTasksPerGpu: int := 1, minMemory: MinMemory := FloatThreshold(0.8))
      ensures this.waitInterval == waitInterval && this.maxTasksPerGpu == maxTasksPerGpu
      ensures this.minMemory == minMemory
      ensures this.allowedGpuIds == if allowedGpuIds.Some? then allowedGpuIds.value else []
      ensures gpuTaskCounts == map[] && running == multiset{}
      ensures Valid()
    {
      this.waitInterval := waitInterval;
      this.allowedGpuIds := if allowedGpuIds.Some? then allowedGpuIds.value else [];
      this.maxTasksPerGpu := maxTasksPerGpu;
      this.minMemory := minMemory;
      gpuTaskCounts := map[];
      running := multiset{};
    }

    /** Reading `gpu_task_counts[d]`: an unseen device yields 0 and gains a 0 entry. */
    method ReadCount(d: int) returns (c: int)
      modifies this`gpuTaskCounts
      ensures c == old(Count(d))
      ensures d !in old(gpuTaskCounts) ==> c == 0
      ensures gpuTaskCounts == if d in old(gpuTaskCounts) then old(gpuTaskCounts) else old(gpuTaskCounts)[d := 0]
      ensures forall x :: Count(x) == old(Count(x))
      ensures old(Valid()) ==> Valid()
    {
      if d !in gpuTaskCounts {
        gpuTaskCounts := gpuTaskCounts[d := 0];
      }
      c := gpuTaskCounts[d];
    }

    /**
     * `execute_task_on_gpu`: the job is launched on its own and the loop goes
     * on. Its thread's first act on the table is `gpu_task_counts[d] += 1`,
     * recorded here at once; only device `d`'s count changes.
     */
    method ExecuteTaskOnGpu(gpuId: int, command: string)
      requires Valid()
      modifies this
      ensures gpuTaskCounts == old(gpuTaskCounts)[gpuId := old(Count(gpuId)) + 1]
      ensures running == old(running) + multiset{gpuId}
      ensures Count(gpuId) == old(Count(gpuId)) + 1
      ensures forall x :: x != gpuId ==> Count(x) == old(Count(x))
      ensures Valid()
    {
      gpuTaskCounts := gpuTaskCounts[gpuId := Count(gpuId) + 1];
      running := running + multiset{gpuId};
    }

    /** The job's `finally`: `gpu_task_counts[d] -= 1`, once per job, for any outcome. */
    method TaskFinished(gpuId: int)
      requires Valid() && running[gpuId] > 0
      modifies this
      ensures gpuTaskCounts == old(gpuTaskCounts)[gpuId := old(Count(gpuId)) - 1]
      ensures running == old(running) - multiset{gpuId}
      ensures 0 <= Count(gpuId) == old(Count(gpuId)) - 1
      ensures forall x :: x != gpuId ==> Count(x) == old(Count(x))
      ensures Valid()
    {
      gpuTaskCounts := gpuTaskCounts[gpuId := Count(gpuId) - 1];
      running := running - multiset{gpuId};
    }

    /**
     * A job's whole thread, run start to end: the increment, the command, and
     * the decrement in `finally`. Whatever the outcome, every count, the job's
     * device's included, is back where it was. `failureReported` tells whether
     * the handler for a non-zero exit prints its "Task failed" message; the
     * start message and the traceback of a crashed job are not modelled.
     */
    method RunTaskThread(gpuId: int, command: string, outcome: JobOutcome) returns (failureReported: bool)
      requires Valid()
      modifies this
      ensures failureReported == outcome.ExitedNonZero?
      ensures forall x :: Count(x) == old(Count(x))
      ensures running == old(running)
      ensures Valid()
    {
      ExecuteTaskOnGpu(gpuId, command);
      failureReported := outcome.ExitedNonZero?;
      TaskFinished(gpuId);
      assert running == old(running) + multiset{gpuId} - multiset{gpuId};
    }

    /**
     * `get_available_gpu`: scans the probe's lines in order and returns the
     * first eligible device, or `None`; it leaves every count as it was.
     */
    method GetAvailableGpu(probe: ProbeOutcome) returns (r: Result<Option<int>, SelectError>)
      modifies this`gpuTaskCounts
      ensures r == Select(Settings(), old(gpuTaskCounts), probe)
      ensures SameCounts(gpuTaskCounts, old(gpuTaskCounts))
      ensures old(gpuTaskCounts).Keys <= gpuTaskCounts.Keys
      ensures old(Valid()) ==> Valid()
    {
      match probe {
        case ProbeCommandFailed => return Ok(None);
        case ProbeNotRunnable => return Err(ProbeMissing);
        case ProbeOutput(lines) =>
          var pending := lines;
          while pending != []
            invariant SameCounts(gpuTaskCounts, old(gpuTaskCounts))
            invariant old(gpuTaskCounts).Keys <= gpuTaskCounts.Keys
            invariant SelectLines(Settings(), old(gpuTaskCounts), lines) == SelectLines(Settings(), old(gpuTaskCounts), pending)
          {
            var stop, found := InspectLine(pending[0]);
            if stop {
              return found;
            }
            pending := pending[1..];
          }
          return Ok(None);
      }
    }

    /**
     * One line of the scan: a line that does not parse stops it with an error,
     * an eligible device stops it with that device, and anything else lets it
     * go on. The table is read only for an allowed device (the `or` in the test
     * short-circuits), which may add a 0 entry but changes no count.
     */
    method InspectLine(line: string) returns (stop: bool, found: Result<Option<int>, SelectError>)
      modifies this`gpuTaskCounts
      ensures SameCounts(gpuTaskCounts, old(gpuTaskCounts))
      ensures old(gpuTaskCounts).Keys <= gpuTaskCounts.Keys
      ensures old(Valid()) ==> Valid()
      ensures match ParseLine(line)
        case Err(e) => stop && found == Err(MalformedLine(line, e))
        case Ok(row) =>
          (stop <==> Eligible(Settings(), old(gpuTaskCounts), row)) && (stop ==> found == Ok(Some(row.index)))
    {
      var parsed := ParseLine(line);
      if parsed.Err? {
        return true, Err(MalformedLine(line, parsed.error));
      }
      var row := parsed.value;
      var required := RequiredMemory(minMemory, row.total);
      if Allowed(allowedGpuIds, row.index) {
        var count := ReadCount(row.index);
        if count < maxTasksPerGpu && row.free as real >= required {
          return true, Ok(Some(row.index));
        }
      }
      return false, Ok(None);
    }

    /** The jobs that finished since the last pass release their devices. */
    method ReleaseFinished(finished: seq<int>)
      requires Valid()
      modifies this
      ensures gpuTaskCounts == ReleaseAll(old(gpuTaskCounts), finished)
      ensures Valid()
    {
      var f := 0;
      while f < |finished|
        invariant 0 <= f <= |finished|
        invariant Valid()
        invariant ReleaseAll(gpuTaskCounts, finished[f..]) == ReleaseAll(old(gpuTaskCounts), finished)
      {
        assert finished[f..][0] == finished[f] && finished[f..][1..] == finished[f + 1..];
        if Count(finished[f]) > 0 {
          TaskFinished(finished[f]);
        }
        f := f + 1;
      }
      assert finished[f..] == [];
    }

    /**
     * One pass of the loop for `command`: the round's finished jobs release
     * their devices, then a device is looked for; a device found has the
     * command dispatched to it, and no device means the loop sleeps. `model`
     * is any table with the same counts as the scheduler's, and `select` any
     * function that answers as `get_available_gpu` does.
     */
    method Pass(command: string, round: Round, ghost model: map<int, int>, ghost select: Selector)
      returns (found: Result<Option<int>, SelectError>)
      requires Valid() && SameCounts(gpuTaskCounts, model) && BehavesAsAvailableGpu(Settings(), select)
      modifies this
      ensures var released := ReleaseAll(model, round.finished);
        && found == select(released, round.probe)
        && SameCounts(gpuTaskCounts, if found.Ok? && found.value.Some? then Acquire(released, found.value.value) else released)
      ensures Valid()
    {
      ghost var released := ReleaseAll(model, round.finished);
      ReleaseAllSameCounts(gpuTaskCounts, model, round.finished);
      ReleaseFinished(round.finished);
      ghost var before := gpuTaskCounts;
      found := GetAvailableGpu(round.probe);
      SelectSameCounts(Settings(), before, released, round.probe);
      assert SameCounts(gpuTaskCounts, released) by {
        assert forall d :: CountOf(gpuTaskCounts, d) == CountOf(before, d) == CountOf(released, d);
      }
      if found.Ok? && found.value.Some? {
        ghost var selected := gpuTaskCounts;
        ExecuteTaskOnGpu(found.value.value, command);
        AcquireSameCounts(selected, released, found.value.value);
      }
    }

    /**
     * `run_tasks`: find a device for the task at `taskIndex`; dispatch it and
     * move on, or sleep and try the same task again. Each pass consumes one
     * round, whose finished jobs release their devices before the probe runs.
     * The outcome is the one `Run` prescribes, whose properties are proved in
     * `RunTasksProperties`.
     */
    method RunTasks(tasks: seq<string>, rounds: seq<Round>) returns (status: RunStatus, trace: seq<Event>)
      requires Valid()
      modifies this
      ensures var spec := Run(Settings(), AvailableGpuSelector(Settings()), old(gpuTaskCounts), tasks, 0, rounds);
        status == spec.status && trace == spec.trace && SameCounts(gpuTaskCounts, spec.counts)
      ensures status == AllDispatched ==> Commands(trace) == tasks
      ensures Commands(trace) <= tasks
      ensures DispatchesAllowed(Settings(), trace)
      ensures old(WithinCap(Settings(), gpuTaskCounts)) ==> WithinCap(Settings(), gpuTaskCounts)
      ensures Valid()
    {
      RunTasksProperties(Settings(), gpuTaskCounts, tasks, rounds);
      assert BehavesAsAvailableGpu(Settings(), AvailableGpuSelector(Settings()));
      status, trace := RunTasksLoop(tasks, rounds, AvailableGpuSelector(Settings()));
    }

    /** The loop of `run_tasks`, against `select`, any function that answers
        as `get_available_gpu` does. */
    method RunTasksLoop(tasks: seq<string>, rounds: seq<Round>, ghost select: Selector)
      returns (status: RunStatus, trace: seq<Event>)
      requires Valid() && BehavesAsAvailableGpu(Settings(), select)
      modifies this
      ensures var spec := Run(Settings(), select, old(gpuTaskCounts), tasks, 0, rounds);
        status == spec.status && trace == spec.trace && SameCounts(gpuTaskCounts, spec.counts)
      ensures Valid()
    {
      var cfg := Settings();
      ghost var spec := Run(cfg, select, gpuTaskCounts, tasks, 0, rounds);
      ghost var model := gpuTaskCounts;
      TracksStart(cfg, select, model, tasks, rounds);
      var taskIndex, pending := 0, rounds;
      trace := [];
      while taskIndex < |tasks|
        invariant Valid() && SameCounts(gpuTaskCounts, model)
        invariant Tracks(cfg, select, spec, trace, model, tasks, taskIndex, pending)
        decreases |pending|
      {
        if pending == [] {
          TracksEnd(cfg, select, spec, trace, model, tasks, taskIndex, pending);
          return OutOfRounds, trace;
        }
        var found := Pass(tasks[taskIndex], pending[0], model, select);
        TracksStep(cfg, select, spec, trace, model, tasks, taskIndex, pending, found);
        ghost var released := ReleaseAll(model, pending[0].finished);
        match found {
          case Err(e) =>
            return Raised(e), trace;
          case Ok(None) =>
            trace := trace + [Waited(waitInterval)];
            model := released;
          case Ok(Some(d)) =>
            trace := trace + [Dispatched(tasks[taskIndex], d)];
            model := Acquire(released, d);
            taskIndex := taskIndex + 1;
        }
        pending := pending[1..];
      }
      TracksEnd(cfg, select, spec, trace, model, tasks, taskIndex, pending);
      status := AllDispatched;
    }
  }

  /** The same device started on tables with the same counts. */
  lemma AcquireSameCounts(c1: map<int, int>, c2: map<int, int>, d: int)
    requires SameCounts(c1, c2)
    ensures SameCounts(c1[d := CountOf(c1, d) + 1], Acquire(c2, d))
  {
    assert forall x :: CountOf(Acquire(c2, d), x) == if x == d then CountOf(c2, d) + 1 else CountOf(c2, x);
    assert forall x :: CountOf(c1[d := CountOf(c1, d) + 1], x) == if x == d then CountOf(c1, d) + 1 else CountOf(c1, x);
  }
}
