/**
 * The dispatch loop of `run_tasks` as a function of its inputs.
 *
 * The loop never ends on its own while a task is waiting for a device, so the
 * environment is given as a finite list of rounds: what the probe reports on
 * each pass through the loop, and which running jobs finished (each releasing
 * its device's count) since the previous pass. The loop is stated over any
 * device selector; `AvailableGpuSelector` below is the scheduler's own.
 */
module Dispatch {
  import opened Wrappers
  import opened Selection

  /** What the environment does between two passes of the loop. */
  datatype Round = Round(finished: seq<int>, probe: ProbeOutcome)

  /** One pass of the loop that got past selection: a job handed to a device, or a sleep. */
  datatype Event = Dispatched(command: string, gpu: int) | Waited(seconds: int)

  datatype RunStatus =
    | AllDispatched              // `task_index == len(tasks)`: the loop returned
    | Raised(error: SelectError) // selection raised, which ends `run_tasks`
    | OutOfRounds                // the given rounds ran out with tasks still queued

  datatype RunResult = RunResult(status: RunStatus, trace: seq<Event>, counts: map<int, int>)

  /** A device choice made from the task table and one probe result. */
  type Selector = (map<int, int>, ProbeOutcome) -> Result<Option<int>, SelectError>

  /** The scheduler's selector: `get_available_gpu` under configuration `cfg`. */
  function AvailableGpuSelector(cfg: Config): Selector {
    (counts: map<int, int>, probe: ProbeOutcome) => Select(cfg, counts, probe)
  }

  /** A selector that only returns allowed devices that are below the cap. */
  ghost predicate SafeSelector(cfg: Config, select: Selector) {
    forall counts, probe, d :: select(counts, probe) == Ok(Some(d)) ==>
      Allowed(cfg.allowedGpuIds, d) && CountOf(counts, d) < cfg.maxTasksPerGpu
  }

  /** A selector that sees the table only through the counts it yields. */
  ghost predicate ReadsCountsOnly(select: Selector) {
    forall c1, c2, probe :: SameCounts(c1, c2) ==> select(c1, probe) == select(c2, probe)
  }

  /** The scheduler's selector is safe and depends on the counts alone. */
  lemma AvailableGpuSelectorProperties(cfg: Config)
    ensures SafeSelector(cfg, AvailableGpuSelector(cfg))
    ensures ReadsCountsOnly(AvailableGpuSelector(cfg))
  {
    forall counts, probe, d | AvailableGpuSelector(cfg)(counts, probe) == Ok(Some(d))
      ensures Allowed(cfg.allowedGpuIds, d) && CountOf(counts, d) < cfg.maxTasksPerGpu
    {
      SelectSafe(cfg, counts, probe, d);
    }
    forall c1, c2, probe | SameCounts(c1, c2)
      ensures AvailableGpuSelector(cfg)(c1, probe) == AvailableGpuSelector(cfg)(c2, probe)
    {
      SelectSameCounts(cfg, c1, c2, probe);
    }
  }

  /** `select` answers as `get_available_gpu` does under `cfg`. */
  ghost predicate BehavesAsAvailableGpu(cfg: Config, select: Selector) {
    forall counts, probe {:trigger Select(cfg, counts, probe)} :: select(counts, probe) == Select(cfg, counts, probe)
  }

  /** One finished job releases its device (the decrement in its `finally`). A
      device with no job in flight cannot report a finish; such a report is ignored. */
  function Release(counts: map<int, int>, d: int): map<int, int> {
    if CountOf(counts, d) > 0 then counts[d := CountOf(counts, d) - 1] else counts
  }

  function ReleaseAll(counts: map<int, int>, finished: seq<int>): map<int, int> {
    if finished == [] then counts else ReleaseAll(Release(counts, finished[0]), finished[1..])
  }

  /** Starting a job on `d` (the `+= 1` when it starts). */
  function Acquire(counts: map<int, int>, d: int): map<int, int> {
    counts[d := CountOf(counts, d) + 1]
  }

  /** A job's start and its end cancel out: the decrement in `finally` restores
      the count the increment raised, and no other device's count moves. */
  lemma AcquireRelease(counts: map<int, int>, d: int)
    requires CountOf(counts, d) >= 0
    ensures CountOf(Acquire(counts, d), d) == CountOf(counts, d) + 1
    ensures forall x :: x != d ==> CountOf(Acquire(counts, d), x) == CountOf(counts, x)
    ensures SameCounts(Release(Acquire(counts, d), d), counts)
  {
    assert forall x :: CountOf(Release(Acquire(counts, d), d), x) == CountOf(counts, x);
  }

  /**
   * `run_tasks` from task `i` on: each round first applies the finished jobs,
   * then asks for a device; a device takes task `i` and the loop moves to
   * `i + 1`, no device means one sleep and another try at the same task.
   */
  function Run(cfg: Config, select: Selector, counts: map<int, int>, tasks: seq<string>, i: nat, rounds: seq<Round>): RunResult
    requires i <= |tasks|
    decreases |rounds|
  {
    if i == |tasks| then RunResult(AllDispatched, [], counts)
    else if rounds == [] then RunResult(OutOfRounds, [], counts)
    else
      var c := ReleaseAll(counts, rounds[0].finished);
      match select(c, rounds[0].probe)
      case Err(e) => RunResult(Raised(e), [], c)
      case Ok(None) =>
        var rest := Run(cfg, select, c, tasks, i, rounds[1..]);
        RunResult(rest.status, [Waited(cfg.waitInterval)] + rest.trace, rest.counts)
      case Ok(Some(d)) =>
        var rest := Run(cfg, select, Acquire(c, d), tasks, i + 1, rounds[1..]);
        RunResult(rest.status, [Dispatched(tasks[i], d)] + rest.trace, rest.counts)
  }

  /** One pass of the loop, unfolded: the three things selection can answer. */
  lemma RunStep(cfg: Config, select: Selector, counts: map<int, int>, tasks: seq<string>, i: nat, rounds: seq<Round>,
                released: map<int, int>, found: Result<Option<int>, SelectError>)
    requires i < |tasks| && rounds != []
    requires released == ReleaseAll(counts, rounds[0].finished)
    requires found == select(released, rounds[0].probe)
    ensures found.Err? ==> Run(cfg, select, counts, tasks, i, rounds) == RunResult(Raised(found.error), [], released)
    ensures found == Ok(None) ==>
      var rest := Run(cfg, select, released, tasks, i, rounds[1..]);
      Run(cfg, select, counts, tasks, i, rounds) == RunResult(rest.status, [Waited(cfg.waitInterval)] + rest.trace, rest.counts)
    ensures found.Ok? && found.value.Some? ==>
      var rest := Run(cfg, select, Acquire(released, found.value.value), tasks, i + 1, rounds[1..]);
      Run(cfg, select, counts, tasks, i, rounds)
        == RunResult(rest.status, [Dispatched(tasks[i], found.value.value)] + rest.trace, rest.counts)
  {
  }

  /** Part of a run is over: `trace` has been produced, and from `counts`, task
      `i` and `rounds` on, the rest of `spec` is still to come. */
  ghost predicate Tracks(cfg: Config, select: Selector, spec: RunResult, trace: seq<Event>, counts: map<int, int>,
                         tasks: seq<string>, i: nat, rounds: seq<Round>) {
    && i <= |tasks|
    && var rest := Run(cfg, select, counts, tasks, i, rounds);
    && spec.status == rest.status && spec.trace == trace + rest.trace && spec.counts == rest.counts
  }

  lemma TracksStart(cfg: Config, select: Selector, counts: map<int, int>, tasks: seq<string>, rounds: seq<Round>)
    ensures Tracks(cfg, select, Run(cfg, select, counts, tasks, 0, rounds), [], counts, tasks, 0, rounds)
  {
    assert [] + Run(cfg, select, counts, tasks, 0, rounds).trace == Run(cfg, select, counts, tasks, 0, rounds).trace;
  }

  /** One pass: a raise ends the run where it is; otherwise the pass's event is
      the next one and the rest of the run starts from the pass's table. */
  lemma TracksStep(cfg: Config, select: Selector, spec: RunResult, trace: seq<Event>, counts: map<int, int>,
                   tasks: seq<string>, i: nat, rounds: seq<Round>, found: Result<Option<int>, SelectError>)
    requires Tracks(cfg, select, spec, trace, counts, tasks, i, rounds)
    requires i < |tasks| && rounds != []
    requires found == select(ReleaseAll(counts, rounds[0].finished), rounds[0].probe)
    ensures var released := ReleaseAll(counts, rounds[0].finished);
      && (found.Err? ==> spec == RunResult(Raised(found.error), trace, released))
      && (found == Ok(None) ==>
            Tracks(cfg, select, spec, trace + [Waited(cfg.waitInterval)], released, tasks, i, rounds[1..]))
      && (found.Ok? && found.value.Some? ==>
            Tracks(cfg, select, spec, trace + [Dispatched(tasks[i], found.value.value)],
                   Acquire(released, found.value.value), tasks, i + 1, rounds[1..]))
  {
    var released := ReleaseAll(counts, rounds[0].finished);
    RunStep(cfg, select, counts, tasks, i, rounds, released, found);
    if found.Ok? {
      var e := if found.value.Some? then Dispatched(tasks[i], found.value.value) else Waited(cfg.waitInterval);
      var rest := if found.value.Some? then Run(cfg, select, Acquire(released, found.value.value), tasks, i + 1, rounds[1..])
                  else Run(cfg, select, released, tasks, i, rounds[1..]);
      assert trace + ([e] + rest.trace) == (trace + [e]) + rest.trace;
    }
  }

  /** When the tasks or the rounds run out, the run is over. */
  lemma TracksEnd(cfg: Config, select: Selector, spec: RunResult, trace: seq<Event>, counts: map<int, int>,
                  tasks: seq<string>, i: nat, rounds: seq<Round>)
    requires Tracks(cfg, select, spec, trace, counts, tasks, i, rounds)
    requires i == |tasks| || rounds == []
    ensures spec == RunResult(if i == |tasks| then AllDispatched else OutOfRounds, trace, counts)
  {
    assert trace + [] == trace;
  }

  /** The commands of the dispatch events, in order. */
  function Commands(trace: seq<Event>): seq<string> {
    if trace == [] then []
    else if trace[0].Dispatched? then [trace[0].command] + Commands(trace[1..])
    else Commands(trace[1..])
  }

  lemma CommandsCons(e: Event, trace: seq<Event>)
    ensures Commands([e] + trace) == (if e.Dispatched? then [e.command] else []) + Commands(trace)
  {
    assert ([e] + trace)[1..] == trace;
  }

  /** The number of sleeps in a trace. */
  function Waits(trace: seq<Event>): nat {
    if trace == [] then 0 else (if trace[0].Waited? then 1 else 0) + Waits(trace[1..])
  }

  /** Every dispatch in the trace went to an allowed device. */
  ghost predicate DispatchesAllowed(cfg: Config, trace: seq<Event>) {
    forall k :: 0 <= k < |trace| && trace[k].Dispatched? ==> Allowed(cfg.allowedGpuIds, trace[k].gpu)
  }

  /** No device holds a negative count, and no device with a job in flight holds
      more than the cap (the constructor accepts any cap, even one below 0). */
  ghost predicate WithinCap(cfg: Config, counts: map<int, int>) {
    forall d :: 0 <= CountOf(counts, d) && (CountOf(counts, d) > 0 ==> CountOf(counts, d) <= cfg.maxTasksPerGpu)
  }

  /**
   * Tasks are dispatched in list order, each exactly once: the dispatched
   * commands are the tasks from `i` on, up to some point.
   */
  lemma {:induction false} RunInOrder(cfg: Config, select: Selector, counts: map<int, int>, tasks: seq<string>, i: nat, rounds: seq<Round>)
    requires i <= |tasks|
    ensures var res := Run(cfg, select, counts, tasks, i, rounds); var k := |Commands(res.trace)|;
      i + k <= |tasks| && Commands(res.trace) == tasks[i..i + k]
    decreases |rounds|
  {
    if i < |tasks| && rounds != [] {
      var c := ReleaseAll(counts, rounds[0].finished);
      match select(c, rounds[0].probe)
      case Err(e) =>
      case Ok(None) =>
        var rest := Run(cfg, select, c, tasks, i, rounds[1..]);
        assert Run(cfg, select, counts, tasks, i, rounds).trace == [Waited(cfg.waitInterval)] + rest.trace;
        CommandsCons(Waited(cfg.waitInterval), rest.trace);
        RunInOrder(cfg, select, c, tasks, i, rounds[1..]);
      case Ok(Some(d)) =>
        var rest := Run(cfg, select, Acquire(c, d), tasks, i + 1, rounds[1..]);
        assert Run(cfg, select, counts, tasks, i, rounds).trace == [Dispatched(tasks[i], d)] + rest.trace;
        CommandsCons(Dispatched(tasks[i], d), rest.trace);
        RunInOrder(cfg, select, Acquire(c, d), tasks, i + 1, rounds[1..]);
        SliceCons(tasks, i, |Commands(rest.trace)|);
    }
  }

  lemma SliceCons(s: seq<string>, i: nat, k: nat)
    requires i + 1 + k <= |s|
    ensures s[i..i + 1 + k] == [s[i]] + s[i + 1..i + 1 + k]
  {
  }

  /** The loop reports that all tasks went out exactly when the last one did. */
  lemma {:induction false} RunCompletes(cfg: Config, select: Selector, counts: map<int, int>, tasks: seq<string>, i: nat, rounds: seq<Round>)
    requires i <= |tasks|
    ensures var res := Run(cfg, select, counts, tasks, i, rounds);
      res.status == AllDispatched <==> i + |Commands(res.trace)| == |tasks|
    decreases |rounds|
  {
    RunInOrder(cfg, select, counts, tasks, i, rounds);
    if i < |tasks| && rounds != [] {
      var c := ReleaseAll(counts, rounds[0].finished);
      match select(c, rounds[0].probe)
      case Err(e) =>
      case Ok(None) =>
        CommandsCons(Waited(cfg.waitInterval), Run(cfg, select, c, tasks, i, rounds[1..]).trace);
        RunCompletes(cfg, select, c, tasks, i, rounds[1..]);
      case Ok(Some(d)) =>
        CommandsCons(Dispatched(tasks[i], d), Run(cfg, select, Acquire(c, d), tasks, i + 1, rounds[1..]).trace);
        RunCompletes(cfg, select, Acquire(c, d), tasks, i + 1, rounds[1..]);
    }
  }

  /** The loop dispatches only to devices selection returned, so with a safe
      selector and a non-empty allow-list no task goes to a device outside it. */
  lemma {:induction false} RunDispatchesAllowed(cfg: Config, select: Selector, counts: map<int, int>, tasks: seq<string>, i: nat, rounds: seq<Round>)
    requires i <= |tasks|
    requires SafeSelector(cfg, select)
    ensures DispatchesAllowed(cfg, Run(cfg, select, counts, tasks, i, rounds).trace)
    decreases |rounds|
  {
    if i < |tasks| && rounds != [] {
      var c := ReleaseAll(counts, rounds[0].finished);
      var res := Run(cfg, select, counts, tasks, i, rounds);
      match select(c, rounds[0].probe)
      case Err(e) =>
      case Ok(None) =>
        RunDispatchesAllowed(cfg, select, c, tasks, i, rounds[1..]);
        assert res.trace[1..] == Run(cfg, select, c, tasks, i, rounds[1..]).trace;
      case Ok(Some(d)) =>
        RunDispatchesAllowed(cfg, select, Acquire(c, d), tasks, i + 1, rounds[1..]);
        assert res.trace[1..] == Run(cfg, select, Acquire(c, d), tasks, i + 1, rounds[1..]).trace;
    }
  }

  /** Releasing keeps counts within the cap. */
  lemma {:induction false} ReleaseAllWithinCap(cfg: Config, counts: map<int, int>, finished: seq<int>)
    requires WithinCap(cfg, counts)
    ensures WithinCap(cfg, ReleaseAll(counts, finished))
  {
    if finished != [] {
      var c := Release(counts, finished[0]);
      assert forall d :: CountOf(c, d) == CountOf(counts, d) || (CountOf(c, d) == CountOf(counts, d) - 1 && CountOf(c, d) >= 0);
      ReleaseAllWithinCap(cfg, c, finished[1..]);
    }
  }

  /** Since a safe selector only picks a device below its cap, every count the
      loop leaves behind is non-negative and at most `max_tasks_per_gpu`. */
  lemma {:induction false} RunWithinCap(cfg: Config, select: Selector, counts: map<int, int>, tasks: seq<string>, i: nat, rounds: seq<Round>)
    requires i <= |tasks|
    requires SafeSelector(cfg, select)
    requires WithinCap(cfg, counts)
    ensures WithinCap(cfg, Run(cfg, select, counts, tasks, i, rounds).counts)
    decreases |rounds|
  {
    if i < |tasks| && rounds != [] {
      var c := ReleaseAll(counts, rounds[0].finished);
      ReleaseAllWithinCap(cfg, counts, rounds[0].finished);
      match select(c, rounds[0].probe)
      case Err(e) =>
      case Ok(None) =>
        RunWithinCap(cfg, select, c, tasks, i, rounds[1..]);
      case Ok(Some(d)) =>
        var c' := Acquire(c, d);
        assert forall x :: CountOf(c', x) == if x == d then CountOf(c, d) + 1 else CountOf(c, x);
        RunWithinCap(cfg, select, c', tasks, i + 1, rounds[1..]);
    }
  }

  /** The answers selection gives on the successive passes of `Run`, the
      raising one included. */
  ghost function Answers(cfg: Config, select: Selector, counts: map<int, int>, tasks: seq<string>, i: nat,
                         rounds: seq<Round>): seq<Result<Option<int>, SelectError>>
    requires i <= |tasks|
    decreases |rounds|
  {
    if i == |tasks| || rounds == [] then []
    else
      var c := ReleaseAll(counts, rounds[0].finished);
      var a := select(c, rounds[0].probe);
      match a
      case Err(_) => [a]
      case Ok(None) => [a] + Answers(cfg, select, c, tasks, i, rounds[1..])
      case Ok(Some(d)) => [a] + Answers(cfg, select, Acquire(c, d), tasks, i + 1, rounds[1..])
  }

  /** How many of `answers` found no device. */
  function NoneCount(answers: seq<Result<Option<int>, SelectError>>): nat {
    if answers == [] then 0 else (if answers[0] == Ok(None) then 1 else 0) + NoneCount(answers[1..])
  }

  /**
   * Each event of `trace` records the answer on its pass: a sleep exactly
   * where no device was found, a dispatch to the device returned. A raise is
   * the last answer and leaves no event, so the sleeps number the answers
   * that found no device.
   */
  ghost predicate RecordsAnswers(status: RunStatus, trace: seq<Event>, ans: seq<Result<Option<int>, SelectError>>) {
    && |ans| == |trace| + (if status.Raised? then 1 else 0)
    && (forall k :: 0 <= k < |trace| ==> (trace[k].Waited? <==> ans[k] == Ok(None)))
    && (forall k :: 0 <= k < |trace| && trace[k].Dispatched? ==> ans[k] == Ok(Some(trace[k].gpu)))
    && (status.Raised? ==> ans[|ans| - 1] == Err(status.error))
    && Waits(trace) == NoneCount(ans)
  }

  /** The trace of `Run` records the answers selection gave on its passes. */
  lemma {:induction false} RunAnswers(cfg: Config, select: Selector, counts: map<int, int>, tasks: seq<string>, i: nat, rounds: seq<Round>)
    requires i <= |tasks|
    ensures var res := Run(cfg, select, counts, tasks, i, rounds);
      RecordsAnswers(res.status, res.trace, Answers(cfg, select, counts, tasks, i, rounds))
    decreases |rounds|
  {
    if i < |tasks| && rounds != [] {
      var c := ReleaseAll(counts, rounds[0].finished);
      var a := select(c, rounds[0].probe);
      match a
      case Err(e) =>
        assert NoneCount([a]) == 0 by { assert [a][1..] == []; }
      case Ok(None) =>
        RunAnswers(cfg, select, c, tasks, i, rounds[1..]);
        var rest := Run(cfg, select, c, tasks, i, rounds[1..]);
        RecordsCons(rest.status, Waited(cfg.waitInterval), rest.trace, a, Answers(cfg, select, c, tasks, i, rounds[1..]));
      case Ok(Some(d)) =>
        RunAnswers(cfg, select, Acquire(c, d), tasks, i + 1, rounds[1..]);
        var rest := Run(cfg, select, Acquire(c, d), tasks, i + 1, rounds[1..]);
        RecordsCons(rest.status, Dispatched(tasks[i], d), rest.trace, a, Answers(cfg, select, Acquire(c, d), tasks, i + 1, rounds[1..]));
    }
  }

  /** An event that records its answer extends a recording trace. */
  lemma RecordsCons(status: RunStatus, ev: Event, trace: seq<Event>,
                    a: Result<Option<int>, SelectError>, ans: seq<Result<Option<int>, SelectError>>)
    requires RecordsAnswers(status, trace, ans)
    requires ev.Waited? <==> a == Ok(None)
    requires ev.Dispatched? ==> a == Ok(Some(ev.gpu))
    ensures RecordsAnswers(status, [ev] + trace, [a] + ans)
  {
    var trace', ans' := [ev] + trace, [a] + ans;
    assert trace'[1..] == trace && ans'[1..] == ans;
    assert forall k :: 1 <= k < |trace'| ==> trace'[k] == trace[k - 1];
    assert forall k :: 1 <= k < |ans'| ==> ans'[k] == ans[k - 1];
  }

  /** At most one event per round consumed, each a dispatch or a sleep. The
      loop stops before the rounds run out only when all tasks are out or
      selection raised. Which answer of selection each event records is stated
      in `RunAnswers`. */
  lemma {:induction false} RunRounds(cfg: Config, select: Selector, counts: map<int, int>, tasks: seq<string>, i: nat, rounds: seq<Round>)
    requires i <= |tasks|
    ensures var res := Run(cfg, select, counts, tasks, i, rounds);
      && |res.trace| <= |rounds|
      && Waits(res.trace) + |Commands(res.trace)| == |res.trace|
      && (res.status == OutOfRounds ==> |res.trace| == |rounds|)
      && (|res.trace| < |rounds| ==> res.status == AllDispatched || res.status.Raised?)
    decreases |rounds|
  {
    if i < |tasks| && rounds != [] {
      var c := ReleaseAll(counts, rounds[0].finished);
      var res := Run(cfg, select, counts, tasks, i, rounds);
      match select(c, rounds[0].probe)
      case Err(e) =>
      case Ok(None) =>
        RunRounds(cfg, select, c, tasks, i, rounds[1..]);
        assert res.trace[1..] == Run(cfg, select, c, tasks, i, rounds[1..]).trace;
      case Ok(Some(d)) =>
        RunRounds(cfg, select, Acquire(c, d), tasks, i + 1, rounds[1..]);
        assert res.trace[1..] == Run(cfg, select, Acquire(c, d), tasks, i + 1, rounds[1..]).trace;
    }
  }

  /** Tables that yield the same counts run alike under a selector that reads
      only the counts. */
  lemma {:induction false} RunSameCounts(cfg: Config, select: Selector, c1: map<int, int>, c2: map<int, int>, tasks: seq<string>, i: nat, rounds: seq<Round>)
    requires i <= |tasks|
    requires ReadsCountsOnly(select)
    requires SameCounts(c1, c2)
    ensures var r1, r2 := Run(cfg, select, c1, tasks, i, rounds), Run(cfg, select, c2, tasks, i, rounds);
      r1.status == r2.status && r1.trace == r2.trace && SameCounts(r1.counts, r2.counts)
    decreases |rounds|
  {
    if i < |tasks| && rounds != [] {
      var a := ReleaseAll(c1, rounds[0].finished);
      var b := ReleaseAll(c2, rounds[0].finished);
      ReleaseAllSameCounts(c1, c2, rounds[0].finished);
      assert select(a, rounds[0].probe) == select(b, rounds[0].probe);
      match select(a, rounds[0].probe)
      case Err(e) =>
      case Ok(None) =>
        RunSameCounts(cfg, select, a, b, tasks, i, rounds[1..]);
      case Ok(Some(d)) =>
        assert SameCounts(Acquire(a, d), Acquire(b, d)) by {
          assert forall x :: CountOf(Acquire(a, d), x) == if x == d then CountOf(a, d) + 1 else CountOf(a, x);
          assert forall x :: CountOf(Acquire(b, d), x) == if x == d then CountOf(b, d) + 1 else CountOf(b, x);
        }
        RunSameCounts(cfg, select, Acquire(a, d), Acquire(b, d), tasks, i + 1, rounds[1..]);
    }
  }

  lemma {:induction false} ReleaseAllSameCounts(c1: map<int, int>, c2: map<int, int>, finished: seq<int>)
    requires SameCounts(c1, c2)
    ensures SameCounts(ReleaseAll(c1, finished), ReleaseAll(c2, finished))
  {
    if finished != [] {
      var a, b := Release(c1, finished[0]), Release(c2, finished[0]);
      assert forall x :: CountOf(a, x) == if x == finished[0] && CountOf(c1, x) > 0 then CountOf(c1, x) - 1 else CountOf(c1, x);
      assert forall x :: CountOf(b, x) == if x == finished[0] && CountOf(c2, x) > 0 then CountOf(c2, x) - 1 else CountOf(c2, x);
      ReleaseAllSameCounts(a, b, finished[1..]);
    }
  }

  /** What `run_tasks` guarantees under the scheduler's own selector: tasks go
      out in list order, each once, all of them when the loop returns; only to
      allowed devices; and no count leaves the range 0 to the cap. */
  lemma RunTasksProperties(cfg: Config, counts: map<int, int>, tasks: seq<string>, rounds: seq<Round>)
    ensures var res := Run(cfg, AvailableGpuSelector(cfg), counts, tasks, 0, rounds);
      && (res.status == AllDispatched ==> Commands(res.trace) == tasks)
      && Commands(res.trace) <= tasks
      && DispatchesAllowed(cfg, res.trace)
      && (WithinCap(cfg, counts) ==> WithinCap(cfg, res.counts))
  {
    var select := AvailableGpuSelector(cfg);
    AvailableGpuSelectorProperties(cfg);
    RunInOrder(cfg, select, counts, tasks, 0, rounds);
    RunCompletes(cfg, select, counts, tasks, 0, rounds);
    RunDispatchesAllowed(cfg, select, counts, tasks, 0, rounds);
    if WithinCap(cfg, counts) {
      RunWithinCap(cfg, select, counts, tasks, 0, rounds);
    }
  }
}
