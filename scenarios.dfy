/**
 * Whole runs of `run_tasks` on scripted probes: a device that is always
 * eligible drains the queue in order, two free devices with a cap of two take
 * four tasks without a sleep, and a busy device makes the loop sleep until the
 * probe reports it free and its job has finished.
 */
module Scenarios {
  import opened Wrappers
  import opened ProbeParsing
  import opened Selection
  import opened Dispatch

  /**
   * A selector that always offers device `d` dispatches each task once, in
   * list order, all to `d`, one per round, and never sleeps.
   */
  lemma {:induction false} AlwaysEligibleDrains(cfg: Config, select: Selector, d: int, counts: map<int, int>,
                                                tasks: seq<string>, i: nat, rounds: seq<Round>)
    requires i <= |tasks| <= i + |rounds|
    requires forall c, p :: select(c, p) == Ok(Some(d))
    ensures var res := Run(cfg, select, counts, tasks, i, rounds);
      && res.status == AllDispatched
      && |res.trace| == |tasks| - i
      && forall k :: 0 <= k < |res.trace| ==> res.trace[k] == Dispatched(tasks[i + k], d)
    decreases |rounds|
  {
    if i < |tasks| {
      var c := ReleaseAll(counts, rounds[0].finished);
      assert select(c, rounds[0].probe) == Ok(Some(d));
      AlwaysEligibleDrains(cfg, select, d, Acquire(c, d), tasks, i + 1, rounds[1..]);
    }
  }

  /** Four tasks, devices 0 and 1 allowed, at most two tasks per device. */
  const TwoDeviceConfig := Config(30, [0, 1], 2, FloatThreshold(0.8))

  /** `nvidia-smi` reporting both devices entirely free. */
  const BothFree := ProbeOutput(FormatRows([Row(0, 10000, 10000), Row(1, 10000, 10000)]))

  /** The first device below the cap of two, device 0 before device 1. */
  function BothFreeAnswer(counts: map<int, int>): Result<Option<int>, SelectError> {
    if CountOf(counts, 0) < 2 then Ok(Some(0))
    else if CountOf(counts, 1) < 2 then Ok(Some(1))
    else Ok(None)
  }

  /** With both devices free, selection depends on the counts alone. */
  lemma BothFreeSelect(counts: map<int, int>)
    ensures Select(TwoDeviceConfig, counts, BothFree) == BothFreeAnswer(counts)
  {
    SelectFormattedRows(TwoDeviceConfig, counts, [Row(0, 10000, 10000), Row(1, 10000, 10000)]);
  }

  /** Four rounds with the same probe and no job finishing. */
  function FourRounds(probe: ProbeOutcome): seq<Round> {
    [Round([], probe), Round([], probe), Round([], probe), Round([], probe)]
  }

  /** Four passes on a probe whose answer is `BothFreeAnswer`. */
  lemma TwoDevicesRun(cfg: Config, select: Selector, probe: ProbeOutcome, tasks: seq<string>)
    requires |tasks| == 4
    requires forall c :: select(c, probe) == BothFreeAnswer(c)
    ensures var res := Run(cfg, select, map[], tasks, 0, FourRounds(probe));
      && res.status == AllDispatched
      && res.trace == [Dispatched(tasks[0], 0), Dispatched(tasks[1], 0), Dispatched(tasks[2], 1), Dispatched(tasks[3], 1)]
      && CountOf(res.counts, 0) == 2 && CountOf(res.counts, 1) == 2
  {
    var rounds := FourRounds(probe);
    var c0: map<int, int> := map[];
    var c1 := Acquire(c0, 0);
    var c2 := Acquire(c1, 0);
    var c3 := Acquire(c2, 1);
    assert select(c0, probe) == Ok(Some(0));
    assert select(c1, probe) == Ok(Some(0));
    assert select(c2, probe) == Ok(Some(1));
    assert select(c3, probe) == Ok(Some(1));
    RunStep(cfg, select, c0, tasks, 0, rounds, c0, Ok(Some(0)));
    RunStep(cfg, select, c1, tasks, 1, rounds[1..], c1, Ok(Some(0)));
    RunStep(cfg, select, c2, tasks, 2, rounds[2..], c2, Ok(Some(1)));
    RunStep(cfg, select, c3, tasks, 3, rounds[3..], c3, Ok(Some(1)));
    assert rounds[1..][1..] == rounds[2..] && rounds[2..][1..] == rounds[3..];
  }

  /**
   * With both devices free, a cap of two and an empty table, the four tasks all
   * go out in four passes without a sleep: the first two to device 0, which
   * comes first in the probe, then two to device 1.
   */
  lemma TwoDevicesScenario(select: Selector, tasks: seq<string>)
    requires |tasks| == 4
    requires BehavesAsAvailableGpu(TwoDeviceConfig, select)
    ensures var res := Run(TwoDeviceConfig, select, map[], tasks, 0, FourRounds(BothFree));
      && res.status == AllDispatched
      && res.trace == [Dispatched(tasks[0], 0), Dispatched(tasks[1], 0), Dispatched(tasks[2], 1), Dispatched(tasks[3], 1)]
      && CountOf(res.counts, 0) == 2 && CountOf(res.counts, 1) == 2
  {
    forall c ensures select(c, BothFree) == BothFreeAnswer(c) {
      BothFreeSelect(c);
    }
    TwoDevicesRun(TwoDeviceConfig, select, BothFree, tasks);
  }

  /** One device, at most one task on it, and a fixed floor of 1000 MiB free. */
  const OneDeviceConfig := Config(30, [], 1, IntThreshold(1000))

  /** The device reports 500 MiB free: too little. */
  const Busy := ProbeOutput(FormatRows([Row(0, 500, 10000)]))

  /** The device reports 8000 MiB free: enough. */
  const Free := ProbeOutput(FormatRows([Row(0, 8000, 10000)]))

  /** A busy device is never selected. */
  lemma BusySelect(counts: map<int, int>)
    ensures Select(OneDeviceConfig, counts, Busy) == Ok(None)
  {
    SelectFormattedRows(OneDeviceConfig, counts, [Row(0, 500, 10000)]);
  }

  /** A free device is selected while it runs no task. */
  lemma FreeSelect(counts: map<int, int>)
    ensures Select(OneDeviceConfig, counts, Free) == if CountOf(counts, 0) < 1 then Ok(Some(0)) else Ok(None)
  {
    SelectFormattedRows(OneDeviceConfig, counts, [Row(0, 8000, 10000)]);
  }

  /** The four rounds of `BusyThenFreeScenario`, for any busy and free probe. */
  function BusyThenFreeRounds(busy: ProbeOutcome, free: ProbeOutcome): seq<Round> {
    [Round([], busy), Round([], free), Round([], free), Round([0], free)]
  }

  lemma BusyThenFreeRun(cfg: Config, select: Selector, busy: ProbeOutcome, free: ProbeOutcome, tasks: seq<string>)
    requires |tasks| == 2
    requires forall c :: select(c, busy) == Ok(None)
    requires forall c :: select(c, free) == if CountOf(c, 0) < 1 then Ok(Some(0)) else Ok(None)
    ensures var res := Run(cfg, select, map[], tasks, 0, BusyThenFreeRounds(busy, free));
      && res.status == AllDispatched
      && res.trace == [Waited(cfg.waitInterval), Dispatched(tasks[0], 0), Waited(cfg.waitInterval), Dispatched(tasks[1], 0)]
      && CountOf(res.counts, 0) == 1
  {
    var rounds := BusyThenFreeRounds(busy, free);
    var c0: map<int, int> := map[];
    var c1 := Acquire(c0, 0);
    var c2 := ReleaseAll(c1, [0]);
    assert c2 == c1[0 := 0] by {
      assert CountOf(c1, 0) == 1;
      assert [0][1..] == [];
      assert c2 == ReleaseAll(Release(c1, 0), []);
    }
    assert select(c0, busy) == Ok(None);
    assert select(c0, free) == Ok(Some(0));
    assert select(c1, free) == Ok(None);
    assert select(c2, free) == Ok(Some(0));
    RunStep(cfg, select, c0, tasks, 0, rounds, c0, Ok(None));
    RunStep(cfg, select, c0, tasks, 0, rounds[1..], c0, Ok(Some(0)));
    RunStep(cfg, select, c1, tasks, 1, rounds[2..], c1, Ok(None));
    RunStep(cfg, select, c1, tasks, 1, rounds[3..], c2, Ok(Some(0)));
    assert rounds[1..][1..] == rounds[2..] && rounds[2..][1..] == rounds[3..];
  }

  /**
   * One device and a cap of one: while the probe reports too little free
   * memory the loop sleeps; once it reports enough, the first task goes out;
   * the second task then waits on the cap until the first one's job has
   * finished, and goes to the same device.
   */
  lemma BusyThenFreeScenario(select: Selector, tasks: seq<string>)
    requires |tasks| == 2
    requires BehavesAsAvailableGpu(OneDeviceConfig, select)
    ensures var res := Run(OneDeviceConfig, select, map[], tasks, 0, BusyThenFreeRounds(Busy, Free));
      && res.status == AllDispatched
      && res.trace == [Waited(30), Dispatched(tasks[0], 0), Waited(30), Dispatched(tasks[1], 0)]
      && CountOf(res.counts, 0) == 1
  {
    forall c ensures select(c, Busy) == Ok(None) {
      BusySelect(c);
    }
    forall c ensures select(c, Free) == if CountOf(c, 0) < 1 then Ok(Some(0)) else Ok(None) {
      FreeSelect(c);
    }
    BusyThenFreeRun(OneDeviceConfig, select, Busy, Free, tasks);
  }
}
