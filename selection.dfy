/**
 * Device selection: the memory threshold, the eligibility test and the
 * first-fit scan that `get_available_gpu` performs over the probe's lines.
 */
module Selection {
  import opened Wrappers
  import opened ProbeParsing

  /**
   * The configured `min_memory`, kept with its Python type: only a float strictly
   * between 0 and 1 is a fraction of the device's total memory; any other value,
   * the float `1.0` included, is an absolute amount of MiB.
   */
  datatype MinMemory = IntThreshold(amount: int) | FloatThreshold(value: real)

  /** The scheduler's settings, fixed at construction. */
  datatype Config = Config(
    waitInterval: int,
    allowedGpuIds: seq<int>,
    maxTasksPerGpu: int,
    minMemory: MinMemory)

  /** What one run of the memory probe produced. */
  datatype ProbeOutcome =
    | ProbeOutput(lines: seq<string>)  // stdout after `.strip().splitlines()`
    | ProbeCommandFailed               // the probe exited non-zero (`CalledProcessError`)
    | ProbeNotRunnable                 // the probe could not be started at all (`OSError`)

  /** Why `get_available_gpu` raised instead of returning. */
  datatype SelectError =
    | MalformedLine(line: string, cause: ParseError)
    | ProbeMissing

  /** The test `isinstance(min_memory, float) and 0 < min_memory < 1`. */
  predicate IsFraction(m: MinMemory) {
    m.FloatThreshold? && 0.0 < m.value < 1.0
  }

  /** The free memory a device with `total` MiB must have, computed exactly. */
  function RequiredMemory(m: MinMemory, total: int): real {
    if IsFraction(m) then total as real * m.value
    else match m
      case IntThreshold(n) => n as real
      case FloatThreshold(x) => x
  }

  /** The count a `defaultdict(int)` yields for `d`: its entry, or 0 when it has none. */
  function CountOf(counts: map<int, int>, d: int): int {
    if d in counts then counts[d] else 0
  }

  /** Two tables that yield the same count for every device. */
  ghost predicate SameCounts(c1: map<int, int>, c2: map<int, int>) {
    forall d :: CountOf(c1, d) == CountOf(c2, d)
  }

  /** An empty allow-list admits every device. */
  predicate Allowed(allowed: seq<int>, d: int) {
    |allowed| == 0 || d in allowed
  }

  /** The three conditions a device must meet to receive the next task. */
  predicate Eligible(cfg: Config, counts: map<int, int>, row: Row) {
    && Allowed(cfg.allowedGpuIds, row.index)
    && CountOf(counts, row.index) < cfg.maxTasksPerGpu
    && row.free as real >= RequiredMemory(cfg.minMemory, row.total)
  }

  /** `rows[i]` is eligible and no row before it is. */
  ghost predicate FirstEligibleAt(cfg: Config, counts: map<int, int>, rows: seq<Row>, i: int) {
    && 0 <= i < |rows|
    && Eligible(cfg, counts, rows[i])
    && forall j :: 0 <= j < i ==> !Eligible(cfg, counts, rows[j])
  }

  /** First-fit selection over already-parsed rows: the index of the first
      eligible row in probe order, or `None` exactly when no row is eligible. */
  function FirstFit(cfg: Config, counts: map<int, int>, rows: seq<Row>): (r: Option<int>)
    ensures r.Some? ==> exists i :: FirstEligibleAt(cfg, counts, rows, i) && rows[i].index == r.value
    ensures r.None? <==> forall i :: 0 <= i < |rows| ==> !Eligible(cfg, counts, rows[i])
  {
    if rows == [] then None
    else if Eligible(cfg, counts, rows[0]) then
      assert FirstEligibleAt(cfg, counts, rows, 0);
      Some(rows[0].index)
    else
      var r := FirstFit(cfg, counts, rows[1..]);
      assert forall i :: 1 <= i < |rows| ==> rows[i] == rows[1..][i - 1];
      assert r.Some? ==> exists i :: FirstEligibleAt(cfg, counts, rows, i) && rows[i].index == r.value by {
        if r.Some? {
          var i :| FirstEligibleAt(cfg, counts, rows[1..], i) && rows[1..][i].index == r.value;
          assert FirstEligibleAt(cfg, counts, rows, i + 1);
        }
      }
      r
  }

  // ---------------------------------------------------------------------------
  // `get_available_gpu` over raw probe lines
  // ---------------------------------------------------------------------------

  /** Every line before `i` parsed and described an ineligible device. */
  ghost predicate PassedOver(cfg: Config, counts: map<int, int>, lines: seq<string>, i: int) {
    && i <= |lines|
    && forall j :: 0 <= j < i ==>
      ParseLine(lines[j]).Ok? && !Eligible(cfg, counts, ParseLine(lines[j]).value)
  }

  /**
   * The scan of the probe's lines: each line is parsed only when it is reached,
   * and the first eligible device ends the scan, so a malformed line after it is
   * never looked at. A malformed line that is reached raises.
   */
  function SelectLines(cfg: Config, counts: map<int, int>, lines: seq<string>): Result<Option<int>, SelectError> {
    if lines == [] then Ok(None)
    else match ParseLine(lines[0])
      case Err(e) => Err(MalformedLine(lines[0], e))
      case Ok(row) =>
        if Eligible(cfg, counts, row) then Ok(Some(row.index))
        else SelectLines(cfg, counts, lines[1..])
  }

  /**
   * What the scan returns: `None` exactly when every line parsed and none was
   * eligible; a device only from the first line that is eligible, every line
   * before it having parsed; an error only for the first line that does not
   * parse, every line before it having parsed and been passed over.
   */
  lemma {:induction false} SelectLinesSpec(cfg: Config, counts: map<int, int>, lines: seq<string>)
    ensures var r := SelectLines(cfg, counts, lines);
      && (r == Ok(None) <==> PassedOver(cfg, counts, lines, |lines|))
      && (r.Ok? && r.value.Some? ==>
        exists i :: 0 <= i < |lines| && PassedOver(cfg, counts, lines, i)
          && ParseLine(lines[i]).Ok? && Eligible(cfg, counts, ParseLine(lines[i]).value)
          && r.value.value == ParseLine(lines[i]).value.index)
      && (r.Err? ==>
        exists i :: 0 <= i < |lines| && PassedOver(cfg, counts, lines, i)
          && ParseLine(lines[i]).Err? && r.error == MalformedLine(lines[i], ParseLine(lines[i]).error))
  {
    if lines == [] {
    } else if ParseLine(lines[0]).Err? {
      assert PassedOver(cfg, counts, lines, 0);
    } else if Eligible(cfg, counts, ParseLine(lines[0]).value) {
      assert PassedOver(cfg, counts, lines, 0);
    } else {
      var r := SelectLines(cfg, counts, lines[1..]);
      assert r == SelectLines(cfg, counts, lines);
      SelectLinesSpec(cfg, counts, lines[1..]);
      PassedOverCons(cfg, counts, lines);
      if r.Ok? && r.value.Some? {
        var i :| 0 <= i < |lines[1..]| && PassedOver(cfg, counts, lines[1..], i)
          && ParseLine(lines[1..][i]).Ok? && Eligible(cfg, counts, ParseLine(lines[1..][i]).value)
          && r.value.value == ParseLine(lines[1..][i]).value.index;
        assert lines[1..][i] == lines[i + 1];
        assert PassedOver(cfg, counts, lines, i + 1);
      }
      if r.Err? {
        var i :| 0 <= i < |lines[1..]| && PassedOver(cfg, counts, lines[1..], i)
          && ParseLine(lines[1..][i]).Err?
          && r.error == MalformedLine(lines[1..][i], ParseLine(lines[1..][i]).error);
        assert lines[1..][i] == lines[i + 1];
        assert PassedOver(cfg, counts, lines, i + 1);
      }
    }
  }

  /** Passing over the first line and then `i` more lines is passing over `i + 1`. */
  lemma PassedOverCons(cfg: Config, counts: map<int, int>, lines: seq<string>)
    requires |lines| > 0 && PassedOver(cfg, counts, lines, 1)
    ensures forall i :: 0 <= i <= |lines| - 1 ==>
      (PassedOver(cfg, counts, lines[1..], i) <==> PassedOver(cfg, counts, lines, i + 1))
  {
    forall i | 0 <= i <= |lines| - 1
      ensures PassedOver(cfg, counts, lines[1..], i) <==> PassedOver(cfg, counts, lines, i + 1)
    {
      assert forall j :: 0 <= j < i ==> lines[1..][j] == lines[j + 1];
    }
  }

  /** `get_available_gpu`: a probe that exits with an error means "no device this
      round"; a probe that cannot be started raises, as does a malformed line. */
  function Select(cfg: Config, counts: map<int, int>, probe: ProbeOutcome): Result<Option<int>, SelectError> {
    match probe
    case ProbeOutput(lines) => SelectLines(cfg, counts, lines)
    case ProbeCommandFailed => Ok(None)
    case ProbeNotRunnable => Err(ProbeMissing)
  }

  /** `None` exactly when the probe exited with an error or every line parsed
      and described an ineligible device; an error exactly when the probe could
      not be started or a line that the scan reached did not parse. */
  lemma SelectOutcomes(cfg: Config, counts: map<int, int>, probe: ProbeOutcome)
    ensures Select(cfg, counts, probe) == Ok(None) <==>
      probe.ProbeCommandFailed? || (probe.ProbeOutput? && PassedOver(cfg, counts, probe.lines, |probe.lines|))
    ensures Select(cfg, counts, probe).Err? <==>
      probe.ProbeNotRunnable?
      || (probe.ProbeOutput? && exists i :: 0 <= i < |probe.lines| && PassedOver(cfg, counts, probe.lines, i)
                                         && ParseLine(probe.lines[i]).Err?)
  {
    if probe.ProbeOutput? {
      var lines := probe.lines;
      SelectLinesSpec(cfg, counts, lines);
      if exists i :: 0 <= i < |lines| && PassedOver(cfg, counts, lines, i) && ParseLine(lines[i]).Err? {
        var i :| 0 <= i < |lines| && PassedOver(cfg, counts, lines, i) && ParseLine(lines[i]).Err?;
        SelectLinesReachesError(cfg, counts, lines, i);
      }
    }
  }

  /** A line the scan reaches that does not parse is the error it raises. */
  lemma {:induction false} SelectLinesReachesError(cfg: Config, counts: map<int, int>, lines: seq<string>, i: int)
    requires 0 <= i < |lines| && PassedOver(cfg, counts, lines, i) && ParseLine(lines[i]).Err?
    ensures SelectLines(cfg, counts, lines) == Err(MalformedLine(lines[i], ParseLine(lines[i]).error))
  {
    if i > 0 {
      assert ParseLine(lines[0]).Ok? && !Eligible(cfg, counts, ParseLine(lines[0]).value);
      assert PassedOver(cfg, counts, lines[1..], i - 1) by {
        assert forall j :: 0 <= j < i - 1 ==> lines[1..][j] == lines[j + 1];
      }
      SelectLinesReachesError(cfg, counts, lines[1..], i - 1);
    }
  }

  /** Every device `Select` returns is on the allow-list (when there is one), is
      below the per-device cap, and reported enough free memory on its line. */
  lemma SelectSafe(cfg: Config, counts: map<int, int>, probe: ProbeOutcome, d: int)
    requires Select(cfg, counts, probe) == Ok(Some(d))
    ensures |cfg.allowedGpuIds| > 0 ==> d in cfg.allowedGpuIds
    ensures CountOf(counts, d) < cfg.maxTasksPerGpu
    ensures probe.ProbeOutput?
    ensures exists i ::
      && 0 <= i < |probe.lines| && ParseLine(probe.lines[i]).Ok?
      && ParseLine(probe.lines[i]).value.index == d
      && ParseLine(probe.lines[i]).value.free as real
         >= RequiredMemory(cfg.minMemory, ParseLine(probe.lines[i]).value.total)
  {
    SelectLinesSpec(cfg, counts, probe.lines);
  }

  /** When every line parses, the scan agrees with first-fit over the parsed rows. */
  lemma {:induction false} SelectLinesFirstFit(cfg: Config, counts: map<int, int>, lines: seq<string>, rows: seq<Row>)
    requires |rows| == |lines|
    requires forall i :: 0 <= i < |lines| ==> ParseLine(lines[i]) == Ok(rows[i])
    ensures SelectLines(cfg, counts, lines) == Ok(FirstFit(cfg, counts, rows))
  {
    if lines != [] {
      assert ParseLine(lines[0]) == Ok(rows[0]);
      if !Eligible(cfg, counts, rows[0]) {
        assert forall i :: 0 <= i < |lines| - 1 ==> lines[1..][i] == lines[i + 1] && rows[1..][i] == rows[i + 1];
        SelectLinesFirstFit(cfg, counts, lines[1..], rows[1..]);
      }
    }
  }

  /** The lines `nvidia-smi` prints for `rows`, one per device. */
  function FormatRows(rows: seq<Row>): seq<string> {
    seq(|rows|, i requires 0 <= i < |rows| => FormatRow(rows[i]))
  }

  /** On the probe output printed for `rows`, selection is first-fit over `rows`. */
  lemma SelectFormattedRows(cfg: Config, counts: map<int, int>, rows: seq<Row>)
    ensures Select(cfg, counts, ProbeOutput(FormatRows(rows))) == Ok(FirstFit(cfg, counts, rows))
  {
    var lines := FormatRows(rows);
    forall i | 0 <= i < |lines| ensures ParseLine(lines[i]) == Ok(rows[i]) {
      ParseFormatRow(rows[i]);
    }
    SelectLinesFirstFit(cfg, counts, lines, rows);
  }

  /** Selection reads the table only through the counts it yields, so tables that
      differ only in explicit zero entries select alike. */
  lemma {:induction false} SelectSameCounts(cfg: Config, c1: map<int, int>, c2: map<int, int>, probe: ProbeOutcome)
    requires SameCounts(c1, c2)
    ensures Select(cfg, c1, probe) == Select(cfg, c2, probe)
  {
    if probe.ProbeOutput? {
      SelectLinesSameCounts(cfg, c1, c2, probe.lines);
    }
  }

  lemma {:induction false} SelectLinesSameCounts(cfg: Config, c1: map<int, int>, c2: map<int, int>, lines: seq<string>)
    requires SameCounts(c1, c2)
    ensures SelectLines(cfg, c1, lines) == SelectLines(cfg, c2, lines)
  {
    if lines != [] && ParseLine(lines[0]).Ok? {
      var row := ParseLine(lines[0]).value;
      assert CountOf(c1, row.index) == CountOf(c2, row.index);
      SelectLinesSameCounts(cfg, c1, c2, lines[1..]);
    }
  }

  /** With `min_memory = 0.5` a device of 10000 MiB needs 5000 MiB free: 4000 is
      refused and 6000 accepted. */
  lemma HalfOfTotalThreshold(cfg: Config, counts: map<int, int>, d: int)
    requires cfg.minMemory == FloatThreshold(0.5)
    requires Allowed(cfg.allowedGpuIds, d) && CountOf(counts, d) < cfg.maxTasksPerGpu
    ensures !Eligible(cfg, counts, Row(d, 4000, 10000))
    ensures Eligible(cfg, counts, Row(d, 6000, 10000))
  {
  }

  /** The float `1.0` is not a fraction: it asks for 1 MiB, whatever the total. */
  lemma FloatOneIsAbsolute(total: int)
    ensures RequiredMemory(FloatThreshold(1.0), total) == 1.0
  {
  }
}
