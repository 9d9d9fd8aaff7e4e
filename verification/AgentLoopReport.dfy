/** The agent-loop report: rows built from aggregated cells, with the regression flag set against the baseline arm. */
module AgentLoopReport {
  import opened Wrappers
  import opened Seqs
  import opened Aggregate

  const BASELINE := "baseline"
  const PROVIDER_KIND := "provider-usage"
  const MIN_HEADLINE_RUNS := 4
  const DEFAULT_THRESHOLD := 5.0

  // ---- spread ----

  function Least(values: seq<real>): real
    requires values != []
  {
    if |values| == 1 then values[0]
    else
      var rest := Least(values[..|values| - 1]);
      if Last(values) < rest then Last(values) else rest
  }

  function Greatest(values: seq<real>): real
    requires values != []
  {
    if |values| == 1 then values[0]
    else
      var rest := Greatest(values[..|values| - 1]);
      if Last(values) > rest then Last(values) else rest
  }

  function Total(values: seq<real>): real {
    if values == [] then 0.0 else Total(values[..|values| - 1]) + Last(values)
  }

  function Spread(values: seq<real>): real
    requires |values| >= 2
  {
    var mean := Total(values) / |values| as real;
    if mean == 0.0 then 0.0 else (Greatest(values) - Least(values)) / mean * 100.0
  }

  /** `relativeSpreadPct`. */
  method RelativeSpreadPct(values: seq<real>) returns (spread: real)
    ensures spread == if |values| < 2 then 0.0 else Spread(values)
  {
    if |values| < 2 {
      return 0.0;
    }
    var minV, maxV, sum := values[0], values[0], 0.0;
    for i := 0 to |values|
      invariant i == 0 ==> minV == maxV == values[0]
      invariant i > 0 ==> minV == Least(values[..i]) && maxV == Greatest(values[..i])
      invariant sum == Total(values[..i])
    {
      var v := values[i];
      assert values[..i + 1][..i] == values[..i];
      if v < minV {
        minV := v;
      }
      if v > maxV {
        maxV := v;
      }
      sum := sum + v;
    }
    assert values[..|values|] == values;
    var mean := sum / |values| as real;
    if mean == 0.0 {
      return 0.0;
    }
    return (maxV - minV) / mean * 100.0;
  }

  lemma {:induction false} Extremes(values: seq<real>)
    requires values != []
    ensures forall i :: 0 <= i < |values| ==> Least(values) <= values[i] <= Greatest(values)
    ensures Least(values) in values && Greatest(values) in values
  {
    if |values| > 1 {
      Extremes(values[..|values| - 1]);
      FrontAndLast(values);
    }
  }

  lemma {:induction false} TotalPositive(values: seq<real>)
    requires forall i :: 0 <= i < |values| ==> values[i] > 0.0
    ensures Total(values) >= 0.0 && (values != [] ==> Total(values) > 0.0)
  {
    if values != [] {
      TotalPositive(values[..|values| - 1]);
    }
  }

  /** Over positive costs the spread is non-negative, and zero exactly when every run cost the same. */
  lemma SpreadMeasuresAgreement(values: seq<real>)
    requires |values| >= 2 && forall i :: 0 <= i < |values| ==> values[i] > 0.0
    ensures Spread(values) >= 0.0
    ensures Spread(values) == 0.0 <==> forall i, j :: 0 <= i < |values| && 0 <= j < |values| ==> values[i] == values[j]
  {
    Extremes(values);
    TotalPositive(values);
    var mean, gap := Total(values) / |values| as real, Greatest(values) - Least(values);
    Positive(Total(values), |values| as real);
    GapSign(gap, mean);
  }

  lemma Positive(a: real, b: real)
    requires a > 0.0 && b > 0.0
    ensures a / b > 0.0
  {
  }

  lemma GapSign(gap: real, mean: real)
    requires gap >= 0.0 && mean > 0.0
    ensures gap / mean * 100.0 >= 0.0
    ensures gap / mean * 100.0 == 0.0 <==> gap == 0.0
  {
    if gap > 0.0 {
      Positive(gap, mean);
    }
  }

  // ---- rows ----

  datatype Row = Row(
    cellId: string, runs: nat, partialRuns: nat, spreadPct: Option<real>, tokensPerCompletedTask: real,
    completionRatePct: real, firstAttemptPct: Option<real>, corrective: nat, infrastructure: nat,
    input: int, output: int, cacheRead: int, headline: bool, regression: bool, withheld: bool)

  function Pct(part: nat, whole: nat): real {
    if whole == 0 then 0.0 else part as real / whole as real * 100.0
  }

  function CacheReadAvailable(a: CellAggregate): bool {
    a.sawRecord && a.tally.cacheMissing == 0
  }

  /** A reason not to publish: nothing measured, nothing counted, nothing completed, or an axis missing. */
  predicate Withholds(a: CellAggregate) {
    || !a.sawRecord
    || a.runs == 0
    || a.tally.completed == 0
    || !CacheReadAvailable(a)
  }

  function ToRow(a: CellAggregate, cellId: string): Row {
    if a.mixed then
      Row(cellId, a.runs, a.partialRuns, None, 0.0, 0.0, None, 0, 0, 0, 0, 0, false, false, true)
    else
      var t := a.tally;
      var withheld := Withholds(a);
      Row(cellId, a.runs, a.partialRuns,
          if |a.perRunCost| >= 2 then Some(Spread(a.perRunCost)) else None,
          if t.completed > 0 then t.tokens as real / t.completed as real else 0.0,
          Pct(t.completed, t.eligible),
          if t.determinate > 0 then Some(Pct(t.firstAttempt, t.determinate)) else None,
          t.corrective, t.infrastructure, t.input, t.output, t.cacheRead,
          a.runs >= MIN_HEADLINE_RUNS && |a.perRunCost| >= 2 && t.completed > 0 && CacheReadAvailable(a) && !withheld,
          false, withheld)
  }

  // ---- the block ----

  datatype ModeCell = ModeCell(id: string, endpoint: string, routingMode: string)

  datatype Options = Options(provider: string, model: string, cells: seq<ModeCell>, threshold: real)

  datatype BlockError = BaselineMissing | BaselineNotBypassing | NoProvider | ModelUnpinned | UnknownCell | NotAVerdict

  datatype Block = Block(source: AccountingSource, threshold: real, rows: seq<Row>)

  /** Unicode white space, as `strings.TrimSpace` trims it. */
  predicate IsSpace(c: char) {
    var n := c as int;
    || 0x9 <= n <= 0xD || n == 0x20 || n == 0x85 || n == 0xA0 || n == 0x1680
    || 0x2000 <= n <= 0x200A || n == 0x2028 || n == 0x2029 || n == 0x202F || n == 0x205F || n == 0x3000
  }

  predicate IsBlank(s: string) {
    forall i :: 0 <= i < |s| ==> IsSpace(s[i])
  }

  function ThresholdOf(opts: Options): real {
    if opts.threshold > 0.0 then opts.threshold else DEFAULT_THRESHOLD
  }

  function CellRecords(records: seq<UnitRecord>, id: string): seq<UnitRecord> {
    Filter(records, (r: UnitRecord) => r.cellId == id)
  }

  /** A cell's row before the regression pass. */
  function PlainRow(records: seq<UnitRecord>, id: string): Row {
    ToRow(Aggregated(CellRecords(records, id)), id)
  }

  predicate Measured(records: seq<UnitRecord>, id: string) {
    Aggregated(CellRecords(records, id)).tally.eligible > 0
  }

  /** The regression rule: a measured, unwithheld cell that completes more than the threshold less than the baseline. */
  predicate Regresses(records: seq<UnitRecord>, opts: Options, id: string) {
    && id != BASELINE
    && Measured(records, BASELINE)
    && !PlainRow(records, id).withheld
    && Measured(records, id)
    && PlainRow(records, BASELINE).completionRatePct - PlainRow(records, id).completionRatePct > ThresholdOf(opts)
  }

  function FinalRow(records: seq<UnitRecord>, opts: Options, id: string): Row {
    PlainRow(records, id).(regression := Regresses(records, opts, id))
  }

  function FirstBaseline(cells: seq<ModeCell>): Option<ModeCell> {
    if cells == [] then None
    else if cells[0].id == BASELINE then Some(cells[0])
    else FirstBaseline(cells[1..])
  }

  /** `validateAgentLoopOptions` and the accounting source, in the order they are checked. */
  function OptionsError(opts: Options): Option<BlockError> {
    var baseline := FirstBaseline(opts.cells);
    if baseline.None? then Some(BaselineMissing)
    else if baseline.value.endpoint != "" || baseline.value.routingMode != BASELINE then Some(BaselineNotBypassing)
    else if IsBlank(opts.provider) then Some(NoProvider)
    else if IsBlank(opts.model) then Some(ModelUnpinned)
    else None
  }

  lemma {:induction false} BaselineIsKnown(cells: seq<ModeCell>)
    requires FirstBaseline(cells).Some?
    ensures KnownCell(cells, BASELINE)
  {
    if cells[0].id != BASELINE {
      BaselineIsKnown(cells[1..]);
      var i :| 0 <= i < |cells| - 1 && cells[1..][i].id == BASELINE;
      assert cells[i + 1].id == BASELINE;
    }
  }

  predicate KnownCell(cells: seq<ModeCell>, id: string) {
    exists i :: 0 <= i < |cells| && cells[i].id == id
  }

  /** Why a record cannot be reported, if it cannot: its cell is not in the matrix, or its verdict is not one. */
  function RecordError(cells: seq<ModeCell>, r: UnitRecord): Option<BlockError> {
    if !KnownCell(cells, r.cellId) then Some(UnknownCell)
    else if r.completion == Unrecognised then Some(NotAVerdict)
    else None
  }

  /** The error of the first record that has one. */
  function RecordsError(cells: seq<ModeCell>, records: seq<UnitRecord>): Option<BlockError> {
    if records == [] then None
    else
      var before := RecordsError(cells, records[..|records| - 1]);
      if before.Some? then before else RecordError(cells, Last(records))
  }

  function InputError(records: seq<UnitRecord>, opts: Options): Option<BlockError> {
    if OptionsError(opts).Some? then OptionsError(opts) else RecordsError(opts.cells, records)
  }

  ghost predicate IsReport(block: Block, records: seq<UnitRecord>, opts: Options) {
    && block.threshold == ThresholdOf(opts)
    && block.source == AccountingSource(PROVIDER_KIND, opts.provider, opts.model)
    && |block.rows| == |opts.cells|
    && forall i :: 0 <= i < |opts.cells| ==> block.rows[i] == FinalRow(records, opts, opts.cells[i].id)
  }

  /** `AgentLoopBlockFor`: one row per cell of the matrix, in its order. */
  method BlockFor(records: seq<UnitRecord>, opts: Options) returns (r: Result<Block, BlockError>)
    ensures InputError(records, opts).Some? ==> r == Err(InputError(records, opts).value)
    ensures InputError(records, opts).None? ==> r.Ok? && IsReport(r.value, records, opts)
  {
    var problem := OptionsError(opts);
    if problem.Some? {
      return Err(problem.value);
    }
    var byCell;
    problem, byCell := DistributeAll(records, opts.cells);
    if problem.Some? {
      return Err(problem.value);
    }
    BaselineIsKnown(opts.cells);
    var rows, baselineRate := PlainRows(records, byCell, opts.cells);
    rows := FlagRegressions(records, byCell, opts, rows, baselineRate);
    return Ok(Block(AccountingSource(PROVIDER_KIND, opts.provider, opts.model), ThresholdOf(opts), rows));
  }

  method DistributeAll(records: seq<UnitRecord>, cells: seq<ModeCell>)
    returns (problem: Option<BlockError>, byCell: map<string, seq<UnitRecord>>)
    ensures problem == RecordsError(cells, records)
    ensures problem.None? ==> Distributed(byCell, records)
  {
    problem, byCell := None, map[];
    var k := 0;
    while k < |records| && problem.None?
      invariant k <= |records|
      invariant problem == RecordsError(cells, records[..k])
      invariant problem.None? ==> Distributed(byCell, records[..k])
    {
      assert records[..k + 1][..k] == records[..k];
      problem := RecordError(cells, records[k]);
      if problem.None? {
        byCell := Distribute(byCell, records, k);
      }
      k := k + 1;
    }
    FirstErrorStays(cells, records, k);
    if problem.None? {
      assert records[..k] == records;
    }
  }

  lemma {:induction false} FirstErrorStays(cells: seq<ModeCell>, records: seq<UnitRecord>, k: nat)
    requires k <= |records|
    requires k == |records| || RecordsError(cells, records[..k]).Some?
    ensures RecordsError(cells, records) == RecordsError(cells, records[..k])
  {
    if k == |records| {
      assert records[..k] == records;
    } else {
      assert records[..|records| - 1][..k] == records[..k];
      FirstErrorStays(cells, records[..|records| - 1], k);
    }
  }

  method FlagRegressions(records: seq<UnitRecord>, byCell: map<string, seq<UnitRecord>>, opts: Options,
                         plain: seq<Row>, baselineRate: Option<real>)
    returns (rows: seq<Row>)
    requires Distributed(byCell, records)
    requires |plain| == |opts.cells|
    requires forall i :: 0 <= i < |plain| ==> plain[i] == PlainRow(records, opts.cells[i].id)
    requires IsBaselineRate(baselineRate, records)
    ensures |rows| == |plain|
    ensures forall i :: 0 <= i < |rows| ==> rows[i] == FinalRow(records, opts, opts.cells[i].id)
  {
    rows := plain;
    for i := 0 to |rows|
      invariant |rows| == |plain|
      invariant forall j :: 0 <= j < i ==> rows[j] == FinalRow(records, opts, opts.cells[j].id)
      invariant rows[i..] == plain[i..]
    {
      assert rows[i] == rows[i..][0] == plain[i];
      var flagged := FlagRow(records, byCell, opts, opts.cells[i].id, rows[i], baselineRate);
      rows := rows[i := flagged];
    }
  }

  method FlagRow(records: seq<UnitRecord>, byCell: map<string, seq<UnitRecord>>, opts: Options, id: string, row: Row,
                 baselineRate: Option<real>)
    returns (flagged: Row)
    requires Distributed(byCell, records) && row == PlainRow(records, id)
    requires IsBaselineRate(baselineRate, records)
    ensures flagged == FinalRow(records, opts, id)
  {
    RowKeepsId(records, id);
    flagged := row;
    if row.cellId != BASELINE && baselineRate.Some? && !row.withheld {
      var again := AggregateCell(Lookup(byCell, id));
      if again.tally.eligible > 0 && baselineRate.value - row.completionRatePct > ThresholdOf(opts) {
        flagged := row.(regression := true);
      }
    }
  }

  ghost predicate IsBaselineRate(rate: Option<real>, records: seq<UnitRecord>) {
    rate == if Measured(records, BASELINE) then Some(PlainRow(records, BASELINE).completionRatePct) else None
  }

  function Lookup(byCell: map<string, seq<UnitRecord>>, id: string): seq<UnitRecord> {
    if id in byCell then byCell[id] else []
  }

  ghost predicate Distributed(byCell: map<string, seq<UnitRecord>>, records: seq<UnitRecord>) {
    forall id :: Lookup(byCell, id) == CellRecords(records, id)
  }

  method Distribute(byCell: map<string, seq<UnitRecord>>, records: seq<UnitRecord>, k: nat)
    returns (more: map<string, seq<UnitRecord>>)
    requires k < |records| && Distributed(byCell, records[..k])
    ensures Distributed(more, records[..k + 1])
  {
    var r := records[k];
    more := byCell[r.cellId := Lookup(byCell, r.cellId) + [r]];
    assert records[..k + 1] == records[..k] + [r];
    forall id
      ensures Lookup(more, id) == CellRecords(records[..k + 1], id)
    {
      FilterConcat(records[..k], [r], (q: UnitRecord) => q.cellId == id);
      assert Lookup(byCell, id) == CellRecords(records[..k], id);
    }
  }

  lemma RowKeepsId(records: seq<UnitRecord>, id: string)
    ensures PlainRow(records, id).cellId == id && !PlainRow(records, id).regression
  {
  }

  /** The first pass: every row, and the baseline's completion rate once the baseline has one. */
  method PlainRows(records: seq<UnitRecord>, byCell: map<string, seq<UnitRecord>>, cells: seq<ModeCell>)
    returns (rows: seq<Row>, baselineRate: Option<real>)
    requires Distributed(byCell, records) && KnownCell(cells, BASELINE)
    ensures |rows| == |cells| && forall i :: 0 <= i < |cells| ==> rows[i] == PlainRow(records, cells[i].id)
    ensures IsBaselineRate(baselineRate, records)
  {
    rows, baselineRate := [], None;
    for i := 0 to |cells|
      invariant RowsSoFar(rows, records, cells, i)
      invariant if KnownCell(cells[..i], BASELINE) then IsBaselineRate(baselineRate, records) else baselineRate.None?
    {
      KnownCellSnoc(cells, i, BASELINE);
      var row, rate := MeasureCell(records, byCell, cells[i].id, baselineRate);
      rows, baselineRate := rows + [row], rate;
    }
    assert cells[..|cells|] == cells;
  }

  ghost predicate RowsSoFar(rows: seq<Row>, records: seq<UnitRecord>, cells: seq<ModeCell>, n: nat)
    requires n <= |cells|
  {
    |rows| == n && forall j :: 0 <= j < n ==> rows[j] == PlainRow(records, cells[j].id)
  }

  method MeasureCell(records: seq<UnitRecord>, byCell: map<string, seq<UnitRecord>>, id: string, rate0: Option<real>)
    returns (row: Row, rate: Option<real>)
    requires Distributed(byCell, records)
    requires rate0.None? || IsBaselineRate(rate0, records)
    ensures row == PlainRow(records, id)
    ensures if id == BASELINE then IsBaselineRate(rate, records) else rate == rate0
  {
    var agg := AggregateCell(Lookup(byCell, id));
    row := ToRow(agg, id);
    rate := rate0;
    if id == BASELINE && agg.tally.eligible > 0 {
      rate := Some(row.completionRatePct);
    }
  }

  lemma KnownCellSnoc(cells: seq<ModeCell>, i: nat, id: string)
    requires i < |cells|
    ensures KnownCell(cells[..i + 1], id) <==> KnownCell(cells[..i], id) || cells[i].id == id
  {
    if KnownCell(cells[..i], id) {
      var j :| 0 <= j < i && cells[..i][j].id == id;
      assert cells[..i + 1][j].id == id;
    }
    if cells[i].id == id {
      assert cells[..i + 1][i].id == id;
    }
  }
}
