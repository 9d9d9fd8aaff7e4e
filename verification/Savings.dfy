/**
 * `SavingVsBaseline`, the one function that turns two rows into a percentage, and what the figures it publishes are
 * worth: bounded by the runs behind them, and blind to the order in which the records arrived.
 */
module Savings {
  import opened Wrappers
  import opened Seqs
  import opened Aggregate
  import opened AgentLoopReport
  import CellOrder

  datatype SavingVerdict = SavingVerdict(withheld: bool, regression: bool, savingPct: real)

  const WITHHELD := SavingVerdict(true, false, 0.0)

  /** The last row carrying an id. */
  function LastRow(rows: seq<Row>, id: string): Option<Row> {
    if rows == [] then None
    else if Last(rows).cellId == id then Some(Last(rows))
    else LastRow(rows[..|rows| - 1], id)
  }

  /** The two sides of the comparison. A block compared with its own baseline row has no baseline side. */
  function BaselineFor(rows: seq<Row>, cellId: string): Option<Row> {
    if cellId == BASELINE then None else LastRow(rows, BASELINE)
  }

  function BlockThreshold(block: Block): real {
    if block.threshold > 0.0 then block.threshold else DEFAULT_THRESHOLD
  }

  /** Both sides carry a figure from enough runs. */
  predicate Comparable(cell: Row, base: Row) {
    && base.tokensPerCompletedTask > 0.0
    && !cell.withheld && !base.withheld
    && cell.runs >= MIN_HEADLINE_RUNS && base.runs >= MIN_HEADLINE_RUNS
  }

  predicate Deficient(block: Block, cell: Row, base: Row) {
    base.completionRatePct - cell.completionRatePct > BlockThreshold(block)
  }

  method FindSides(rows: seq<Row>, cellId: string) returns (cell: Option<Row>, base: Option<Row>)
    ensures cell == LastRow(rows, cellId) && base == BaselineFor(rows, cellId)
  {
    cell, base := None, None;
    for i := 0 to |rows|
      invariant cell == LastRow(rows[..i], cellId) && base == BaselineFor(rows[..i], cellId)
    {
      assert rows[..i + 1][..i] == rows[..i];
      if rows[i].cellId == cellId {
        cell := Some(rows[i]);
      } else if rows[i].cellId == BASELINE {
        base := Some(rows[i]);
      }
    }
    assert rows[..|rows|] == rows;
  }

  ghost predicate Publishes(block: Block, cellId: string) {
    var cell, base := LastRow(block.rows, cellId), BaselineFor(block.rows, cellId);
    && cell.Some? && base.Some? && Comparable(cell.value, base.value)
    && !cell.value.regression && !Deficient(block, cell.value, base.value)
    && cell.value.tokensPerCompletedTask > 0.0
  }

  ghost predicate Regressed(block: Block, cellId: string) {
    var cell, base := LastRow(block.rows, cellId), BaselineFor(block.rows, cellId);
    && cell.Some? && base.Some? && Comparable(cell.value, base.value)
    && (cell.value.regression || Deficient(block, cell.value, base.value))
  }

  /** Row `i` is the last one carrying this id. */
  ghost predicate LastAt(rows: seq<Row>, id: string, i: int) {
    0 <= i < |rows| && rows[i].cellId == id && forall j :: i < j < |rows| ==> rows[j].cellId != id
  }

  lemma {:induction false} LastRowAt(rows: seq<Row>, id: string)
    ensures forall i :: LastAt(rows, id, i) ==> LastRow(rows, id) == Some(rows[i])
    ensures LastRow(rows, id).Some? ==> exists i :: LastAt(rows, id, i)
  {
    if rows != [] && Last(rows).cellId != id {
      var front := rows[..|rows| - 1];
      LastRowAt(front, id);
      forall i | LastAt(rows, id, i)
        ensures LastRow(rows, id) == Some(rows[i])
      {
        assert LastAt(front, id, i);
      }
      if LastRow(front, id).Some? {
        var i :| LastAt(front, id, i);
        assert LastAt(rows, id, i);
      }
    } else if rows != [] {
      assert LastAt(rows, id, |rows| - 1);
    }
  }

  /** Both rows carry a figure, neither is withheld, and each rests on at least four runs. */
  ghost predicate Comparison(rows: seq<Row>, cellId: string, c: int, b: int) {
    && cellId != "baseline" && LastAt(rows, cellId, c) && LastAt(rows, "baseline", b)
    && rows[b].tokensPerCompletedTask > 0.0
    && !rows[c].withheld && !rows[b].withheld && rows[c].runs >= 4 && rows[b].runs >= 4
  }

  /** The rule in full: five points unless the block says otherwise, and never a regression. */
  lemma RuleReads(block: Block, cellId: string)
    ensures var threshold := if block.threshold > 0.0 then block.threshold else 5.0;
            && (Publishes(block, cellId) <==>
                  exists c, b :: && Comparison(block.rows, cellId, c, b)
                                 && !block.rows[c].regression && block.rows[c].tokensPerCompletedTask > 0.0
                                 && block.rows[b].completionRatePct - block.rows[c].completionRatePct <= threshold)
            && (Regressed(block, cellId) <==>
                  exists c, b :: && Comparison(block.rows, cellId, c, b)
                                 && (block.rows[c].regression || block.rows[b].completionRatePct
                                                                 - block.rows[c].completionRatePct > threshold))
  {
    LastRowAt(block.rows, cellId);
    LastRowAt(block.rows, "baseline");
    if LastRow(block.rows, cellId).Some? && BaselineFor(block.rows, cellId).Some? {
      var c :| LastAt(block.rows, cellId, c);
      var b :| LastAt(block.rows, "baseline", b);
      assert Comparable(block.rows[c], block.rows[b]) <==> Comparison(block.rows, cellId, c, b);
    }
  }

  /**
   * A saving is published exactly when both sides are comparable, the cell is not flagged, its completion rate is
   * within the block's threshold of the baseline's, and it has a cost: for any block, however it was assembled.
   */
  method SavingVsBaseline(block: Option<Block>, cellId: string) returns (v: SavingVerdict)
    ensures !v.withheld <==> block.Some? && Publishes(block.value, cellId)
    ensures v.regression <==> block.Some? && Regressed(block.value, cellId)
    ensures !v.withheld ==>
              var cell, base := LastRow(block.value.rows, cellId).value, BaselineFor(block.value.rows, cellId).value;
              v.savingPct * base.tokensPerCompletedTask ==
              (base.tokensPerCompletedTask - cell.tokensPerCompletedTask) * 100.0
  {
    if block.None? {
      return WITHHELD;
    }
    var cell, base := FindSides(block.value.rows, cellId);
    if cell.None? || base.None? {
      return WITHHELD;
    }
    v := Compare(block.value, cell.value, base.value);
  }

  method Compare(block: Block, cell: Row, base: Row) returns (v: SavingVerdict)
    ensures !v.withheld <==>
              Comparable(cell, base) && !cell.regression && !Deficient(block, cell, base)
              && cell.tokensPerCompletedTask > 0.0
    ensures v.regression <==> Comparable(cell, base) && (cell.regression || Deficient(block, cell, base))
    ensures !v.withheld ==> v.savingPct * base.tokensPerCompletedTask ==
                            (base.tokensPerCompletedTask - cell.tokensPerCompletedTask) * 100.0
  {
    v := WITHHELD;
    if base.tokensPerCompletedTask <= 0.0 || cell.withheld || base.withheld {
      return;
    }
    if cell.runs < MIN_HEADLINE_RUNS || base.runs < MIN_HEADLINE_RUNS {
      return;
    }
    var regressed := cell.regression;
    if base.completionRatePct - cell.completionRatePct > BlockThreshold(block) {
      regressed := true;
    }
    if regressed {
      return WITHHELD.(regression := true);
    }
    if cell.tokensPerCompletedTask <= 0.0 {
      return;
    }
    Scaled(cell.tokensPerCompletedTask, base.tokensPerCompletedTask);
    return SavingVerdict(false, false, (1.0 - cell.tokensPerCompletedTask / base.tokensPerCompletedTask) * 100.0);
  }

  lemma Scaled(c: real, b: real)
    requires b > 0.0
    ensures (1.0 - c / b) * 100.0 * b == (b - c) * 100.0
  {
    assert c / b * b == c;
  }

  // ---- blocks built from records ----

  lemma {:induction false} LastRowIs(rows: seq<Row>, id: string, row: Row)
    requires forall i :: 0 <= i < |rows| && rows[i].cellId == id ==> rows[i] == row
    requires exists i :: 0 <= i < |rows| && rows[i].cellId == id
    ensures LastRow(rows, id) == Some(row)
  {
    if Last(rows).cellId != id {
      var i :| 0 <= i < |rows| && rows[i].cellId == id;
      assert rows[..|rows| - 1][i] == rows[i];
      LastRowIs(rows[..|rows| - 1], id, row);
    }
  }

  lemma SideOf(block: Block, records: seq<UnitRecord>, opts: Options, id: string)
    requires IsReport(block, records, opts) && KnownCell(opts.cells, id)
    ensures LastRow(block.rows, id) == Some(FinalRow(records, opts, id))
  {
    forall i | 0 <= i < |opts.cells|
      ensures block.rows[i].cellId == opts.cells[i].id
    {
      RowKeepsId(records, opts.cells[i].id);
    }
    var i :| 0 <= i < |opts.cells| && opts.cells[i].id == id;
    assert block.rows[i].cellId == id;
    LastRowIs(block.rows, id, FinalRow(records, opts, id));
  }

  /** A row that is not withheld measured something, completed something and knows every axis of its cost. */
  lemma UnwithheldMeans(a: CellAggregate, id: string)
    requires Balanced(a.tally)
    ensures !ToRow(a, id).withheld ==>
              a.tally.eligible > 0 && a.tally.completed > 0 && !a.mixed && CacheReadAvailable(a)
    ensures ToRow(a, id).completionRatePct >= 0.0
    ensures a.mixed ==> ToRow(a, id).completionRatePct == 0.0 && ToRow(a, id).withheld
  {
    PctNonNegative(a.tally.completed, a.tally.eligible);
  }

  lemma PctNonNegative(part: nat, whole: nat)
    ensures Pct(part, whole) >= 0.0
  {
    if whole > 0 {
      assert part as real / whole as real >= 0.0;
    }
  }

  lemma AggregatedBalanced(records: seq<UnitRecord>)
    ensures Balanced(Aggregated(records).tally)
  {
    if records != [] {
      CellConsistent(records, RunIndexes(records));
    }
  }

  lemma PlainRowFacts(records: seq<UnitRecord>, id: string)
    ensures !PlainRow(records, id).withheld ==> Measured(records, id)
    ensures PlainRow(records, id).completionRatePct >= 0.0
    ensures Aggregated(CellRecords(records, id)).mixed ==>
              PlainRow(records, id).completionRatePct == 0.0 && PlainRow(records, id).withheld
  {
    var a := Aggregated(CellRecords(records, id));
    AggregatedBalanced(CellRecords(records, id));
    UnwithheldMeans(a, id);
  }

  /**
   * In a block built from records, the regression `SavingVsBaseline` derives from the two completion rates is the
   * flag the block already carries, for every pair of rows that reaches the comparison.
   */
  lemma FlagAgreesWithRule(block: Block, records: seq<UnitRecord>, opts: Options, id: string)
    requires IsReport(block, records, opts) && KnownCell(opts.cells, id) && KnownCell(opts.cells, BASELINE)
    requires id != BASELINE
    ensures LastRow(block.rows, id).Some? && BaselineFor(block.rows, id).Some?
    ensures var (cell, base) := (LastRow(block.rows, id).value, BaselineFor(block.rows, id).value);
            Comparable(cell, base) ==> (cell.regression <==> Deficient(block, cell, base))
  {
    SideOf(block, records, opts, id);
    SideOf(block, records, opts, BASELINE);
    FlagIsTheRule(block, records, opts, id, FinalRow(records, opts, id), FinalRow(records, opts, BASELINE));
  }

  lemma FlagIsTheRule(block: Block, records: seq<UnitRecord>, opts: Options, id: string, cell: Row, base: Row)
    requires block.threshold == ThresholdOf(opts) && id != BASELINE
    requires cell == FinalRow(records, opts, id) && base == FinalRow(records, opts, BASELINE)
    ensures Comparable(cell, base) ==> (cell.regression <==> Deficient(block, cell, base))
  {
    PlainRowFacts(records, id);
    PlainRowFacts(records, BASELINE);
    assert base.completionRatePct == PlainRow(records, BASELINE).completionRatePct;
    assert base.withheld == PlainRow(records, BASELINE).withheld;
    assert cell.completionRatePct == PlainRow(records, id).completionRatePct;
    assert cell.withheld == PlainRow(records, id).withheld;
    assert cell.regression == Regresses(records, opts, id);
  }

  // ---- the pooled cost and the runs behind it ----

  predicate NoNegativeUsage(r: UnitRecord) {
    r.usage.input >= 0 && r.usage.output >= 0 && (r.usage.cacheRead.Some? ==> r.usage.cacheRead.value >= 0)
  }

  predicate AllNonNegative(records: seq<UnitRecord>) {
    forall i :: 0 <= i < |records| ==> NoNegativeUsage(records[i])
  }

  lemma {:induction false} RunTokens(run: seq<UnitRecord>, source: AccountingSource, mixed: bool)
    requires AllNonNegative(run)
    ensures FoldRun(run, source, mixed).tally.tokens >= 0
  {
    if run != [] {
      RunTokens(run[..|run| - 1], source, mixed);
      IntentTallyBalanced(Intents.Classified(Last(run).attempts));
    }
  }

  lemma RunRecordsNonNegative(records: seq<UnitRecord>, x: int)
    requires AllNonNegative(records)
    ensures AllNonNegative(RunRecords(records, x))
  {
    var run := RunRecords(records, x);
    forall i | 0 <= i < |run|
      ensures NoNegativeUsage(run[i])
    {
      assert run[i] in records;
    }
  }

  predicate AtLeast(tokens: int, completed: nat, m: real) {
    tokens >= 0 && tokens as real >= m * completed as real
  }

  predicate AtMost(tokens: int, completed: nat, m: real) {
    tokens as real <= m * completed as real
  }

  lemma Pool(t: int, c: nat, u: int, d: nat, m: real)
    ensures AtLeast(t, c, m) && AtLeast(u, d, m) ==> AtLeast(t + u, c + d, m)
    ensures AtMost(t, c, m) && AtMost(u, d, m) ==> AtMost(t + u, c + d, m)
  {
    assert (c + d) as real == c as real + d as real;
    assert m * (c + d) as real == m * c as real + m * d as real;
  }

  lemma Share(t: int, c: nat, m: real)
    requires c > 0
    ensures t >= 0 ==> (AtLeast(t, c, m) <==> t as real / c as real >= m)
    ensures AtMost(t, c, m) <==> t as real / c as real <= m
  {
    ShareOfReal(t as real, c as real, m);
  }

  lemma ShareOfReal(t: real, c: real, m: real)
    requires c > 0.0
    ensures t / c >= m <==> t >= m * c
    ensures t / c <= m <==> t <= m * c
  {
    var q := t / c;
    assert t == q * c;
    if q >= m {
      assert (q - m) * c >= 0.0;
    }
    if q <= m {
      assert (m - q) * c >= 0.0;
    }
    if q < m {
      assert (m - q) * c > 0.0;
    }
    if q > m {
      assert (q - m) * c > 0.0;
    }
  }

  ghost predicate NoneBelow(costs: seq<real>, m: real) {
    forall i :: 0 <= i < |costs| ==> costs[i] >= m
  }

  ghost predicate NoneAbove(costs: seq<real>, m: real) {
    forall i :: 0 <= i < |costs| ==> costs[i] <= m
  }

  /** What one more run does to the pooled figures: nothing, or its own tokens, completions and, if any, cost. */
  lemma OneMoreRun(a: CellAggregate, run: seq<UnitRecord>) returns (t: int, c: nat)
    requires Consistent(a) && AllNonNegative(run)
    ensures t >= 0
    ensures var b := StepRun(a, run);
            && b.tally.tokens == a.tally.tokens + t && b.tally.completed == a.tally.completed + c
            && b.perRunCost == a.perRunCost + (if c > 0 then [t as real / c as real] else [])
            && (b.runs == a.runs + 1 || (b.runs == a.runs && t == 0 && c == 0))
  {
    if HasPartial(run) {
      t, c := 0, 0;
    } else {
      var s := FoldRun(run, a.source, a.mixed).tally;
      RunTokens(run, a.source, a.mixed);
      RunBalanced(run, a.source, a.mixed);
      t, c := s.tokens, s.completed;
    }
  }

  /** Tokens pooled so far are at least `m` per completion when every per-run cost is. */
  lemma {:induction false} PooledAtLeast(records: seq<UnitRecord>, indexes: seq<int>, m: real)
    requires AllNonNegative(records) && NoneBelow(FoldCell(records, indexes).perRunCost, m)
    ensures var t := FoldCell(records, indexes).tally; AtLeast(t.tokens, t.completed, m)
    ensures FoldCell(records, indexes).tally.completed > 0 ==> FoldCell(records, indexes).perRunCost != []
  {
    if indexes != [] {
      var front, run := indexes[..|indexes| - 1], RunRecords(records, Last(indexes));
      var a := FoldCell(records, front);
      RunRecordsNonNegative(records, Last(indexes));
      CellConsistent(records, front);
      var t, c := OneMoreRun(a, run);
      BoundsOfFront(a.perRunCost, t, c, m);
      PooledAtLeast(records, front, m);
      Pool(a.tally.tokens, a.tally.completed, t, c, m);
    }
  }

  /** When every counted run completed something, tokens pooled so far are at most `m` per completion. */
  lemma {:induction false} PooledAtMost(records: seq<UnitRecord>, indexes: seq<int>, m: real)
    requires AllNonNegative(records) && NoneAbove(FoldCell(records, indexes).perRunCost, m)
    requires |FoldCell(records, indexes).perRunCost| == FoldCell(records, indexes).runs
    ensures var t := FoldCell(records, indexes).tally; AtMost(t.tokens, t.completed, m)
  {
    if indexes != [] {
      var front, run := indexes[..|indexes| - 1], RunRecords(records, Last(indexes));
      var a := FoldCell(records, front);
      RunRecordsNonNegative(records, Last(indexes));
      CellConsistent(records, front);
      var t, c := OneMoreRun(a, run);
      BoundsOfFront(a.perRunCost, t, c, m);
      PooledAtMost(records, front, m);
      Pool(a.tally.tokens, a.tally.completed, t, c, m);
    }
  }

  lemma BoundsOfFront(costs: seq<real>, t: int, c: nat, m: real)
    requires t >= 0
    ensures var more := costs + (if c > 0 then [t as real / c as real] else []);
            && (NoneBelow(more, m) ==> NoneBelow(costs, m) && AtLeast(t, c, m))
            && (NoneAbove(more, m) ==> NoneAbove(costs, m) && (c > 0 || t == 0 ==> AtMost(t, c, m)))
  {
    var more := costs + (if c > 0 then [t as real / c as real] else []);
    assert forall i :: 0 <= i < |costs| ==> more[i] == costs[i];
    if c > 0 {
      assert more[|costs|] == t as real / c as real;
      Share(t, c, m);
    }
  }

  /**
   * The pooled cost of a cell is at least that of its cheapest run, and at most that of its dearest when every
   * counted run completed something.
   */
  lemma PooledCostIsBounded(records: seq<UnitRecord>, id: string)
    requires AllNonNegative(records)
    requires !Aggregated(records).mixed && Aggregated(records).tally.completed > 0
    ensures Aggregated(records).perRunCost != []
    ensures var (a, cost) := (Aggregated(records), ToRow(Aggregated(records), id).tokensPerCompletedTask);
            && Least(a.perRunCost) <= cost
            && (|a.perRunCost| == a.runs ==> cost <= Greatest(a.perRunCost))
  {
    var a, indexes := Aggregated(records), RunIndexes(records);
    if a.perRunCost == [] {
      PooledAtLeast(records, indexes, 0.0);
    }
    Extremes(a.perRunCost);
    PooledAtLeast(records, indexes, Least(a.perRunCost));
    Share(a.tally.tokens, a.tally.completed, Least(a.perRunCost));
    if |a.perRunCost| == a.runs {
      PooledAtMost(records, indexes, Greatest(a.perRunCost));
      Share(a.tally.tokens, a.tally.completed, Greatest(a.perRunCost));
    }
  }

  // ---- the order of the records ----

  /** The same records in another order give a cell the same final row, unless its records mix sources. */
  lemma RowIgnoresOrder(p: seq<UnitRecord>, q: seq<UnitRecord>, opts: Options, id: string)
    requires multiset(p) == multiset(q)
    ensures Aggregated(CellRecords(p, id)).mixed <==> Aggregated(CellRecords(q, id)).mixed
    ensures !Aggregated(CellRecords(p, id)).mixed ==> FinalRow(p, opts, id) == FinalRow(q, opts, id)
    ensures Aggregated(CellRecords(p, id)).mixed ==>
              FinalRow(p, opts, id).withheld && FinalRow(q, opts, id).withheld
              && !FinalRow(p, opts, id).regression && !FinalRow(q, opts, id).regression
  {
    CellIgnoresOrder(p, q, id);
    CellIgnoresOrder(p, q, BASELINE);
    PlainRowFacts(p, id);
    PlainRowFacts(q, id);
    PlainRowFacts(p, BASELINE);
    PlainRowFacts(q, BASELINE);
  }

  lemma CellIgnoresOrder(p: seq<UnitRecord>, q: seq<UnitRecord>, id: string)
    requires multiset(p) == multiset(q)
    ensures var (a, b) := (Aggregated(CellRecords(p, id)), Aggregated(CellRecords(q, id)));
            && a.mixed == b.mixed
            && (!a.mixed ==> a == b)
  {
    CellOrder.FilterPermuted(p, q, (r: UnitRecord) => r.cellId == id);
    CellOrder.OrderIsIrrelevant(CellRecords(p, id), CellRecords(q, id));
  }
}
