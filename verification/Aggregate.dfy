/**
 * `aggregateCell`: one cell's run records folded, run by run, into the figures of a report row. Token counts are
 * integers, ratios exact reals.
 */
module Aggregate {
  import opened Wrappers
  import opened Seqs
  import opened Intents

  datatype AccountingSource = AccountingSource(kind: string, identity: string, model: string)

  const UNSET := AccountingSource("", "", "")

  /** Provider-reported usage; an absent cache-read count is not a zero. */
  datatype Usage = Usage(input: int, output: int, cacheRead: Option<int>)

  datatype Completion = Pass | Fail | NoSignal | Unrecognised

  datatype UnitRecord = UnitRecord(
    cellId: string, runIndex: int, completion: Completion, partial: bool, attempts: seq<Attempt>,
    usage: Usage, source: AccountingSource)

  /** The counters a record can move. */
  datatype Tally = Tally(
    eligible: nat, completed: nat, tokens: int, input: int, output: int, cacheRead: int, cacheMissing: nat,
    determinate: nat, firstAttempt: nat, corrective: nat, infrastructure: nat)

  const ZERO := Tally(0, 0, 0, 0, 0, 0, 0, 0, 0, 0, 0)

  function Plus(a: Tally, b: Tally): Tally {
    Tally(a.eligible + b.eligible, a.completed + b.completed, a.tokens + b.tokens, a.input + b.input,
          a.output + b.output, a.cacheRead + b.cacheRead, a.cacheMissing + b.cacheMissing,
          a.determinate + b.determinate, a.firstAttempt + b.firstAttempt, a.corrective + b.corrective,
          a.infrastructure + b.infrastructure)
  }

  /** What the verdicts on a record's intents add. */
  function IntentTally(outs: seq<IntentOutcome>): Tally {
    if outs == [] then ZERO
    else
      var o := Last(outs);
      Plus(IntentTally(outs[..|outs| - 1]),
           ZERO.(corrective := o.corrective, infrastructure := o.infrastructure,
                 determinate := if o.indeterminate then 0 else 1,
                 firstAttempt := if !o.indeterminate && o.firstAttemptSuccess then 1 else 0))
  }

  /** `Usage.Total`: input, output and cache-read, the last taken as zero when unknown. */
  function TotalTokens(u: Usage): int {
    u.input + u.output + (if u.cacheRead.Some? then u.cacheRead.value else 0)
  }

  /** What a counted record's usage and verdict add. */
  function UsageTally(r: UnitRecord): Tally {
    ZERO.(eligible := 1,
          completed := if r.completion == Pass then 1 else 0,
          tokens := TotalTokens(r.usage),
          input := r.usage.input,
          output := r.usage.output,
          cacheRead := if r.usage.cacheRead.Some? then r.usage.cacheRead.value else 0,
          cacheMissing := if r.usage.cacheRead.Some? then 0 else 1)
  }

  // ---- the fold, as the program runs it ----

  /** What one run has accumulated, with the source the cell has settled on. */
  datatype RunState = RunState(tally: Tally, source: AccountingSource, mixed: bool)

  function StepRecord(s: RunState, r: UnitRecord): RunState {
    var seen := s.(tally := Plus(s.tally, IntentTally(Classified(r.attempts))));
    if r.completion == NoSignal then seen
    else if r.source != UNSET && s.source != UNSET && r.source != s.source then seen.(mixed := true)
    else
      seen.(tally := Plus(seen.tally, UsageTally(r)),
            source := if r.source != UNSET then r.source else s.source)
  }

  function FoldRun(run: seq<UnitRecord>, source: AccountingSource, mixed: bool): RunState {
    if run == [] then RunState(ZERO, source, mixed)
    else StepRecord(FoldRun(run[..|run| - 1], source, mixed), Last(run))
  }

  datatype CellAggregate = CellAggregate(
    source: AccountingSource, mixed: bool, runs: nat, partialRuns: nat, tally: Tally, sawRecord: bool,
    perRunCost: seq<real>)

  const EMPTY := CellAggregate(UNSET, false, 0, 0, ZERO, false, [])

  function HasPartial(run: seq<UnitRecord>): bool {
    exists i :: 0 <= i < |run| && run[i].partial
  }

  /** One run added: excluded wholesale when any of its units is partial, and not counted when nothing in it was. */
  function StepRun(a: CellAggregate, run: seq<UnitRecord>): CellAggregate {
    if HasPartial(run) then a.(partialRuns := a.partialRuns + 1)
    else
      var s := FoldRun(run, a.source, a.mixed);
      var b := a.(source := s.source, mixed := s.mixed, tally := Plus(a.tally, s.tally));
      if s.tally.eligible == 0 then b
      else b.(runs := a.runs + 1,
              perRunCost := if s.tally.completed > 0
                            then a.perRunCost + [s.tally.tokens as real / s.tally.completed as real]
                            else a.perRunCost)
  }

  /** The records of one run, in the order given. */
  function RunRecords(records: seq<UnitRecord>, idx: int): seq<UnitRecord> {
    Filter(records, (r: UnitRecord) => r.runIndex == idx)
  }

  function FoldCell(records: seq<UnitRecord>, indexes: seq<int>): CellAggregate {
    if indexes == [] then EMPTY.(sawRecord := true)
    else StepRun(FoldCell(records, indexes[..|indexes| - 1]), RunRecords(records, Last(indexes)))
  }

  /** Insert an index into an ascending list that does not have it. */
  function InsertIndex(s: seq<int>, x: int): seq<int> {
    if s != [] && x < Last(s) then InsertIndex(s[..|s| - 1], x) + [Last(s)] else s + [x]
  }

  /** The run indexes of the records, each once, ascending. */
  function RunIndexes(records: seq<UnitRecord>): seq<int> {
    if records == [] then []
    else
      var front := RunIndexes(records[..|records| - 1]);
      if Last(records).runIndex in front then front else InsertIndex(front, Last(records).runIndex)
  }

  /** `aggregateCell` as a function of the records in the order given. */
  function Aggregated(records: seq<UnitRecord>): CellAggregate {
    if records == [] then EMPTY else FoldCell(records, RunIndexes(records))
  }

  predicate StrictlyAscending(s: seq<int>) {
    forall i, j :: 0 <= i < j < |s| ==> s[i] < s[j]
  }

  lemma {:induction false} InsertIndexFacts(s: seq<int>, x: int)
    requires StrictlyAscending(s) && x !in s
    ensures StrictlyAscending(InsertIndex(s, x))
    ensures forall y :: y in InsertIndex(s, x) <==> y in s || y == x
  {
    if s != [] && x < Last(s) {
      var front := s[..|s| - 1];
      FrontAndLast(s);
      assert forall y :: y in s <==> y in front || y == Last(s);
      InsertIndexFacts(front, x);
      AscendingSnoc(InsertIndex(front, x), Last(s));
    } else {
      AscendingSnoc(s, x);
    }
  }

  lemma AscendingSnoc(s: seq<int>, x: int)
    requires StrictlyAscending(s) && forall y :: y in s ==> y < x
    ensures StrictlyAscending(s + [x])
    ensures forall y :: y in s + [x] <==> y in s || y == x
  {
    assert forall i :: 0 <= i < |s| ==> s[i] in s;
  }

  lemma {:induction false} RunIndexesFacts(records: seq<UnitRecord>)
    ensures StrictlyAscending(RunIndexes(records))
    ensures forall x :: x in RunIndexes(records) <==> exists r :: r in records && r.runIndex == x
  {
    if records != [] {
      var front := records[..|records| - 1];
      RunIndexesFacts(front);
      FrontAndLast(records);
      if Last(records).runIndex !in RunIndexes(front) {
        InsertIndexFacts(RunIndexes(front), Last(records).runIndex);
      }
      assert forall r :: r in records <==> r in front || r == Last(records);
    }
  }

  // ---- the loops ----

  method TallyIntents(outs: seq<IntentOutcome>) returns (t: Tally)
    ensures t == IntentTally(outs)
  {
    t := ZERO;
    for i := 0 to |outs|
      invariant t == IntentTally(outs[..i])
    {
      var o := outs[i];
      assert outs[..i + 1][..i] == outs[..i];
      t := t.(corrective := t.corrective + o.corrective, infrastructure := t.infrastructure + o.infrastructure);
      if o.indeterminate {
        continue;
      }
      t := t.(determinate := t.determinate + 1);
      if o.firstAttemptSuccess {
        t := t.(firstAttempt := t.firstAttempt + 1);
      }
    }
    assert outs[..|outs|] == outs;
  }

  method AggregateRun(run: seq<UnitRecord>, source: AccountingSource, mixed: bool) returns (s: RunState)
    ensures s == FoldRun(run, source, mixed)
  {
    s := RunState(ZERO, source, mixed);
    for i := 0 to |run|
      invariant s == FoldRun(run[..i], source, mixed)
    {
      var r := run[i];
      assert run[..i + 1][..i] == run[..i];
      var outs := ClassifyIntents(r.attempts);
      var intents := TallyIntents(outs);
      s := s.(tally := Plus(s.tally, intents));
      if r.completion == NoSignal {
        continue;
      }
      if r.source != UNSET {
        if s.source == UNSET {
          s := s.(source := r.source);
        } else if s.source != r.source {
          s := s.(mixed := true);
          continue;
        }
      }
      s := s.(tally := Plus(s.tally, UsageTally(r)));
    }
    assert run[..|run|] == run;
  }

  /** `byRun` and the distinct run indexes, sorted. */
  method GroupRuns(records: seq<UnitRecord>) returns (indexes: seq<int>, byRun: map<int, seq<UnitRecord>>)
    ensures indexes == RunIndexes(records)
    ensures Grouped(records, indexes, byRun)
  {
    indexes, byRun := [], map[];
    for k := 0 to |records|
      invariant indexes == RunIndexes(records[..k])
      invariant Grouped(records[..k], indexes, byRun)
    {
      var r := records[k];
      assert records[..k + 1] == records[..k] + [r] && records[..k + 1][..k] == records[..k];
      GroupedSnoc(records[..k], r, indexes, byRun);
      if r.runIndex !in byRun {
        indexes := InsertIndex(indexes, r.runIndex);
      }
      byRun := byRun[r.runIndex := (if r.runIndex in byRun then byRun[r.runIndex] else []) + [r]];
    }
    assert records[..|records|] == records;
  }

  /** `byRun` holds the records of every listed run. */
  ghost predicate Grouped(records: seq<UnitRecord>, indexes: seq<int>, byRun: map<int, seq<UnitRecord>>) {
    && (forall x :: x in indexes <==> x in byRun)
    && (forall x :: x in byRun ==> byRun[x] == RunRecords(records, x))
  }

  lemma GroupedSnoc(records: seq<UnitRecord>, r: UnitRecord, indexes: seq<int>, byRun: map<int, seq<UnitRecord>>)
    requires indexes == RunIndexes(records) && Grouped(records, indexes, byRun)
    ensures var x := r.runIndex;
            Grouped(records + [r],
                    if x in indexes then indexes else InsertIndex(indexes, x),
                    byRun[x := (if x in byRun then byRun[x] else []) + [r]])
  {
    RunIndexesFacts(records);
    if r.runIndex !in indexes {
      InsertIndexFacts(indexes, r.runIndex);
      NoRecordsYet(records, r.runIndex);
    }
    forall x
      ensures RunRecords(records + [r], x) ==
              if r.runIndex == x then RunRecords(records, x) + [r] else RunRecords(records, x)
    {
      RunRecordsSnoc(records, r, x);
    }
  }

  lemma RunRecordsSnoc(records: seq<UnitRecord>, r: UnitRecord, x: int)
    ensures RunRecords(records + [r], x) ==
            if r.runIndex == x then RunRecords(records, x) + [r] else RunRecords(records, x)
  {
    FilterConcat(records, [r], (q: UnitRecord) => q.runIndex == x);
  }

  lemma NoRecordsYet(records: seq<UnitRecord>, x: int)
    requires x !in RunIndexes(records)
    ensures RunRecords(records, x) == []
  {
    RunIndexesFacts(records);
    FilterNone(records, (r: UnitRecord) => r.runIndex == x);
  }

  method AggregateCell(records: seq<UnitRecord>) returns (agg: CellAggregate)
    ensures agg == Aggregated(records)
  {
    if records == [] {
      return EMPTY;
    }
    agg := EMPTY.(sawRecord := true);
    var indexes, byRun := GroupRuns(records);
    for k := 0 to |indexes|
      invariant agg == FoldCell(records, indexes[..k])
    {
      var x := indexes[k];
      assert x in indexes;
      assert indexes[..k + 1][..k] == indexes[..k];
      agg := AddRun(agg, byRun[x]);
    }
    assert indexes[..|indexes|] == indexes;
  }

  method AddRun(agg0: CellAggregate, run: seq<UnitRecord>) returns (agg: CellAggregate)
    ensures agg == StepRun(agg0, run)
  {
    agg := agg0;
    for i := 0 to |run|
      invariant forall j :: 0 <= j < i ==> !run[j].partial
    {
      if run[i].partial {
        return agg.(partialRuns := agg.partialRuns + 1);
      }
    }
    var s := AggregateRun(run, agg.source, agg.mixed);
    agg := agg.(source := s.source, mixed := s.mixed, tally := Plus(agg.tally, s.tally));
    if s.tally.eligible == 0 {
      return;
    }
    agg := agg.(runs := agg.runs + 1);
    if s.tally.completed > 0 {
      agg := agg.(perRunCost := agg.perRunCost + [s.tally.tokens as real / s.tally.completed as real]);
    }
  }

  // ---- what every state of the fold keeps ----

  ghost predicate Balanced(t: Tally) {
    && t.tokens == t.input + t.output + t.cacheRead
    && t.completed <= t.eligible
    && t.cacheMissing <= t.eligible
    && t.firstAttempt <= t.determinate
  }

  lemma {:induction false} IntentTallyBalanced(outs: seq<IntentOutcome>)
    ensures Balanced(IntentTally(outs)) && IntentTally(outs).eligible == 0 && IntentTally(outs).tokens == 0
  {
    if outs != [] {
      IntentTallyBalanced(outs[..|outs| - 1]);
    }
  }

  lemma PlusBalanced(a: Tally, b: Tally)
    requires Balanced(a) && Balanced(b)
    ensures Balanced(Plus(a, b))
    ensures Plus(a, b).eligible == a.eligible + b.eligible && Plus(a, b).tokens == a.tokens + b.tokens
  {
  }

  /** A counted record keeps the balance and makes something eligible. */
  lemma PlusUsage(seen: Tally, r: UnitRecord)
    requires Balanced(seen)
    ensures Balanced(Plus(seen, UsageTally(r))) && Plus(seen, UsageTally(r)).eligible > 0
  {
  }

  /** A step adds what the attempts say, and the usage unless the record does not count. */
  lemma StepTally(s: RunState, r: UnitRecord)
    ensures var seen := Plus(s.tally, IntentTally(Classified(r.attempts)));
            StepRecord(s, r).tally == seen || StepRecord(s, r).tally == Plus(seen, UsageTally(r))
  {
  }

  lemma StepBalanced(s: RunState, r: UnitRecord)
    requires Balanced(s.tally) && (s.tally.eligible == 0 ==> s.tally.tokens == 0)
    ensures Balanced(StepRecord(s, r).tally)
    ensures StepRecord(s, r).tally.eligible == 0 ==> StepRecord(s, r).tally.tokens == 0
  {
    var intents := IntentTally(Classified(r.attempts));
    IntentTallyBalanced(Classified(r.attempts));
    PlusBalanced(s.tally, intents);
    PlusUsage(Plus(s.tally, intents), r);
    StepTally(s, r);
  }

  lemma {:induction false} RunBalanced(run: seq<UnitRecord>, source: AccountingSource, mixed: bool)
    ensures Balanced(FoldRun(run, source, mixed).tally)
    ensures FoldRun(run, source, mixed).tally.eligible == 0 ==> FoldRun(run, source, mixed).tally.tokens == 0
  {
    if run != [] {
      RunBalanced(run[..|run| - 1], source, mixed);
      StepBalanced(FoldRun(run[..|run| - 1], source, mixed), Last(run));
    }
  }

  ghost predicate Consistent(a: CellAggregate) {
    && Balanced(a.tally)
    && a.runs <= a.tally.eligible
    && (a.runs == 0 <==> a.tally.eligible == 0)
    && |a.perRunCost| <= a.runs
    && a.sawRecord
  }

  /** The counters of one more run, whatever its costs. */
  lemma RunCounts(a: CellAggregate, run: seq<UnitRecord>)
    requires !HasPartial(run)
    ensures var (b, t) := (StepRun(a, run), FoldRun(run, a.source, a.mixed).tally);
            && b.tally == Plus(a.tally, t) && b.sawRecord == a.sawRecord
            && b.runs == (if t.eligible == 0 then a.runs else a.runs + 1)
            && |b.perRunCost| <= |a.perRunCost| + (b.runs - a.runs)
  {
  }

  lemma RunConsistent(a: CellAggregate, run: seq<UnitRecord>)
    requires Consistent(a)
    ensures Consistent(StepRun(a, run))
  {
    if !HasPartial(run) {
      var t := FoldRun(run, a.source, a.mixed).tally;
      RunBalanced(run, a.source, a.mixed);
      PlusBalanced(a.tally, t);
      RunCounts(a, run);
    }
  }

  /** After any number of runs, whatever their records: the axes sum to the total, and completions are eligible. */
  lemma {:induction false} CellConsistent(records: seq<UnitRecord>, indexes: seq<int>)
    ensures Consistent(FoldCell(records, indexes))
  {
    if indexes != [] {
      CellConsistent(records, indexes[..|indexes| - 1]);
      RunConsistent(FoldCell(records, indexes[..|indexes| - 1]), RunRecords(records, Last(indexes)));
    }
  }
}
