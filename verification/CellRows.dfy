/**
 * What a report row says, read off the records of its cell: the sums over the runs without a partial unit, the shares
 * they make, and when the row is withheld, a headline, or a regression.
 */
module CellRows {
  import opened Wrappers
  import opened Seqs
  import opened Intents
  import opened Aggregate
  import opened CellOrder
  import opened AgentLoopReport
  import opened Savings

  // ---- the records that enter a row ----

  /** Some unit of this run is partial. */
  ghost predicate PartialRun(records: seq<UnitRecord>, run: int) {
    exists q :: q in records && q.runIndex == run && q.partial
  }

  /** The records of the runs without a partial unit. */
  ghost function Used(records: seq<UnitRecord>): seq<UnitRecord> {
    Filter(records, (r: UnitRecord) => !PartialRun(records, r.runIndex))
  }

  ghost predicate HasVerdict(r: UnitRecord) {
    r.completion != NoSignal
  }

  /** Those of them that carry a verdict. */
  ghost function Judged(records: seq<UnitRecord>): seq<UnitRecord> {
    Filter(Used(records), (r: UnitRecord) => HasVerdict(r))
  }

  ghost predicate PartOf(records: seq<UnitRecord>, indexes: seq<int>, r: UnitRecord) {
    r.runIndex in indexes && !PartialRun(records, r.runIndex)
  }

  lemma PartialIffHasPartial(records: seq<UnitRecord>, x: int)
    ensures HasPartial(RunRecords(records, x)) <==> PartialRun(records, x)
  {
    var run := RunRecords(records, x);
    if i :| 0 <= i < |run| && run[i].partial {
      assert run[i] in records && run[i].runIndex == x;
    }
    if q :| q in records && q.runIndex == x && q.partial {
      assert q in run;
      var i :| 0 <= i < |run| && run[i] == q;
    }
  }

  /** The tallies that `g` gives the records, added up. */
  ghost function TallyBy(s: seq<UnitRecord>, g: UnitRecord -> Tally): Tally {
    if s == [] then ZERO else Plus(g(s[0]), TallyBy(s[1..], g))
  }

  lemma {:induction false} SumIsTallyBy(s: seq<UnitRecord>, g: UnitRecord -> Tally)
    requires forall r :: r in s ==> g(r) == RecordTally(r)
    ensures SumTally(s) == TallyBy(s, g)
  {
    if s != [] {
      assert s[0] in s;
      SumIsTallyBy(s[1..], g);
    }
  }

  lemma TallyFilterCons(s: seq<UnitRecord>, g: UnitRecord -> Tally, p: UnitRecord -> bool)
    requires s != []
    ensures TallyBy(Filter(s, p), g) ==
            var rest := TallyBy(Filter(s[1..], p), g); if p(s[0]) then Plus(g(s[0]), rest) else rest
  {
    var rest := Filter(s[1..], p);
    if p(s[0]) {
      assert ([s[0]] + rest)[1..] == rest;
    }
  }

  lemma PlusNothing(a: Tally, z: Tally)
    requires z == ZERO
    ensures Plus(a, z) == a
  {
  }

  /** One more tally `c`, counted on one side or on neither. */
  lemma PlusApart(c: Tally, p: bool, q: bool, a: Tally, b: Tally, both: Tally, a': Tally, b': Tally, both': Tally)
    requires !(p && q) && both == Plus(a, b)
    requires a' == (if p then Plus(c, a) else a) && b' == (if q then Plus(c, b) else b)
    requires both' == if p || q then Plus(c, both) else both
    ensures both' == Plus(a', b')
  {
    PlusAssociates(c, a, b);
    PlusSwaps(c, a, b);
  }

  /** Records of two kinds that exclude each other add up apart. */
  lemma {:induction false} SumApart(s: seq<UnitRecord>, g: UnitRecord -> Tally, p: UnitRecord -> bool,
                                    q: UnitRecord -> bool, both: UnitRecord -> bool)
    requires forall r :: r in s ==> (both(r) <==> p(r) || q(r)) && !(p(r) && q(r))
    ensures TallyBy(Filter(s, both), g) == Plus(TallyBy(Filter(s, p), g), TallyBy(Filter(s, q), g))
  {
    if s == [] {
      PlusNothing(TallyBy(Filter(s, p), g), TallyBy(Filter(s, q), g));
    } else {
      var rest, c := s[1..], g(s[0]);
      assert s[0] in s && forall r :: r in rest ==> r in s;
      SumApart(rest, g, p, q, both);
      TallyFilterCons(s, g, p);
      TallyFilterCons(s, g, q);
      TallyFilterCons(s, g, both);
      PlusApart(c, p(s[0]), q(s[0]),
                TallyBy(Filter(rest, p), g), TallyBy(Filter(rest, q), g), TallyBy(Filter(rest, both), g),
                TallyBy(Filter(s, p), g), TallyBy(Filter(s, q), g), TallyBy(Filter(s, both), g));
    }
  }

  lemma {:induction false} FilterSame(s: seq<UnitRecord>, p: UnitRecord -> bool, q: UnitRecord -> bool)
    requires forall r :: r in s ==> p(r) == q(r)
    ensures Filter(s, p) == Filter(s, q)
  {
    if s != [] {
      FilterSame(s[1..], p, q);
    }
  }

  lemma RunApart(records: seq<UnitRecord>, front: seq<int>, x: int, indexes: seq<int>)
    requires x !in front && (forall y :: y in indexes <==> y in front || y == x) && !PartialRun(records, x)
    ensures SumTally(Filter(records, (r: UnitRecord) => PartOf(records, indexes, r))) ==
            Plus(SumTally(Filter(records, (r: UnitRecord) => PartOf(records, front, r))),
                 SumTally(RunRecords(records, x)))
  {
    var g := (r: UnitRecord) => RecordTally(r);
    var p, q := (r: UnitRecord) => PartOf(records, front, r), (r: UnitRecord) => r.runIndex == x;
    var both := (r: UnitRecord) => PartOf(records, indexes, r);
    SumApart(records, g, p, q, both);
    SumIsTallyBy(Filter(records, both), g);
    SumIsTallyBy(Filter(records, p), g);
    SumIsTallyBy(Filter(records, q), g);
  }

  /** Run by run, the records of the listed runs add up to what they add up to in the order given. */
  lemma {:induction false} SumOfListedRuns(records: seq<UnitRecord>, indexes: seq<int>)
    requires StrictlyAscending(indexes)
    ensures CountedSum(records, indexes) == SumTally(Filter(records, (r: UnitRecord) => PartOf(records, indexes, r)))
  {
    if indexes == [] {
      FilterNone(records, (r: UnitRecord) => PartOf(records, indexes, r));
    } else {
      var front, x := indexes[..|indexes| - 1], Last(indexes);
      SumOfListedRuns(records, front);
      PartialIffHasPartial(records, x);
      FrontAndLast(indexes);
      assert x !in front && forall y :: y in indexes <==> y in front || y == x;
      if PartialRun(records, x) {
        FilterSame(records, (r: UnitRecord) => PartOf(records, indexes, r),
                   (r: UnitRecord) => PartOf(records, front, r));
      } else {
        RunApart(records, front, x, indexes);
      }
    }
  }

  lemma CellIsSumOfUsed(records: seq<UnitRecord>)
    requires !Aggregated(records).mixed
    ensures Aggregated(records).tally == SumTally(Used(records))
  {
    var indexes := RunIndexes(records);
    CellIsSumOfRuns(records);
    RunIndexesFacts(records);
    SumOfListedRuns(records, indexes);
    FilterSame(records, (r: UnitRecord) => PartOf(records, indexes, r),
               (r: UnitRecord) => !PartialRun(records, r.runIndex));
  }

  // ---- what the records say, figure by figure ----

  function Corrective(o: IntentOutcome): int { o.corrective }

  function Infrastructure(o: IntentOutcome): int { o.infrastructure }

  function Determinate(o: IntentOutcome): int { if o.indeterminate then 0 else 1 }

  function FirstSuccess(o: IntentOutcome): int { if !o.indeterminate && o.firstAttemptSuccess then 1 else 0 }

  function CorrectiveOf(r: UnitRecord): int { SumBy(Classified(r.attempts), Corrective) }

  function InfrastructureOf(r: UnitRecord): int { SumBy(Classified(r.attempts), Infrastructure) }

  function DeterminateOf(r: UnitRecord): int { SumBy(Classified(r.attempts), Determinate) }

  function FirstSuccessOf(r: UnitRecord): int { SumBy(Classified(r.attempts), FirstSuccess) }

  function InputOf(r: UnitRecord): int { r.usage.input }

  function OutputOf(r: UnitRecord): int { r.usage.output }

  function CacheReadOf(r: UnitRecord): int { if r.usage.cacheRead.Some? then r.usage.cacheRead.value else 0 }

  function PassOf(r: UnitRecord): int { if r.completion == Pass then 1 else 0 }

  function LackOf(r: UnitRecord): int { if r.usage.cacheRead.None? then 1 else 0 }

  /** `t` is what verdicts on intents add up to. */
  ghost predicate IntentsAre(t: Tally, corrective: int, infrastructure: int, determinate: int, first: int) {
    && t.corrective == corrective && t.infrastructure == infrastructure
    && t.determinate == determinate && t.firstAttempt == first
  }

  lemma {:induction false} IntentSums(outs: seq<IntentOutcome>)
    ensures IntentsAre(IntentTally(outs), SumBy(outs, Corrective), SumBy(outs, Infrastructure),
                       SumBy(outs, Determinate), SumBy(outs, FirstSuccess))
    ensures IntentTally(outs).eligible == 0 && IntentTally(outs).completed == 0 && IntentTally(outs).tokens == 0
    ensures IntentTally(outs).input == 0 && IntentTally(outs).output == 0 && IntentTally(outs).cacheRead == 0
    ensures IntentTally(outs).cacheMissing == 0
  {
    if outs != [] {
      var front, o := outs[..|outs| - 1], Last(outs);
      IntentSums(front);
      FrontAndLast(outs);
      SumBySnoc(front, o, Corrective);
      SumBySnoc(front, o, Infrastructure);
      SumBySnoc(front, o, Determinate);
      SumBySnoc(front, o, FirstSuccess);
    }
  }

  /** `t` is what these usages add up to. */
  ghost predicate UsageIs(t: Tally, eligible: int, completed: int, input: int, output: int, cacheRead: int,
                          missing: int)
  {
    && t.eligible == eligible && t.completed == completed && t.cacheMissing == missing
    && t.input == input && t.output == output && t.cacheRead == cacheRead
    && t.tokens == input + output + cacheRead
  }

  lemma RecordFigures(r: UnitRecord)
    ensures IntentsAre(RecordTally(r), CorrectiveOf(r), InfrastructureOf(r), DeterminateOf(r), FirstSuccessOf(r))
    ensures if HasVerdict(r)
            then UsageIs(RecordTally(r), 1, PassOf(r), InputOf(r), OutputOf(r), CacheReadOf(r), LackOf(r))
            else UsageIs(RecordTally(r), 0, 0, 0, 0, 0, 0)
  {
    IntentSums(Classified(r.attempts));
  }

  ghost predicate FiguresAre(t: Tally, used: seq<UnitRecord>, judged: seq<UnitRecord>) {
    && IntentsAre(t, SumBy(used, CorrectiveOf), SumBy(used, InfrastructureOf), SumBy(used, DeterminateOf),
                  SumBy(used, FirstSuccessOf))
    && UsageIs(t, |judged|, SumBy(judged, PassOf), SumBy(judged, InputOf), SumBy(judged, OutputOf),
               SumBy(judged, CacheReadOf), SumBy(judged, LackOf))
  }

  lemma {:induction false} SumFigures(used: seq<UnitRecord>)
    ensures FiguresAre(SumTally(used), used, Filter(used, (r: UnitRecord) => HasVerdict(r)))
  {
    if used != [] {
      SumFigures(used[1..]);
      RecordFigures(used[0]);
      var rest, judged := used[1..], Filter(used[1..], (r: UnitRecord) => HasVerdict(r));
      AddFigures(SumTally(rest), RecordTally(used[0]), used[0], rest, judged);
      assert used == [used[0]] + rest;
    }
  }

  lemma AddFigures(t: Tally, c: Tally, r: UnitRecord, rest: seq<UnitRecord>, judged: seq<UnitRecord>)
    requires FiguresAre(t, rest, judged)
    requires IntentsAre(c, CorrectiveOf(r), InfrastructureOf(r), DeterminateOf(r), FirstSuccessOf(r))
    requires if HasVerdict(r) then UsageIs(c, 1, PassOf(r), InputOf(r), OutputOf(r), CacheReadOf(r), LackOf(r))
             else UsageIs(c, 0, 0, 0, 0, 0, 0)
    ensures FiguresAre(Plus(c, t), [r] + rest, if HasVerdict(r) then [r] + judged else judged)
  {
    assert ([r] + rest)[1..] == rest && ([r] + judged)[1..] == judged;
  }

  // ---- the runs ----

  ghost predicate JudgedRun(records: seq<UnitRecord>, x: int) {
    !PartialRun(records, x) && exists r :: r in records && r.runIndex == x && HasVerdict(r)
  }

  ghost predicate PassingRun(records: seq<UnitRecord>, x: int) {
    !PartialRun(records, x) && exists r :: r in records && r.runIndex == x && r.completion == Pass
  }

  /** The judged records of one run. */
  ghost function InRun(records: seq<UnitRecord>, x: int): seq<UnitRecord> {
    Filter(RunRecords(records, x), (r: UnitRecord) => HasVerdict(r))
  }

  /** What a pass cost in one run: its tokens over its passes. */
  ghost predicate IsCost(cost: real, records: seq<UnitRecord>, x: int) {
    var run := InRun(records, x);
    cost * SumBy(run, PassOf) as real ==
    (SumBy(run, InputOf) + SumBy(run, OutputOf) + SumBy(run, CacheReadOf)) as real
  }

  ghost predicate CostsAre(costs: seq<real>, records: seq<UnitRecord>, runs: seq<int>) {
    |costs| == |runs| && forall j :: 0 <= j < |runs| ==> IsCost(costs[j], records, runs[j])
  }

  ghost function PassingRuns(records: seq<UnitRecord>, indexes: seq<int>): seq<int> {
    Filter(indexes, (x: int) => PassingRun(records, x))
  }

  /** `a` has counted these runs. */
  ghost predicate RunsAre(a: CellAggregate, records: seq<UnitRecord>, indexes: seq<int>) {
    && a.runs == |Filter(indexes, (x: int) => JudgedRun(records, x))|
    && a.partialRuns == |Filter(indexes, (x: int) => PartialRun(records, x))|
    && CostsAre(a.perRunCost, records, PassingRuns(records, indexes))
  }

  lemma {:induction false} SomePass(run: seq<UnitRecord>)
    ensures SumBy(run, PassOf) >= 0
    ensures SumBy(run, PassOf) > 0 <==> exists r :: r in run && r.completion == Pass
  {
    if run != [] {
      SomePass(run[1..]);
      assert forall r :: r in run <==> r == run[0] || r in run[1..];
    }
  }

  /** What one run without a partial unit adds up to. */
  lemma RunFigures(records: seq<UnitRecord>, x: int, t: Tally)
    requires t == SumTally(RunRecords(records, x)) && !PartialRun(records, x)
    ensures var run := InRun(records, x);
            && t.eligible == |run| && t.completed == SumBy(run, PassOf)
            && t.tokens == SumBy(run, InputOf) + SumBy(run, OutputOf) + SumBy(run, CacheReadOf)
    ensures t.eligible > 0 <==> JudgedRun(records, x)
    ensures t.completed > 0 <==> PassingRun(records, x)
  {
    var run, all := InRun(records, x), RunRecords(records, x);
    SumFigures(all);
    SomePass(run);
    assert forall r :: r in all <==> r in records && r.runIndex == x;
    assert forall r :: r in run <==> r in all && HasVerdict(r);
    if run != [] {
      assert run[0] in run;
    }
    if r :| r in records && r.runIndex == x && HasVerdict(r) {
      assert r in run;
    }
  }

  lemma FilterLast<T>(s: seq<T>, p: T -> bool)
    requires s != []
    ensures Filter(s, p) == Filter(s[..|s| - 1], p) + if p(Last(s)) then [Last(s)] else []
  {
    assert s[..|s| - 1 + 1] == s;
    FilterNext(s, |s| - 1, p);
  }

  /** One more run: counted as partial, or by what it adds up to. */
  lemma RunStep(a: CellAggregate, records: seq<UnitRecord>, x: int)
    requires !StepRun(a, RunRecords(records, x)).mixed && !a.mixed
    ensures var b := StepRun(a, RunRecords(records, x));
            && b.runs == a.runs + (if JudgedRun(records, x) then 1 else 0)
            && b.partialRuns == a.partialRuns + (if PartialRun(records, x) then 1 else 0)
            && (!PassingRun(records, x) ==> b.perRunCost == a.perRunCost)
            && (PassingRun(records, x) ==>
                  exists cost :: b.perRunCost == a.perRunCost + [cost] && IsCost(cost, records, x))
  {
    var run := RunRecords(records, x);
    PartialIffHasPartial(records, x);
    if !HasPartial(run) {
      var s := FoldRun(run, a.source, a.mixed);
      RunTally(run, a.source, a.mixed, s);
      RunFigures(records, x, s.tally);
      RunAdds(a, run, s, JudgedRun(records, x), PassingRun(records, x));
      if PassingRun(records, x) {
        TalliedCost(s.tally, records, x);
      }
    }
  }

  lemma TalliedCost(t: Tally, records: seq<UnitRecord>, x: int)
    requires t.completed > 0 && t.completed == SumBy(InRun(records, x), PassOf)
    requires var run := InRun(records, x);
             t.tokens == SumBy(run, InputOf) + SumBy(run, OutputOf) + SumBy(run, CacheReadOf)
    ensures IsCost(t.tokens as real / t.completed as real, records, x)
  {
    Restored(t.tokens as real, t.completed as real);
  }

  lemma Restored(a: real, b: real)
    requires b != 0.0
    ensures a / b * b == a
  {
  }

  lemma RunAdds(a: CellAggregate, run: seq<UnitRecord>, s: RunState, judged: bool, passing: bool)
    requires !HasPartial(run) && s == FoldRun(run, a.source, a.mixed)
    requires (s.tally.eligible > 0 <==> judged) && (s.tally.completed > 0 <==> passing) && (passing ==> judged)
    ensures var b := StepRun(a, run);
            && b.runs == a.runs + (if judged then 1 else 0) && b.partialRuns == a.partialRuns
            && b.perRunCost ==
               if passing then a.perRunCost + [s.tally.tokens as real / s.tally.completed as real] else a.perRunCost
  {
  }

  lemma {:induction false} FoldRuns(records: seq<UnitRecord>, indexes: seq<int>)
    requires !FoldCell(records, indexes).mixed
    ensures RunsAre(FoldCell(records, indexes), records, indexes)
  {
    if indexes != [] {
      var front, x := indexes[..|indexes| - 1], Last(indexes);
      var a := FoldCell(records, front);
      if a.mixed {
        FlagSticks(a, RunRecords(records, x));
      }
      FoldRuns(records, front);
      RunStep(a, records, x);
      FilterLast(indexes, (y: int) => JudgedRun(records, y));
      FilterLast(indexes, (y: int) => PartialRun(records, y));
      FilterLast(indexes, (y: int) => PassingRun(records, y));
    }
  }

  // ---- the row of a cell ----

  ghost function JudgedRuns(records: seq<UnitRecord>): set<int> {
    set r | r in records && JudgedRun(records, r.runIndex) :: r.runIndex
  }

  ghost function PassedRuns(records: seq<UnitRecord>): set<int> {
    set r | r in records && PassingRun(records, r.runIndex) :: r.runIndex
  }

  ghost function PartialRuns(records: seq<UnitRecord>): set<int> {
    set r | r in records && PartialRun(records, r.runIndex) :: r.runIndex
  }

  /** `v` is the percentage `part` is of `whole`, and zero of nothing. */
  ghost predicate IsPct(v: real, part: int, whole: int) {
    if whole == 0 then v == 0.0 else v * whole as real == 100.0 * part as real
  }

  /** `v` is `amount` for each of `n`, and zero for none. */
  ghost predicate IsPer(v: real, amount: int, n: int) {
    if n == 0 then v == 0.0 else v * n as real == amount as real
  }

  /** `v` is the gap between the dearest and the cheapest cost, as a percentage of their mean. */
  ghost predicate IsSpread(v: real, costs: seq<real>) {
    exists lo, hi :: SpreadOf(v, costs, lo, hi)
  }

  ghost predicate SpreadOf(v: real, costs: seq<real>, lo: real, hi: real) {
    && lo in costs && hi in costs && (forall c :: c in costs ==> lo <= c <= hi)
    && if Total(costs) == 0.0 then v == 0.0 else v * Total(costs) == (hi - lo) * 100.0 * |costs| as real
  }

  /** The passing runs, listed in order, with what a pass cost in each. */
  ghost predicate CostsOfRuns(costs: seq<real>, runs: seq<int>, records: seq<UnitRecord>) {
    StrictlyAscending(runs) && Elems(runs) == PassedRuns(records) && CostsAre(costs, records, runs)
  }

  /** The sums and shares of a row, as the records used and those of them judged give them. */
  ghost predicate FiguresRead(row: Row, used: seq<UnitRecord>, judged: seq<UnitRecord>) {
    && row.corrective == SumBy(used, CorrectiveOf) && row.infrastructure == SumBy(used, InfrastructureOf)
    && row.input == SumBy(judged, InputOf) && row.output == SumBy(judged, OutputOf)
    && row.cacheRead == SumBy(judged, CacheReadOf)
    && IsPct(row.completionRatePct, SumBy(judged, PassOf), |judged|)
    && (row.firstAttemptPct.None? <==> SumBy(used, DeterminateOf) == 0)
    && (row.firstAttemptPct.Some? ==>
          IsPct(row.firstAttemptPct.value, SumBy(used, FirstSuccessOf), SumBy(used, DeterminateOf)))
    && IsPer(row.tokensPerCompletedTask, row.input + row.output + row.cacheRead, SumBy(judged, PassOf))
  }

  /** The runs of a row, whether it is withheld, and whether it may be a headline. */
  ghost predicate MarksRead(row: Row, records: seq<UnitRecord>) {
    var judged := Judged(records);
    && row.runs == |JudgedRuns(records)| && row.partialRuns == |PartialRuns(records)|
    && (row.withheld <==>
          (forall r :: r in judged ==> r.completion != Pass) || exists r :: r in judged && r.usage.cacheRead.None?)
    && (row.headline <==> !row.withheld && row.runs >= 4 && |PassedRuns(records)| >= 2)
    && (row.spreadPct.None? <==> |PassedRuns(records)| < 2)
    && (row.spreadPct.Some? ==>
          exists costs, runs :: CostsOfRuns(costs, runs, records) && IsSpread(row.spreadPct.value, costs))
  }

  lemma UnmixedFigures(records: seq<UnitRecord>)
    requires !Aggregated(records).mixed
    ensures FiguresAre(Aggregated(records).tally, Used(records), Judged(records))
  {
    CellIsSumOfUsed(records);
    SumFigures(Used(records));
  }

  lemma PctIs(part: nat, whole: nat)
    ensures IsPct(Pct(part, whole), part, whole)
  {
    if whole > 0 {
      Restored(part as real, whole as real);
    }
  }

  /** The figures of the row of an unmixed aggregate, whatever its regression flag. */
  lemma RowFigures(a: CellAggregate, id: string, flag: bool, used: seq<UnitRecord>, judged: seq<UnitRecord>)
    requires !a.mixed && FiguresAre(a.tally, used, judged)
    ensures FiguresRead(ToRow(a, id).(regression := flag), used, judged)
  {
    var t := a.tally;
    PctIs(t.completed, t.eligible);
    PctIs(t.firstAttempt, t.determinate);
    PerIs(t.tokens, t.completed);
  }

  lemma PerIs(amount: int, n: nat)
    ensures IsPer(if n > 0 then amount as real / n as real else 0.0, amount, n)
  {
    if n > 0 {
      Restored(amount as real, n as real);
    }
  }

  /** Some of these records lack a cache-read count. */
  lemma {:induction false} SomeLack(s: seq<UnitRecord>)
    ensures SumBy(s, LackOf) >= 0
    ensures SumBy(s, LackOf) > 0 <==> exists r :: r in s && r.usage.cacheRead.None?
  {
    if s != [] {
      SomeLack(s[1..]);
      assert forall r :: r in s <==> r == s[0] || r in s[1..];
    }
  }

  lemma {:induction false} FilterAscends(s: seq<int>, p: int -> bool)
    requires StrictlyAscending(s)
    ensures StrictlyAscending(Filter(s, p))
  {
    if s != [] {
      var rest := Filter(s[1..], p);
      FilterAscends(s[1..], p);
      forall i | 0 <= i < |rest|
        ensures s[0] < rest[i]
      {
        assert rest[i] in s[1..];
      }
    }
  }

  /** Run indexes with a property, counted. */
  lemma CountRuns(records: seq<UnitRecord>, p: int -> bool, runs: set<int>)
    requires forall x :: x in runs <==> p(x) && exists r :: r in records && r.runIndex == x
    ensures |Filter(RunIndexes(records), p)| == |runs|
    ensures StrictlyAscending(Filter(RunIndexes(records), p)) && Elems(Filter(RunIndexes(records), p)) == runs
  {
    RunIndexesFacts(records);
    FilterAscends(RunIndexes(records), p);
    NoDupCardinality(Filter(RunIndexes(records), p));
    assert Elems(Filter(RunIndexes(records), p)) == runs;
  }

  /** Partial runs are counted whatever the sources. */
  lemma {:induction false} FoldPartialRuns(records: seq<UnitRecord>, indexes: seq<int>)
    ensures FoldCell(records, indexes).partialRuns == |Filter(indexes, (x: int) => PartialRun(records, x))|
  {
    if indexes != [] {
      FoldPartialRuns(records, indexes[..|indexes| - 1]);
      PartialIffHasPartial(records, Last(indexes));
      FilterLast(indexes, (x: int) => PartialRun(records, x));
    }
  }

  lemma PartialRunsOf(records: seq<UnitRecord>)
    ensures Aggregated(records).partialRuns == |PartialRuns(records)|
  {
    CountRuns(records, (x: int) => PartialRun(records, x), PartialRuns(records));
    if records != [] {
      FoldPartialRuns(records, RunIndexes(records));
    }
  }

  lemma RunsOf(records: seq<UnitRecord>)
    requires !Aggregated(records).mixed
    ensures var a := Aggregated(records);
            && a.runs == |JudgedRuns(records)| && a.partialRuns == |PartialRuns(records)|
            && exists runs :: CostsOfRuns(a.perRunCost, runs, records)
  {
    var indexes := RunIndexes(records);
    CountRuns(records, (x: int) => JudgedRun(records, x), JudgedRuns(records));
    CountRuns(records, (x: int) => PartialRun(records, x), PartialRuns(records));
    CountRuns(records, (x: int) => PassingRun(records, x), PassedRuns(records));
    if records != [] {
      FoldRuns(records, indexes);
    }
    assert CostsOfRuns(Aggregated(records).perRunCost, PassingRuns(records, indexes), records);
  }

  lemma SpreadIs(costs: seq<real>)
    requires |costs| >= 2
    ensures IsSpread(Spread(costs), costs)
  {
    Extremes(costs);
    var lo, hi, n := Least(costs), Greatest(costs), |costs| as real;
    forall c | c in costs
      ensures lo <= c <= hi
    {
      var i :| 0 <= i < |costs| && costs[i] == c;
    }
    if Total(costs) != 0.0 {
      var mean := Total(costs) / n;
      Restored(Total(costs), n);
      Restored(hi - lo, mean);
      assert (hi - lo) / mean * 100.0 * (mean * n) == (hi - lo) / mean * mean * (100.0 * n);
    }
    assert SpreadOf(Spread(costs), costs, lo, hi);
  }

  /** The marks of the row of an unmixed aggregate. */
  lemma RowMarks(a: CellAggregate, id: string, flag: bool, records: seq<UnitRecord>, runs: seq<int>)
    requires !a.mixed && FiguresAre(a.tally, Used(records), Judged(records))
    requires a.runs == |JudgedRuns(records)| && a.partialRuns == |PartialRuns(records)|
    requires CostsOfRuns(a.perRunCost, runs, records)
    requires a.sawRecord <==> records != []
    ensures MarksRead(ToRow(a, id).(regression := flag), records)
  {
    var judged := Judged(records);
    SomePass(judged);
    SomeLack(judged);
    assert |runs| == |PassedRuns(records)| by {
      NoDupCardinality(runs);
    }
    if |a.perRunCost| >= 2 {
      SpreadIs(a.perRunCost);
    }
    if r :| r in judged && r.completion == Pass {
      assert r.runIndex in JudgedRuns(records);
    }
  }

  lemma SawRecord(records: seq<UnitRecord>)
    ensures Aggregated(records).sawRecord <==> records != []
  {
    if records != [] {
      CellConsistent(records, RunIndexes(records));
    }
  }

  /** The row of a cell whose sources agree says what its records say. */
  lemma RowReads(records: seq<UnitRecord>, id: string, flag: bool)
    requires !Aggregated(records).mixed
    ensures var row := ToRow(Aggregated(records), id).(regression := flag);
            FiguresRead(row, Used(records), Judged(records)) && MarksRead(row, records)
  {
    UnmixedFigures(records);
    RowFigures(Aggregated(records), id, flag, Used(records), Judged(records));
    SawRecord(records);
    RunsOf(records);
    var runs :| CostsOfRuns(Aggregated(records).perRunCost, runs, records);
    RowMarks(Aggregated(records), id, flag, records, runs);
  }

  // ---- the rows of a block ----

  /** Two judged records name different sources. */
  ghost predicate SourcesDisagree(records: seq<UnitRecord>) {
    exists r, t :: r in Judged(records) && t in Judged(records)
                   && r.source != UNSET && t.source != UNSET && r.source != t.source
  }

  lemma MixedIffDisagree(records: seq<UnitRecord>)
    ensures Aggregated(records).mixed <==> SourcesDisagree(records)
  {
    MixedIffSourcesDisagree(records);
    RunIndexesFacts(records);
    forall r
      ensures CountsIn(records, RunIndexes(records), r) <==> r in Judged(records)
    {
      PartialIffHasPartial(records, r.runIndex);
      assert r in Used(records) <==> r in records && !PartialRun(records, r.runIndex);
    }
  }

  /** The first record that names a source is counted. */
  lemma {:induction false} SourcedRunCounts(run: seq<UnitRecord>, source: AccountingSource, mixed: bool, s: RunState)
    requires s == FoldRun(run, source, mixed) && s.source != UNSET
    ensures source != UNSET || s.tally.eligible > 0
  {
    if run != [] {
      var before := FoldRun(run[..|run| - 1], source, mixed);
      if before.source != UNSET {
        SourcedRunCounts(run[..|run| - 1], source, mixed, before);
      }
      EligibleGrows(before, Last(run));
    }
  }

  lemma EligibleGrows(s: RunState, r: UnitRecord)
    ensures StepRecord(s, r).tally.eligible >= s.tally.eligible
    ensures s.source == UNSET && StepRecord(s, r).source != UNSET ==> StepRecord(s, r).tally.eligible > 0
  {
  }

  lemma {:induction false} SourcedCellCounts(records: seq<UnitRecord>, indexes: seq<int>)
    requires FoldCell(records, indexes).source != UNSET
    ensures FoldCell(records, indexes).tally.eligible > 0
  {
    if indexes != [] {
      var a, run := FoldCell(records, indexes[..|indexes| - 1]), RunRecords(records, Last(indexes));
      if a.source != UNSET {
        SourcedCellCounts(records, indexes[..|indexes| - 1]);
      }
      if !HasPartial(run) {
        SourcedRunCounts(run, a.source, a.mixed, FoldRun(run, a.source, a.mixed));
      }
    }
  }

  lemma MeasuredIffJudged(records: seq<UnitRecord>)
    ensures Aggregated(records).tally.eligible > 0 <==> Judged(records) != []
  {
    if Aggregated(records).mixed {
      MixedIffDisagree(records);
      var indexes := RunIndexes(records);
      FoldSources(records, indexes);
      assert FoldCell(records, indexes).source != UNSET;
      SourcedCellCounts(records, indexes);
    } else {
      UnmixedFigures(records);
    }
  }

  /** A row says what its cell's records say, or is withheld because their sources disagree. */
  ghost predicate RowIs(row: Row, own: seq<UnitRecord>) {
    if SourcesDisagree(own) then ShowsNothing(row) && row.partialRuns == |PartialRuns(own)|
    else FiguresRead(row, Used(own), Judged(own)) && MarksRead(row, own)
  }

  /** Withheld without a figure. */
  ghost predicate ShowsNothing(row: Row) {
    && row.withheld && !row.headline && !row.regression
    && row.input == 0 && row.output == 0 && row.cacheRead == 0 && row.corrective == 0 && row.infrastructure == 0
    && row.tokensPerCompletedTask == 0.0 && row.completionRatePct == 0.0
    && row.firstAttemptPct.None? && row.spreadPct.None?
  }

  lemma {:induction false} BlockReads(block: Block, records: seq<UnitRecord>, opts: Options, i: nat)
    requires IsReport(block, records, opts) && i < |opts.cells|
    ensures block.rows[i].cellId == opts.cells[i].id
    ensures RowIs(block.rows[i], Filter(records, (r: UnitRecord) => r.cellId == opts.cells[i].id))
  {
    var id := opts.cells[i].id;
    var own := CellRecords(records, id);
    FilterSame(records, (r: UnitRecord) => r.cellId == id, (r: UnitRecord) => r.cellId == opts.cells[i].id);
    assert own == Filter(records, (r: UnitRecord) => r.cellId == opts.cells[i].id);
    MixedIffDisagree(own);
    if Aggregated(own).mixed {
      PartialRunsOf(own);
    } else {
      RowReads(own, id, block.rows[i].regression);
    }
  }

  /** A row is a regression when the baseline was measured and completed more by over the threshold. */
  lemma RegressionReads(block: Block, records: seq<UnitRecord>, opts: Options, i: nat, b: nat)
    requires IsReport(block, records, opts) && i < |opts.cells| && b < |opts.cells|
    requires opts.cells[b].id == "baseline"
    ensures var threshold := if opts.threshold > 0.0 then opts.threshold else 5.0;
            block.rows[i].regression <==>
              && opts.cells[i].id != "baseline"
              && Judged(Filter(records, (r: UnitRecord) => r.cellId == "baseline")) != []
              && !block.rows[i].withheld
              && block.rows[b].completionRatePct - block.rows[i].completionRatePct > threshold
  {
    var id := opts.cells[i].id;
    var base := CellRecords(records, "baseline");
    FilterSame(records, (r: UnitRecord) => r.cellId == BASELINE, (r: UnitRecord) => r.cellId == "baseline");
    assert base == Filter(records, (r: UnitRecord) => r.cellId == "baseline");
    MeasuredIffJudged(base);
    PlainRowFacts(records, id);
    assert block.rows[b].completionRatePct == PlainRow(records, BASELINE).completionRatePct;
  }

  // ---- what is refused ----

  ghost predicate FirstBaselineAt(cells: seq<ModeCell>, b: int) {
    0 <= b < |cells| && cells[b].id == "baseline" && forall j :: 0 <= j < b ==> cells[j].id != "baseline"
  }

  ghost predicate BadRecord(cells: seq<ModeCell>, r: UnitRecord) {
    (forall c :: c in cells ==> c.id != r.cellId) || r.completion == Unrecognised
  }

  ghost predicate FirstBadRecord(cells: seq<ModeCell>, records: seq<UnitRecord>, k: int) {
    0 <= k < |records| && BadRecord(cells, records[k]) && forall j :: 0 <= j < k ==> !BadRecord(cells, records[j])
  }

  lemma {:induction false} FirstBaselineIs(cells: seq<ModeCell>)
    ensures FirstBaseline(cells).None? <==> forall i :: 0 <= i < |cells| ==> cells[i].id != "baseline"
    ensures forall b :: FirstBaselineAt(cells, b) ==> FirstBaseline(cells) == Some(cells[b])
  {
    if cells != [] && cells[0].id != "baseline" {
      var rest := cells[1..];
      FirstBaselineIs(rest);
      assert forall i :: 0 <= i < |rest| ==> rest[i] == cells[i + 1];
      if forall i :: 0 <= i < |rest| ==> rest[i].id != "baseline" {
        forall i | 0 <= i < |cells|
          ensures cells[i].id != "baseline"
        {
          assert i > 0 ==> cells[i] == rest[i - 1];
        }
      }
      forall b | FirstBaselineAt(cells, b)
        ensures FirstBaseline(cells) == Some(cells[b])
      {
        assert b > 0 && FirstBaselineAt(rest, b - 1);
      }
    }
  }

  lemma BadRecordIs(cells: seq<ModeCell>, r: UnitRecord)
    ensures RecordError(cells, r) ==
            if !BadRecord(cells, r) then None
            else if forall c :: c in cells ==> c.id != r.cellId then Some(UnknownCell)
            else Some(NotAVerdict)
  {
    if i :| 0 <= i < |cells| && cells[i].id == r.cellId {
      assert cells[i] in cells;
    }
  }

  lemma {:induction false} FirstBadRecordIs(cells: seq<ModeCell>, records: seq<UnitRecord>)
    ensures (forall r :: r in records ==> !BadRecord(cells, r)) ==> RecordsError(cells, records).None?
    ensures forall k :: FirstBadRecord(cells, records, k) ==>
              RecordsError(cells, records) == RecordError(cells, records[k])
  {
    if records != [] {
      var front, r := records[..|records| - 1], Last(records);
      FirstBadRecordIs(cells, front);
      FrontAndLast(records);
      BadRecordIs(cells, r);
      forall k | FirstBadRecord(cells, records, k)
        ensures RecordsError(cells, records) == RecordError(cells, records[k])
      {
        if k < |front| {
          assert FirstBadRecord(cells, front, k);
          BadRecordIs(cells, records[k]);
        } else {
          assert forall q :: q in front ==> !BadRecord(cells, q);
        }
      }
    }
  }

  /** What a matrix and its records are refused for, first reason first. */
  lemma ErrorsRead(records: seq<UnitRecord>, opts: Options)
    ensures (forall i :: 0 <= i < |opts.cells| ==> opts.cells[i].id != "baseline") ==>
              InputError(records, opts) == Some(BaselineMissing)
    ensures forall b :: FirstBaselineAt(opts.cells, b) ==>
              var bypasses := opts.cells[b].endpoint == "" && opts.cells[b].routingMode == "baseline";
              && (!bypasses ==> InputError(records, opts) == Some(BaselineNotBypassing))
              && (bypasses && IsBlank(opts.provider) ==> InputError(records, opts) == Some(NoProvider))
              && (bypasses && !IsBlank(opts.provider) && IsBlank(opts.model) ==>
                    InputError(records, opts) == Some(ModelUnpinned))
              && (bypasses && !IsBlank(opts.provider) && !IsBlank(opts.model) ==>
                    && ((forall r :: r in records ==> !BadRecord(opts.cells, r)) ==> InputError(records, opts).None?)
                    && forall k :: FirstBadRecord(opts.cells, records, k) ==>
                         InputError(records, opts) ==
                         Some(if forall c :: c in opts.cells ==> c.id != records[k].cellId then UnknownCell
                              else NotAVerdict))
  {
    FirstBaselineIs(opts.cells);
    FirstBadRecordIs(opts.cells, records);
    forall k | FirstBadRecord(opts.cells, records, k)
      ensures RecordError(opts.cells, records[k]) ==
              Some(if forall c :: c in opts.cells ==> c.id != records[k].cellId then UnknownCell else NotAVerdict)
    {
      BadRecordIs(opts.cells, records[k]);
    }
  }
}
