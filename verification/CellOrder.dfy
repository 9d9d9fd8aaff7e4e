/** What an aggregated cell depends on: the multiset of its records, as long as their accounting sources agree. */
module CellOrder {
  import opened Seqs
  import opened Intents
  import opened Aggregate

  predicate Counted(r: UnitRecord) {
    r.completion != NoSignal
  }

  /** What one record adds when its source is not in dispute. */
  function RecordTally(r: UnitRecord): Tally {
    var intents := IntentTally(Classified(r.attempts));
    if Counted(r) then Plus(intents, UsageTally(r)) else intents
  }

  function SumTally(run: seq<UnitRecord>): Tally {
    if run == [] then ZERO else Plus(RecordTally(run[0]), SumTally(run[1..]))
  }

  lemma {:induction false} SumTallyWithout(run: seq<UnitRecord>, j: nat)
    requires j < |run|
    ensures SumTally(run) == Plus(RecordTally(run[j]), SumTally(Without(run, j)))
  {
    if j == 0 {
      assert Without(run, 0) == run[1..];
    } else {
      SumTallyWithout(run[1..], j - 1);
      WithoutTail(run, j);
      PlusSwaps(RecordTally(run[0]), RecordTally(run[j]), SumTally(Without(run[1..], j - 1)));
    }
  }

  lemma WithoutTail(run: seq<UnitRecord>, j: nat)
    requires 0 < j < |run|
    ensures Without(run, j) != [] && Without(run, j)[0] == run[0] && Without(run, j)[1..] == Without(run[1..], j - 1)
  {
  }

  lemma PlusSwaps(a: Tally, b: Tally, c: Tally)
    ensures Plus(a, Plus(b, c)) == Plus(b, Plus(a, c))
  {
  }

  /** Sums do not see the order of the records. */
  lemma {:induction false} SumTallyPermuted(p: seq<UnitRecord>, q: seq<UnitRecord>)
    requires multiset(p) == multiset(q)
    ensures SumTally(p) == SumTally(q)
  {
    assert |multiset(p)| == |p| && |multiset(q)| == |q|;
    if p != [] {
      HeadAndTail(p);
      assert p[0] in multiset(q);
      var j :| 0 <= j < |q| && q[j] == p[0];
      WithoutMultiset(q, j);
      assert multiset(p[1..]) == multiset(p) - multiset{p[0]};
      assert multiset(Without(q, j)) == multiset(q) - multiset{p[0]};
      SumTallyPermuted(p[1..], Without(q, j));
      SumTallyWithout(q, j);
    }
  }

  lemma {:induction false} SumTallySnoc(run: seq<UnitRecord>, r: UnitRecord)
    ensures SumTally(run + [r]) == Plus(SumTally(run), RecordTally(r))
  {
    assert Without(run + [r], |run|) == run;
    SumTallyWithout(run + [r], |run|);
  }

  // ---- sources ----

  /** The sources named by the counted records. */
  ghost function SourcesOf(run: seq<UnitRecord>): set<AccountingSource> {
    set r | r in run && Counted(r) && r.source != UNSET :: r.source
  }

  lemma SourcesSnoc(run: seq<UnitRecord>, r: UnitRecord)
    ensures SourcesOf(run + [r]) == SourcesOf(run) + (if Counted(r) && r.source != UNSET then {r.source} else {})
  {
    assert forall q :: q in run + [r] <==> q in run || q == r;
  }

  /** The source and the flag a fold ends with: the first source named stays, and the flag marks any other. */
  ghost predicate SourceState(s: RunState, source: AccountingSource, mixed: bool, sources: set<AccountingSource>) {
    && (s.source == UNSET <==> source == UNSET && sources == {})
    && (source != UNSET ==> s.source == source)
    && (source == UNSET && sources != {} ==> s.source in sources)
    && (s.mixed <==> mixed || Disputed(sources, s.source))
  }

  ghost predicate Disputed(sources: set<AccountingSource>, source: AccountingSource) {
    exists t :: t in sources && t != source
  }

  lemma DisputedGrows(sources: set<AccountingSource>, more: AccountingSource, source: AccountingSource)
    ensures Disputed(sources + {more}, source) <==> Disputed(sources, source) || more != source
  {
    if Disputed(sources, source) {
      var t :| t in sources && t != source;
      assert t in sources + {more};
    }
    if more != source {
      assert more in sources + {more};
    }
  }

  /** The source and the flag after a run, from the sources its records name. */
  lemma {:induction false} RunSources(run: seq<UnitRecord>, source: AccountingSource, mixed: bool, s: RunState)
    requires s == FoldRun(run, source, mixed)
    ensures SourceState(s, source, mixed, SourcesOf(run))
  {
    if run == [] {
    } else {
      var front, r := run[..|run| - 1], Last(run);
      RunSources(front, source, mixed, FoldRun(front, source, mixed));
      FrontAndLast(run);
      SourcesSnoc(front, r);
      SourceStep(FoldRun(front, source, mixed), r, source, mixed, SourcesOf(front));
    }
  }

  /** Unless it is flagged, a run has added up all its records. */
  lemma {:induction false} RunTally(run: seq<UnitRecord>, source: AccountingSource, mixed: bool, s: RunState)
    requires s == FoldRun(run, source, mixed) && !s.mixed
    ensures s.tally == SumTally(run)
  {
    if run == [] {
    } else {
      var front, r := run[..|run| - 1], Last(run);
      var before := FoldRun(front, source, mixed);
      if Counted(r) {
        CountedStep(before, r);
        PlusAssociates(before.tally, IntentTally(Classified(r.attempts)), UsageTally(r));
      }
      RunTally(front, source, mixed, before);
      FrontAndLast(run);
      SumTallySnoc(front, r);
    }
  }

  lemma SourceStep(s: RunState, r: UnitRecord, source: AccountingSource, mixed: bool, sources: set<AccountingSource>)
    requires SourceState(s, source, mixed, sources)
    ensures SourceState(StepRecord(s, r), source, mixed,
                        sources + (if Counted(r) && r.source != UNSET then {r.source} else {}))
  {
    if Counted(r) && r.source != UNSET {
      var t := StepRecord(s, r);
      NamedSource(s.source, r.source, t.source, s.mixed, t.mixed, source, mixed, sources);
    } else {
      assert sources + {} == sources;
    }
  }

  /** A step over a record that counts either flags the state or adds the attempts and then the usage. */
  lemma CountedStep(s: RunState, r: UnitRecord)
    requires Counted(r)
    ensures s.mixed ==> StepRecord(s, r).mixed
    ensures !StepRecord(s, r).mixed ==>
              StepRecord(s, r).tally == Plus(Plus(s.tally, IntentTally(Classified(r.attempts))), UsageTally(r))
  {
  }

  lemma PlusAssociates(a: Tally, b: Tally, c: Tally)
    ensures Plus(Plus(a, b), c) == Plus(a, Plus(b, c))
  {
  }

  /** A named source: adopted when there is none yet, passed when it is the one already there, flagged otherwise. */
  lemma NamedSource(current: AccountingSource, named: AccountingSource, next: AccountingSource, flag: bool, flag': bool,
                    source: AccountingSource, mixed: bool, sources: set<AccountingSource>)
    requires named != UNSET
    requires SourceState(RunState(ZERO, current, flag), source, mixed, sources)
    requires next == (if current == UNSET then named else current)
    requires flag' == (flag || next != named)
    ensures SourceState(RunState(ZERO, next, flag'), source, mixed, sources + {named})
  {
    DisputedGrows(sources, named, next);
    if current == UNSET {
      assert sources == {};
      assert !Disputed(sources, next);
    }
  }

  /** Within a run whose sources agree, the order of the records is irrelevant. */
  lemma RunOrderIrrelevant(p: seq<UnitRecord>, q: seq<UnitRecord>, source: AccountingSource)
    requires multiset(p) == multiset(q) && !FoldRun(p, source, false).mixed
    ensures FoldRun(p, source, false) == FoldRun(q, source, false)
  {
    SameMembers(p, q);
    assert SourcesOf(p) == SourcesOf(q);
    RunSources(p, source, false, FoldRun(p, source, false));
    RunSources(q, source, false, FoldRun(q, source, false));
    RunTally(p, source, false, FoldRun(p, source, false));
    RunTally(q, source, false, FoldRun(q, source, false));
    SumTallyPermuted(p, q);
  }

  lemma SameMembers(p: seq<UnitRecord>, q: seq<UnitRecord>)
    requires multiset(p) == multiset(q)
    ensures forall r :: r in p <==> r in q
  {
    assert forall r :: r in p <==> r in multiset(p);
    assert forall r :: r in q <==> r in multiset(q);
  }

  // ---- the cell ----

  lemma {:induction false} FilterPermuted(p: seq<UnitRecord>, q: seq<UnitRecord>, f: UnitRecord -> bool)
    requires multiset(p) == multiset(q)
    ensures multiset(Filter(p, f)) == multiset(Filter(q, f))
  {
    assert |multiset(p)| == |p| && |multiset(q)| == |q|;
    if p != [] {
      HeadAndTail(p);
      assert p[0] in multiset(q);
      var j :| 0 <= j < |q| && q[j] == p[0];
      WithoutMultiset(q, j);
      assert multiset(p[1..]) == multiset(p) - multiset{p[0]};
      assert multiset(Without(q, j)) == multiset(q) - multiset{p[0]};
      FilterPermuted(p[1..], Without(q, j), f);
      FilterWithout(q, j, f);
    }
  }

  lemma FilterWithout(q: seq<UnitRecord>, j: nat, f: UnitRecord -> bool)
    requires j < |q|
    ensures multiset(Filter(q, f)) ==
            multiset(Filter(Without(q, j), f)) + (if f(q[j]) then multiset{q[j]} else multiset{})
  {
    var a, x, b := q[..j], [q[j]], q[j + 1..];
    Around(q, j);
    FilterConcat(a, x + b, f);
    FilterConcat(x, b, f);
    FilterConcat(a, b, f);
    FilterOne(q[j], f);
    MiddleOut(Filter(a, f), Filter(x, f), Filter(b, f));
  }

  lemma Around(q: seq<UnitRecord>, j: nat)
    requires j < |q|
    ensures q[..j] + ([q[j]] + q[j + 1..]) == q
  {
  }

  lemma FilterOne(r: UnitRecord, f: UnitRecord -> bool)
    ensures Filter([r], f) == if f(r) then [r] else []
  {
    assert [r][1..] == [];
  }

  lemma {:induction false} AscendingIsUnique(s: seq<int>, t: seq<int>)
    requires StrictlyAscending(s) && StrictlyAscending(t) && forall x :: x in s <==> x in t
    ensures s == t
  {
    if s == [] {
      assert forall i :: 0 <= i < |t| ==> t[i] in t;
    } else {
      assert s[0] in t && (t != [] ==> t[0] in s);
      FirstIsLeast(s, t);
      TailMembers(s);
      TailMembers(t);
      AscendingIsUnique(s[1..], t[1..]);
      assert s == [s[0]] + s[1..] && t == [t[0]] + t[1..];
    }
  }

  lemma FirstIsLeast(s: seq<int>, t: seq<int>)
    requires StrictlyAscending(s) && StrictlyAscending(t) && s != [] && t != []
    requires s[0] in t && t[0] in s
    ensures s[0] == t[0]
  {
  }

  lemma TailMembers(s: seq<int>)
    requires StrictlyAscending(s) && s != []
    ensures StrictlyAscending(s[1..])
    ensures forall x :: x in s[1..] <==> x in s && x != s[0]
  {
    assert s == [s[0]] + s[1..];
  }

  lemma SameIndexes(p: seq<UnitRecord>, q: seq<UnitRecord>)
    requires multiset(p) == multiset(q)
    ensures RunIndexes(p) == RunIndexes(q)
  {
    SameMembers(p, q);
    RunIndexesFacts(p);
    RunIndexesFacts(q);
    AscendingIsUnique(RunIndexes(p), RunIndexes(q));
  }

  lemma RunRecordsPermuted(p: seq<UnitRecord>, q: seq<UnitRecord>, x: int)
    requires multiset(p) == multiset(q)
    ensures multiset(RunRecords(p, x)) == multiset(RunRecords(q, x))
  {
    FilterPermuted(p, q, (r: UnitRecord) => r.runIndex == x);
  }

  lemma StepRunPermuted(a: CellAggregate, p: seq<UnitRecord>, q: seq<UnitRecord>)
    requires multiset(p) == multiset(q) && !a.mixed && !StepRun(a, p).mixed
    ensures StepRun(a, p) == StepRun(a, q)
  {
    SameMembers(p, q);
    SamePartial(p, q);
    if !HasPartial(p) {
      RunOrderIrrelevant(p, q, a.source);
    }
  }

  lemma SamePartial(p: seq<UnitRecord>, q: seq<UnitRecord>)
    requires forall r :: r in p <==> r in q
    ensures HasPartial(p) == HasPartial(q)
  {
    if HasPartial(p) {
      var i :| 0 <= i < |p| && p[i].partial;
      assert p[i] in q;
    }
    if HasPartial(q) {
      var i :| 0 <= i < |q| && q[i].partial;
      assert q[i] in p;
    }
  }

  lemma {:induction false} FoldPermuted(p: seq<UnitRecord>, q: seq<UnitRecord>, indexes: seq<int>)
    requires multiset(p) == multiset(q) && !FoldCell(p, indexes).mixed
    ensures FoldCell(p, indexes) == FoldCell(q, indexes)
  {
    if indexes != [] {
      var front, x := indexes[..|indexes| - 1], Last(indexes);
      var a := FoldCell(p, front);
      RunSources(RunRecords(p, x), a.source, a.mixed, FoldRun(RunRecords(p, x), a.source, a.mixed));
      FoldPermuted(p, q, front);
      RunRecordsPermuted(p, q, x);
      StepRunPermuted(a, RunRecords(p, x), RunRecords(q, x));
    }
  }

  /**
   * The order of the records never changes whether a cell mixes sources, and changes nothing else about it unless
   * it does.
   */
  lemma OrderIsIrrelevant(p: seq<UnitRecord>, q: seq<UnitRecord>)
    requires multiset(p) == multiset(q)
    ensures Aggregated(p).mixed == Aggregated(q).mixed
    ensures !Aggregated(p).mixed ==> Aggregated(p) == Aggregated(q)
  {
    assert |multiset(p)| == |p| && |multiset(q)| == |q|;
    SameIndexes(p, q);
    if p != [] {
      if !Aggregated(p).mixed {
        FoldPermuted(p, q, RunIndexes(p));
      } else if !Aggregated(q).mixed {
        FoldPermuted(q, p, RunIndexes(q));
      }
    }
  }

  // ---- what a cell adds up to ----

  /** The records of the listed runs added up, leaving out every run with a partial unit. */
  function CountedSum(records: seq<UnitRecord>, indexes: seq<int>): Tally {
    if indexes == [] then ZERO
    else
      var before, run := CountedSum(records, indexes[..|indexes| - 1]), RunRecords(records, Last(indexes));
      if HasPartial(run) then before else Plus(before, SumTally(run))
  }

  lemma FlagSticks(a: CellAggregate, run: seq<UnitRecord>)
    requires a.mixed
    ensures StepRun(a, run).mixed
  {
    if !HasPartial(run) {
      RunSources(run, a.source, a.mixed, FoldRun(run, a.source, a.mixed));
    }
  }

  lemma {:induction false} FoldIsSum(records: seq<UnitRecord>, indexes: seq<int>, a: CellAggregate)
    requires a == FoldCell(records, indexes) && !a.mixed
    ensures a.tally == CountedSum(records, indexes)
  {
    if indexes == [] {
    } else {
      var front, run := indexes[..|indexes| - 1], RunRecords(records, Last(indexes));
      var before := FoldCell(records, front);
      if before.mixed {
        FlagSticks(before, run);
      }
      FoldIsSum(records, front, before);
      if !HasPartial(run) {
        RunTally(run, before.source, before.mixed, FoldRun(run, before.source, before.mixed));
      }
    }
  }

  /** An unmixed cell is worth exactly the records of its runs without a partial unit. */
  lemma CellIsSumOfRuns(records: seq<UnitRecord>)
    requires !Aggregated(records).mixed
    ensures Aggregated(records).tally == CountedSum(records, RunIndexes(records))
  {
    if records != [] {
      FoldIsSum(records, RunIndexes(records), FoldCell(records, RunIndexes(records)));
    }
  }

  // ---- what the flag means ----

  ghost predicate CountsIn(records: seq<UnitRecord>, indexes: seq<int>, r: UnitRecord) {
    && r in records && r.runIndex in indexes && Counted(r)
    && !HasPartial(RunRecords(records, r.runIndex))
  }

  ghost function CellSources(records: seq<UnitRecord>, indexes: seq<int>): set<AccountingSource> {
    set r | r in records && CountsIn(records, indexes, r) && r.source != UNSET :: r.source
  }

  ghost function StateOf(a: CellAggregate): RunState {
    RunState(a.tally, a.source, a.mixed)
  }

  lemma {:induction false} FoldSources(records: seq<UnitRecord>, indexes: seq<int>)
    ensures SourceState(StateOf(FoldCell(records, indexes)), UNSET, false, CellSources(records, indexes))
  {
    if indexes != [] {
      var front, x := indexes[..|indexes| - 1], Last(indexes);
      FoldSources(records, front);
      CellSourcesSnoc(records, front, x);
      FrontAndLast(indexes);
      StepSources(FoldCell(records, front), RunRecords(records, x), CellSources(records, front));
    }
  }

  lemma StepSources(a: CellAggregate, run: seq<UnitRecord>, sources: set<AccountingSource>)
    requires SourceState(StateOf(a), UNSET, false, sources) && UNSET !in sources
    ensures SourceState(StateOf(StepRun(a, run)), UNSET, false,
                        sources + (if HasPartial(run) then {} else SourcesOf(run)))
  {
    if HasPartial(run) {
      assert sources + {} == sources;
    } else {
      RunSources(run, a.source, a.mixed, FoldRun(run, a.source, a.mixed));
      SourcesCompose(StateOf(a), FoldRun(run, a.source, a.mixed), sources, SourcesOf(run));
    }
  }

  lemma CellSourcesSnoc(records: seq<UnitRecord>, front: seq<int>, x: int)
    ensures CellSources(records, front + [x]) ==
            CellSources(records, front)
            + (if HasPartial(RunRecords(records, x)) then {} else SourcesOf(RunRecords(records, x)))
  {
    var run := RunRecords(records, x);
    assert forall r :: r in run <==> r in records && r.runIndex == x;
    assert forall y :: y in front + [x] <==> y in front || y == x;
    assert forall r :: CountsIn(records, front + [x], r) <==>
                       CountsIn(records, front, r) || (!HasPartial(run) && r in run && Counted(r));
  }

  lemma SourcesCompose(s: RunState, t: RunState, first: set<AccountingSource>, second: set<AccountingSource>)
    requires SourceState(s, UNSET, false, first)
    requires SourceState(t, s.source, s.mixed, second)
    requires UNSET !in first
    ensures SourceState(t, UNSET, false, first + second)
  {
    if Disputed(first, s.source) {
      var u :| u in first && u != s.source;
      assert u in first + second && u != t.source;
    }
    if Disputed(second, t.source) {
      var u :| u in second && u != t.source;
      assert u in first + second;
    }
  }

  lemma FlagNeedsDispute(records: seq<UnitRecord>, indexes: seq<int>) returns (r: UnitRecord, t: UnitRecord)
    requires FoldCell(records, indexes).mixed
    ensures CountsIn(records, indexes, r) && CountsIn(records, indexes, t)
    ensures r.source != UNSET && t.source != UNSET && r.source != t.source
  {
    FoldSources(records, indexes);
    var source, sources := FoldCell(records, indexes).source, CellSources(records, indexes);
    var u :| u in sources && u != source;
    assert source in sources;
    r :| r in records && CountsIn(records, indexes, r) && r.source != UNSET && r.source == u;
    t :| t in records && CountsIn(records, indexes, t) && t.source != UNSET && t.source == source;
  }

  lemma DisputeIsFlagged(records: seq<UnitRecord>, indexes: seq<int>, r: UnitRecord, t: UnitRecord)
    requires CountsIn(records, indexes, r) && CountsIn(records, indexes, t)
    requires r.source != UNSET && t.source != UNSET && r.source != t.source
    ensures FoldCell(records, indexes).mixed
  {
    FoldSources(records, indexes);
    var source, sources := FoldCell(records, indexes).source, CellSources(records, indexes);
    assert r.source in sources && t.source in sources;
    assert r.source != source || t.source != source;
  }

  /** A cell is flagged exactly when two records that count in it name different sources. */
  lemma MixedIffSourcesDisagree(records: seq<UnitRecord>)
    ensures Aggregated(records).mixed <==>
            exists r, t :: CountsIn(records, RunIndexes(records), r) && CountsIn(records, RunIndexes(records), t)
                           && r.source != UNSET && t.source != UNSET && r.source != t.source
  {
    var indexes := RunIndexes(records);
    if Aggregated(records).mixed {
      var r, t := FlagNeedsDispute(records, indexes);
    }
    forall r, t | CountsIn(records, indexes, r) && CountsIn(records, indexes, t)
                  && r.source != UNSET && t.source != UNSET && r.source != t.source
      ensures Aggregated(records).mixed
    {
      DisputeIsFlagged(records, indexes, r, t);
    }
  }
}
