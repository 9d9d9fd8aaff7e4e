/**
 * What a report says about itself - whether the run finished, who can obtain its inputs, where its records are - and
 * the check that decides from those marks whether it may back a published claim. Messages are tags.
 */
module Publication {
  import opened Wrappers
  import opened Seqs

  // ---- run status ----

  datatype Completeness = Complete | Partial | Unrecognised

  datatype RunStatus = RunStatus(
    completeness: Completeness, reason: string, interrupted: bool,
    planned: int, measured: int, skipped: int, missing: seq<string>)

  const BOTH := "interrupted, with planned cells unaccounted for"
  const GAP := "planned cells unaccounted for"
  const INTERRUPTED := "interrupted before it finished"

  datatype StatusError =
    | BadCompleteness | NothingPlanned | NegativeCount | TooManyCells | GapUnnamed | Overclaim | CompleteWithMissing
    | NoReason

  /** `RunStatus.Validate`, its checks in order. */
  function StatusProblem(s: RunStatus): Option<StatusError> {
    var gap := s.planned - s.measured - s.skipped;
    if s.completeness == Unrecognised then Some(BadCompleteness)
    else if s.planned <= 0 then Some(NothingPlanned)
    else if s.measured < 0 || s.skipped < 0 then Some(NegativeCount)
    else if gap < 0 then Some(TooManyCells)
    else if gap > 0 && s.missing == [] then Some(GapUnnamed)
    else if (gap > 0 || s.interrupted) && s.completeness != Partial then Some(Overclaim)
    else if s.completeness == Complete && s.missing != [] then Some(CompleteWithMissing)
    else if s.completeness == Partial && s.reason == "" then Some(NoReason)
    else None
  }

  /** A status holds up exactly when its counts add up, nothing is missing unsaid, and its label is earned. */
  lemma StatusHoldsUp(s: RunStatus)
    ensures StatusProblem(s).None? <==>
              && s.completeness != Unrecognised
              && s.planned > 0 && s.measured >= 0 && s.skipped >= 0
              && s.measured + s.skipped <= s.planned
              && (s.measured + s.skipped < s.planned ==> s.missing != [])
              && (s.completeness == Complete ==>
                    s.measured + s.skipped == s.planned && !s.interrupted && s.missing == [])
              && (s.completeness == Partial ==> s.reason != "")
  {
  }

  predicate Accounted(measured: seq<string>, skipped: seq<string>, id: string) {
    id in measured || id in skipped
  }

  /** The planned cells that were neither measured nor skipped, in the planned order. */
  function Missing(planned: seq<string>, measured: seq<string>, skipped: seq<string>): seq<string> {
    Filter(planned, (id: string) => !Accounted(measured, skipped, id))
  }

  predicate Finished(planned: seq<string>, measured: seq<string>, skipped: seq<string>, interrupted: bool) {
    !interrupted && forall id :: id in planned ==> Accounted(measured, skipped, id)
  }

  method FindMissing(planned: seq<string>, measured: seq<string>, skipped: seq<string>) returns (missing: seq<string>)
    ensures missing == Missing(planned, measured, skipped)
  {
    var accounted: set<string> := {};
    for i := 0 to |measured|
      invariant accounted == Elems(measured[..i])
    {
      accounted := accounted + {measured[i]};
    }
    for i := 0 to |skipped|
      invariant accounted == Elems(measured) + Elems(skipped[..i])
    {
      accounted := accounted + {skipped[i]};
    }
    missing := [];
    for i := 0 to |planned|
      invariant missing == Missing(planned[..i], measured, skipped)
    {
      assert planned[..i + 1] == planned[..i] + [planned[i]];
      FilterConcat(planned[..i], [planned[i]], (id: string) => !Accounted(measured, skipped, id));
      assert [planned[i]][1..] == [];
      if planned[i] !in accounted {
        missing := missing + [planned[i]];
      }
    }
    assert planned[..|planned|] == planned;
  }

  /** What a status says of a run, and how. */
  ghost predicate Describes(s: RunStatus, planned: seq<string>, measured: seq<string>, skipped: seq<string>,
                            interrupted: bool, reason: string) {
    && s.planned == |planned| && s.measured == |measured| && s.skipped == |skipped|
    && s.interrupted == interrupted
    && s.missing == Missing(planned, measured, skipped)
    && s.completeness == (if Finished(planned, measured, skipped, interrupted) then Complete else Partial)
    && (reason != "" ==> s.reason == reason)
    && (s.completeness == Partial ==> s.reason != "")
  }

  /** `DeriveRunStatus`: complete exactly when nothing is missing and the run was not interrupted. */
  method DeriveRunStatus(planned: seq<string>, measured: seq<string>, skipped: seq<string>, interrupted: bool,
                         reason: string)
    returns (s: RunStatus)
    ensures Describes(s, planned, measured, skipped, interrupted, reason)
  {
    var missing := FindMissing(planned, measured, skipped);
    MissingIsTheGap(planned, measured, skipped);
    s := RunStatus(Complete, reason, interrupted, |planned|, |measured|, |skipped|, missing);
    if missing != [] || interrupted {
      s := s.(completeness := Partial);
      if s.reason == "" {
        s := s.(reason := if missing != [] && interrupted then BOTH else if missing != [] then GAP else INTERRUPTED);
      }
    }
  }

  lemma MissingIsTheGap(planned: seq<string>, measured: seq<string>, skipped: seq<string>)
    ensures forall id :: id in Missing(planned, measured, skipped) <==>
                         id in planned && !Accounted(measured, skipped, id)
    ensures Missing(planned, measured, skipped) == [] <==>
            forall id :: id in planned ==> Accounted(measured, skipped, id)
  {
    var missing := Missing(planned, measured, skipped);
    if missing != [] {
      assert missing[0] in missing;
    }
  }

  /**
   * A derived status passes its own validation exactly when something was planned, no more cells are counted than
   * were planned, and cells left over by the count are named.
   */
  lemma DerivedStatusIsValid(s: RunStatus, planned: seq<string>, measured: seq<string>, skipped: seq<string>,
                             interrupted: bool, reason: string)
    requires Describes(s, planned, measured, skipped, interrupted, reason)
    ensures StatusProblem(s).None? <==>
              && planned != []
              && |measured| + |skipped| <= |planned|
              && (|measured| + |skipped| < |planned| ==> Missing(planned, measured, skipped) != [])
  {
    MissingIsTheGap(planned, measured, skipped);
  }

  /** A cell planned twice and measured once: one cell is left over by the count and none is missing. */
  lemma PlannedTwiceIsInvalid(s: RunStatus)
    requires Describes(s, ["a", "a"], ["a"], [], false, "")
    ensures StatusProblem(s) == Some(GapUnnamed)
  {
    MissingIsTheGap(["a", "a"], ["a"], []);
  }

  lemma DisjointSizes(whole: set<string>, a: set<string>, b: set<string>)
    requires a <= whole && b <= whole && a * b == {}
    ensures |whole - (a + b)| == |whole| - |a| - |b|
  {
    assert a + b <= whole && |a + b| == |a| + |b|;
    assert whole == (whole - (a + b)) + (a + b);
  }

  /** Cells planned once, each measured or skipped at most once: the status is valid and names exactly the gap. */
  lemma CleanRunsAreValid(s: RunStatus, planned: seq<string>, measured: seq<string>, skipped: seq<string>,
                          interrupted: bool, reason: string)
    requires Describes(s, planned, measured, skipped, interrupted, reason)
    requires planned != [] && NoDup(planned) && NoDup(measured) && NoDup(skipped)
    requires Elems(measured) <= Elems(planned) && Elems(skipped) <= Elems(planned)
    requires Elems(measured) * Elems(skipped) == {}
    ensures StatusProblem(s).None?
    ensures |s.missing| == s.planned - s.measured - s.skipped
  {
    MissingCount(planned, measured, skipped);
    DerivedStatusIsValid(s, planned, measured, skipped, interrupted, reason);
  }

  lemma MissingCount(planned: seq<string>, measured: seq<string>, skipped: seq<string>)
    requires NoDup(planned) && NoDup(measured) && NoDup(skipped)
    requires Elems(measured) <= Elems(planned) && Elems(skipped) <= Elems(planned)
    requires Elems(measured) * Elems(skipped) == {}
    ensures |Missing(planned, measured, skipped)| == |planned| - |measured| - |skipped|
  {
    var missing := Missing(planned, measured, skipped);
    MissingIsTheGap(planned, measured, skipped);
    FilterKeepsNoDup(planned, (id: string) => !Accounted(measured, skipped, id));
    assert Elems(missing) == Elems(planned) - (Elems(measured) + Elems(skipped));
    DisjointSizes(Elems(planned), Elems(measured), Elems(skipped));
    NoDupCardinality(missing);
    NoDupCardinality(planned);
    NoDupCardinality(measured);
    NoDupCardinality(skipped);
  }

  // ---- inputs ----

  datatype Availability = Repository | PinnedProcedure | PrivateRecording | OtherAvailability

  datatype InputProvenance = InputProvenance(
    availability: Availability, reproducible: bool, limitation: string, procedure: string)

  datatype InputError = BadAvailability | WrongReproducibility | NoLimitation | NoProcedure

  /** `InputProvenance.Validate`. */
  function InputProblem(p: InputProvenance): Option<InputError> {
    if p.availability == OtherAvailability then Some(BadAvailability)
    else if p.reproducible != (p.availability != PrivateRecording) then Some(WrongReproducibility)
    else if !p.reproducible && p.limitation == "" then Some(NoLimitation)
    else if p.availability == PinnedProcedure && p.procedure == "" then Some(NoProcedure)
    else None
  }

  /** Only a private recording is not reproducible; it states its limitation, and a pinned procedure is named. */
  predicate SoundInputs(p: InputProvenance) {
    && p.availability != OtherAvailability
    && (p.reproducible <==> p.availability != PrivateRecording)
    && (p.availability == PrivateRecording ==> p.limitation != "")
    && (p.availability == PinnedProcedure ==> p.procedure != "")
  }

  lemma InputsSoundIff(p: InputProvenance)
    ensures InputProblem(p).None? <==> SoundInputs(p)
  {
  }

  // ---- records ----

  datatype Retention = Retained | NotRetained | OtherRetention

  /** What is asked of the path library and of the file system, for paths relative to the report's directory. */
  datatype Paths = Paths(absolute: string -> bool, escapes: string -> bool)

  class RawRecordsRef {
    var retention: Retention
    var path: string
    var records: int
    var durable: bool
    var note: string

    constructor (retention: Retention, path: string, records: int, durable: bool, note: string)
      ensures this.retention == retention && this.path == path && this.records == records
      ensures this.durable == durable && this.note == note
    {
      this.retention, this.path, this.records, this.durable, this.note := retention, path, records, durable, note;
    }

    /** `RawRecordsRef.Validate` finds nothing wrong. */
    predicate Valid(paths: Paths)
      reads this
    {
      && !durable
      && note != ""
      && records >= 0
      && match retention
         case Retained => path != "" && !paths.absolute(path) && !paths.escapes(path)
         case NotRetained => path == ""
         case OtherRetention => false
    }

    /** `resolve`: a retained reference whose artifact is absent gives up its path. */
    method Resolve(present: string -> bool, missingNote: string)
      requires missingNote != ""
      modifies this
      ensures var degraded := old(retention) == Retained && old(path) != "" && !present(old(path));
              && durable == old(durable)
              && if degraded then retention == NotRetained && path == "" && records == 0 && note == missingNote
                 else retention == old(retention) && path == old(path) && records == old(records) && note == old(note)
      ensures retention == Retained && path != "" ==> present(path)
      ensures forall paths :: old(Valid(paths)) ==> Valid(paths)
      ensures forall paths :: !old(Valid(paths)) ==>
                (Valid(paths) <==>
                 old(retention) == Retained && old(path) != "" && !present(old(path)) && !old(durable))
    {
      if retention != Retained || path == "" {
        return;
      }
      if !present(path) {
        retention, path, records, note := NotRetained, "", 0, missingNote;
      }
    }
  }

  // ---- the publication check ----

  datatype Name = Replay | AgentLoop | PayloadDecomposition

  /** The marks of one block that is present. The payload block produces no records. */
  datatype Block = Block(name: Name, inputs: Option<InputProvenance>, records: RawRecordsRef?)

  predicate HasRecords(b: Block) {
    b.name != PayloadDecomposition
  }

  datatype Marks = Marks(inputs: Option<InputProvenance>, records: RawRecordsRef?)

  datatype Report = Report(
    status: Option<RunStatus>, replay: Option<Marks>, agentLoop: Option<Marks>, payload: Option<Marks>)

  function Present(name: Name, m: Option<Marks>): seq<Block> {
    if m.None? then [] else [Block(name, m.value.inputs, m.value.records)]
  }

  /** The blocks present, in the one order in which they are walked. */
  function Blocks(r: Report): seq<Block> {
    Present(Replay, r.replay) + Present(AgentLoop, r.agentLoop) + Present(PayloadDecomposition, r.payload)
  }

  datatype Blocker =
    | NoStatus | BadStatus | PartialRun | NoInputs(name: Name) | BadInputs(name: Name)
    | NoRecords(name: Name) | BadRecords(name: Name) | NoBlocks | NothingReproducible

  datatype Caveat = NotReproducible(name: Name) | NotTraceable(name: Name)

  datatype Decision = Decision(publishable: bool, blockers: seq<Blocker>, caveats: seq<Caveat>)

  predicate StatusSettled(r: Report) {
    r.status.Some? && StatusProblem(r.status.value).None? && r.status.value.completeness == Complete
  }

  predicate InputsDeclared(b: Block) {
    b.inputs.Some? && InputProblem(b.inputs.value).None?
  }

  predicate RecordsDeclared(b: Block, paths: Paths)
    reads b.records
  {
    HasRecords(b) ==> b.records != null && b.records.Valid(paths)
  }

  predicate Reproducible(b: Block) {
    InputsDeclared(b) && b.inputs.value.reproducible
  }

  function Refs(blocks: seq<Block>): set<object?> {
    set i | 0 <= i < |blocks| :: blocks[i].records
  }

  ghost predicate BlocksDeclared(blocks: seq<Block>, paths: Paths)
    reads Refs(blocks)
  {
    forall i :: 0 <= i < |blocks| ==> InputsDeclared(blocks[i]) && RecordsDeclared(blocks[i], paths)
  }

  ghost predicate SomeReproducible(blocks: seq<Block>) {
    exists i :: 0 <= i < |blocks| && Reproducible(blocks[i])
  }

  /** Everything a published claim needs. */
  ghost predicate Supported(r: Report, paths: Paths)
    reads Refs(Blocks(r))
  {
    StatusSettled(r) && BlocksDeclared(Blocks(r), paths) && SomeReproducible(Blocks(r))
  }

  /** What stands in the way in the run's status. */
  predicate StatusObstructs(r: Report, x: Blocker) {
    || (x == NoStatus && r.status.None?)
    || (x == BadStatus && r.status.Some? && StatusProblem(r.status.value).Some?)
    || (x == PartialRun && r.status.Some? && r.status.value.completeness == Partial)
  }

  method CheckStatus(r: Report) returns (blockers: seq<Blocker>)
    ensures forall x :: x in blockers <==> StatusObstructs(r, x)
    ensures blockers == [] <==> StatusSettled(r)
  {
    if r.status.None? {
      return [NoStatus];
    }
    blockers := [];
    if StatusProblem(r.status.value).Some? {
      blockers := blockers + [BadStatus];
    }
    if r.status.value.completeness == Partial {
      blockers := blockers + [PartialRun];
    }
  }

  /** The block's records are validly declared as not retained, and its inputs have not stopped it before that. */
  predicate Untraceable(b: Block, paths: Paths)
    reads b.records
  {
    && !(b.inputs.Some? && InputProblem(b.inputs.value).Some?)
    && HasRecords(b) && b.records != null && b.records.Valid(paths) && b.records.retention == NotRetained
  }

  /** What stands in the way in one present block; malformed inputs hide its records. */
  predicate Obstructs(b: Block, paths: Paths, x: Blocker)
    reads b.records
  {
    match x
    case NoInputs(name) => name == b.name && b.inputs.None?
    case BadInputs(name) => name == b.name && b.inputs.Some? && !SoundInputs(b.inputs.value)
    case NoRecords(name) =>
      && name == b.name && (b.inputs.Some? ==> SoundInputs(b.inputs.value))
      && HasRecords(b) && b.records == null
    case BadRecords(name) =>
      && name == b.name && (b.inputs.Some? ==> SoundInputs(b.inputs.value))
      && HasRecords(b) && b.records != null && !b.records.Valid(paths)
    case _ => false
  }

  ghost predicate SomeObstructs(blocks: seq<Block>, paths: Paths, x: Blocker)
    reads Refs(blocks)
  {
    exists i :: 0 <= i < |blocks| && Obstructs(blocks[i], paths, x)
  }

  /** The blockers are those of the blocks. */
  ghost predicate BlockersAre(blocks: seq<Block>, paths: Paths, blockers: seq<Blocker>)
    reads Refs(blocks)
  {
    forall x :: x in blockers <==> SomeObstructs(blocks, paths, x)
  }

  lemma BlockersSnoc(blocks: seq<Block>, n: nat, paths: Paths, blockers: seq<Blocker>, more: seq<Blocker>)
    requires n < |blocks| && BlockersAre(blocks[..n], paths, blockers)
    requires forall x :: x in more <==> Obstructs(blocks[n], paths, x)
    ensures BlockersAre(blocks[..n + 1], paths, blockers + more)
  {
    var all, few := blocks[..n + 1], blocks[..n];
    assert all[n] == blocks[n] && forall i :: 0 <= i < n ==> all[i] == few[i];
    forall x
      ensures x in blockers + more <==> SomeObstructs(all, paths, x)
    {
      assert SomeObstructs(few, paths, x) <==> x in blockers;
      if SomeObstructs(few, paths, x) {
        var i :| 0 <= i < n && Obstructs(few[i], paths, x);
        assert all[i] == few[i];
      }
    }
  }

  /** One present block: what stands in the way, and what must travel with its figures. */
  method CheckBlock(b: Block, paths: Paths) returns (blockers: seq<Blocker>, caveats: seq<Caveat>, reproducible: bool)
    ensures forall x :: x in blockers <==> Obstructs(b, paths, x)
    ensures blockers == [] <==> InputsDeclared(b) && RecordsDeclared(b, paths)
    ensures reproducible <==> Reproducible(b)
    ensures NotReproducible(b.name) in caveats <==> InputsDeclared(b) && !b.inputs.value.reproducible
    ensures NotTraceable(b.name) in caveats <==> Untraceable(b, paths)
    ensures forall c :: c in caveats ==> c.name == b.name
  {
    blockers, caveats, reproducible := [], [], false;
    if b.inputs.Some? {
      InputsSoundIff(b.inputs.value);
    }
    if b.inputs.None? {
      blockers := [NoInputs(b.name)];
    } else if InputProblem(b.inputs.value).Some? {
      blockers := [BadInputs(b.name)];
      return;
    } else if b.inputs.value.reproducible {
      reproducible := true;
    } else {
      caveats := [NotReproducible(b.name)];
    }
    if HasRecords(b) {
      if b.records == null {
        blockers := blockers + [NoRecords(b.name)];
      } else if !b.records.Valid(paths) {
        blockers := blockers + [BadRecords(b.name)];
      } else if b.records.retention == NotRetained {
        caveats := caveats + [NotTraceable(b.name)];
      }
    }
  }

  /** Every block an outsider cannot reproduce is marked as such, and no other. */
  ghost predicate PrivateMarked(blocks: seq<Block>, caveats: seq<Caveat>) {
    forall name :: NotReproducible(name) in caveats <==> PrivatelyFed(blocks, name)
  }

  ghost predicate PrivatelyFed(blocks: seq<Block>, name: Name) {
    exists i :: 0 <= i < |blocks| && blocks[i].name == name
                && InputsDeclared(blocks[i]) && !blocks[i].inputs.value.reproducible
  }

  lemma BlocksSnoc(blocks: seq<Block>, n: nat, paths: Paths)
    requires n < |blocks|
    ensures BlocksDeclared(blocks[..n + 1], paths) <==>
            BlocksDeclared(blocks[..n], paths) && InputsDeclared(blocks[n]) && RecordsDeclared(blocks[n], paths)
    ensures SomeReproducible(blocks[..n + 1]) <==> SomeReproducible(blocks[..n]) || Reproducible(blocks[n])
  {
    var more, few := blocks[..n + 1], blocks[..n];
    assert more[n] == blocks[n] && forall i :: 0 <= i < n ==> more[i] == few[i];
    if SomeReproducible(few) {
      var i :| 0 <= i < n && Reproducible(few[i]);
      assert Reproducible(more[i]);
    }
  }

  lemma PrivateSnoc(blocks: seq<Block>, n: nat, caveats: seq<Caveat>, more: seq<Caveat>)
    requires n < |blocks| && PrivateMarked(blocks[..n], caveats)
    requires forall c :: c in more ==> c.name == blocks[n].name
    requires NotReproducible(blocks[n].name) in more <==>
             InputsDeclared(blocks[n]) && !blocks[n].inputs.value.reproducible
    ensures PrivateMarked(blocks[..n + 1], caveats + more)
  {
    var all, few := blocks[..n + 1], blocks[..n];
    assert all[n] == blocks[n] && forall i :: 0 <= i < n ==> all[i] == few[i];
    forall name
      ensures NotReproducible(name) in caveats + more <==> PrivatelyFed(all, name)
    {
      assert PrivatelyFed(few, name) <==> NotReproducible(name) in caveats;
      if PrivatelyFed(few, name) {
        var i :| 0 <= i < n && few[i].name == name && InputsDeclared(few[i]) && !few[i].inputs.value.reproducible;
        assert all[i] == few[i];
      }
    }
  }

  ghost predicate SomeUntraceable(blocks: seq<Block>, paths: Paths, name: Name)
    reads Refs(blocks)
  {
    exists i :: 0 <= i < |blocks| && blocks[i].name == name && Untraceable(blocks[i], paths)
  }

  /** Every block whose figures cannot be traced to their records is marked as such, and no other. */
  ghost predicate UntraceableMarked(blocks: seq<Block>, paths: Paths, caveats: seq<Caveat>)
    reads Refs(blocks)
  {
    forall name :: NotTraceable(name) in caveats <==> SomeUntraceable(blocks, paths, name)
  }

  lemma UntraceableSnoc(blocks: seq<Block>, n: nat, paths: Paths, caveats: seq<Caveat>, more: seq<Caveat>)
    requires n < |blocks| && UntraceableMarked(blocks[..n], paths, caveats)
    requires forall c :: c in more ==> c.name == blocks[n].name
    requires NotTraceable(blocks[n].name) in more <==> Untraceable(blocks[n], paths)
    ensures UntraceableMarked(blocks[..n + 1], paths, caveats + more)
  {
    var all, few := blocks[..n + 1], blocks[..n];
    assert all[n] == blocks[n] && forall i :: 0 <= i < n ==> all[i] == few[i];
    forall name
      ensures NotTraceable(name) in caveats + more <==> SomeUntraceable(all, paths, name)
    {
      assert SomeUntraceable(few, paths, name) <==> NotTraceable(name) in caveats;
      if SomeUntraceable(few, paths, name) {
        var i :| 0 <= i < n && few[i].name == name && Untraceable(few[i], paths);
        assert all[i] == few[i];
      }
    }
  }

  method CheckBlocks(blocks: seq<Block>, paths: Paths)
    returns (blockers: seq<Blocker>, caveats: seq<Caveat>, reproducible: nat)
    ensures BlockersAre(blocks, paths, blockers)
    ensures blockers == [] <==> BlocksDeclared(blocks, paths)
    ensures reproducible > 0 <==> SomeReproducible(blocks)
    ensures PrivateMarked(blocks, caveats) && UntraceableMarked(blocks, paths, caveats)
  {
    blockers, caveats, reproducible := [], [], 0;
    for i := 0 to |blocks|
      invariant BlockersAre(blocks[..i], paths, blockers)
      invariant blockers == [] <==> BlocksDeclared(blocks[..i], paths)
      invariant reproducible > 0 <==> SomeReproducible(blocks[..i])
      invariant PrivateMarked(blocks[..i], caveats)
      invariant UntraceableMarked(blocks[..i], paths, caveats)
    {
      var b, c, ok := CheckBlock(blocks[i], paths);
      BlocksSnoc(blocks, i, paths);
      BlockersSnoc(blocks, i, paths, blockers, b);
      PrivateSnoc(blocks, i, caveats, c);
      UntraceableSnoc(blocks, i, paths, caveats, c);
      blockers, caveats := blockers + b, caveats + c;
      if ok {
        reproducible := reproducible + 1;
      }
    }
    assert blocks[..|blocks|] == blocks;
  }

  /**
   * `PublicationCheck`: publishable exactly when the run is declared, valid and complete, every block present says
   * where its inputs and records are, and at least one rests on inputs anyone can obtain. The marks on privately fed
   * and on untraceable blocks are given either way.
   */
  method PublicationCheck(r: Report, paths: Paths) returns (d: Decision)
    ensures d.publishable <==> Supported(r, paths)
    ensures d.publishable <==> d.blockers == []
    ensures forall x :: x in d.blockers <==>
              || StatusObstructs(r, x) || SomeObstructs(Blocks(r), paths, x)
              || (x == NoBlocks && Blocks(r) == [])
              || (x == NothingReproducible && Blocks(r) != [] && !SomeReproducible(Blocks(r)))
    ensures PrivateMarked(Blocks(r), d.caveats) && UntraceableMarked(Blocks(r), paths, d.caveats)
  {
    var status := CheckStatus(r);
    var blockers, caveats, reproducible := CheckBlocks(Blocks(r), paths);
    var support := if Blocks(r) == [] then [NoBlocks] else if reproducible == 0 then [NothingReproducible] else [];
    var all := status + blockers + support;
    d := Decision(all == [], all, caveats);
  }

  /** A block that is present declares sound inputs. */
  predicate SaysInputs(m: Option<Marks>) {
    m.Some? ==> m.value.inputs.Some? && SoundInputs(m.value.inputs.value)
  }

  /** A block that is present has a valid reference to its records. */
  predicate SaysRecords(m: Option<Marks>, paths: Paths)
    reads if m.Some? then {m.value.records} else {}
  {
    m.Some? ==> m.value.records != null && m.value.records.Valid(paths)
  }

  /** The block is present and its inputs can be obtained by anyone. */
  predicate Obtainable(m: Option<Marks>) {
    m.Some? && m.value.inputs.Some? && m.value.inputs.value.availability in {Repository, PinnedProcedure}
  }

  lemma PresentPart(name: Name, m: Option<Marks>, paths: Paths)
    ensures BlocksDeclared(Present(name, m), paths) <==>
            SaysInputs(m) && (name != PayloadDecomposition ==> SaysRecords(m, paths))
    ensures SaysInputs(m) ==> (SomeReproducible(Present(name, m)) <==> Obtainable(m))
  {
    if m.Some? && m.value.inputs.Some? {
      InputsSoundIff(m.value.inputs.value);
    }
    if m.Some? {
      assert Present(name, m)[0] == Block(name, m.value.inputs, m.value.records);
    }
  }

  lemma TwoParts(a: seq<Block>, b: seq<Block>, paths: Paths)
    ensures BlocksDeclared(a + b, paths) <==> BlocksDeclared(a, paths) && BlocksDeclared(b, paths)
    ensures SomeReproducible(a + b) <==> SomeReproducible(a) || SomeReproducible(b)
  {
    var all := a + b;
    assert forall i :: 0 <= i < |a| ==> all[i] == a[i];
    assert forall i :: 0 <= i < |b| ==> all[|a| + i] == b[i];
  }

  lemma SupportedParts(r: Report, paths: Paths)
    ensures BlocksDeclared(Blocks(r), paths) <==>
              && SaysInputs(r.replay) && SaysInputs(r.agentLoop) && SaysInputs(r.payload)
              && SaysRecords(r.replay, paths) && SaysRecords(r.agentLoop, paths)
    ensures BlocksDeclared(Blocks(r), paths) ==>
              (SomeReproducible(Blocks(r)) <==>
               Obtainable(r.replay) || Obtainable(r.agentLoop) || Obtainable(r.payload))
  {
    var a, b, c := Present(Replay, r.replay), Present(AgentLoop, r.agentLoop), Present(PayloadDecomposition, r.payload);
    TwoParts(a + b, c, paths);
    TwoParts(a, b, paths);
    PresentPart(Replay, r.replay, paths);
    PresentPart(AgentLoop, r.agentLoop, paths);
    PresentPart(PayloadDecomposition, r.payload, paths);
  }

  /**
   * A publishable report: its run is complete, uninterrupted, and accounts for every planned cell by count; each block
   * present declares sound inputs and its records; and one of them rests on inputs from the repository or a pinned
   * procedure, not on a private recording.
   */
  lemma PublishableReads(r: Report, paths: Paths)
    ensures Supported(r, paths) <==>
              && r.status.Some?
              && var s := r.status.value;
              && s.completeness == Complete && !s.interrupted && s.missing == []
              && s.planned > 0 && s.measured >= 0 && s.skipped >= 0 && s.measured + s.skipped == s.planned
              && SaysInputs(r.replay) && SaysInputs(r.agentLoop) && SaysInputs(r.payload)
              && SaysRecords(r.replay, paths) && SaysRecords(r.agentLoop, paths)
              && (Obtainable(r.replay) || Obtainable(r.agentLoop) || Obtainable(r.payload))
  {
    SupportedParts(r, paths);
  }

  /** A published report whose status was derived from the run covers every planned cell and was not interrupted. */
  lemma PublishedRunsFinished(r: Report, paths: Paths, planned: seq<string>, measured: seq<string>,
                              skipped: seq<string>, interrupted: bool, reason: string)
    requires Supported(r, paths)
    requires Describes(r.status.value, planned, measured, skipped, interrupted, reason)
    ensures Finished(planned, measured, skipped, interrupted)
    ensures planned != []
  {
    DerivedStatusIsValid(r.status.value, planned, measured, skipped, interrupted, reason);
  }

  /**
   * `WriteJSON` resolves every reference against the run directory. What was publishable before the report is written
   * still is afterwards, and no retained path is left dangling.
   */
  method ResolveRecords(r: Report, present: string -> bool, missingNote: string, paths: Paths)
    requires missingNote != ""
    modifies Refs(Blocks(r))
    ensures old(Supported(r, paths)) ==> Supported(r, paths)
    ensures forall i :: 0 <= i < |Blocks(r)| ==> Followable(Blocks(r)[i], present)
  {
    var blocks := Blocks(r);
    for n := 0 to |blocks|
      invariant old(BlocksDeclared(blocks, paths)) ==> BlocksDeclared(blocks, paths)
      invariant forall i :: 0 <= i < n ==> Followable(blocks[i], present)
    {
      if HasRecords(blocks[n]) && blocks[n].records != null {
        blocks[n].records.Resolve(present, missingNote);
      }
    }
  }

  ghost predicate Followable(b: Block, present: string -> bool)
    reads b.records
  {
    b.records != null && HasRecords(b) && b.records.retention == Retained && b.records.path != "" ==>
      present(b.records.path)
  }
}
