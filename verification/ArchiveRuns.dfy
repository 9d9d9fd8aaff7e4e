/**
 * The sweep as it touches the disk: three atomic writes, archive first, any of which may be the last one before a
 * crash. What holds after every prefix of the writes holds over any sequence of sweeps and crashes.
 */
module ArchiveRuns {
  import opened Wrappers
  import opened Seqs
  import opened Roadmap
  import opened RoadmapText
  import opened EpicBlocks
  import opened ArchiveSweep

  datatype Files = Files(roadmap: seq<Line>, archive: Option<seq<Line>>, markdown: string)

  /** The files after the first `writes` of the three writes of a plan. */
  ghost function AfterWrites(f: Files, plan: Plan, markdown: string, writes: nat): Files {
    if !plan.Write? then f
    else Files(
      if writes >= 2 then plan.roadmap else f.roadmap,
      if writes >= 1 then Some(plan.archive) else f.archive,
      if writes >= 3 then markdown else f.markdown)
  }

  class Repository {
    var roadmap: seq<Line>
    var archive: Option<seq<Line>>
    var markdown: string

    ghost function Contents(): Files
      reads this
    {
      Files(roadmap, archive, markdown)
    }

    /** One `--archive` invocation that dies after `writes` writes (three or more: it does not die). */
    method Sweep(r: Run, shipping: string -> Shipping, appendable: seq<Line> -> bool, rendered: string, writes: nat)
      returns (plan: Plan)
      requires Parsed(r) && r.roadmap == roadmap && r.archive == archive
      modifies this
      ensures IsPlan(r, shipping, appendable, plan)
      ensures Contents() == AfterWrites(old(Contents()), plan, rendered, writes)
    {
      plan := PlanSweep(r, shipping, appendable);
      if plan.Write? {
        if writes >= 1 {
          archive := Some(plan.archive);
        }
        if writes >= 2 {
          roadmap := plan.roadmap;
        }
        if writes >= 3 {
          markdown := rendered;
        }
      }
    }
  }

  // ---- one sweep, cut short anywhere ----

  datatype Attempt = Attempt(
    run: Run, shipping: string -> Shipping, appendable: seq<Line> -> bool, plan: Plan, rendered: string, writes: nat)

  ghost predicate Applies(f: Files, a: Attempt) {
    && Parsed(a.run) && a.run.roadmap == f.roadmap && a.run.archive == f.archive
    && IsPlan(a.run, a.shipping, a.appendable, a.plan)
  }

  ghost function Apply(f: Files, a: Attempt): Files {
    AfterWrites(f, a.plan, a.rendered, a.writes)
  }

  ghost function Active(f: Files): seq<Segment> {
    Read(f.roadmap).segments
  }

  ghost function Stored(f: Files): seq<Segment> {
    Archived(f.archive)
  }

  ghost predicate InRoadmap(f: Files, id: string) {
    id in SegmentIds(Active(f))
  }

  ghost predicate InArchive(f: Files, id: string) {
    id in SegmentIds(Stored(f))
  }

  /** The epic is in the roadmap word for word, or in the archive word for word under its two stamps. */
  ghost predicate Preserved(f: Files, s: Segment) {
    s in Active(f) || exists on, at :: StampSegment(s, on, at) in Stored(f)
  }

  lemma {:induction false} MovedHas(segments: seq<Segment>, ids: seq<string>, shipping: string -> Shipping,
                                    today: string, s: Segment)
    requires NoDup(SegmentIds(segments)) && s in segments && s.id in ids
    requires forall k :: 0 <= k < |ids| ==> ids[k] in SegmentIds(segments)
    ensures StampSegment(s, ShippedOn(shipping(s.id)), today) in Moved(segments, ids, shipping, today)
  {
    if ids[0] == s.id {
      NameIsUnique(segments, s, SegmentNamed(segments, ids[0]));
    } else {
      MovedHas(segments, ids[1..], shipping, today, s);
    }
  }

  lemma WritePlanFacts(f: Files, a: Attempt)
    requires Applies(f, a) && a.plan.Write?
    ensures NoDup(SegmentIds(Active(f)))
    ensures NoDup(SegmentIds(Stored(f)) + ChosenIds(a.run, a.shipping))
    ensures Read(a.plan.roadmap).segments == Unchosen(Active(f), Elems(ChosenIds(a.run, a.shipping)))
    ensures forall k :: 0 <= k < |ChosenIds(a.run, a.shipping)| ==>
              ChosenIds(a.run, a.shipping)[k] in SegmentIds(Active(f))
    ensures Read(a.plan.archive).segments ==
            Stored(f) + Moved(Active(f), ChosenIds(a.run, a.shipping), a.shipping, a.run.today)
    ensures SegmentIds(Read(a.plan.archive).segments) == SegmentIds(Stored(f)) + ChosenIds(a.run, a.shipping)
  {
    EpicIdsDistinct(a.run.epics);
    ScanIdsAreSegmentIds(f.roadmap);
    ArchiveIds(Stored(f), Active(f), ChosenIds(a.run, a.shipping), a.shipping, a.run.today);
  }

  /** After any prefix of the writes: no epic of the roadmap is lost, and the archive only ever grows at its end. */
  lemma CrashLosesNothing(f: Files, a: Attempt, s: Segment)
    requires Applies(f, a) && s in Active(f)
    ensures Preserved(Apply(f, a), s)
    ensures Stored(f) <= Stored(Apply(f, a))
  {
    var f' := Apply(f, a);
    if a.plan.Write? {
      WritePlanFacts(f, a);
      var ids := ChosenIds(a.run, a.shipping);
      if s.id in ids {
        MovedHas(Active(f), ids, a.shipping, a.run.today, s);
        if a.writes >= 1 {
          assert StampSegment(s, ShippedOn(a.shipping(s.id)), a.run.today) in Stored(f');
        }
      }
    }
  }

  /** No epic id appears or disappears, whatever the crash point. */
  lemma CrashKeepsIds(f: Files, a: Attempt, id: string)
    requires Applies(f, a)
    ensures InRoadmap(Apply(f, a), id) || InArchive(Apply(f, a), id) <==> InRoadmap(f, id) || InArchive(f, id)
  {
    if a.plan.Write? {
      WritePlanFacts(f, a);
      var ids := ChosenIds(a.run, a.shipping);
      UnchosenIds(Active(f), Elems(ids), id);
    }
  }

  lemma UnchosenIds(segments: seq<Segment>, chosen: set<string>, id: string)
    ensures id in SegmentIds(Unchosen(segments, chosen)) <==> id in SegmentIds(segments) && id !in chosen
  {
    var left := Unchosen(segments, chosen);
    if id in SegmentIds(left) {
      var k :| 0 <= k < |left| && SegmentIds(left)[k] == id;
      assert left[k] in left;
      var m :| 0 <= m < |segments| && segments[m] == left[k];
      assert SegmentIds(segments)[m] == id;
    }
    if id in SegmentIds(segments) && id !in chosen {
      var m :| 0 <= m < |segments| && SegmentIds(segments)[m] == id;
      assert segments[m] in left;
      var k :| 0 <= k < |left| && left[k] == segments[m];
      assert SegmentIds(left)[k] == id;
    }
  }

  /** A sweep that writes never chooses an archived epic: one that would is refused, and writes nothing at all. */
  lemma ArchivedIsNeverRewritten(f: Files, a: Attempt, id: string)
    requires Applies(f, a) && InArchive(f, id) && id in ChosenIds(a.run, a.shipping)
    ensures !a.plan.Write? && Apply(f, a) == f
  {
    if a.plan.Write? {
      WritePlanFacts(f, a);
      SharedIdRepeats(SegmentIds(Stored(f)), ChosenIds(a.run, a.shipping), id);
    }
  }

  lemma SharedIdRepeats(before: seq<string>, more: seq<string>, id: string)
    requires id in before && id in more
    ensures !NoDup(before + more)
  {
    var i :| 0 <= i < |before| && before[i] == id;
    var j :| 0 <= j < |more| && more[j] == id;
    assert (before + more)[i] == (before + more)[|before| + j];
  }

  /** A sweep that got as far as the roadmap write leaves every moved epic in exactly one file. */
  lemma CompletedSweepIsAMove(f: Files, a: Attempt, id: string)
    requires Applies(f, a) && a.plan.Write? && a.writes >= 2
    requires id in ChosenIds(a.run, a.shipping)
    ensures !InRoadmap(Apply(f, a), id) && InArchive(Apply(f, a), id)
  {
    WritePlanFacts(f, a);
    UnchosenIds(Active(f), Elems(ChosenIds(a.run, a.shipping)), id);
  }

  /** A crash between the archive write and the roadmap write leaves every moved epic in both files. */
  lemma CrashBetweenDuplicates(f: Files, a: Attempt, id: string)
    requires Applies(f, a) && a.plan.Write? && a.writes == 1
    requires id in ChosenIds(a.run, a.shipping)
    ensures InRoadmap(Apply(f, a), id) && InArchive(Apply(f, a), id)
  {
    WritePlanFacts(f, a);
    var ids := ChosenIds(a.run, a.shipping);
    var k :| 0 <= k < |ids| && ids[k] == id;
  }

  // ---- the sweep after a crash ----

  ghost predicate AllCold(r: Run, shipping: string -> Shipping) {
    forall k :: 0 <= k < |r.epics| ==> Cold(r.epics[k], shipping, r.minAgeDays)
  }

  /** The archive, tidied at its end, is one the program is willing to append to. */
  ghost predicate Appendable(a: Attempt) {
    a.run.archive.Some? ==> a.appendable(NormaliseEnd(a.run.archive.value))
  }

  lemma {:induction false} ChosenIdsDistinct(epics: seq<Epic>, shipping: string -> Shipping, minAgeDays: int)
    requires NoDup(EpicIds(epics))
    ensures NoDup(EpicIds(ColdEpics(epics, shipping, minAgeDays)))
  {
    if epics == [] {
    } else {
      var cold := ColdEpics(epics[1..], shipping, minAgeDays);
      assert forall i :: 0 <= i < |epics| - 1 ==> EpicIds(epics[1..])[i] == EpicIds(epics)[i + 1];
      ChosenIdsDistinct(epics[1..], shipping, minAgeDays);
      forall k | 0 <= k < |cold|
        ensures cold[k].id != epics[0].id
      {
        assert cold[k] in cold;
        var i :| 0 <= i < |epics| - 1 && epics[1..][i] == cold[k];
        assert EpicIds(epics)[i + 1] == cold[k].id && EpicIds(epics)[0] == epics[0].id;
      }
    }
  }

  lemma DisjointStaysDistinct(before: seq<string>, more: seq<string>)
    requires NoDup(before) && NoDup(more) && forall id :: id in more ==> id !in before
    ensures NoDup(before + more)
  {
    assert forall j :: 0 <= j < |more| ==> more[j] in more;
  }

  /** A sweep that chooses an epic already archived: it dies, or is refused, and in which way depends on the rest. */
  lemma ArchivedChoiceStopsTheSweep(f: Files, a: Attempt, id: string)
    requires Applies(f, a) && Excises(a.run, a.shipping)
    requires id in ChosenIds(a.run, a.shipping) && InArchive(f, id)
    ensures a.plan == if AllCold(a.run, a.shipping) then Raised(AtReparse)
                      else if !Appendable(a) then Refused(BadTarget)
                      else Refused(ArchiveRepeats)
  {
    RaisesIffAllCold(a.run, a.shipping, a.appendable, a.plan);
    SharedIdRepeats(SegmentIds(Stored(f)), ChosenIds(a.run, a.shipping), id);
  }

  /**
   * Past the earlier guards, with an epic left over and an archive of distinct ids that can be appended to, a sweep is
   * refused for repeated ids exactly when it chooses an epic already archived, and writes otherwise.
   */
  lemma RefusedIffArchivedIsCold(f: Files, a: Attempt)
    requires Applies(f, a) && Excises(a.run, a.shipping)
    requires !AllCold(a.run, a.shipping) && Appendable(a) && NoDup(SegmentIds(Stored(f)))
    ensures a.plan == Refused(ArchiveRepeats) <==> exists id :: id in ChosenIds(a.run, a.shipping) && InArchive(f, id)
    ensures a.plan == Refused(ArchiveRepeats) || a.plan.Write?
  {
    var ids := ChosenIds(a.run, a.shipping);
    RaisesIffAllCold(a.run, a.shipping, a.appendable, a.plan);
    EpicIdsDistinct(a.run.epics);
    ChosenIdsDistinct(a.run.epics, a.shipping, a.run.minAgeDays);
    if id :| id in ids && InArchive(f, id) {
      ArchivedChoiceStopsTheSweep(f, a, id);
    } else {
      DisjointStaysDistinct(SegmentIds(Stored(f)), ids);
    }
  }

  /** A sweep that got as far as writing had an epic left over, and something to move. */
  lemma WritingExcises(f: Files, a: Attempt)
    requires Applies(f, a) && a.plan.Write?
    ensures Excises(a.run, a.shipping) && !AllCold(a.run, a.shipping)
  {
    var r := a.run;
    assert ColdEpics([], a.shipping, r.minAgeDays) == [];
    RaisesIffAllCold(r, a.shipping, a.appendable, a.plan);
  }

  /** The sweep that died between its first two writes, run again as it was: it is refused, not a no-op. */
  lemma RetryIsRefused(f: Files, a: Attempt, retry: Attempt)
    requires Applies(f, a) && a.plan.Write? && a.writes == 1
    requires retry.run == a.run.(archive := Some(a.plan.archive)) && retry.shipping == a.shipping
    requires Applies(Apply(f, a), retry) && Appendable(retry)
    ensures retry.plan == Refused(ArchiveRepeats)
    ensures Apply(Apply(f, a), retry) == Apply(f, a)
  {
    WritingExcises(f, a);
    assert ChosenIds(retry.run, retry.shipping) == ChosenIds(a.run, a.shipping);
    var id := ChosenIds(a.run, a.shipping)[0];
    CrashBetweenDuplicates(f, a, id);
    ArchivedChoiceStopsTheSweep(Apply(f, a), retry, id);
  }

  // ---- any number of sweeps and crashes ----

  ghost predicate Valid(f: Files, attempts: seq<Attempt>)
    decreases |attempts|
  {
    attempts == [] || (Applies(f, attempts[0]) && Valid(Apply(f, attempts[0]), attempts[1..]))
  }

  ghost function Final(f: Files, attempts: seq<Attempt>): Files
    decreases |attempts|
  {
    if attempts == [] then f else Final(Apply(f, attempts[0]), attempts[1..])
  }

  /** Over a whole history, an epic of the first roadmap is never lost and never altered beyond its stamps. */
  lemma {:induction false} HistoryLosesNothing(f: Files, attempts: seq<Attempt>, s: Segment)
    requires Valid(f, attempts) && s in Active(f)
    ensures Preserved(Final(f, attempts), s)
    decreases |attempts|
  {
    if attempts != [] {
      var f' := Apply(f, attempts[0]);
      CrashLosesNothing(f, attempts[0], s);
      if s in Active(f') {
        HistoryLosesNothing(f', attempts[1..], s);
      } else {
        var on, at :| StampSegment(s, on, at) in Stored(f');
        ArchivedStays(f', attempts[1..], StampSegment(s, on, at));
      }
    }
  }

  lemma ArchivedStays(f: Files, attempts: seq<Attempt>, s: Segment)
    requires Valid(f, attempts) && s in Stored(f)
    ensures s in Stored(Final(f, attempts))
  {
    ArchiveOnlyGrows(f, attempts);
  }

  lemma ArchiveStepGrows(f: Files, a: Attempt)
    requires Applies(f, a)
    ensures Stored(f) <= Stored(Apply(f, a))
    ensures NoDup(SegmentIds(Stored(f))) ==> NoDup(SegmentIds(Stored(Apply(f, a))))
  {
    if a.plan.Write? {
      WritePlanFacts(f, a);
    }
  }

  lemma {:induction false} ArchiveOnlyGrows(f: Files, attempts: seq<Attempt>)
    requires Valid(f, attempts)
    ensures Stored(f) <= Stored(Final(f, attempts))
    decreases |attempts|
  {
    if attempts != [] {
      ArchiveStepGrows(f, attempts[0]);
      ArchiveOnlyGrows(Apply(f, attempts[0]), attempts[1..]);
    }
  }

  /** Over a whole history the two files together hold the same epics as at the start. */
  lemma {:induction false} HistoryKeepsIds(f: Files, attempts: seq<Attempt>, id: string)
    requires Valid(f, attempts)
    ensures InRoadmap(Final(f, attempts), id) || InArchive(Final(f, attempts), id) <==>
            InRoadmap(f, id) || InArchive(f, id)
    decreases |attempts|
  {
    if attempts != [] {
      CrashKeepsIds(f, attempts[0], id);
      HistoryKeepsIds(Apply(f, attempts[0]), attempts[1..], id);
    }
  }

  /** The archive never lists an id twice, if it did not to begin with. */
  lemma {:induction false} ArchiveStaysDistinct(f: Files, attempts: seq<Attempt>)
    requires Valid(f, attempts) && NoDup(SegmentIds(Stored(f)))
    ensures NoDup(SegmentIds(Stored(Final(f, attempts))))
    decreases |attempts|
  {
    if attempts != [] {
      ArchiveStepGrows(f, attempts[0]);
      ArchiveStaysDistinct(Apply(f, attempts[0]), attempts[1..]);
    }
  }

  /** A sweep leaves an epic that is in both files in both files. */
  lemma DuplicateSurvivesSweep(f: Files, a: Attempt, id: string)
    requires Applies(f, a) && InRoadmap(f, id) && InArchive(f, id)
    ensures InRoadmap(Apply(f, a), id) && InArchive(Apply(f, a), id)
  {
    if a.plan.Write? {
      WritePlanFacts(f, a);
      UnchosenIds(Active(f), Elems(ChosenIds(a.run, a.shipping)), id);
      if id in ChosenIds(a.run, a.shipping) {
        SharedIdRepeats(SegmentIds(Stored(f)), ChosenIds(a.run, a.shipping), id);
      }
    }
  }

  /** An epic duplicated by a crash stays in both files through every later sweep: only an edit by hand clears it. */
  lemma {:induction false} DuplicateStays(f: Files, attempts: seq<Attempt>, id: string)
    requires Valid(f, attempts) && InRoadmap(f, id) && InArchive(f, id)
    ensures InRoadmap(Final(f, attempts), id) && InArchive(Final(f, attempts), id)
    decreases |attempts|
  {
    if attempts != [] {
      DuplicateSurvivesSweep(f, attempts[0], id);
      DuplicateStays(Apply(f, attempts[0]), attempts[1..], id);
    }
  }

  /** A roadmap that has epics is never left without any: the sweep that would empty it dies before it writes. */
  lemma {:induction false} RoadmapIsNeverEmptied(f: Files, attempts: seq<Attempt>)
    requires Valid(f, attempts) && Active(f) != []
    ensures Active(Final(f, attempts)) != []
    decreases |attempts|
  {
    if attempts != [] {
      RoadmapIsNeverEmptied(Apply(f, attempts[0]), attempts[1..]);
    }
  }
}
