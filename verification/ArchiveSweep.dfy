/**
 * `sweep_archive`: move cold epics from `roadmap.yaml` to `roadmap.archive.yaml`. The plan is computed on the raw
 * lines; what it does to the two files is stated on what they read as.
 */
module ArchiveSweep {
  import opened Wrappers
  import opened Seqs
  import opened Roadmap
  import opened RoadmapText
  import opened EpicBlocks
  import opened Prune

  // ---- which epics are cold ----

  /** `epic_shipped_on`: blocked, or datable, or undated because `--force-undated` skipped the check. */
  datatype Shipping = Blocked | Undated | Dated(ageDays: int, on: string)

  datatype Choice = Choice(id: string, shippedOn: string)

  /**
   * One run's view of the world: the two files, what PyYAML parsed, and the command line. `bareKey` tells a roadmap
   * whose `epics:` key has nothing after it on its line from one with an inline list or no such key.
   */
  datatype Run = Run(
    roadmap: seq<Line>,
    archive: Option<seq<Line>>,
    epics: seq<Epic>,
    bareKey: bool,
    ghReady: bool,
    minAgeDays: int,
    dryRun: bool,
    today: string)

  predicate Cold(e: Epic, shipping: string -> Shipping, minAgeDays: int) {
    && e.done
    && !e.keep
    && (forall k :: 0 <= k < |e.tasks| ==> e.tasks[k].done)
    && match shipping(e.id)
       case Blocked => false
       case Undated => true
       case Dated(age, _) => age >= minAgeDays
  }

  function ShippedOn(s: Shipping): string {
    if s.Dated? then s.on else "unknown"
  }

  function ColdEpics(epics: seq<Epic>, shipping: string -> Shipping, minAgeDays: int): seq<Epic> {
    Filter(epics, (e: Epic) => Cold(e, shipping, minAgeDays))
  }

  method Choose(epics: seq<Epic>, shipping: string -> Shipping, minAgeDays: int) returns (chosen: seq<Choice>)
    ensures |chosen| == |ColdEpics(epics, shipping, minAgeDays)|
    ensures forall k :: 0 <= k < |chosen| ==>
              var e := ColdEpics(epics, shipping, minAgeDays)[k];
              chosen[k] == Choice(e.id, ShippedOn(shipping(e.id)))
  {
    chosen := [];
    ghost var p := (e: Epic) => Cold(e, shipping, minAgeDays);
    ghost var cold: seq<Epic> := [];
    for k := 0 to |epics|
      invariant cold == Filter(epics[..k], p)
      invariant |chosen| == |cold|
      invariant forall j :: 0 <= j < |chosen| ==> chosen[j] == Choice(cold[j].id, ShippedOn(shipping(cold[j].id)))
    {
      var epic := epics[k];
      FilterNext(epics, k, p);
      if Cold(epic, shipping, minAgeDays) {
        chosen := chosen + [Choice(epic.id, ShippedOn(shipping(epic.id)))];
        cold := cold + [epic];
      }
    }
    assert epics[..|epics|] == epics;
  }

  // ---- stamping ----

  predicate Stamped(lines: seq<Line>) {
    exists i :: 0 <= i < |lines| && lines[i].kind.ArchivedOn?
  }

  function Stamps(shippedOn: string, archivedOn: string, eol: Eol): seq<Line> {
    [Line(Other, "    shipped_on: " + shippedOn, eol), Line(ArchivedOn, "    archived_on: " + archivedOn, eol)]
  }

  /** `stamp_block`: inject the two dates under the `- id:` line, unless the block already carries them. */
  function StampBlock(block: seq<Line>, shippedOn: string, archivedOn: string): seq<Line>
    requires block != []
  {
    if Stamped(block) then block
    else [block[0]] + Stamps(shippedOn, archivedOn, if block[0].eol == CRLF then CRLF else LF) + block[1..]
  }

  function StampSegment(s: Segment, shippedOn: string, archivedOn: string): Segment {
    if Stamped(s.body) then s else s.(body := Stamps(shippedOn, archivedOn, LF) + s.body)
  }

  /** A second stamp, whatever its dates, changes nothing. */
  lemma StampIsIdempotent(block: seq<Line>, shippedOn: string, archivedOn: string, shippedOn': string,
                          archivedOn': string)
    requires block != []
    ensures StampBlock(StampBlock(block, shippedOn, archivedOn), shippedOn', archivedOn')
         == StampBlock(block, shippedOn, archivedOn)
  {
    var once := StampBlock(block, shippedOn, archivedOn);
    if !Stamped(block) {
      assert once[2].kind.ArchivedOn?;
    }
  }

  lemma {:induction false} StampedContent(lines: seq<Line>)
    ensures Stamped(Content(lines)) == Stamped(lines)
  {
    if lines != [] {
      StampedContent(lines[1..]);
      var rest, all := Content(lines[1..]), Content(lines);
      assert lines == [lines[0]] + lines[1..];
      if Stamped(lines[1..]) {
        var i :| 0 <= i < |lines[1..]| && lines[1..][i].kind.ArchivedOn?;
        assert lines[i + 1].kind.ArchivedOn?;
        var j :| 0 <= j < |rest| && rest[j].kind.ArchivedOn?;
        assert all[if Spacer(lines[0]) then j else j + 1].kind.ArchivedOn?;
      } else if lines[0].kind.ArchivedOn? {
        assert all[0].kind.ArchivedOn?;
      }
    }
  }

  lemma HeadReads(head: Line, under: seq<Line>)
    requires head.kind.EpicStart? && NoEpicStart(under)
    ensures Read([head] + under) == Document([], [Segment(head.kind.id, head.text, Content(under))])
  {
    ReadPrefix(under, []);
    assert under + [] == under && Content(under) + [] == Content(under);
    ReadCons(head, under);
  }

  lemma StampsContent(shippedOn: string, archivedOn: string, eol: Eol, rest: seq<Line>)
    ensures Content(Stamps(shippedOn, archivedOn, eol) + rest) == Stamps(shippedOn, archivedOn, LF) + Content(rest)
  {
    var stamps := Stamps(shippedOn, archivedOn, eol);
    ContentConcat(stamps, rest);
    assert stamps[1..] == [stamps[1]] && stamps[1..][1..] == [];
  }

  lemma StampedUnderHead(head: Line, rest: seq<Line>)
    requires !head.kind.ArchivedOn?
    ensures Stamped([head] + rest) == Stamped(rest)
  {
    var block := [head] + rest;
    if Stamped(block) {
      var i :| 0 <= i < |block| && block[i].kind.ArchivedOn?;
      assert rest[i - 1].kind.ArchivedOn?;
    }
    if Stamped(rest) {
      var i :| 0 <= i < |rest| && rest[i].kind.ArchivedOn?;
      assert block[i + 1].kind.ArchivedOn?;
    }
  }

  /** A stamped block reads as the epic with its two dates on top, or as it did when it carried them already. */
  lemma StampReads(head: Line, rest: seq<Line>, shippedOn: string, archivedOn: string)
    requires head.kind.EpicStart? && NoEpicStart(rest)
    ensures Read(StampBlock([head] + rest, shippedOn, archivedOn)) ==
            Document([], [StampSegment(Segment(head.kind.id, head.text, Content(rest)), shippedOn, archivedOn)])
    ensures var read := Read(StampBlock([head] + rest, shippedOn, archivedOn));
            read == Document([], [Segment(
              head.kind.id, head.text,
              if exists i :: 0 <= i < |rest| && rest[i].kind.ArchivedOn? then Content(rest)
              else
                [Line(Other, "    shipped_on: " + shippedOn, LF),
                 Line(ArchivedOn, "    archived_on: " + archivedOn, LF)]
                + Content(rest))])
  {
    var segment := Segment(head.kind.id, head.text, Content(rest));
    StampedContent(rest);
    StampedUnderHead(head, rest);
    if Stamped(rest) {
      HeadReads(head, rest);
    } else {
      var under := InjectStamps(head, rest, shippedOn, archivedOn);
      HeadReads(head, under);
      assert StampSegment(segment, shippedOn, archivedOn) ==
             Segment(head.kind.id, head.text, Stamps(shippedOn, archivedOn, LF) + Content(rest));
    }
  }

  /** A text with one kind of line ending keeps it: the stamps take the ending of the block they go into. */
  lemma StampKeepsEndings(block: seq<Line>, shippedOn: string, archivedOn: string, eol: Eol)
    requires block != [] && eol != NoEol && forall i :: 0 <= i < |block| ==> block[i].eol == eol
    ensures var stamped := StampBlock(block, shippedOn, archivedOn);
            forall i :: 0 <= i < |stamped| ==> stamped[i].eol == eol
  {
  }

  lemma InjectStamps(head: Line, rest: seq<Line>, shippedOn: string, archivedOn: string) returns (under: seq<Line>)
    requires head.kind.EpicStart? && NoEpicStart(rest) && !Stamped([head] + rest)
    ensures StampBlock([head] + rest, shippedOn, archivedOn) == [head] + under
    ensures NoEpicStart(under)
    ensures Content(under) == Stamps(shippedOn, archivedOn, LF) + Content(rest)
  {
    var eol := if head.eol == CRLF then CRLF else LF;
    var stamps := Stamps(shippedOn, archivedOn, eol);
    under := stamps + rest;
    StampsContent(shippedOn, archivedOn, eol, rest);
    NoStartConcat(stamps, rest);
    Behead(head, rest);
    Associate([head], stamps, rest);
  }

  lemma NoStartConcat(a: seq<Line>, b: seq<Line>)
    requires NoEpicStart(a) && NoEpicStart(b)
    ensures NoEpicStart(a + b)
  {
  }

  lemma Behead(head: Line, rest: seq<Line>)
    ensures ([head] + rest)[0] == head && ([head] + rest)[1..] == rest
  {
  }

  // ---- appending to the archive ----

  /** Every line but the last ends with a newline, as `splitlines(keepends=True)` yields them. */
  ghost predicate WellSplit(lines: seq<Line>) {
    forall i :: 0 <= i < |lines| - 1 ==> lines[i].eol != NoEol
  }

  predicate EndsWith(s: string, suffix: string) {
    |s| >= |suffix| && s[|s| - |suffix|..] == suffix
  }

  function DropEmptyLines(text: seq<Line>): seq<Line> {
    if text != [] && Last(text) == Line(Blank, "", LF) then DropEmptyLines(text[..|text| - 1]) else text
  }

  /** `archive_text.rstrip("\n") + "\n"`. */
  function NormaliseEnd(text: seq<Line>): seq<Line> {
    var r := DropEmptyLines(text);
    if r == [] then [Line(Blank, "", LF)] else Terminate(r)
  }

  lemma {:induction false} DropEmptyReads(text: seq<Line>)
    ensures Read(DropEmptyLines(text)) == Read(text) && DropEmptyLines(text) <= text
  {
    if text != [] && Last(text) == Line(Blank, "", LF) {
      DropEmptyReads(text[..|text| - 1]);
      SpacerAtEnd(text[..|text| - 1], Last(text));
      assert text == text[..|text| - 1] + [Last(text)];
    }
  }

  lemma NormaliseReads(text: seq<Line>)
    requires WellSplit(text)
    ensures Read(NormaliseEnd(text)) == Read(text)
    ensures NormaliseEnd(text) != [] && WellSplit(NormaliseEnd(text))
  {
    DropEmptyReads(text);
    var r := DropEmptyLines(text);
    TerminateReads(r);
    SpacerAtEnd([], Line(Blank, "", LF));
    assert [] + [Line(Blank, "", LF)] == [Line(Blank, "", LF)];
  }

  /** The newline put between the archive so far and the next block. */
  function Separate(text: seq<Line>): seq<Line>
    requires text != []
  {
    if Last(text).eol == LF && EndsWith(Last(text).text, "epics:") then text
    else if Last(text).eol == NoEol then Terminate(text)
    else text + [Line(Blank, "", LF)]
  }

  lemma SeparateReads(text: seq<Line>)
    requires text != [] && WellSplit(text)
    ensures Read(Separate(text)) == Read(text)
    ensures AllEnded(Separate(text))
  {
    TerminateReads(text);
    SpacerAtEnd(text, Line(Blank, "", LF));
  }

  ghost predicate AllEnded(lines: seq<Line>) {
    forall i :: 0 <= i < |lines| ==> lines[i].eol != NoEol
  }

  lemma SplitConcat(a: seq<Line>, b: seq<Line>)
    requires AllEnded(a) && WellSplit(b)
    ensures WellSplit(a + b)
  {
  }

  lemma AppendReads(text: seq<Line>, block: seq<Line>)
    requires text != [] && WellSplit(text) && WellSplit(block) && Read(block).preamble == []
    ensures WellSplit(Separate(text) + block)
    ensures Read(Separate(text) + block) ==
            Document(Read(text).preamble, Read(text).segments + Read(block).segments)
  {
    SeparateReads(text);
    SplitConcat(Separate(text), block);
    ReadConcat(Separate(text), block);
  }

  /** `b` stands in `text` from line `p` on, line for line, its last line given a newline where it had none. */
  ghost predicate StandsAt(text: seq<Line>, p: nat, b: seq<Line>) {
    && p + |b| <= |text|
    && forall i :: 0 <= i < |b| ==>
         text[p + i] == b[i] || (i == |b| - 1 && b[i].eol == NoEol && text[p + i] == b[i].(eol := LF))
  }

  /** What stands in the archive stands there after the next block is appended, and so does that block. */
  lemma AppendKeeps(text: seq<Line>, block: seq<Line>, p: nat, b: seq<Line>)
    requires text != [] && StandsAt(text, p, b)
    ensures StandsAt(Separate(text) + block, p, b)
  {
  }

  lemma AppendStands(text: seq<Line>, block: seq<Line>)
    requires text != []
    ensures StandsAt(Separate(text) + block, |Separate(text)|, block)
  {
  }

  ghost predicate Stands(text: seq<Line>, b: seq<Line>) {
    exists p :: StandsAt(text, p, b)
  }

  // ---- the plan ----

  datatype Refusal = ScanMismatch | RepeatedId | NoGh | BadTarget | ArchiveRepeats

  /** Where the program dies of an exception: the list of epics it iterates is null. */
  datatype Crash = AtScanCheck | AtReparse

  datatype Plan =
    | Raised(at: Crash) | Refused(why: Refusal) | Nothing | DryRun
    | Write(archive: seq<Line>, roadmap: seq<Line>)

  /** What `data.get("epics", [])` gives: a bare key with no epic under it is null, not an empty list. */
  function EpicsValue(bareKey: bool, ids: seq<string>): Option<seq<string>> {
    if bareKey && ids == [] then None else Some(ids)
  }

  /** `ARCHIVE_HEADER` and the keys under it, for a first sweep. */
  const NEW_ARCHIVE: seq<Line> := [
    Line(Other, "# roadmap.archive.yaml", LF), Line(Blank, "", LF), Line(Other, "version: 1", LF),
    Line(Blank, "", LF), Line(Other, "epics:", LF)]

  /** What a new archive says before its first epic. */
  const NEW_PREAMBLE: seq<Line> := [
    Line(Other, "# roadmap.archive.yaml", LF), Line(Other, "version: 1", LF), Line(Other, "epics:", LF)]

  lemma NewArchiveIsEmpty()
    ensures Read(NEW_ARCHIVE) == Document(NEW_PREAMBLE, []) && WellSplit(NEW_ARCHIVE)
  {
    var after := NEW_ARCHIVE[1..];
    assert after[1..][1..][1..] == [NEW_ARCHIVE[4]] && [NEW_ARCHIVE[4]][1..] == [];
    assert Read([NEW_ARCHIVE[4]]) == Document([NEW_ARCHIVE[4]], []);
    assert Read(after[1..]) == Document(NEW_PREAMBLE[1..], []);
  }

  ghost function Archived(archive: Option<seq<Line>>): seq<Segment> {
    if archive.None? then [] else Read(archive.value).segments
  }

  ghost function ChosenIds(r: Run, shipping: string -> Shipping): seq<string> {
    EpicIds(ColdEpics(r.epics, shipping, r.minAgeDays))
  }

  /**
   * What PyYAML reports agrees with the text: epics that the line scan finds stand under a bare key, and a `done` epic
   * has a status line under its id.
   */
  ghost predicate Parsed(r: Run) {
    && WellSplit(r.roadmap)
    && (ScanIds(r.roadmap) == EpicIds(r.epics) && r.epics != [] ==> r.bareKey)
    && (r.archive.Some? ==> WellSplit(r.archive.value))
    && (ScanIds(r.roadmap) == EpicIds(r.epics) ==>
          forall k :: 0 <= k < |r.epics| && r.epics[k].done && k < |Read(r.roadmap).segments| ==>
            Read(r.roadmap).segments[k].body != [])
  }

  /** The epics the sweep appends, each read from the roadmap and stamped. */
  ghost function Moved(segments: seq<Segment>, ids: seq<string>, shipping: string -> Shipping, today: string)
    : seq<Segment>
    requires forall k :: 0 <= k < |ids| ==> ids[k] in SegmentIds(segments)
  {
    if ids == [] then []
    else
      [StampSegment(SegmentNamed(segments, ids[0]), ShippedOn(shipping(ids[0])), today)]
      + Moved(segments, ids[1..], shipping, today)
  }

  ghost function SegmentNamed(segments: seq<Segment>, id: string): (s: Segment)
    requires id in SegmentIds(segments)
    ensures s in segments && s.id == id
  {
    var k :| 0 <= k < |segments| && SegmentIds(segments)[k] == id;
    segments[k]
  }

  /**
   * What a plan must be. Each exception and each refusal has its guard, in the order they are tested; and a plan that
   * writes is a move: the roadmap loses exactly the chosen epics, the archive gains exactly those, stamped, and
   * everything else reads as before.
   */
  ghost predicate IsPlan(r: Run, shipping: string -> Shipping, appendable: seq<Line> -> bool, plan: Plan) {
    var ids := ChosenIds(r, shipping);
    if EpicsValue(r.bareKey, EpicIds(r.epics)).None? then plan == Raised(AtScanCheck)
    else if ScanIds(r.roadmap) != EpicIds(r.epics) then plan == Refused(ScanMismatch)
    else if !NoDup(IdList(r.epics)) then plan == Refused(RepeatedId)
    else if !r.ghReady then plan == Refused(NoGh)
    else if ids == [] then plan == Nothing
    else if r.dryRun then plan == DryRun
    else
      && (forall k :: 0 <= k < |ids| ==> ids[k] in SegmentIds(Read(r.roadmap).segments))
      && if Unchosen(Read(r.roadmap).segments, Elems(ids)) == [] then plan == Raised(AtReparse)
         else if r.archive.Some? && !appendable(NormaliseEnd(r.archive.value)) then plan == Refused(BadTarget)
         else if !NoDup(SegmentIds(Archived(r.archive)) + ids) then plan == Refused(ArchiveRepeats)
         else
           && plan.Write?
           && WellSplit(plan.archive) && WellSplit(plan.roadmap)
           && Read(plan.roadmap) ==
              Document(Read(r.roadmap).preamble, Unchosen(Read(r.roadmap).segments, Elems(ids)))
           && Read(plan.archive).segments ==
              Archived(r.archive) + Moved(Read(r.roadmap).segments, ids, shipping, r.today)
           && KeepsText(r, shipping, plan.archive, plan.roadmap)
  }

  /**
   * Line by line: the new roadmap is the old text without the lines of the chosen epics, tidied; the new archive
   * starts with the old one, and each chosen epic stands in it as it stood in the roadmap, stamped.
   */
  ghost predicate KeepsText(r: Run, shipping: string -> Shipping, archive: seq<Line>, roadmap: seq<Line>) {
    var ids := ChosenIds(r, shipping);
    && (exists rest :: Excised(r.roadmap, Elems(ids), rest) && Tidies(rest, roadmap))
    && (forall k :: 0 <= k < |ids| ==> MovesText(r.roadmap, ids[k], shipping(ids[k]), r.today, archive))
    && Read(archive).preamble == (if r.archive.None? then NEW_PREAMBLE else Read(r.archive.value).preamble)
    && (r.archive.Some? ==> exists n :: StartsAs(r.archive.value, archive, n))
  }

  /** The raw text of an epic is the lines `[s, e)`: up to the next epic, less the blanks and banners before it. */
  ghost predicate TextOf(lines: seq<Line>, id: string, s: int, e: int) {
    && 0 <= s < e <= |lines|
    && lines[s].kind == EpicStart(id)
    && (forall i :: s < i < e ==> !lines[i].kind.EpicStart?)
    && (e - 1 > s ==> !Spacer(lines[e - 1]))
    && (forall i :: e <= i < |lines| && !Spacer(lines[i]) ==> exists m :: e <= m <= i && lines[m].kind.EpicStart?)
  }

  ghost predicate MovesText(lines: seq<Line>, id: string, shipping: Shipping, today: string, archive: seq<Line>) {
    var shippedOn := if shipping.Dated? then shipping.on else "unknown";
    exists s, e :: TextOf(lines, id, s, e) && Stands(archive, StampBlock(lines[s..e], shippedOn, today))
  }

  /** The archive as it was, but for empty lines at its end, comes first in the new one. */
  ghost predicate StartsAs(before: seq<Line>, archive: seq<Line>, n: int) {
    && 0 <= n <= |before|
    && (forall i :: n <= i < |before| ==> before[i] == Line(Blank, "", LF))
    && StandsAt(archive, 0, before[..n])
  }

  lemma {:induction false} DroppedAreEmpty(text: seq<Line>)
    ensures var n := |DropEmptyLines(text)|;
            && n <= |text| && DropEmptyLines(text) == text[..n]
            && forall i :: n <= i < |text| ==> text[i] == Line(Blank, "", LF)
  {
    if text != [] && Last(text) == Line(Blank, "", LF) {
      DroppedAreEmpty(text[..|text| - 1]);
    }
  }

  /** An archive that starts with the normalised text of the old one starts as the old one did. */
  lemma BaseStands(before: seq<Line>, archive: seq<Line>)
    requires StandsAt(archive, 0, NormaliseEnd(before))
    ensures exists n :: StartsAs(before, archive, n)
  {
    DroppedAreEmpty(before);
    var n := |DropEmptyLines(before)|;
    var kept := before[..n];
    if kept != [] {
      assert forall i :: 0 <= i < n - 1 ==> Terminate(kept)[i] == kept[i];
      assert Last(Terminate(kept)).eol != NoEol;
    }
    assert StartsAs(before, archive, n);
  }

  // ---- computing the plan ----

  /** A chosen epic's raw lines: its id line, at least one more, and no other epic. */
  ghost predicate EpicText(block: seq<Line>) {
    |block| >= 2 && block[0].kind.EpicStart? && NoEpicStart(block[1..]) && WellSplit(block)
  }

  ghost function TextSegment(block: seq<Line>): Segment
    requires EpicText(block)
  {
    Segment(block[0].kind.id, block[0].text, Content(block[1..]))
  }

  function BlockText(lines: seq<Line>, b: Block): seq<Line> {
    if b.start < b.end <= |lines| then lines[b.start..b.end] else []
  }

  /** `blocks = {eid: "".join(lines[s:e]) ...}`, keyed by the chosen ids. */
  method CollectBlocks(lines: seq<Line>, blocks: seq<Block>, chosen: set<string>)
    returns (texts: map<string, seq<Line>>)
    requires forall k, m :: 0 <= k < m < |blocks| ==> blocks[k].id != blocks[m].id
    ensures forall k :: 0 <= k < |blocks| && blocks[k].id in chosen ==>
              blocks[k].id in texts && texts[blocks[k].id] == BlockText(lines, blocks[k])
  {
    texts := map[];
    for k := 0 to |blocks|
      invariant forall m :: 0 <= m < k && blocks[m].id in chosen ==>
                  blocks[m].id in texts && texts[blocks[m].id] == BlockText(lines, blocks[m])
    {
      var b := blocks[k];
      if b.id in chosen {
        texts := texts[b.id := BlockText(lines, b)];
      }
    }
  }

  lemma BlockIsEpicText(lines: seq<Line>, blocks: seq<Block>, k: nat)
    requires BlockTable(lines, blocks) && k < |blocks| && WellSplit(lines)
    requires BlockAt(lines, blocks, k)
    requires SegmentOf(lines, blocks[k]).body != []
    ensures EpicText(BlockText(lines, blocks[k]))
    ensures TextSegment(BlockText(lines, blocks[k])) == SegmentOf(lines, blocks[k])
  {
    var b := blocks[k];
    var block := lines[b.start..b.end];
    assert block[1..] == lines[b.start + 1..b.end];
    assert b.end > b.start + 1;
  }

  lemma BlockIsText(lines: seq<Line>, blocks: seq<Block>, k: nat)
    requires BlockTable(lines, blocks) && k < |blocks|
    ensures TextOf(lines, blocks[k].id, blocks[k].start, blocks[k].end)
  {
    assert BlockAt(lines, blocks, k);
    var limit := RegionEnd(lines, blocks, k);
    if k + 1 < |blocks| {
      assert BlockAt(lines, blocks, k + 1);
      assert lines[limit].kind.EpicStart?;
    }
    forall i | blocks[k].end <= i < |lines| && !Spacer(lines[i])
      ensures exists m :: blocks[k].end <= m <= i && lines[m].kind.EpicStart?
    {
      assert limit <= i;
    }
  }

  ghost function StampedTexts(chosen: seq<Choice>, texts: map<string, seq<Line>>, today: string): seq<Segment>
    requires forall k :: 0 <= k < |chosen| ==> chosen[k].id in texts && EpicText(texts[chosen[k].id])
  {
    seq(|chosen|, k requires 0 <= k < |chosen| =>
      StampSegment(TextSegment(texts[chosen[k].id]), chosen[k].shippedOn, today))
  }

  /** The chosen blocks, stamped. */
  ghost function StampedBlocks(chosen: seq<Choice>, texts: map<string, seq<Line>>, today: string): seq<seq<Line>>
    requires forall k :: 0 <= k < |chosen| ==> chosen[k].id in texts && EpicText(texts[chosen[k].id])
  {
    seq(|chosen|, k requires 0 <= k < |chosen| =>
      assert EpicText(texts[chosen[k].id]);
      StampBlock(texts[chosen[k].id], chosen[k].shippedOn, today))
  }

  /** `text` starts with `base`, and each of the blocks stands in it. */
  ghost predicate Holds(text: seq<Line>, base: seq<Line>, blocks: seq<seq<Line>>) {
    StandsAt(text, 0, base) && forall k :: 0 <= k < |blocks| ==> Stands(text, blocks[k])
  }

  lemma HoldsMore(text: seq<Line>, base: seq<Line>, blocks: seq<seq<Line>>, block: seq<Line>)
    requires text != [] && Holds(text, base, blocks)
    ensures Holds(Separate(text) + block, base, blocks + [block])
  {
    var more := Separate(text) + block;
    AppendKeeps(text, block, 0, base);
    AppendStands(text, block);
    forall k | 0 <= k < |blocks|
      ensures Stands(more, blocks[k])
    {
      var p :| StandsAt(text, p, blocks[k]);
      AppendKeeps(text, block, p, blocks[k]);
    }
  }

  /** The text after the first `n` blocks: what it reads as, and what stands in it. */
  ghost predicate Grown(text: seq<Line>, base: seq<Line>, segments: seq<Segment>, blocks: seq<seq<Line>>) {
    && text != [] && WellSplit(text)
    && Read(text) == Document(Read(base).preamble, Read(base).segments + segments)
    && Holds(text, base, blocks)
  }

  lemma NotGrown(base: seq<Line>)
    requires base != [] && WellSplit(base)
    ensures Grown(base, base, [], [])
  {
    assert Read(base).segments + [] == Read(base).segments;
  }

  lemma GrowsBy(text: seq<Line>, base: seq<Line>, segments: seq<Segment>, blocks: seq<seq<Line>>, k: nat,
                more: seq<Line>)
    requires k < |segments| == |blocks| && Grown(text, base, segments[..k], blocks[..k])
    requires more != [] && WellSplit(more) && more == Separate(text) + blocks[k]
    requires Read(more) == Document(Read(text).preamble, Read(text).segments + [segments[k]])
    ensures Grown(more, base, segments[..k + 1], blocks[..k + 1])
  {
    HoldsMore(text, base, blocks[..k], blocks[k]);
    Associate(Read(base).segments, segments[..k], [segments[k]]);
    assert segments[..k + 1] == segments[..k] + [segments[k]] && blocks[..k + 1] == blocks[..k] + [blocks[k]];
  }

  method AppendBlocks(base: seq<Line>, chosen: seq<Choice>, texts: map<string, seq<Line>>, today: string)
    returns (text: seq<Line>)
    requires base != [] && WellSplit(base)
    requires forall k :: 0 <= k < |chosen| ==> chosen[k].id in texts && EpicText(texts[chosen[k].id])
    ensures WellSplit(text)
    ensures Read(text) == Document(Read(base).preamble, Read(base).segments + StampedTexts(chosen, texts, today))
    ensures Holds(text, base, StampedBlocks(chosen, texts, today))
  {
    text := base;
    ghost var all, blocks := StampedTexts(chosen, texts, today), StampedBlocks(chosen, texts, today);
    NotGrown(base);
    assert all[..0] == [] && blocks[..0] == [];
    for k := 0 to |chosen|
      invariant Grown(text, base, all[..k], blocks[..k])
    {
      ghost var before := text;
      text := AppendBlock(text, texts[chosen[k].id], chosen[k].shippedOn, today);
      GrowsBy(before, base, all, blocks, k, text);
    }
    assert all[..|chosen|] == all && blocks[..|chosen|] == blocks;
  }

  method AppendBlock(text0: seq<Line>, block: seq<Line>, shippedOn: string, today: string) returns (text: seq<Line>)
    requires text0 != [] && WellSplit(text0) && EpicText(block)
    ensures text != [] && WellSplit(text)
    ensures Read(text) ==
            Document(Read(text0).preamble, Read(text0).segments + [StampSegment(TextSegment(block), shippedOn, today)])
    ensures text == Separate(text0) + StampBlock(block, shippedOn, today)
  {
    var stamped := StampBlock(block, shippedOn, today);
    HeadAndTail(block);
    StampReads(block[0], block[1..], shippedOn, today);
    AppendReads(text0, stamped);
    text := Separate(text0) + stamped;
  }

  /** The block texts of distinct ids, stamped, are the moved epics. */
  lemma {:induction false} StampedTextsAreMoved(
    segments: seq<Segment>, chosen: seq<Choice>, ids: seq<string>, texts: map<string, seq<Line>>,
    shipping: string -> Shipping, today: string)
    requires NoDup(SegmentIds(segments))
    requires |chosen| == |ids|
    requires forall k :: 0 <= k < |ids| ==> chosen[k] == Choice(ids[k], ShippedOn(shipping(ids[k])))
    requires forall k :: 0 <= k < |ids| ==>
               && ids[k] in texts && EpicText(texts[ids[k]])
               && TextSegment(texts[ids[k]]) in segments && TextSegment(texts[ids[k]]).id == ids[k]
    requires forall k :: 0 <= k < |ids| ==> ids[k] in SegmentIds(segments)
    ensures StampedTexts(chosen, texts, today) == Moved(segments, ids, shipping, today)
  {
    if ids != [] {
      StampedTextsAreMoved(segments, chosen[1..], ids[1..], texts, shipping, today);
      NameIsUnique(segments, SegmentNamed(segments, ids[0]), TextSegment(texts[ids[0]]));
      StampedTextsCons(chosen, texts, today);
    }
  }

  lemma StampedTextsCons(chosen: seq<Choice>, texts: map<string, seq<Line>>, today: string)
    requires chosen != [] && forall k :: 0 <= k < |chosen| ==> chosen[k].id in texts && EpicText(texts[chosen[k].id])
    ensures StampedTexts(chosen, texts, today) ==
            [StampSegment(TextSegment(texts[chosen[0].id]), chosen[0].shippedOn, today)]
            + StampedTexts(chosen[1..], texts, today)
  {
  }

  lemma NameIsUnique(segments: seq<Segment>, a: Segment, b: Segment)
    requires NoDup(SegmentIds(segments)) && a in segments && b in segments && a.id == b.id
    ensures a == b
  {
    var i :| 0 <= i < |segments| && segments[i] == a;
    var j :| 0 <= j < |segments| && segments[j] == b;
    assert SegmentIds(segments)[i] == SegmentIds(segments)[j];
  }

  lemma IdListCons(epics: seq<Epic>)
    requires epics != []
    ensures IdList(epics) == [epics[0].id] + Ids(TaskItems(epics[0].tasks)) + IdList(epics[1..])
  {
    var head, tasks, rest := Item(epics[0].id, epics[0].dependsOn), TaskItems(epics[0].tasks), Items(epics[1..]);
    assert Items(epics) == [head] + tasks + rest;
    assert Ids([head]) == [epics[0].id];
  }

  /** Where epic `k` is in `IdList`. */
  ghost function Offset(epics: seq<Epic>, k: nat): nat
    requires k < |epics|
  {
    if k == 0 then 0 else 1 + |epics[0].tasks| + Offset(epics[1..], k - 1)
  }

  lemma AtOffset(front: seq<string>, rest: seq<string>, o: nat)
    requires o < |rest|
    ensures (front + rest)[|front| + o] == rest[o]
  {
  }

  lemma OffsetShift(epics: seq<Epic>, o: nat)
    requires epics != [] && o < |IdList(epics[1..])|
    ensures 1 + |epics[0].tasks| + o < |IdList(epics)|
    ensures IdList(epics)[1 + |epics[0].tasks| + o] == IdList(epics[1..])[o]
  {
    IdListCons(epics);
    var front := [epics[0].id] + Ids(TaskItems(epics[0].tasks));
    AtOffset(front, IdList(epics[1..]), o);
  }

  lemma HeadId(epics: seq<Epic>)
    requires epics != []
    ensures IdList(epics) != [] && IdList(epics)[0] == epics[0].id
  {
    IdListCons(epics);
  }

  lemma {:induction false} OffsetId(epics: seq<Epic>, k: nat)
    requires k < |epics|
    ensures Offset(epics, k) < |IdList(epics)| && IdList(epics)[Offset(epics, k)] == epics[k].id
  {
    if k == 0 {
      HeadId(epics);
    } else {
      var tail, o := epics[1..], Offset(epics[1..], k - 1);
      OffsetId(tail, k - 1);
      OffsetShift(epics, o);
      assert Offset(epics, k) == 1 + |epics[0].tasks| + o;
      assert IdList(epics)[Offset(epics, k)] == IdList(tail)[o] == tail[k - 1].id;
    }
  }

  lemma {:induction false} OffsetGrows(epics: seq<Epic>, i: nat, j: nat)
    requires i < j < |epics|
    ensures Offset(epics, i) < Offset(epics, j)
  {
    if i > 0 {
      OffsetGrows(epics[1..], i - 1, j - 1);
    }
  }

  lemma EpicIdsDistinct(epics: seq<Epic>)
    requires NoDup(IdList(epics))
    ensures NoDup(EpicIds(epics))
  {
    forall i, j | 0 <= i < j < |epics|
      ensures EpicIds(epics)[i] != EpicIds(epics)[j]
    {
      OffsetId(epics, i);
      OffsetId(epics, j);
      OffsetGrows(epics, i, j);
    }
  }

  lemma DistinctIffCounted<T>(s: seq<T>)
    ensures NoDup(s) <==> |Elems(s)| == |s|
  {
    if NoDup(s) {
      NoDupCardinality(s);
    } else {
      var i, j :| 0 <= i < j < |s| && s[i] == s[j];
      var without := s[..j] + s[j + 1..];
      assert Elems(s) == Elems(without) by {
        forall x | x in s ensures x in without {
          var k :| 0 <= k < |s| && s[k] == x;
          if k < j { assert without[k] == x; }
          else if k == j { assert without[i] == x; }
          else { assert without[k - 1] == x; }
        }
      }
      ElemsCardinality(without);
    }
  }

  method PlanSweep(r: Run, shipping: string -> Shipping, appendable: seq<Line> -> bool) returns (plan: Plan)
    requires Parsed(r)
    ensures IsPlan(r, shipping, appendable, plan)
  {
    var blocks := FindEpicBlocks(r.roadmap);
    var seen := Map(blocks, (b: Block) => b.id);
    assert seen == ScanIds(r.roadmap);
    if EpicsValue(r.bareKey, EpicIds(r.epics)).None? {
      return Raised(AtScanCheck);
    }
    if seen != EpicIds(r.epics) {
      return Refused(ScanMismatch);
    }
    var dupes := DuplicateIds(IdList(r.epics));
    if dupes != [] {
      return Refused(RepeatedId);
    }
    if !r.ghReady {
      return Refused(NoGh);
    }
    var chosen := Choose(r.epics, shipping, r.minAgeDays);
    if chosen == [] {
      return Nothing;
    }
    if r.dryRun {
      return DryRun;
    }
    plan := WritePlan(r, shipping, appendable, blocks, chosen);
  }

  /** The facts the guards of `PlanSweep` have established when there is something to write. */
  ghost predicate Ready(r: Run, shipping: string -> Shipping, blocks: seq<Block>, chosen: seq<Choice>) {
    var ids := ChosenIds(r, shipping);
    && Parsed(r)
    && BlockTable(r.roadmap, blocks)
    && ScanIds(r.roadmap) == EpicIds(r.epics)
    && |blocks| == |r.epics| && (forall k :: 0 <= k < |blocks| ==> blocks[k].id == r.epics[k].id)
    && NoDup(IdList(r.epics)) && r.bareKey
    && ids != [] && |chosen| == |ids|
    && (forall k :: 0 <= k < |ids| ==> chosen[k] == Choice(ids[k], ShippedOn(shipping(ids[k]))))
  }

  /** Each chosen id names one block, whose lines are that epic's text. */
  lemma ChosenAreBlocks(r: Run, shipping: string -> Shipping, blocks: seq<Block>, chosen: seq<Choice>, c: nat)
    returns (k: nat)
    requires Ready(r, shipping, blocks, chosen) && c < |chosen|
    ensures k < |blocks| && blocks[k].id == chosen[c].id
    ensures chosen[c].id in SegmentIds(Read(r.roadmap).segments)
    ensures EpicText(BlockText(r.roadmap, blocks[k]))
    ensures TextSegment(BlockText(r.roadmap, blocks[k])).id == chosen[c].id
    ensures TextSegment(BlockText(r.roadmap, blocks[k])) in Read(r.roadmap).segments
    ensures TextOf(r.roadmap, chosen[c].id, blocks[k].start, blocks[k].end)
    ensures BlockText(r.roadmap, blocks[k]) == r.roadmap[blocks[k].start..blocks[k].end]
  {
    var cold := ColdEpics(r.epics, shipping, r.minAgeDays);
    assert cold[c] in cold;
    k :| 0 <= k < |r.epics| && r.epics[k] == cold[c];
    assert ChosenIds(r, shipping)[c] == r.epics[k].id;
    FileSegment(r.roadmap, blocks, k);
    BlockIsEpicText(r.roadmap, blocks, k);
    BlockIsText(r.roadmap, blocks, k);
    assert SegmentIds(Read(r.roadmap).segments)[k] == chosen[c].id;
  }

  lemma SegmentIdsDistinct(r: Run, shipping: string -> Shipping, blocks: seq<Block>, chosen: seq<Choice>)
    requires Ready(r, shipping, blocks, chosen)
    ensures NoDup(SegmentIds(Read(r.roadmap).segments))
    ensures NoDup(EpicIds(r.epics))
    ensures forall k, m :: 0 <= k < m < |blocks| ==> blocks[k].id != blocks[m].id
  {
    EpicIdsDistinct(r.epics);
    ScanIdsAreSegmentIds(r.roadmap);
    assert forall k :: 0 <= k < |blocks| ==> blocks[k].id == EpicIds(r.epics)[k];
  }

  /** Every chosen id has its text in the table, and the text is the epic's. */
  ghost predicate Found(r: Run, chosen: seq<Choice>, texts: map<string, seq<Line>>) {
    var segments := Read(r.roadmap).segments;
    forall c :: 0 <= c < |chosen| ==>
      && chosen[c].id in texts && EpicText(texts[chosen[c].id])
      && TextSegment(texts[chosen[c].id]) in segments && TextSegment(texts[chosen[c].id]).id == chosen[c].id
      && chosen[c].id in SegmentIds(segments)
      && exists s, e :: TextOf(r.roadmap, chosen[c].id, s, e) && texts[chosen[c].id] == r.roadmap[s..e]
  }

  lemma TextsAreFound(r: Run, shipping: string -> Shipping, blocks: seq<Block>, chosen: seq<Choice>,
                      texts: map<string, seq<Line>>)
    requires Ready(r, shipping, blocks, chosen)
    requires forall k :: 0 <= k < |blocks| && blocks[k].id in (set c | c in chosen :: c.id) ==>
               blocks[k].id in texts && texts[blocks[k].id] == BlockText(r.roadmap, blocks[k])
    ensures Found(r, chosen, texts)
  {
    forall c | 0 <= c < |chosen|
      ensures chosen[c].id in texts && EpicText(texts[chosen[c].id])
      ensures TextSegment(texts[chosen[c].id]) in Read(r.roadmap).segments
      ensures TextSegment(texts[chosen[c].id]).id == chosen[c].id
      ensures chosen[c].id in SegmentIds(Read(r.roadmap).segments)
      ensures exists s, e :: TextOf(r.roadmap, chosen[c].id, s, e) && texts[chosen[c].id] == r.roadmap[s..e]
    {
      var k := ChosenAreBlocks(r, shipping, blocks, chosen, c);
      assert chosen[c] in chosen;
    }
  }

  /** Cut the chosen blocks out and tidy what is left. */
  method Excise(lines: seq<Line>, blocks: seq<Block>, chosen: set<string>) returns (left: seq<Line>)
    requires BlockTable(lines, blocks) && WellSplit(lines)
    ensures WellSplit(left)
    ensures Read(left) == Document(Read(lines).preamble, Unchosen(Read(lines).segments, chosen))
    ensures exists rest :: Excised(lines, chosen, rest) && Tidies(rest, left)
  {
    var cut := CutPositions(blocks, chosen);
    var kept := KeepLines(lines, cut);
    left := PruneEmptySections(kept);
    SurvivorsRead(lines, blocks, chosen, cut);
    CutTakesEpicText(lines, blocks, chosen, cut);
    PruneKeepsSplit(lines, cut);
  }

  /** The text of the archive to append to: the one there is, its end normalised, or the header of a new one. */
  function BaseOf(archive: Option<seq<Line>>): seq<Line> {
    if archive.Some? then NormaliseEnd(archive.value) else NEW_ARCHIVE
  }

  lemma BaseReads(archive: Option<seq<Line>>)
    requires archive.Some? ==> WellSplit(archive.value)
    ensures BaseOf(archive) != [] && WellSplit(BaseOf(archive))
    ensures Read(BaseOf(archive)).segments == Archived(archive)
    ensures Read(BaseOf(archive)).preamble == if archive.None? then NEW_PREAMBLE else Read(archive.value).preamble
  {
    if archive.Some? {
      NormaliseReads(archive.value);
    } else {
      NewArchiveIsEmpty();
    }
  }

  lemma TextIsKept(r: Run, shipping: string -> Shipping, chosen: seq<Choice>, texts: map<string, seq<Line>>,
                   archive: seq<Line>, left: seq<Line>)
    requires |chosen| == |ChosenIds(r, shipping)| && Found(r, chosen, texts)
    requires forall k :: 0 <= k < |chosen| ==>
               chosen[k] == Choice(ChosenIds(r, shipping)[k], ShippedOn(shipping(ChosenIds(r, shipping)[k])))
    requires Holds(archive, BaseOf(r.archive), StampedBlocks(chosen, texts, r.today))
    requires Read(archive).preamble == if r.archive.None? then NEW_PREAMBLE else Read(r.archive.value).preamble
    requires exists rest :: Excised(r.roadmap, Elems(ChosenIds(r, shipping)), rest) && Tidies(rest, left)
    ensures KeepsText(r, shipping, archive, left)
  {
    if r.archive.Some? {
      BaseStands(r.archive.value, archive);
    }
    var ids, blocks := ChosenIds(r, shipping), StampedBlocks(chosen, texts, r.today);
    forall k | 0 <= k < |ids|
      ensures MovesText(r.roadmap, ids[k], shipping(ids[k]), r.today, archive)
    {
      assert chosen[k].id == ids[k];
      var s, e :| TextOf(r.roadmap, ids[k], s, e) && texts[ids[k]] == r.roadmap[s..e];
      assert Stands(archive, blocks[k]);
    }
  }

  /** Excise, tidy, append, and check for repeats: the part of the sweep that builds the two new texts. */
  method WritePlan(r: Run, shipping: string -> Shipping, appendable: seq<Line> -> bool,
                   blocks: seq<Block>, chosen: seq<Choice>) returns (plan: Plan)
    requires Ready(r, shipping, blocks, chosen) && r.ghReady && !r.dryRun
    ensures IsPlan(r, shipping, appendable, plan)
  {
    ghost var ids := ChosenIds(r, shipping);
    ghost var segments := Read(r.roadmap).segments;
    var chosenIds := set c | c in chosen :: c.id;
    SegmentIdsDistinct(r, shipping, blocks, chosen);
    var texts := CollectBlocks(r.roadmap, blocks, chosenIds);
    if !(chosenIds <= texts.Keys) {
      ChosenHaveBlocks(r, shipping, blocks, chosen, texts.Keys);
      assert false;
    }
    TextsAreFound(r, shipping, blocks, chosen, texts);
    assert ids == Map(chosen, (c: Choice) => c.id);
    assert chosenIds == Elems(ids);
    assert forall k :: 0 <= k < |ids| ==> chosen[k].id == ids[k] && ids[k] in SegmentIds(segments);

    var newRaw := Excise(r.roadmap, blocks, chosenIds);
    ScanIdsAreSegmentIds(newRaw);
    var left := EpicsValue(r.bareKey, ScanIds(newRaw));
    if left.None? {
      return Raised(AtReparse);
    }
    if Elems(left.value) != Elems(EpicIds(r.epics)) - chosenIds {
      SurvivorIds(r.roadmap, newRaw, chosenIds);
      assert false;
    }

    var archive := GrowArchive(r, shipping, appendable, chosen, texts);
    if archive.Err? {
      return Refused(archive.error);
    }
    TextIsKept(r, shipping, chosen, texts, archive.value, newRaw);
    return Write(archive.value, newRaw);
  }

  /** The new archive, or why there is none: its end is no place to append to, or it would repeat an id. */
  method GrowArchive(r: Run, shipping: string -> Shipping, appendable: seq<Line> -> bool, chosen: seq<Choice>,
                     texts: map<string, seq<Line>>)
    returns (archive: Result<seq<Line>, Refusal>)
    requires r.archive.Some? ==> WellSplit(r.archive.value)
    requires NoDup(SegmentIds(Read(r.roadmap).segments))
    requires |chosen| == |ChosenIds(r, shipping)| && Found(r, chosen, texts)
    requires forall k :: 0 <= k < |chosen| ==>
               && chosen[k] == Choice(ChosenIds(r, shipping)[k], ShippedOn(shipping(ChosenIds(r, shipping)[k])))
               && ChosenIds(r, shipping)[k] in SegmentIds(Read(r.roadmap).segments)
    ensures archive == Err(BadTarget) <==> r.archive.Some? && !appendable(NormaliseEnd(r.archive.value))
    ensures archive == Err(ArchiveRepeats) <==>
              && !(r.archive.Some? && !appendable(NormaliseEnd(r.archive.value)))
              && !NoDup(SegmentIds(Archived(r.archive)) + ChosenIds(r, shipping))
    ensures archive.Err? ==> archive == Err(BadTarget) || archive == Err(ArchiveRepeats)
    ensures archive.Ok? ==>
              && WellSplit(archive.value)
              && Read(archive.value).segments ==
                 Archived(r.archive) + Moved(Read(r.roadmap).segments, ChosenIds(r, shipping), shipping, r.today)
              && Read(archive.value).preamble ==
                 (if r.archive.None? then NEW_PREAMBLE else Read(r.archive.value).preamble)
              && Holds(archive.value, BaseOf(r.archive), StampedBlocks(chosen, texts, r.today))
  {
    ghost var ids, segments := ChosenIds(r, shipping), Read(r.roadmap).segments;
    var base := BaseOf(r.archive);
    BaseReads(r.archive);
    if r.archive.Some? && !appendable(base) {
      return Err(BadTarget);
    }
    var text := AppendBlocks(base, chosen, texts, r.today);
    StampedTextsAreMoved(segments, chosen, ids, texts, shipping, r.today);
    ArchiveIds(Archived(r.archive), segments, ids, shipping, r.today);
    var archiveIds := ScanIds(text);
    ScanIdsAreSegmentIds(text);
    DistinctIffCounted(archiveIds);
    if |Elems(archiveIds)| != |archiveIds| {
      return Err(ArchiveRepeats);
    }
    return Ok(text);
  }

  /** Why the sweep's own "could not locate raw block(s)" abort never fires. */
  lemma ChosenHaveBlocks(r: Run, shipping: string -> Shipping, blocks: seq<Block>, chosen: seq<Choice>,
                         found: set<string>)
    requires Ready(r, shipping, blocks, chosen)
    requires forall k :: 0 <= k < |blocks| && blocks[k].id in (set c | c in chosen :: c.id) ==> blocks[k].id in found
    ensures (set c | c in chosen :: c.id) <= found
  {
    forall c | 0 <= c < |chosen|
      ensures chosen[c].id in found
    {
      var k := ChosenAreBlocks(r, shipping, blocks, chosen, c);
      assert chosen[c] in chosen;
    }
  }

  /** Why the sweep's own post-sweep comparison of ids never finds a difference. */
  lemma SurvivorIds(lines: seq<Line>, left: seq<Line>, chosen: set<string>)
    requires Read(left).segments == Unchosen(Read(lines).segments, chosen)
    ensures Elems(ScanIds(left)) == Elems(ScanIds(lines)) - chosen
  {
    ScanIdsAreSegmentIds(lines);
    ScanIdsAreSegmentIds(left);
    var before, after := Read(lines).segments, Read(left).segments;
    forall id
      ensures id in ScanIds(left) <==> id in ScanIds(lines) && id !in chosen
    {
      if id in ScanIds(left) {
        var k :| 0 <= k < |after| && SegmentIds(after)[k] == id;
        assert after[k] in after;
        var m :| 0 <= m < |before| && before[m] == after[k];
        assert SegmentIds(before)[m] == id;
      }
      if id in ScanIds(lines) && id !in chosen {
        var m :| 0 <= m < |before| && SegmentIds(before)[m] == id;
        assert before[m] in after;
        var k :| 0 <= k < |after| && after[k] == before[m];
        assert SegmentIds(after)[k] == id;
      }
    }
  }

  /** The text left for the roadmap reads as the original minus the chosen epics. */
  lemma SurvivorsRead(lines: seq<Line>, blocks: seq<Block>, chosen: set<string>, cut: set<nat>)
    requires BlockTable(lines, blocks)
    requires forall j :: j in cut <==> IsCut(blocks, chosen, j)
    ensures Read(Pruned(Keep(lines, cut, 0))) ==
            Document(Read(lines).preamble, Unchosen(Read(lines).segments, chosen))
  {
    CutFileReads(lines, blocks, chosen, cut);
    PruneReads(Keep(lines, cut, 0));
  }

  lemma {:induction false} KeepSplit(lines: seq<Line>, drop: set<nat>, i: nat)
    requires i <= |lines| && WellSplit(lines)
    ensures WellSplit(Keep(lines, drop, i))
    decreases |lines| - i
  {
    if i < |lines| {
      KeepSplit(lines, drop, i + 1);
      if i + 1 == |lines| {
        assert Keep(lines, drop, i + 1) == [];
      }
    }
  }

  lemma {:induction false} CollapseSplit(lines: seq<Line>)
    requires WellSplit(lines)
    ensures WellSplit(Collapse(lines))
    ensures (forall i :: 0 <= i < |lines| ==> lines[i].eol != NoEol) ==>
              forall i :: 0 <= i < |Collapse(lines)| ==> Collapse(lines)[i].eol != NoEol
  {
    if lines != [] {
      CollapseSplit(lines[..|lines| - 1]);
    }
  }

  lemma PruneKeepsSplit(lines: seq<Line>, cut: set<nat>)
    requires WellSplit(lines)
    ensures WellSplit(Pruned(Keep(lines, cut, 0)))
  {
    var left := Keep(lines, cut, 0);
    KeepSplit(lines, cut, 0);
    var kept := Keep(left, DropSet(left), 0);
    KeepSplit(left, DropSet(left), 0);
    CollapseSplit(kept);
    TrimIsPrefix(Collapse(kept));
  }

  /** The archive's ids after the sweep: the old ones, then the chosen ones. */
  lemma {:induction false} ArchiveIds(before: seq<Segment>, segments: seq<Segment>, ids: seq<string>,
                                      shipping: string -> Shipping, today: string)
    requires forall k :: 0 <= k < |ids| ==> ids[k] in SegmentIds(segments)
    ensures SegmentIds(before + Moved(segments, ids, shipping, today)) == SegmentIds(before) + ids
    decreases |ids|
  {
    if ids == [] {
      assert before + Moved(segments, ids, shipping, today) == before;
    } else {
      var first := StampSegment(SegmentNamed(segments, ids[0]), ShippedOn(shipping(ids[0])), today);
      var rest := Moved(segments, ids[1..], shipping, today);
      ArchiveIds(before + [first], segments, ids[1..], shipping, today);
      Associate(before, [first], rest);
      Associate(SegmentIds(before), [ids[0]], ids[1..]);
      assert SegmentIds(before + [first]) == SegmentIds(before) + [ids[0]];
      assert ids == [ids[0]] + ids[1..];
    }
  }

  // ---- which epics move ----

  lemma ColdIsChosen(r: Run, shipping: string -> Shipping, k: nat)
    requires k < |r.epics| && NoDup(IdList(r.epics))
    ensures r.epics[k].id in Elems(ChosenIds(r, shipping)) <==> Cold(r.epics[k], shipping, r.minAgeDays)
  {
    EpicIdsDistinct(r.epics);
    var cold, ids := ColdEpics(r.epics, shipping, r.minAgeDays), ChosenIds(r, shipping);
    if Cold(r.epics[k], shipping, r.minAgeDays) {
      assert r.epics[k] in cold;
      var c :| 0 <= c < |cold| && cold[c] == r.epics[k];
      assert ids[c] == r.epics[k].id;
    }
    if r.epics[k].id in ids {
      var c :| 0 <= c < |ids| && ids[c] == r.epics[k].id;
      assert cold[c] in cold;
      var m :| 0 <= m < |r.epics| && r.epics[m] == cold[c];
      assert EpicIds(r.epics)[m] == EpicIds(r.epics)[k];
    }
  }

  /**
   * An epic stays in the roadmap exactly when it is unfinished, kept, has an unfinished task, is blocked, or was
   * shipped too recently; and the archive has it afterwards exactly when it does not, or had it before.
   */
  lemma OnlyColdEpicsMove(r: Run, shipping: string -> Shipping, appendable: seq<Line> -> bool, plan: Plan, k: nat)
    requires Parsed(r) && IsPlan(r, shipping, appendable, plan) && plan.Write? && k < |r.epics|
    ensures var e := r.epics[k];
            var stays := !e.done || e.keep || (exists t :: t in e.tasks && !t.done) || shipping(e.id).Blocked?
                         || (shipping(e.id).Dated? && shipping(e.id).ageDays < r.minAgeDays);
            && (e.id in ScanIds(plan.roadmap) <==> stays)
            && (e.id in ScanIds(plan.archive) <==> !stays || e.id in SegmentIds(Archived(r.archive)))
  {
    var e, ids := r.epics[k], ChosenIds(r, shipping);
    ColdIsChosen(r, shipping, k);
    assert Cold(e, shipping, r.minAgeDays) ==> forall t :: t in e.tasks ==> t.done;
    SurvivorIds(r.roadmap, plan.roadmap, Elems(ids));
    assert EpicIds(r.epics)[k] == e.id;
    ArchiveIds(Archived(r.archive), Read(r.roadmap).segments, ids, shipping, r.today);
    ScanIdsAreSegmentIds(plan.archive);
    assert e.id in ids <==> e.id in Elems(ids);
    assert e.id in ScanIds(plan.roadmap) <==> e.id in Elems(ScanIds(plan.roadmap));
    assert e.id in EpicIds(r.epics);
  }

  // ---- when a sweep dies ----

  /** The sweep gets as far as building the new texts. */
  ghost predicate Excises(r: Run, shipping: string -> Shipping) {
    && r.epics != [] && ScanIds(r.roadmap) == EpicIds(r.epics) && NoDup(IdList(r.epics))
    && r.ghReady && ChosenIds(r, shipping) != [] && !r.dryRun
  }

  /** A sweep that gets as far as excising dies of an exception exactly when it has chosen every epic. */
  lemma RaisesIffAllCold(r: Run, shipping: string -> Shipping, appendable: seq<Line> -> bool, plan: Plan)
    requires Parsed(r) && Excises(r, shipping) && IsPlan(r, shipping, appendable, plan)
    ensures plan == Raised(AtReparse) <==> forall k :: 0 <= k < |r.epics| ==> Cold(r.epics[k], shipping, r.minAgeDays)
    ensures plan.Raised? ==> plan == Raised(AtReparse)
  {
    var segments, ids := Read(r.roadmap).segments, Elems(ChosenIds(r, shipping));
    ScanIdsAreSegmentIds(r.roadmap);
    NoneLeftIff(segments, ids);
    forall k | 0 <= k < |r.epics|
      ensures segments[k].id in ids <==> Cold(r.epics[k], shipping, r.minAgeDays)
    {
      assert SegmentIds(segments)[k] == EpicIds(r.epics)[k];
      ColdIsChosen(r, shipping, k);
    }
  }

  lemma NoneLeftIff(segments: seq<Segment>, chosen: set<string>)
    ensures Unchosen(segments, chosen) == [] <==> forall k :: 0 <= k < |segments| ==> segments[k].id in chosen
  {
    var left := Unchosen(segments, chosen);
    if left != [] {
      assert left[0] in left;
    }
    forall k | 0 <= k < |segments| && segments[k].id !in chosen
      ensures left != []
    {
      assert segments[k] in left;
    }
  }

  const LAST_EPIC: seq<Line> := [
    Line(Other, "epics:", LF), Line(EpicStart("a"), "  - id: a", LF), Line(Other, "    status: done", LF)]

  const LAST_RUN := Run(LAST_EPIC, None, [Epic("a", true, false, [], [])], true, true, 14, false, "today")

  function LongAgo(id: string): Shipping {
    Dated(30, "then")
  }

  /** Such a run: the only epic of a roadmap, finished long ago. */
  lemma SweepingTheLastEpicRaises(appendable: seq<Line> -> bool, plan: Plan)
    requires IsPlan(LAST_RUN, LongAgo, appendable, plan)
    ensures plan == Raised(AtReparse)
  {
    LastRunExcises();
    RaisesIffAllCold(LAST_RUN, LongAgo, appendable, plan);
  }

  lemma LastRunExcises()
    ensures Parsed(LAST_RUN) && Excises(LAST_RUN, LongAgo)
    ensures Cold(LAST_RUN.epics[0], LongAgo, LAST_RUN.minAgeDays)
  {
    var epics := LAST_RUN.epics;
    LastEpicReads();
    assert Items(epics) == [Item("a", [])];
    assert IdList(epics) == ["a"] && EpicIds(epics) == ["a"];
    assert epics[0] in ColdEpics(epics, LongAgo, 14);
    assert ChosenIds(LAST_RUN, LongAgo) != [];
  }

  lemma LastEpicReads()
    ensures Read(LAST_EPIC).segments == [Segment("a", "  - id: a", [Line(Other, "    status: done", LF)])]
    ensures ScanIds(LAST_EPIC) == ["a"]
  {
    var under := LAST_EPIC[2..];
    assert under[1..] == [] && LAST_EPIC[1..][1..] == under;
    assert Read(under) == Document([Line(Other, "    status: done", LF)], []);
    assert Read(LAST_EPIC[1..]).segments == [Segment("a", "  - id: a", [Line(Other, "    status: done", LF)])];
    ScanIdsAreSegmentIds(LAST_EPIC);
  }
}
