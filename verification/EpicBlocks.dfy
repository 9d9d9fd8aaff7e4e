/** `find_epic_blocks` and the cut: which raw lines belong to which epic. */
module EpicBlocks {
  import opened Seqs
  import opened RoadmapText

  /** An epic's raw lines `[start, end)`. */
  datatype Block = Block(id: string, start: nat, end: nat)

  function RegionEnd(lines: seq<Line>, blocks: seq<Block>, k: nat): nat
    requires k < |blocks|
  {
    if k + 1 < |blocks| then blocks[k + 1].start else |lines|
  }

  /**
   * `blocks` lists every epic start of the text in order; a block runs from its start to the next one, less the
   * trailing blanks and banners, which belong to the next group.
   */
  ghost predicate BlockTable(lines: seq<Line>, blocks: seq<Block>) {
    && (forall k :: 0 <= k < |blocks| ==> BlockAt(lines, blocks, k))
    && (forall i :: 0 <= i < |lines| && lines[i].kind.EpicStart? ==> StartsABlock(blocks, i))
  }

  ghost predicate StartsABlock(blocks: seq<Block>, i: nat) {
    exists k :: 0 <= k < |blocks| && blocks[k].start == i
  }

  ghost predicate BlockAt(lines: seq<Line>, blocks: seq<Block>, k: nat)
    requires k < |blocks|
  {
    var b, limit := blocks[k], RegionEnd(lines, blocks, k);
    && b.start < b.end <= limit <= |lines|
    && lines[b.start].kind == EpicStart(b.id)
    && (forall i :: b.start < i < limit ==> !lines[i].kind.EpicStart?)
    && (forall i :: b.end <= i < limit ==> Spacer(lines[i]))
    && (b.end - 1 > b.start ==> !Spacer(lines[b.end - 1]))
  }

  method FindEpicBlocks(lines: seq<Line>) returns (blocks: seq<Block>)
    ensures BlockTable(lines, blocks)
    ensures |blocks| == |ScanIds(lines)| && forall k :: 0 <= k < |blocks| ==> blocks[k].id == ScanIds(lines)[k]
  {
    var starts := FindStarts(lines);
    StartsAreStarts(lines, |lines|);
    StartsAreScanned(lines, |lines|);
    assert lines[..|lines|] == lines;
    blocks := [];
    for k := 0 to |starts|
      invariant |blocks| == k
      invariant forall m :: 0 <= m < k ==> Fits(lines, starts, blocks[m], m)
    {
      var end := TrimEnd(lines, starts[k], Limit(lines, starts, k));
      blocks := blocks + [Block(lines[starts[k]].kind.id, starts[k], end)];
      assert Fits(lines, starts, blocks[k], k);
    }
    StartsGiveTable(lines, starts, blocks);
    assert forall k :: 0 <= k < |blocks| ==> Fits(lines, starts, blocks[k], k);
  }

  /** Walk a block's end back past trailing blanks and banners. */
  method TrimEnd(lines: seq<Line>, start: nat, limit: nat) returns (end: nat)
    requires start < limit <= |lines|
    ensures start < end <= limit
    ensures forall i :: end <= i < limit ==> Spacer(lines[i])
    ensures end - 1 > start ==> !Spacer(lines[end - 1])
  {
    end := limit;
    while end - 1 > start && Spacer(lines[end - 1])
      invariant start < end <= limit
      invariant forall i :: end <= i < limit ==> Spacer(lines[i])
    {
      end := end - 1;
    }
  }

  /** `starts` lists the positions of every epic start, in order. */
  ghost predicate StartsOf(lines: seq<Line>, starts: seq<nat>, n: nat)
    requires n <= |lines|
  {
    && (forall k :: 0 <= k < |starts| ==> starts[k] < n && lines[starts[k]].kind.EpicStart?)
    && (forall k, m :: 0 <= k < m < |starts| ==> starts[k] < starts[m])
    && (forall i :: 0 <= i < n && lines[i].kind.EpicStart? ==> Listed(starts, i))
  }

  ghost predicate Listed(starts: seq<nat>, i: nat) {
    exists k :: 0 <= k < |starts| && starts[k] == i
  }

  ghost predicate Fits(lines: seq<Line>, starts: seq<nat>, b: Block, m: nat)
    requires m < |starts|
  {
    && b.start == starts[m] < |lines|
    && lines[b.start].kind == EpicStart(b.id)
    && TrimmedTo(lines, b, Limit(lines, starts, m))
  }

  /** The epic starts among the first `n` lines, by position. */
  function Starts(lines: seq<Line>, n: nat): seq<nat>
    requires n <= |lines|
  {
    if n == 0 then []
    else if lines[n - 1].kind.EpicStart? then Starts(lines, n - 1) + [n - 1]
    else Starts(lines, n - 1)
  }

  method FindStarts(lines: seq<Line>) returns (starts: seq<nat>)
    ensures starts == Starts(lines, |lines|)
  {
    starts := [];
    for i := 0 to |lines|
      invariant starts == Starts(lines, i)
    {
      if lines[i].kind.EpicStart? {
        starts := starts + [i];
      }
    }
  }

  lemma {:induction false} StartsAreScanned(lines: seq<Line>, n: nat)
    requires n <= |lines|
    ensures |Starts(lines, n)| == |ScanIds(lines[..n])|
    ensures forall k :: 0 <= k < |Starts(lines, n)| ==>
              var i := Starts(lines, n)[k];
              i < n && lines[i].kind == EpicStart(ScanIds(lines[..n])[k])
  {
    if n > 0 {
      StartsAreScanned(lines, n - 1);
      assert lines[..n] == lines[..n - 1] + [lines[n - 1]];
      ScanIdsSnoc(lines[..n - 1], lines[n - 1]);
    }
  }

  lemma {:induction false} StartsAreStarts(lines: seq<Line>, n: nat)
    requires n <= |lines|
    ensures StartsOf(lines, Starts(lines, n), n)
  {
    if n > 0 {
      var before := Starts(lines, n - 1);
      StartsAreStarts(lines, n - 1);
      if lines[n - 1].kind.EpicStart? {
        StartsPush(lines, before, n - 1);
        assert Starts(lines, n) == before + [n - 1];
      } else {
        assert Starts(lines, n) == before;
      }
    }
  }

  lemma StartsPush(lines: seq<Line>, starts: seq<nat>, i: nat)
    requires i < |lines| && StartsOf(lines, starts, i) && lines[i].kind.EpicStart?
    ensures StartsOf(lines, starts + [i], i + 1)
  {
    var more := starts + [i];
    assert more[|starts|] == i;
    forall j | 0 <= j < i && lines[j].kind.EpicStart?
      ensures Listed(more, j)
    {
      assert Listed(starts, j);
      var k :| 0 <= k < |starts| && starts[k] == j;
      assert more[k] == starts[k];
    }
  }

  lemma StartsGiveTable(lines: seq<Line>, starts: seq<nat>, blocks: seq<Block>)
    requires StartsOf(lines, starts, |lines|) && |blocks| == |starts|
    requires forall m :: 0 <= m < |starts| ==> Fits(lines, starts, blocks[m], m)
    ensures BlockTable(lines, blocks)
  {
    forall k | 0 <= k < |blocks|
      ensures BlockAt(lines, blocks, k)
    {
      var limit := Limit(lines, starts, k);
      assert Fits(lines, starts, blocks[k], k);
      assert k + 1 < |blocks| ==> Fits(lines, starts, blocks[k + 1], k + 1);
      assert RegionEnd(lines, blocks, k) == limit;
      forall i | blocks[k].start < i < limit
        ensures !lines[i].kind.EpicStart?
      {
        assert forall m :: 0 <= m <= k ==> starts[m] <= starts[k];
        assert forall m :: k < m < |starts| ==> starts[m] >= limit;
        assert !Listed(starts, i);
      }
    }
    forall i | 0 <= i < |lines| && lines[i].kind.EpicStart?
      ensures StartsABlock(blocks, i)
    {
      assert Listed(starts, i);
      var k :| 0 <= k < |starts| && starts[k] == i;
      assert Fits(lines, starts, blocks[k], k);
      assert blocks[k].start == i;
    }
  }

  function Limit(lines: seq<Line>, starts: seq<nat>, k: nat): nat
    requires k < |starts|
  {
    if k + 1 < |starts| then starts[k + 1] else |lines|
  }

  ghost predicate TrimmedTo(lines: seq<Line>, b: Block, limit: nat) {
    && b.start < b.end <= limit <= |lines|
    && (forall i :: b.end <= i < limit ==> Spacer(lines[i]))
    && (b.end - 1 > b.start ==> !Spacer(lines[b.end - 1]))
  }

  // ---- what the blocks say ----

  function SegmentOf(lines: seq<Line>, b: Block): Segment
    requires b.start < b.end <= |lines|
  {
    Segment(b.id, lines[b.start].text, Content(lines[b.start + 1..b.end]))
  }

  /** The epics of the blocks from the `k`-th on. */
  ghost function BlockSegments(lines: seq<Line>, blocks: seq<Block>, k: nat): seq<Segment>
    requires BlockTable(lines, blocks) && k <= |blocks|
  {
    seq(|blocks| - k, i requires 0 <= i < |blocks| - k =>
      assert BlockAt(lines, blocks, k + i);
      SegmentOf(lines, blocks[k + i]))
  }

  lemma BlockSegmentsNext(lines: seq<Line>, blocks: seq<Block>, k: nat)
    requires BlockTable(lines, blocks) && k < |blocks|
    ensures BlockAt(lines, blocks, k)
    ensures BlockSegments(lines, blocks, k) == [SegmentOf(lines, blocks[k])] + BlockSegments(lines, blocks, k + 1)
  {
    assert BlockAt(lines, blocks, k);
    var head, rest := SegmentOf(lines, blocks[k]), BlockSegments(lines, blocks, k + 1);
    forall i | 0 < i < |blocks| - k
      ensures BlockSegments(lines, blocks, k)[i] == ([head] + rest)[i]
    {
      assert BlockAt(lines, blocks, k + i) && blocks[k + i] == blocks[k + 1 + (i - 1)];
    }
  }

  /** The `k`-th epic the file reads as is the one its `k`-th block holds. */
  lemma FileSegment(lines: seq<Line>, blocks: seq<Block>, k: nat)
    requires BlockTable(lines, blocks) && k < |blocks|
    ensures |Read(lines).segments| == |blocks|
    ensures BlockAt(lines, blocks, k) && Read(lines).segments[k] == SegmentOf(lines, blocks[k])
  {
    assert BlockAt(lines, blocks, k);
    FileIsBlocks(lines, blocks);
  }

  /** The lines of a block, on their own, read as exactly that block's epic. */
  lemma BlockReads(lines: seq<Line>, blocks: seq<Block>, k: nat)
    requires BlockTable(lines, blocks) && k < |blocks|
    ensures BlockAt(lines, blocks, k)
    ensures Read(lines[blocks[k].start..blocks[k].end]) == Document([], [SegmentOf(lines, blocks[k])])
  {
    assert BlockAt(lines, blocks, k);
    var b := blocks[k];
    var body := lines[b.start + 1..b.end];
    assert lines[b.start..b.end] == [lines[b.start]] + body;
    assert NoEpicStart(body);
    ReadPrefix(body, []);
    assert body + [] == body && Content(body) + [] == Content(body);
    ReadCons(lines[b.start], body);
  }

  /** The blocks tile the text: from the `k`-th start on, reading gives the epic of each block, in order. */
  lemma {:induction false} ReadIsBlocks(lines: seq<Line>, blocks: seq<Block>, k: nat)
    requires BlockTable(lines, blocks) && k < |blocks|
    ensures blocks[k].start < |lines|
    ensures Read(lines[blocks[k].start..]) == Document([], BlockSegments(lines, blocks, k))
    decreases |blocks| - k
  {
    RegionReads(lines, blocks, k);
    BlockSegmentsNext(lines, blocks, k);
    if k + 1 < |blocks| {
      ReadIsBlocks(lines, blocks, k + 1);
    } else {
      assert lines[|lines|..] == [];
    }
  }

  /** From a block's first line, the text reads as that block's epic in front of whatever the next start reads as. */
  lemma RegionReads(lines: seq<Line>, blocks: seq<Block>, k: nat)
    requires BlockTable(lines, blocks) && k < |blocks|
    ensures BlockAt(lines, blocks, k)
    ensures Read(lines[blocks[k].start..]) ==
            Document([], [SegmentOf(lines, blocks[k])] + Read(lines[RegionEnd(lines, blocks, k)..]).segments)
  {
    assert BlockAt(lines, blocks, k);
    var b, limit := blocks[k], RegionEnd(lines, blocks, k);
    var body, gap, rest := lines[b.start + 1..b.end], lines[b.end..limit], lines[limit..];
    var under := body + gap;
    assert under == lines[b.start + 1..limit];
    assert lines[b.start..] == [lines[b.start]] + (under + rest);
    ReadCons(lines[b.start], under + rest);
    ReadPrefix(under, rest);
    ContentConcat(body, gap);
    ReadSpacers(gap);
    assert Content(under) == Content(body);
    assert Read(rest).preamble == [] by {
      if k + 1 < |blocks| {
        assert BlockAt(lines, blocks, k + 1);
        ReadAt(lines, limit);
      }
    }
  }

  /** The whole file reads as one epic per block. */
  lemma FileIsBlocks(lines: seq<Line>, blocks: seq<Block>)
    requires BlockTable(lines, blocks)
    ensures Read(lines).segments == BlockSegments(lines, blocks, 0)
  {
    var first := if blocks == [] then |lines| else blocks[0].start;
    NoneBeforeFirst(lines, blocks, first);
    var before, rest := lines[..first], lines[first..];
    assert lines == before + rest;
    ReadPrefix(before, rest);
    if blocks == [] {
      assert rest == [];
    } else {
      ReadIsBlocks(lines, blocks, 0);
    }
  }

  lemma NoneBeforeFirst(lines: seq<Line>, blocks: seq<Block>, first: nat)
    requires BlockTable(lines, blocks)
    requires first == if blocks == [] then |lines| else blocks[0].start
    ensures first <= |lines| && NoEpicStart(lines[..first])
  {
    if blocks != [] {
      assert BlockAt(lines, blocks, 0);
    }
    forall k | 0 <= k < |blocks|
      ensures blocks[k].start >= first
    {
      StartsIncrease(lines, blocks, 0, k);
    }
    forall i | 0 <= i < first
      ensures !lines[i].kind.EpicStart?
    {
      assert !StartsABlock(blocks, i);
    }
  }

  lemma {:induction false} StartsIncrease(lines: seq<Line>, blocks: seq<Block>, k: nat, m: nat)
    requires BlockTable(lines, blocks) && k <= m < |blocks|
    ensures blocks[k].start <= blocks[m].start
    ensures k < m ==> RegionEnd(lines, blocks, k) <= blocks[m].start
    decreases m - k
  {
    assert BlockAt(lines, blocks, k);
    if k < m {
      assert blocks[k + 1].start == RegionEnd(lines, blocks, k);
      StartsIncrease(lines, blocks, k + 1, m);
    }
  }

  // ---- cutting the chosen blocks ----

  predicate InBlock(b: Block, i: nat) {
    b.start <= i < b.end
  }

  /** Position `i` lies in a block whose epic is chosen. */
  ghost predicate IsCut(blocks: seq<Block>, chosen: set<string>, i: nat) {
    exists k :: 0 <= k < |blocks| && blocks[k].id in chosen && InBlock(blocks[k], i)
  }

  /** The `cut` set: the positions of every chosen block. */
  method CutPositions(blocks: seq<Block>, chosen: set<string>) returns (cut: set<nat>)
    ensures forall i :: i in cut <==> IsCut(blocks, chosen, i)
  {
    cut := {};
    for k := 0 to |blocks|
      invariant forall i :: i in cut <==> IsCut(blocks[..k], chosen, i)
    {
      ghost var before := cut;
      if blocks[k].id in chosen {
        cut := cut + set i: nat | i < blocks[k].end && InBlock(blocks[k], i);
      }
      forall i: nat
        ensures i in cut <==> IsCut(blocks[..k + 1], chosen, i)
      {
        IsCutSnoc(blocks, chosen, k, i);
      }
    }
    assert blocks[..|blocks|] == blocks;
  }

  lemma IsCutSnoc(blocks: seq<Block>, chosen: set<string>, k: nat, i: nat)
    requires k < |blocks|
    ensures IsCut(blocks[..k + 1], chosen, i) <==>
            IsCut(blocks[..k], chosen, i) || (blocks[k].id in chosen && InBlock(blocks[k], i))
  {
    var now, before := blocks[..k + 1], blocks[..k];
    assert now == before + [blocks[k]];
    if IsCut(before, chosen, i) {
      var m :| 0 <= m < |before| && before[m].id in chosen && InBlock(before[m], i);
      assert now[m] == before[m];
    }
    if blocks[k].id in chosen && InBlock(blocks[k], i) {
      assert now[k] == blocks[k];
    }
  }

  /** `i` follows the start of a chosen epic, before or at the start of the next epic. */
  ghost predicate UnderChosen(lines: seq<Line>, blocks: seq<Block>, chosen: set<string>, i: nat) {
    exists k :: 0 <= k < |blocks| && blocks[k].id in chosen && blocks[k].start < i <= RegionEnd(lines, blocks, k)
  }

  function Unchosen(segments: seq<Segment>, chosen: set<string>): seq<Segment> {
    Filter(segments, (s: Segment) => s.id !in chosen)
  }

  /** What is left after the cut reads as the original file without the chosen epics. */
  lemma {:induction false} CutReads(lines: seq<Line>, blocks: seq<Block>, chosen: set<string>, cut: set<nat>, i: nat)
    requires BlockTable(lines, blocks) && i <= |lines|
    requires forall j :: j in cut <==> IsCut(blocks, chosen, j)
    ensures Read(Keep(lines, cut, i)).segments == Unchosen(Read(lines[i..]).segments, chosen)
    ensures Read(Keep(lines, cut, i)).preamble ==
            if UnderChosen(lines, blocks, chosen, i) then [] else Read(lines[i..]).preamble
    decreases |lines| - i
  {
    if i < |lines| {
      CutReads(lines, blocks, chosen, cut, i + 1);
      ReadAt(lines, i);
      if i !in cut {
        ReadCons(lines[i], Keep(lines, cut, i + 1));
      }
      if lines[i].kind.EpicStart? {
        CutAtStart(lines, blocks, chosen, i);
      } else if !Spacer(lines[i]) {
        CutInside(lines, blocks, chosen, i);
      } else {
        UnderMoves(lines, blocks, chosen, i);
      }
    }
  }

  /** At an epic's first line, the line is cut exactly when the epic is chosen, and so is what lies under it. */
  lemma CutAtStart(lines: seq<Line>, blocks: seq<Block>, chosen: set<string>, i: nat)
    requires BlockTable(lines, blocks) && i < |lines| && lines[i].kind.EpicStart?
    ensures IsCut(blocks, chosen, i) <==> lines[i].kind.id in chosen
    ensures UnderChosen(lines, blocks, chosen, i + 1) <==> lines[i].kind.id in chosen
  {
    assert StartsABlock(blocks, i);
    var k :| 0 <= k < |blocks| && blocks[k].start == i;
    assert BlockAt(lines, blocks, k);
    if lines[i].kind.id in chosen {
      assert InBlock(blocks[k], i);
    }
    forall m | 0 <= m < |blocks| && blocks[m].start < i + 1 <= RegionEnd(lines, blocks, m)
      ensures m == k
    {
      OwnerIsUnique(lines, blocks, k, m, i);
    }
    forall m | 0 <= m < |blocks| && InBlock(blocks[m], i)
      ensures m == k
    {
      assert BlockAt(lines, blocks, m);
      OwnerIsUnique(lines, blocks, k, m, i);
    }
  }

  lemma OwnerIsUnique(lines: seq<Line>, blocks: seq<Block>, k: nat, m: nat, i: nat)
    requires BlockTable(lines, blocks) && k < |blocks| && m < |blocks|
    requires blocks[k].start <= i < RegionEnd(lines, blocks, k)
    requires blocks[m].start <= i < RegionEnd(lines, blocks, m)
    ensures k == m
  {
    if k < m {
      StartsIncrease(lines, blocks, k, m);
    } else if m < k {
      StartsIncrease(lines, blocks, m, k);
    }
  }

  /** A content line is cut exactly when it lies under a chosen epic. */
  lemma CutInside(lines: seq<Line>, blocks: seq<Block>, chosen: set<string>, i: nat)
    requires BlockTable(lines, blocks) && i < |lines|
    requires !lines[i].kind.EpicStart? && !Spacer(lines[i])
    ensures IsCut(blocks, chosen, i) <==> UnderChosen(lines, blocks, chosen, i)
    ensures UnderChosen(lines, blocks, chosen, i + 1) <==>
            UnderChosen(lines, blocks, chosen, i)
  {
    if UnderChosen(lines, blocks, chosen, i) {
      var k :| 0 <= k < |blocks| && blocks[k].id in chosen && blocks[k].start < i <= RegionEnd(lines, blocks, k);
      assert BlockAt(lines, blocks, k);
      assert i != RegionEnd(lines, blocks, k) by {
        if k + 1 < |blocks| {
          assert BlockAt(lines, blocks, k + 1);
        }
      }
      assert InBlock(blocks[k], i);
      assert blocks[k].start < i + 1 <= RegionEnd(lines, blocks, k);
    }
    if IsCut(blocks, chosen, i) {
      var k :| 0 <= k < |blocks| && blocks[k].id in chosen && InBlock(blocks[k], i);
      assert BlockAt(lines, blocks, k);
      assert blocks[k].start != i;
      assert blocks[k].start < i <= RegionEnd(lines, blocks, k);
    }
    if UnderChosen(lines, blocks, chosen, i + 1) {
      var k :| 0 <= k < |blocks| && blocks[k].id in chosen && blocks[k].start < i + 1 <= RegionEnd(lines, blocks, k);
      assert BlockAt(lines, blocks, k);
      assert blocks[k].start != i;
      assert blocks[k].start < i <= RegionEnd(lines, blocks, k);
    }
  }

  /** Across a blank or banner the question changes only where nothing is left to say. */
  lemma UnderMoves(lines: seq<Line>, blocks: seq<Block>, chosen: set<string>, i: nat)
    requires BlockTable(lines, blocks) && i < |lines| && Spacer(lines[i])
    ensures UnderChosen(lines, blocks, chosen, i + 1) <==> UnderChosen(lines, blocks, chosen, i)
  {
    if UnderChosen(lines, blocks, chosen, i) {
      var k :| 0 <= k < |blocks| && blocks[k].id in chosen && blocks[k].start < i <= RegionEnd(lines, blocks, k);
      assert i != RegionEnd(lines, blocks, k) by {
        if k + 1 < |blocks| {
          assert BlockAt(lines, blocks, k + 1);
        }
      }
      assert blocks[k].start < i + 1 <= RegionEnd(lines, blocks, k);
    }
    if UnderChosen(lines, blocks, chosen, i + 1) {
      var k :| 0 <= k < |blocks| && blocks[k].id in chosen && blocks[k].start < i + 1 <= RegionEnd(lines, blocks, k);
      assert BlockAt(lines, blocks, k);
      assert blocks[k].start != i;
      assert blocks[k].start < i <= RegionEnd(lines, blocks, k);
    }
  }

  /** Before the first line nothing lies under a chosen epic: the preamble survives the cut. */
  lemma CutFileReads(lines: seq<Line>, blocks: seq<Block>, chosen: set<string>, cut: set<nat>)
    requires BlockTable(lines, blocks)
    requires forall j :: j in cut <==> IsCut(blocks, chosen, j)
    ensures Read(Keep(lines, cut, 0)) == Document(Read(lines).preamble, Unchosen(Read(lines).segments, chosen))
  {
    CutReads(lines, blocks, chosen, cut, 0);
    assert lines[0..] == lines;
  }

  // ---- the cut by position ----

  /**
   * Line `i` is part of the text of an epic with a chosen id, which starts at `s`: it is that first line, or a line
   * that says something stands at or below it before the next epic starts, at `e`.
   */
  ghost predicate EpicLine(lines: seq<Line>, chosen: set<string>, i: int, s: int, e: int) {
    && 0 <= s <= i <= e < |lines|
    && lines[s].kind.EpicStart? && lines[s].kind.id in chosen
    && (forall m :: s < m <= e ==> !lines[m].kind.EpicStart?)
    && (e == s || !Spacer(lines[e]))
  }

  ghost predicate InEpicText(lines: seq<Line>, chosen: set<string>, i: int) {
    exists s, e :: EpicLine(lines, chosen, i, s, e)
  }

  lemma CutIsEpicText(lines: seq<Line>, blocks: seq<Block>, chosen: set<string>, i: nat)
    requires BlockTable(lines, blocks)
    ensures IsCut(blocks, chosen, i) <==> InEpicText(lines, chosen, i)
  {
    if IsCut(blocks, chosen, i) {
      var k :| 0 <= k < |blocks| && blocks[k].id in chosen && InBlock(blocks[k], i);
      assert BlockAt(lines, blocks, k);
      assert EpicLine(lines, chosen, i, blocks[k].start, blocks[k].end - 1);
    }
    if InEpicText(lines, chosen, i) {
      var s, e :| EpicLine(lines, chosen, i, s, e);
      EpicTextIsCut(lines, blocks, chosen, i, s, e);
    }
  }

  lemma EpicTextIsCut(lines: seq<Line>, blocks: seq<Block>, chosen: set<string>, i: nat, s: int, e: int)
    requires BlockTable(lines, blocks) && EpicLine(lines, chosen, i, s, e)
    ensures IsCut(blocks, chosen, i)
  {
    assert StartsABlock(blocks, s);
    var k :| 0 <= k < |blocks| && blocks[k].start == s;
    assert BlockAt(lines, blocks, k);
    if k + 1 < |blocks| {
      assert BlockAt(lines, blocks, k + 1);
    }
    assert e < RegionEnd(lines, blocks, k);
    assert InBlock(blocks[k], i);
  }

  /** `rest` is the text without the lines of the chosen epics. */
  ghost predicate Excised(lines: seq<Line>, chosen: set<string>, rest: seq<Line>) {
    exists at: seq<nat> ::
      && Positions(at, |lines|) && rest == LinesAt(lines, at)
      && forall i: nat :: i < |lines| ==> (i in at <==> !InEpicText(lines, chosen, i))
  }

  /** The cut takes away the lines of the chosen epics, and nothing else. */
  lemma CutTakesEpicText(lines: seq<Line>, blocks: seq<Block>, chosen: set<string>, cut: set<nat>)
    requires BlockTable(lines, blocks)
    requires forall j :: j in cut <==> IsCut(blocks, chosen, j)
    ensures Excised(lines, chosen, Keep(lines, cut, 0))
  {
    var n := |lines|;
    var at := Picks(Others(cut, n), n);
    KeepPicks(lines, cut, n);
    PickedAt(lines, Others(cut, n), n);
    assert Keep(lines, cut, 0) == LinesAt(lines, at);
    forall i: nat | i < n
      ensures i in at <==> !InEpicText(lines, chosen, i)
    {
      CutIsEpicText(lines, blocks, chosen, i);
    }
  }
}
