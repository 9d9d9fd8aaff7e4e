/** `prune_empty_sections`: what the cut leaves behind is tidied without touching a line that says anything. */
module Prune {
  import opened Seqs
  import opened RoadmapText

  /** An epic starts before the next banner. */
  predicate SectionHasEpic(lines: seq<Line>) {
    lines != [] && !lines[0].kind.Banner? && (lines[0].kind.EpicStart? || SectionHasEpic(lines[1..]))
  }

  /** A banner over an empty section is dropped, and a blank right after a dropped line is dropped with it. */
  ghost predicate Dropped(lines: seq<Line>, i: nat)
    requires i < |lines|
  {
    || (lines[i].kind.Banner? && !SectionHasEpic(lines[i + 1..]))
    || (lines[i].kind.Blank? && i > 0 && Dropped(lines, i - 1))
  }

  ghost function DropSet(lines: seq<Line>): set<nat> {
    set i: nat | i < |lines| && Dropped(lines, i)
  }

  /** Skip a blank that follows a blank or a banner. */
  predicate Skips(out: seq<Line>, l: Line) {
    l.kind.Blank? && out != [] && Spacer(Last(out))
  }

  function Collapse(lines: seq<Line>): seq<Line> {
    if lines == [] then []
    else
      var out, l := Collapse(lines[..|lines| - 1]), Last(lines);
      if Skips(out, l) then out else out + [l]
  }

  function TrimBlanks(lines: seq<Line>): seq<Line> {
    if lines != [] && Last(lines).kind.Blank? then TrimBlanks(lines[..|lines| - 1]) else lines
  }

  function Terminate(lines: seq<Line>): seq<Line> {
    if lines != [] && Last(lines).eol == NoEol
    then lines[..|lines| - 1] + [Last(lines).(eol := LF)]
    else lines
  }

  /** An epic starts at `k`, below line `i` and before the next banner. */
  ghost predicate EpicUnder(lines: seq<Line>, i: nat, k: int) {
    i < k < |lines| && lines[k].kind.EpicStart? && forall m :: i < m < k ==> !lines[m].kind.Banner?
  }

  /** The banner at `i` still has an epic under it: one starts before the next banner. */
  ghost predicate Leads(lines: seq<Line>, i: nat) {
    exists k :: EpicUnder(lines, i, k)
  }

  ghost predicate AfterSpacer(lines: seq<Line>, i: nat) {
    0 < i <= |lines| && Spacer(lines[i - 1])
  }

  /** The lines of `out` are those of `lines` at the positions `at`, the last one ended by a newline. */
  ghost predicate LeftAs(lines: seq<Line>, out: seq<Line>, at: seq<nat>) {
    && Positions(at, |lines|) && |out| == |at|
    && forall j :: 0 <= j < |at| ==>
         out[j] == if j == |at| - 1 && lines[at[j]].eol == NoEol then lines[at[j]].(eol := LF) else lines[at[j]]
  }

  /**
   * Of the lines that are left, a banner has an epic under it, and a blank follows neither a blank nor a banner and
   * stands before a line that says something; and all such lines, and all that are neither, are left.
   */
  ghost predicate LeftAt(lines: seq<Line>, at: seq<nat>, i: nat) {
    && i < |lines|
    && (lines[i].kind.Banner? ==> (i in at <==> Leads(lines, i)))
    && (lines[i].kind.Blank? ==>
          (i in at <==> !AfterSpacer(lines, i) && exists k :: i < k < |lines| && !Spacer(lines[k])))
    && (!Spacer(lines[i]) ==> i in at)
  }

  ghost predicate Tidies(lines: seq<Line>, out: seq<Line>) {
    exists at: seq<nat> :: LeftAs(lines, out, at) && forall i: nat :: i < |lines| ==> LeftAt(lines, at, i)
  }

  ghost function Pruned(lines: seq<Line>): seq<Line> {
    Terminate(TrimBlanks(Collapse(Keep(lines, DropSet(lines), 0))))
  }

  method PruneEmptySections(lines: seq<Line>) returns (out: seq<Line>)
    ensures out == Pruned(lines)
    ensures Tidies(lines, out)
  {
    var hdrs := Headers(lines);
    var drop := EmptySections(lines, hdrs);
    assert drop == DropSet(lines);
    var kept := KeepLines(lines, drop);
    out := [];
    for i := 0 to |kept|
      invariant out == Collapse(kept[..i])
    {
      assert kept[..i + 1][..|kept[..i + 1]| - 1] == kept[..i];
      if !(kept[i].kind.Blank? && out != [] && (Last(out).kind.Blank? || Last(out).kind.Banner?)) {
        out := out + [kept[i]];
      }
    }
    assert kept[..|kept|] == kept;
    while out != [] && Last(out).kind.Blank?
      invariant TrimBlanks(out) == TrimBlanks(Collapse(kept))
    {
      out := out[..|out| - 1];
    }
    if out != [] && Last(out).eol == NoEol {
      out := out[..|out| - 1] + [Last(out).(eol := LF)];
    }
    PruneKeepsInPlace(lines);
  }

  /** `hdrs`: the positions of the banners, in order. */
  ghost predicate HeadersOf(lines: seq<Line>, hdrs: seq<nat>, n: nat)
    requires n <= |lines|
  {
    && (forall k :: 0 <= k < |hdrs| ==> hdrs[k] < n && lines[hdrs[k]].kind.Banner?)
    && (forall k, m :: 0 <= k < m < |hdrs| ==> hdrs[k] < hdrs[m])
    && (forall i :: 0 <= i < n && lines[i].kind.Banner? ==> i in hdrs)
  }

  method Headers(lines: seq<Line>) returns (hdrs: seq<nat>)
    ensures HeadersOf(lines, hdrs, |lines|)
  {
    hdrs := [];
    for i := 0 to |lines|
      invariant HeadersOf(lines, hdrs, i)
    {
      if lines[i].kind.Banner? {
        hdrs := hdrs + [i];
      }
    }
  }

  function SectionEnd(lines: seq<Line>, hdrs: seq<nat>, pos: nat): nat
    requires pos <= |hdrs|
  {
    if pos < |hdrs| then hdrs[pos] else |lines|
  }

  /** The dropped positions below `n`. */
  ghost function DropsBelow(lines: seq<Line>, n: nat): set<nat>
    requires n <= |lines|
  {
    set i: nat | i < n && Dropped(lines, i)
  }

  method EmptySections(lines: seq<Line>, hdrs: seq<nat>) returns (drop: set<nat>)
    requires HeadersOf(lines, hdrs, |lines|)
    ensures drop == DropSet(lines)
  {
    drop := {};
    BeforeFirstBanner(lines, SectionEnd(lines, hdrs, 0));
    for pos := 0 to |hdrs|
      invariant drop == DropsBelow(lines, SectionEnd(lines, hdrs, pos))
    {
      drop := DropSection(lines, hdrs[pos], SectionEnd(lines, hdrs, pos + 1), drop);
    }
  }

  lemma BeforeFirstBanner(lines: seq<Line>, n: nat)
    requires n <= |lines| && forall k :: 0 <= k < n ==> !lines[k].kind.Banner?
    ensures DropsBelow(lines, n) == {}
  {
    NothingDropped(lines, 0, n);
  }

  /** One section `[i, nxt)`: with no epic in it, its banner goes and so do the blanks right under it. */
  method DropSection(lines: seq<Line>, i: nat, nxt: nat, drop0: set<nat>) returns (drop: set<nat>)
    requires i < nxt <= |lines| && lines[i].kind.Banner?
    requires forall k :: i < k < nxt ==> !lines[k].kind.Banner?
    requires nxt == |lines| || lines[nxt].kind.Banner?
    requires drop0 == DropsBelow(lines, i)
    ensures drop == DropsBelow(lines, nxt)
  {
    drop := drop0;
    var live := AnyEpic(lines, i + 1, nxt);
    var j := i;
    assert live <==> !Dropped(lines, i);
    if !live {
      DropsSnoc(lines, i);
      drop := drop + {i};
      j := i + 1;
      while j < nxt && lines[j].kind.Blank?
        invariant i < j <= nxt
        invariant Dropped(lines, j - 1)
        invariant drop == DropsBelow(lines, j)
      {
        DropsSnoc(lines, j);
        drop := drop + {j};
        j := j + 1;
      }
    }
    assert j < nxt ==> !Dropped(lines, j);
    NothingDropped(lines, j, nxt);
    DropsSkip(lines, j, nxt);
  }

  lemma DropsSnoc(lines: seq<Line>, j: nat)
    requires j < |lines| && Dropped(lines, j)
    ensures DropsBelow(lines, j + 1) == DropsBelow(lines, j) + {j}
  {
    forall k: nat
      ensures k in DropsBelow(lines, j + 1) <==> k in DropsBelow(lines, j) + {j}
    {
    }
  }

  lemma DropsSkip(lines: seq<Line>, j: nat, n: nat)
    requires j <= n <= |lines| && forall k :: j <= k < n ==> !Dropped(lines, k)
    ensures DropsBelow(lines, n) == DropsBelow(lines, j)
  {
    forall k: nat
      ensures k in DropsBelow(lines, n) <==> k in DropsBelow(lines, j)
    {
    }
  }

  /** `any(EPIC_START_RE.match(l) for l in lines[i + 1:nxt])`. */
  method AnyEpic(lines: seq<Line>, lo: nat, hi: nat) returns (found: bool)
    requires lo <= hi <= |lines|
    requires forall k :: lo <= k < hi ==> !lines[k].kind.Banner?
    requires hi == |lines| || lines[hi].kind.Banner?
    ensures found == SectionHasEpic(lines[lo..])
  {
    var k := lo;
    while k < hi && !lines[k].kind.EpicStart?
      invariant lo <= k <= hi
      invariant SectionHasEpic(lines[lo..]) == SectionHasEpic(lines[k..])
    {
      assert lines[k..][1..] == lines[k + 1..];
      k := k + 1;
    }
    found := k < hi;
  }

  /** With no banner and no dropped line in front, a stretch loses nothing. */
  lemma {:induction false} NothingDropped(lines: seq<Line>, lo: nat, hi: nat)
    requires lo <= hi <= |lines|
    requires lo < hi ==> !Dropped(lines, lo)
    requires forall k :: lo < k < hi ==> !lines[k].kind.Banner?
    ensures forall k :: lo <= k < hi ==> !Dropped(lines, k)
    decreases hi - lo
  {
    if lo + 1 < hi {
      NothingDropped(lines, lo + 1, hi);
    }
  }

  // ---- meaning ----

  lemma DroppedAreSpacers(lines: seq<Line>)
    ensures forall i :: i in DropSet(lines) ==> Spacer(lines[i])
  {
  }

  lemma {:induction false} SpacerAtEnd(a: seq<Line>, l: Line)
    requires Spacer(l)
    ensures Read(a + [l]) == Read(a)
  {
    assert Read([l]) == Document([], []);
    ReadConcat(a, [l]);
  }

  /** Reading depends on the last line only up to its ending. */
  lemma {:induction false} ReadLast(a: seq<Line>, l: Line)
    ensures Read(a + [l]) == Read(a + [l.(eol := LF)])
  {
    if a == [] {
      assert a + [l] == [l] && a + [l.(eol := LF)] == [l.(eol := LF)];
    } else {
      ReadLast(a[1..], l);
      assert a + [l] == [a[0]] + (a[1..] + [l]);
      assert a + [l.(eol := LF)] == [a[0]] + (a[1..] + [l.(eol := LF)]);
      ReadCons(a[0], a[1..] + [l]);
      ReadCons(a[0], a[1..] + [l.(eol := LF)]);
    }
  }

  /** `b` is `a` with some blank lines left out. */
  predicate Thins(a: seq<Line>, b: seq<Line>) {
    if a == [] then b == []
    else
      || (b != [] && b[0] == a[0] && Thins(a[1..], b[1..]))
      || (a[0].kind.Blank? && Thins(a[1..], b))
  }

  lemma {:induction false} ThinsSnoc(a: seq<Line>, b: seq<Line>, l: Line)
    requires Thins(a, b)
    ensures Thins(a + [l], b + [l])
    ensures l.kind.Blank? ==> Thins(a + [l], b)
  {
    if a == [] {
      assert [l][1..] == [];
    } else {
      assert (a + [l])[1..] == a[1..] + [l];
      if b != [] && b[0] == a[0] && Thins(a[1..], b[1..]) {
        ThinsSnoc(a[1..], b[1..], l);
        assert (b + [l])[1..] == b[1..] + [l];
      } else {
        ThinsSnoc(a[1..], b, l);
      }
    }
  }

  lemma {:induction false} CollapseThins(lines: seq<Line>)
    ensures Thins(lines, Collapse(lines))
  {
    if lines != [] {
      var front := lines[..|lines| - 1];
      CollapseThins(front);
      ThinsSnoc(front, Collapse(front), Last(lines));
      assert lines == front + [Last(lines)];
    }
  }

  lemma {:induction false} TrimThins(lines: seq<Line>)
    ensures Thins(lines, TrimBlanks(lines))
  {
    if lines != [] && Last(lines).kind.Blank? {
      var front := lines[..|lines| - 1];
      TrimThins(front);
      ThinsSnoc(front, TrimBlanks(front), Last(lines));
      assert lines == front + [Last(lines)];
    } else {
      ThinsSelf(lines);
    }
  }

  lemma {:induction false} ThinsSelf(lines: seq<Line>)
    ensures Thins(lines, lines)
  {
    if lines != [] {
      ThinsSelf(lines[1..]);
    }
  }

  lemma {:induction false} ThinsReads(a: seq<Line>, b: seq<Line>)
    requires Thins(a, b)
    ensures Read(a) == Read(b)
  {
    if a != [] {
      if b != [] && b[0] == a[0] && Thins(a[1..], b[1..]) {
        ThinsReads(a[1..], b[1..]);
      } else {
        ThinsReads(a[1..], b);
      }
    }
  }

  lemma TerminateReads(lines: seq<Line>)
    ensures Read(Terminate(lines)) == Read(lines)
  {
    if lines != [] && Last(lines).eol == NoEol {
      ReadLast(lines[..|lines| - 1], Last(lines));
      assert lines == lines[..|lines| - 1] + [Last(lines)];
    }
  }

  /** Pruning changes no epic and no line that is neither blank nor a banner. */
  lemma PruneReads(lines: seq<Line>)
    ensures Read(Pruned(lines)) == Read(lines)
  {
    var kept := Keep(lines, DropSet(lines), 0);
    DroppedAreSpacers(lines);
    KeepReads(lines, DropSet(lines), 0);
    assert lines[0..] == lines;
    CollapseThins(kept);
    ThinsReads(kept, Collapse(kept));
    TrimThins(Collapse(kept));
    ThinsReads(Collapse(kept), TrimBlanks(Collapse(kept)));
    TerminateReads(TrimBlanks(Collapse(kept)));
  }

  // ---- idempotence ----

  /** Every banner has an epic under it. */
  predicate AllLive(lines: seq<Line>) {
    lines == [] || ((lines[0].kind.Banner? ==> SectionHasEpic(lines[1..])) && AllLive(lines[1..]))
  }

  ghost predicate NoDoubleSpace(lines: seq<Line>) {
    forall i :: 0 < i < |lines| && lines[i].kind.Blank? ==> !Spacer(lines[i - 1])
  }

  /** The shape pruning aims at. */
  ghost predicate Tidy(lines: seq<Line>) {
    && AllLive(lines)
    && NoDoubleSpace(lines)
    && (lines != [] ==> !Last(lines).kind.Blank? && Last(lines).eol != NoEol)
  }

  lemma {:induction false} KeepLive(lines: seq<Line>, i: nat)
    requires i <= |lines|
    ensures AllLive(Keep(lines, DropSet(lines), i))
    ensures SectionHasEpic(lines[i..]) ==> SectionHasEpic(Keep(lines, DropSet(lines), i))
    decreases |lines| - i
  {
    if i < |lines| {
      KeepLive(lines, i + 1);
      assert lines[i..][1..] == lines[i + 1..];
      var kept, rest := Keep(lines, DropSet(lines), i), Keep(lines, DropSet(lines), i + 1);
      if i !in DropSet(lines) {
        assert kept[1..] == rest;
        assert lines[i].kind.Banner? ==> SectionHasEpic(lines[i + 1..]);
      } else {
        assert Spacer(lines[i]);
      }
    }
  }

  lemma {:induction false} ThinsLive(a: seq<Line>, b: seq<Line>)
    requires Thins(a, b) && AllLive(a)
    ensures AllLive(b)
    ensures SectionHasEpic(a) == SectionHasEpic(b)
  {
    if a != [] {
      if b != [] && b[0] == a[0] && Thins(a[1..], b[1..]) {
        ThinsLive(a[1..], b[1..]);
      } else {
        ThinsLive(a[1..], b);
      }
    }
  }

  lemma {:induction false} CollapseSpaced(lines: seq<Line>)
    ensures NoDoubleSpace(Collapse(lines))
  {
    if lines != [] {
      CollapseSpaced(lines[..|lines| - 1]);
    }
  }

  lemma {:induction false} TrimIsPrefix(lines: seq<Line>)
    ensures TrimBlanks(lines) <= lines
    ensures TrimBlanks(lines) != [] ==> !Last(TrimBlanks(lines)).kind.Blank?
  {
    if lines != [] && Last(lines).kind.Blank? {
      TrimIsPrefix(lines[..|lines| - 1]);
    }
  }

  /** Line endings do not matter to liveness. */
  lemma {:induction false} SameKindsLive(a: seq<Line>, b: seq<Line>)
    requires |a| == |b| && forall i :: 0 <= i < |a| ==> a[i].kind == b[i].kind
    ensures AllLive(a) == AllLive(b) && SectionHasEpic(a) == SectionHasEpic(b)
  {
    if a != [] {
      SameKindsLive(a[1..], b[1..]);
    }
  }

  lemma PrunedIsTidy(lines: seq<Line>)
    ensures Tidy(Pruned(lines))
  {
    var kept := Keep(lines, DropSet(lines), 0);
    var collapsed := Collapse(kept);
    var trimmed := TrimBlanks(collapsed);
    KeepLive(lines, 0);
    CollapseThins(kept);
    ThinsLive(kept, collapsed);
    TrimThins(collapsed);
    ThinsLive(collapsed, trimmed);
    CollapseSpaced(kept);
    TrimIsPrefix(collapsed);
    TerminateIsTidy(trimmed);
  }

  lemma TerminateIsTidy(lines: seq<Line>)
    requires AllLive(lines) && NoDoubleSpace(lines) && (lines != [] ==> !Last(lines).kind.Blank?)
    ensures Tidy(Terminate(lines))
  {
    SameKindsLive(lines, Terminate(lines));
  }

  lemma {:induction false} LiveDropsNothing(lines: seq<Line>, i: nat)
    requires AllLive(lines) && i < |lines|
    ensures !Dropped(lines, i)
  {
    if lines[i].kind.Banner? {
      LiveAt(lines, i);
    } else if i > 0 {
      LiveDropsNothing(lines, i - 1);
    }
  }

  lemma {:induction false} LiveAt(lines: seq<Line>, i: nat)
    requires AllLive(lines) && i < |lines| && lines[i].kind.Banner?
    ensures SectionHasEpic(lines[i + 1..])
  {
    if i > 0 {
      LiveAt(lines[1..], i - 1);
      assert lines[1..][i..] == lines[i + 1..];
    }
  }

  lemma {:induction false} SpacedCollapsesToItself(lines: seq<Line>)
    requires NoDoubleSpace(lines)
    ensures Collapse(lines) == lines
  {
    if lines != [] {
      var front := lines[..|lines| - 1];
      SpacedCollapsesToItself(front);
      assert lines == front + [Last(lines)];
    }
  }

  lemma TidyIsFixed(lines: seq<Line>)
    requires Tidy(lines)
    ensures Pruned(lines) == lines
  {
    forall i: nat | i < |lines|
      ensures !Dropped(lines, i)
    {
      LiveDropsNothing(lines, i);
    }
    assert DropSet(lines) == {};
    KeepAll(lines, 0);
    SpacedCollapsesToItself(lines);
  }

  lemma PruneIsIdempotent(lines: seq<Line>)
    ensures Pruned(Pruned(lines)) == Pruned(lines)
  {
    PrunedIsTidy(lines);
    TidyIsFixed(Pruned(lines));
  }

  // ---- which lines are left ----

  /** From `n` on there are blanks and banners only. */
  ghost predicate SpacersFrom(lines: seq<Line>, n: nat) {
    forall k :: n <= k < |lines| ==> Spacer(lines[k])
  }

  ghost predicate Collapsed(lines: seq<Line>, i: nat) {
    && i < |lines|
    && (lines[i].kind.Banner? ==> Leads(lines, i))
    && (lines[i].kind.Blank? ==> !AfterSpacer(lines, i))
  }

  ghost predicate Stays(lines: seq<Line>, i: nat) {
    Collapsed(lines, i) && !SpacersFrom(lines, i)
  }

  lemma {:induction false} LeadsIff(lines: seq<Line>, i: nat)
    requires i < |lines|
    ensures Leads(lines, i) <==> SectionHasEpic(lines[i + 1..])
    decreases |lines| - i
  {
    if i + 1 < |lines| {
      var rest := lines[i + 1..];
      assert rest[1..] == lines[i + 2..];
      LeadsIff(lines, i + 1);
      if rest[0].kind.EpicStart? {
        assert EpicUnder(lines, i, i + 1);
      } else if !rest[0].kind.Banner? {
        LeadsOn(lines, i);
      }
    }
  }

  lemma LeadsOn(lines: seq<Line>, i: nat)
    requires i + 1 < |lines| && lines[i + 1].kind != Banner && !lines[i + 1].kind.EpicStart?
    ensures Leads(lines, i) <==> Leads(lines, i + 1)
  {
    if Leads(lines, i) {
      var k :| EpicUnder(lines, i, k);
      assert EpicUnder(lines, i + 1, k);
    }
    if Leads(lines, i + 1) {
      var k :| EpicUnder(lines, i + 1, k);
      assert EpicUnder(lines, i, k);
    }
  }

  ghost function CollapsedSet(lines: seq<Line>): set<nat> {
    set i: nat | i < |lines| && Collapsed(lines, i)
  }

  ghost function StaySet(lines: seq<Line>): set<nat> {
    set i: nat | i < |lines| && Stays(lines, i)
  }

  /** What the first pass drops, and what the second skips of the rest. */
  lemma TwoPasses(lines: seq<Line>, i: nat)
    requires i < |lines|
    ensures Dropped(lines, i) ==> Spacer(lines[i]) && !Collapsed(lines, i)
    ensures !Dropped(lines, i) ==>
              (Collapsed(lines, i) <==> !(lines[i].kind.Blank? && AfterSpacer(lines, i)))
    ensures !Dropped(lines, i) && lines[i].kind.Blank? && i > 0 ==> !Dropped(lines, i - 1)
  {
    LeadsIff(lines, i);
    if i > 0 && Dropped(lines, i - 1) {
      TwoPasses(lines, i - 1);
    }
  }

  /** What collapsing has kept when it comes to line `n`. */
  ghost predicate Reached(lines: seq<Line>, out: seq<Line>, n: nat) {
    && n <= |lines|
    && (n == 0 ==> out == [])
    && (n > 0 && !Dropped(lines, n - 1) ==> out != [] && Spacer(Last(out)) == Spacer(lines[n - 1]))
  }

  lemma SkipsIff(lines: seq<Line>, out: seq<Line>, i: nat)
    requires i < |lines| && Reached(lines, out, i) && !Dropped(lines, i)
    ensures Skips(out, lines[i]) <==> !Collapsed(lines, i)
    ensures Reached(lines, if Collapsed(lines, i) then out + [lines[i]] else out, i + 1)
  {
    TwoPasses(lines, i);
  }

  /** Collapsing what the first pass kept leaves, of the first `n` lines, those at the collapsed positions. */
  lemma {:induction false} CollapsePicks(lines: seq<Line>, n: nat)
    requires n <= |lines|
    ensures Collapse(Picked(lines, Others(DropSet(lines), |lines|), n)) == Picked(lines, CollapsedSet(lines), n)
    ensures Reached(lines, Picked(lines, CollapsedSet(lines), n), n)
  {
    if n > 0 {
      var i := n - 1;
      CollapsePicks(lines, i);
      if Dropped(lines, i) {
        TwoPasses(lines, i);
      } else {
        SkipsIff(lines, Picked(lines, CollapsedSet(lines), i), i);
        CollapseSnoc(Picked(lines, Others(DropSet(lines), |lines|), i), lines[i]);
      }
    }
  }

  lemma CollapseSnoc(kept: seq<Line>, l: Line)
    ensures Collapse(kept + [l]) == if Skips(Collapse(kept), l) then Collapse(kept) else Collapse(kept) + [l]
  {
    assert (kept + [l])[..|kept|] == kept;
  }

  /** Trimming takes away the positions after which nothing is said. */
  lemma {:induction false} TrimPicks(lines: seq<Line>, n: nat)
    requires n <= |lines| && SpacersFrom(lines, n)
    ensures TrimBlanks(Picked(lines, CollapsedSet(lines), n)) == Picked(lines, StaySet(lines), n)
  {
    if n > 0 {
      var i := n - 1;
      var out := Picked(lines, CollapsedSet(lines), i);
      if Spacer(lines[i]) {
        assert SpacersFrom(lines, i);
        TrimPicks(lines, i);
        NotLast(lines, i);
        assert lines[i].kind.Blank? ==> TrimBlanks(out + [lines[i]]) == TrimBlanks(out) by {
          assert (out + [lines[i]])[..|out|] == out;
        }
      } else {
        assert forall k: nat :: k < n ==> !SpacersFrom(lines, k);
        SamePicked(lines, CollapsedSet(lines), StaySet(lines), n);
      }
    }
  }

  lemma NotLast(lines: seq<Line>, i: nat)
    requires i < |lines| && SpacersFrom(lines, i)
    ensures !Stays(lines, i) && (Collapsed(lines, i) ==> lines[i].kind.Blank?)
  {
  }

  lemma StaysIff(lines: seq<Line>, i: nat)
    requires i < |lines|
    ensures lines[i].kind.Banner? ==> (Stays(lines, i) <==> Leads(lines, i))
    ensures lines[i].kind.Blank? ==>
              (Stays(lines, i) <==> !AfterSpacer(lines, i) && exists k :: i < k < |lines| && !Spacer(lines[k]))
    ensures !Spacer(lines[i]) ==> Stays(lines, i)
  {
    if lines[i].kind.Banner? && Leads(lines, i) {
      var k :| EpicUnder(lines, i, k);
      assert !Spacer(lines[k]);
    }
  }

  /** Pruning leaves the lines it should, in place. */
  lemma PruneKeepsInPlace(lines: seq<Line>)
    ensures Tidies(lines, Pruned(lines))
  {
    var n := |lines|;
    var at := Picks(StaySet(lines), n);
    PrunedIsPicked(lines);
    PickedAt(lines, StaySet(lines), n);
    forall i: nat | i < n
      ensures i in at <==> Stays(lines, i)
    {
    }
    forall i: nat | i < n
      ensures LeftAt(lines, at, i)
    {
      StaysIff(lines, i);
    }
    assert LeftAs(lines, Pruned(lines), at);
  }

  lemma PrunedIsPicked(lines: seq<Line>)
    ensures Pruned(lines) == Terminate(Picked(lines, StaySet(lines), |lines|))
  {
    var n := |lines|;
    KeepPicks(lines, DropSet(lines), n);
    CollapsePicks(lines, n);
    TrimPicks(lines, n);
    assert Keep(lines, DropSet(lines), 0) == Picked(lines, Others(DropSet(lines), n), n);
  }

  /** A banner that is left still stands before its own epics: whatever starts under it is left under it. */
  lemma BannersKeepTheirEpics(lines: seq<Line>, out: seq<Line>, at: seq<nat>, j: nat, k: int) returns (m: nat)
    requires LeftAs(lines, out, at) && forall i: nat :: i < |lines| ==> LeftAt(lines, at, i)
    requires j < |out| && EpicUnder(lines, at[j], k)
    ensures m < |at| && at[m] == k && EpicUnder(out, j, m)
  {
    assert LeftAt(lines, at, k);
    m :| 0 <= m < |at| && at[m] == k;
    forall p | j < p < m
      ensures !out[p].kind.Banner?
    {
      assert at[j] < at[p] < at[m];
    }
  }
}
