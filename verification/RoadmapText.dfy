/**
 * The raw text of a roadmap file as tagged lines. The archive sweep never re-serialises YAML: it cuts and
 * pastes these lines, so the meaning of a file is what `Read` makes of them.
 */
module RoadmapText {
  import opened Seqs

  datatype Eol = NoEol | LF | CRLF

  /** What the line patterns tell apart: `  - id: x`, `  # ── TITLE`, blanks, `    archived_on:`, the rest. */
  datatype Kind = EpicStart(id: string) | Banner | Blank | ArchivedOn | Other

  datatype Line = Line(kind: Kind, text: string, eol: Eol)

  /** An epic as read from the text: its id, its first line, and the lines under it that say something. */
  datatype Segment = Segment(id: string, head: string, body: seq<Line>)

  /** A file as read: the lines before the first epic, then the epics in order. */
  datatype Document = Document(preamble: seq<Line>, segments: seq<Segment>)

  predicate Spacer(l: Line) {
    l.kind.Blank? || l.kind.Banner?
  }

  function Normal(l: Line): Line {
    l.(eol := LF)
  }

  /** The lines that are neither blank nor a section banner, line endings aside. */
  function Content(lines: seq<Line>): seq<Line> {
    if lines == [] then []
    else if Spacer(lines[0]) then Content(lines[1..])
    else [Normal(lines[0])] + Content(lines[1..])
  }

  function Read(lines: seq<Line>): Document {
    if lines == [] then Document([], [])
    else ReadLine(lines[0], Read(lines[1..]))
  }

  /** A line in front of what follows it. */
  function ReadLine(l: Line, rest: Document): Document {
    match l.kind
    case EpicStart(id) => Document([], [Segment(id, l.text, rest.preamble)] + rest.segments)
    case Banner => rest
    case Blank => rest
    case _ => Document([Normal(l)] + rest.preamble, rest.segments)
  }

  lemma ReadCons(l: Line, rest: seq<Line>)
    ensures Read([l] + rest) == ReadLine(l, Read(rest))
  {
    assert ([l] + rest)[1..] == rest;
  }

  lemma ReadAt(lines: seq<Line>, i: nat)
    requires i < |lines|
    ensures Read(lines[i..]) == ReadLine(lines[i], Read(lines[i + 1..]))
  {
    assert lines[i..] == [lines[i]] + lines[i + 1..];
    ReadCons(lines[i], lines[i + 1..]);
  }

  /** The epic ids a scan of the text finds, in order. */
  function ScanIds(lines: seq<Line>): seq<string> {
    if lines == [] then []
    else (if lines[0].kind.EpicStart? then [lines[0].kind.id] else []) + ScanIds(lines[1..])
  }

  function SegmentIds(segments: seq<Segment>): seq<string> {
    Map(segments, (s: Segment) => s.id)
  }

  lemma {:induction false} ScanIdsAreSegmentIds(lines: seq<Line>)
    ensures ScanIds(lines) == SegmentIds(Read(lines).segments)
  {
    if lines != [] {
      ScanIdsAreSegmentIds(lines[1..]);
      var rest := Read(lines[1..]).segments;
      if lines[0].kind.EpicStart? {
        assert Read(lines).segments[1..] == rest;
      }
    }
  }

  lemma {:induction false} ScanIdsSnoc(lines: seq<Line>, l: Line)
    ensures ScanIds(lines + [l]) == ScanIds(lines) + (if l.kind.EpicStart? then [l.kind.id] else [])
  {
    if lines == [] {
      assert lines + [l] == [l];
    } else {
      ScanIdsSnoc(lines[1..], l);
      assert (lines + [l])[1..] == lines[1..] + [l];
    }
  }

  ghost predicate NoEpicStart(lines: seq<Line>) {
    forall i :: 0 <= i < |lines| ==> !lines[i].kind.EpicStart?
  }

  /** Lines with no epic start only extend the preamble of what follows. */
  lemma {:induction false} ReadPrefix(a: seq<Line>, b: seq<Line>)
    requires NoEpicStart(a)
    ensures Read(a + b) == Document(Content(a) + Read(b).preamble, Read(b).segments)
  {
    if a == [] {
      assert a + b == b;
    } else {
      ReadPrefix(a[1..], b);
      Associate([a[0]], a[1..], b);
      assert a == [a[0]] + a[1..];
      ReadCons(a[0], a[1..] + b);
      Associate([Normal(a[0])], Content(a[1..]), Read(b).preamble);
    }
  }

  lemma LineThenMore(l: Line, d: Document, more: seq<Segment>)
    ensures ReadLine(l, Document(d.preamble, d.segments + more)) ==
            Document(ReadLine(l, d).preamble, ReadLine(l, d).segments + more)
  {
    if l.kind.EpicStart? {
      Associate([Segment(l.kind.id, l.text, d.preamble)], d.segments, more);
    }
  }

  /** Reading a file with more text appended: the new epics come after the old ones. */
  lemma {:induction false} ReadConcat(a: seq<Line>, b: seq<Line>)
    requires Read(b).preamble == []
    ensures Read(a + b) == Document(Read(a).preamble, Read(a).segments + Read(b).segments)
  {
    if a == [] {
      assert a + b == b;
    } else {
      ReadConcat(a[1..], b);
      Associate([a[0]], a[1..], b);
      assert a == [a[0]] + a[1..];
      ReadCons(a[0], a[1..] + b);
      LineThenMore(a[0], Read(a[1..]), Read(b).segments);
    }
  }

  lemma {:induction false} ReadSpacers(a: seq<Line>)
    requires forall i :: 0 <= i < |a| ==> Spacer(a[i])
    ensures Read(a) == Document([], []) && Content(a) == []
  {
    if a != [] {
      ReadSpacers(a[1..]);
    }
  }

  lemma {:induction false} ContentConcat(a: seq<Line>, b: seq<Line>)
    ensures Content(a + b) == Content(a) + Content(b)
  {
    if a == [] {
      assert a + b == b;
    } else {
      ContentConcat(a[1..], b);
      assert (a + b)[1..] == a[1..] + b;
      Associate([Normal(a[0])], Content(a[1..]), Content(b));
    }
  }

  // ---- keeping some of the lines ----

  /** The lines from position `i` on whose positions are not in `drop`. */
  ghost function Keep(lines: seq<Line>, drop: set<nat>, i: nat): seq<Line>
    requires i <= |lines|
    decreases |lines| - i
  {
    if i == |lines| then []
    else if i in drop then Keep(lines, drop, i + 1)
    else [lines[i]] + Keep(lines, drop, i + 1)
  }

  /** The list comprehension both callers use: `[l for i, l in enumerate(lines) if i not in drop]`. */
  method KeepLines(lines: seq<Line>, drop: set<nat>) returns (kept: seq<Line>)
    ensures kept == Keep(lines, drop, 0)
  {
    kept := [];
    for i := 0 to |lines|
      invariant kept + Keep(lines, drop, i) == Keep(lines, drop, 0)
    {
      if i !in drop {
        kept := kept + [lines[i]];
      }
    }
  }

  lemma {:induction false} KeepAll(lines: seq<Line>, i: nat)
    requires i <= |lines|
    ensures Keep(lines, {}, i) == lines[i..]
    decreases |lines| - i
  {
    if i < |lines| {
      KeepAll(lines, i + 1);
    }
  }

  /** Dropping blanks and banners only does not change what the text reads as. */
  lemma {:induction false} KeepReads(lines: seq<Line>, drop: set<nat>, i: nat)
    requires i <= |lines|
    requires forall k :: k in drop && k < |lines| ==> Spacer(lines[k])
    ensures Read(Keep(lines, drop, i)) == Read(lines[i..])
    decreases |lines| - i
  {
    if i < |lines| {
      KeepReads(lines, drop, i + 1);
      ReadAt(lines, i);
      if i !in drop {
        ReadCons(lines[i], Keep(lines, drop, i + 1));
      }
    }
  }

  // ---- keeping lines by position ----

  /** The positions below `n` that are in `s`, in order. */
  ghost function Picks(s: set<nat>, n: nat): seq<nat> {
    if n == 0 then []
    else if n - 1 in s then Picks(s, n - 1) + [n - 1]
    else Picks(s, n - 1)
  }

  /** `at` lists positions of a text of `n` lines, in order. */
  ghost predicate Positions(at: seq<nat>, n: nat) {
    && (forall j :: 0 <= j < |at| ==> at[j] < n)
    && (forall j, m :: 0 <= j < m < |at| ==> at[j] < at[m])
  }

  ghost function LinesAt(lines: seq<Line>, at: seq<nat>): seq<Line>
    requires forall j :: 0 <= j < |at| ==> at[j] < |lines|
  {
    seq(|at|, j requires 0 <= j < |at| => lines[at[j]])
  }

  /** The first `n` lines, those at positions outside `s` left out. */
  ghost function Picked(lines: seq<Line>, s: set<nat>, n: nat): seq<Line>
    requires n <= |lines|
  {
    if n == 0 then []
    else if n - 1 in s then Picked(lines, s, n - 1) + [lines[n - 1]]
    else Picked(lines, s, n - 1)
  }

  lemma {:induction false} PicksFacts(s: set<nat>, n: nat)
    ensures Positions(Picks(s, n), n)
    ensures forall i: nat :: i in Picks(s, n) <==> i < n && i in s
  {
    if n > 0 {
      PicksFacts(s, n - 1);
    }
  }

  lemma LinesAtSnoc(lines: seq<Line>, at: seq<nat>, i: nat)
    requires i < |lines| && forall j :: 0 <= j < |at| ==> at[j] < |lines|
    ensures LinesAt(lines, at + [i]) == LinesAt(lines, at) + [lines[i]]
  {
  }

  lemma {:induction false} PickedAt(lines: seq<Line>, s: set<nat>, n: nat)
    requires n <= |lines|
    ensures Positions(Picks(s, n), |lines|)
    ensures forall i: nat :: i in Picks(s, n) <==> i < n && i in s
    ensures Picked(lines, s, n) == LinesAt(lines, Picks(s, n))
  {
    PicksFacts(s, n);
    if n > 0 {
      PickedAt(lines, s, n - 1);
      if n - 1 in s {
        LinesAtSnoc(lines, Picks(s, n - 1), n - 1);
      }
    }
  }

  lemma {:induction false} SamePicked(lines: seq<Line>, s: set<nat>, s': set<nat>, n: nat)
    requires n <= |lines| && forall i: nat :: i < n ==> (i in s <==> i in s')
    ensures Picked(lines, s, n) == Picked(lines, s', n)
  {
    if n > 0 {
      SamePicked(lines, s, s', n - 1);
    }
  }

  ghost function Others(drop: set<nat>, n: nat): set<nat> {
    set i: nat | i < n && i !in drop
  }

  lemma {:induction false} KeepPicks(lines: seq<Line>, drop: set<nat>, n: nat)
    requires n <= |lines|
    ensures Keep(lines, drop, 0) == Picked(lines, Others(drop, |lines|), n) + Keep(lines, drop, n)
  {
    if n > 0 {
      KeepPicks(lines, drop, n - 1);
      if n - 1 !in drop {
        Associate(Picked(lines, Others(drop, |lines|), n - 1), [lines[n - 1]], Keep(lines, drop, n));
      }
    }
  }
}
