/**
 * What stripping makes of a text written as its author meant it: code, string literals and comments, one after the
 * other.
 */
module CommentPieces {
  import opened Seqs
  import opened Comments

  /** Code, a string literal, a comment to the end of the line, or a block comment. */
  datatype Piece =
    | Plain(text: string)
    | Quoting(mark: char, body: string)
    | ToLineEnd(note: string)
    | Block(note: string)

  /** No quote, and no slash before another one, before an asterisk where that opens a comment, or at the end. */
  ghost predicate PlainText(t: string, blocks: bool) {
    forall i :: 0 <= i < |t| ==> PlainAt(t, i, blocks)
  }

  predicate PlainAt(t: string, i: nat, blocks: bool)
    requires i < |t|
  {
    && t[i] != '"' && t[i] != '\'' && t[i] != '`'
    && (t[i] == '/' ==> i + 1 < |t| && t[i + 1] != '/' && (blocks ==> t[i + 1] != '*'))
  }

  lemma PlainTail(t: string, blocks: bool)
    requires t != "" && PlainText(t, blocks)
    ensures PlainText(t[1..], blocks)
  {
    forall i | 0 <= i < |t| - 1
      ensures PlainAt(t[1..], i, blocks)
    {
      assert PlainAt(t, i + 1, blocks);
    }
  }

  /** No mark that is not escaped, and no escape at the end. */
  predicate Closed(body: string, mark: char) {
    || body == ""
    || (body[0] == '\\' && |body| >= 2 && Closed(body[2..], mark))
    || (body[0] != '\\' && body[0] != mark && Closed(body[1..], mark))
  }

  ghost predicate NoClosing(t: string) {
    forall i :: 0 <= i < |t| - 1 ==> !(t[i] == '*' && t[i + 1] == '/')
  }

  /** A piece as its language has it; a block comment must not begin with a slash, which the scanner misreads. */
  ghost predicate WellWritten(p: Piece, blocks: bool) {
    match p
    case Plain(t) => PlainText(t, blocks)
    case Quoting(q, body) => (q == '"' || q == '\'' || q == '`') && Closed(body, q)
    case ToLineEnd(note) => '\n' !in note
    case Block(note) => blocks && NoClosing(note) && (note != "" ==> note[0] != '/')
  }

  function PieceText(p: Piece): string {
    match p
    case Plain(t) => t
    case Quoting(q, body) => [q] + body + [q]
    case ToLineEnd(note) => "//" + note + "\n"
    case Block(note) => "/*" + note + "*/"
  }

  /** The piece with a comment turned to spaces, its newlines kept. */
  function Shown(p: Piece): string {
    if p.Plain? || p.Quoting? then PieceText(p) else Blanked(PieceText(p))
  }

  function Blanked(t: string): (s: string)
    ensures |s| == |t| && forall i :: 0 <= i < |t| ==> s[i] == if t[i] == '\n' then '\n' else ' '
  {
    seq(|t|, i requires 0 <= i < |t| => if t[i] == '\n' then '\n' else ' ')
  }

  function WholeText(pieces: seq<Piece>): string {
    if pieces == [] then "" else PieceText(pieces[0]) + WholeText(pieces[1..])
  }

  function WholeShown(pieces: seq<Piece>): string {
    if pieces == [] then "" else Shown(pieces[0]) + WholeShown(pieces[1..])
  }

  function Run(r: Region, n: nat): (rs: seq<Region>)
    ensures |rs| == n && forall i :: 0 <= i < n ==> rs[i] == r
  {
    seq(n, i => r)
  }

  lemma RunCons(r: Region, n: nat, rest: seq<Region>)
    ensures Run(r, n + 1) + rest == [r] + (Run(r, n) + rest)
    ensures Run(r, n + 2) + rest == [r, r] + (Run(r, n) + rest)
  {
  }

  lemma TailIn(t: string, rest: string, k: nat)
    requires k <= |t|
    ensures (t + rest)[k..] == t[k..] + rest
  {
  }

  lemma {:induction false} ScanPlain(t: string, rest: string, blocks: bool)
    requires PlainText(t, blocks)
    ensures Scan(t + rest, InCode, blocks) == Run(Code, |t|) + Scan(rest, InCode, blocks)
  {
    if t == "" {
      assert t + rest == rest;
      assert Run(Code, 0) + Scan(rest, InCode, blocks) == Scan(rest, InCode, blocks);
    } else {
      PlainTail(t, blocks);
      assert PlainAt(t, 0, blocks);
      ScanPlain(t[1..], rest, blocks);
      TailIn(t, rest, 1);
      RunCons(Code, |t| - 1, Scan(rest, InCode, blocks));
    }
  }

  ghost predicate BodyScans(body: string, mark: char, rest: string, blocks: bool) {
    Scan(body + ([mark] + rest), Quoted(mark), blocks) == Run(Literal, |body| + 1) + Scan(rest, InCode, blocks)
  }

  lemma {:induction false} ScanBody(body: string, mark: char, rest: string, blocks: bool)
    requires Closed(body, mark) && mark != '\\'
    ensures BodyScans(body, mark, rest, blocks)
  {
    if body == "" {
      ScanOne(mark, rest, mark, blocks);
      assert body + ([mark] + rest) == [mark] + rest && Run(Literal, 1) == [Literal];
    } else if body[0] == '\\' {
      ScanBody(body[2..], mark, rest, blocks);
      BodyEscape(body, mark, rest, blocks);
    } else {
      ScanBody(body[1..], mark, rest, blocks);
      BodyOne(body, mark, rest, blocks);
    }
  }

  lemma BodyOne(body: string, mark: char, rest: string, blocks: bool)
    requires body != "" && body[0] != '\\' && body[0] != mark && BodyScans(body[1..], mark, rest, blocks)
    ensures BodyScans(body, mark, rest, blocks)
  {
    var after := [mark] + rest;
    ScanOne(body[0], body[1..] + after, mark, blocks);
    assert body + after == [body[0]] + (body[1..] + after);
    RunCons(Literal, |body|, Scan(rest, InCode, blocks));
  }

  lemma BodyEscape(body: string, mark: char, rest: string, blocks: bool)
    requires |body| >= 2 && body[0] == '\\' && BodyScans(body[2..], mark, rest, blocks)
    ensures BodyScans(body, mark, rest, blocks)
  {
    var after := [mark] + rest;
    ScanEscape(body[1], body[2..] + after, mark, blocks);
    assert body + after == ['\\', body[1]] + (body[2..] + after);
    RunCons(Literal, |body| - 1, Scan(rest, InCode, blocks));
  }

  lemma ScanOne(c: char, t: string, mark: char, blocks: bool)
    requires c != '\\'
    ensures Scan([c] + t, Quoted(mark), blocks) ==
            [Literal] + Scan(t, if c == mark then InCode else Quoted(mark), blocks)
  {
    assert ([c] + t)[1..] == t;
  }

  lemma ScanEscape(c: char, t: string, mark: char, blocks: bool)
    ensures Scan(['\\', c] + t, Quoted(mark), blocks) == [Literal, Literal] + Scan(t, Quoted(mark), blocks)
  {
    assert (['\\', c] + t)[2..] == t;
  }

  lemma {:induction false} ScanLineNote(note: string, rest: string, blocks: bool)
    requires '\n' !in note
    ensures Scan(note + ("\n" + rest), InLine, blocks) ==
            Run(LineComment, |note|) + ([Code] + Scan(rest, InCode, blocks))
  {
    var after := "\n" + rest;
    if note == "" {
      assert note + after == after && after[1..] == rest;
      assert Run(LineComment, 0) + ([Code] + Scan(rest, InCode, blocks)) == [Code] + Scan(rest, InCode, blocks);
    } else {
      ScanLineNote(note[1..], rest, blocks);
      TailIn(note, after, 1);
      RunCons(LineComment, |note| - 1, [Code] + Scan(rest, InCode, blocks));
    }
  }

  lemma {:induction false} ScanBlockNote(note: string, rest: string, blocks: bool)
    requires NoClosing(note)
    ensures Scan(note + ("*/" + rest), InBlock, blocks) ==
            Run(BlockComment, |note| + 2) + Scan(rest, InCode, blocks)
  {
    var after := "*/" + rest;
    if note == "" {
      assert note + after == after && after[2..] == rest;
      RunCons(BlockComment, 0, Scan(rest, InCode, blocks));
      assert Run(BlockComment, 0) + Scan(rest, InCode, blocks) == Scan(rest, InCode, blocks);
    } else {
      ScanBlockNote(note[1..], rest, blocks);
      TailIn(note, after, 1);
      assert !Heads(note + after, '*', '/');
      RunCons(BlockComment, |note| + 1, Scan(rest, InCode, blocks));
    }
  }

  /** Masking two stretches of text one after the other. */
  lemma MaskBoth(a: string, r: seq<Region>, b: string, s: seq<Region>)
    requires |a| == |r| && |b| == |s|
    ensures Mask(a + b, r + s) == Mask(a, r) + Mask(b, s)
  {
  }

  ghost predicate Strips(p: Piece, rest: string, blocks: bool) {
    Mask(PieceText(p) + rest, Scan(PieceText(p) + rest, InCode, blocks)) == Shown(p) + Strip(rest, blocks)
  }

  lemma PlainIsStripped(t: string, rest: string, blocks: bool)
    requires PlainText(t, blocks)
    ensures Strips(Plain(t), rest, blocks)
  {
    ScanPlain(t, rest, blocks);
    MaskBoth(t, Run(Code, |t|), rest, Scan(rest, InCode, blocks));
    assert Mask(t, Run(Code, |t|)) == t;
  }

  lemma QuotingIsStripped(q: char, body: string, rest: string, blocks: bool)
    requires WellWritten(Quoting(q, body), blocks)
    ensures Strips(Quoting(q, body), rest, blocks)
  {
    var text, more := PieceText(Quoting(q, body)), Scan(rest, InCode, blocks);
    ScanQuoting(q, body, rest, blocks);
    MaskBoth(text, Run(Literal, |body| + 2), rest, more);
    assert Mask(text, Run(Literal, |body| + 2)) == text;
  }

  lemma ScanQuoting(q: char, body: string, rest: string, blocks: bool)
    requires WellWritten(Quoting(q, body), blocks)
    ensures Scan(PieceText(Quoting(q, body)) + rest, InCode, blocks) ==
            Run(Literal, |body| + 2) + Scan(rest, InCode, blocks)
  {
    var inside := body + ([q] + rest);
    ScanBody(body, q, rest, blocks);
    assert PieceText(Quoting(q, body)) + rest == [q] + inside && ([q] + inside)[1..] == inside;
    RunCons(Literal, |body| + 1, Scan(rest, InCode, blocks));
  }

  lemma LineNoteIsStripped(note: string, rest: string, blocks: bool)
    requires '\n' !in note
    ensures Strips(ToLineEnd(note), rest, blocks)
  {
    var text, own := PieceText(ToLineEnd(note)), Run(LineComment, |note| + 2) + [Code];
    ScanToLineEnd(note, rest, blocks);
    MaskBoth(text, own, rest, Scan(rest, InCode, blocks));
    assert Mask(text, own) == Blanked(text);
  }

  lemma ScanToLineEnd(note: string, rest: string, blocks: bool)
    requires '\n' !in note
    ensures Scan(PieceText(ToLineEnd(note)) + rest, InCode, blocks) ==
            Run(LineComment, |note| + 2) + [Code] + Scan(rest, InCode, blocks)
  {
    var inside, more := ("/" + note) + ("\n" + rest), Scan(rest, InCode, blocks);
    ScanLineNote("/" + note, rest, blocks);
    assert PieceText(ToLineEnd(note)) + rest == "/" + inside;
    ScanOpener(inside, blocks);
    RunCons(LineComment, |note| + 1, [Code] + more);
    Associate(Run(LineComment, |note| + 2), [Code], more);
  }

  lemma BlockNoteIsStripped(note: string, rest: string)
    requires WellWritten(Block(note), true)
    ensures Strips(Block(note), rest, true)
  {
    var text := PieceText(Block(note));
    ScanBlock(note, rest);
    MaskBoth(text, Run(BlockComment, |note| + 4), rest, Scan(rest, InCode, true));
    assert Mask(text, Run(BlockComment, |note| + 4)) == Blanked(text);
  }

  lemma ScanBlock(note: string, rest: string)
    requires WellWritten(Block(note), true)
    ensures Scan(PieceText(Block(note)) + rest, InCode, true) ==
            Run(BlockComment, |note| + 4) + Scan(rest, InCode, true)
  {
    var inside := ("*" + note) + ("*/" + rest);
    NoClosingAfterStar(note);
    ScanBlockNote("*" + note, rest, true);
    assert PieceText(Block(note)) + rest == "/" + inside;
    ScanOpener(inside, true);
    RunCons(BlockComment, |note| + 3, Scan(rest, InCode, true));
  }

  /** A slash before another one, or before an asterisk, opens a comment. */
  lemma ScanOpener(t: string, blocks: bool)
    requires t != "" && (t[0] == '/' || (blocks && t[0] == '*'))
    ensures t[0] == '/' ==> Scan("/" + t, InCode, blocks) == [LineComment] + Scan(t, InLine, blocks)
    ensures t[0] == '*' ==> Scan("/" + t, InCode, blocks) == [BlockComment] + Scan(t, InBlock, blocks)
  {
    assert ("/" + t)[1..] == t;
  }

  lemma NoClosingAfterStar(note: string)
    requires NoClosing(note) && (note != "" ==> note[0] != '/')
    ensures NoClosing("*" + note)
  {
    var t := "*" + note;
    forall i | 0 <= i < |t| - 1
      ensures !(t[i] == '*' && t[i + 1] == '/')
    {
      assert t[i + 1] == note[i] && (i > 0 ==> t[i] == note[i - 1]);
      assert i > 0 ==> !(note[i - 1] == '*' && note[i - 1 + 1] == '/');
    }
  }

  lemma PieceIsStripped(p: Piece, rest: string, blocks: bool)
    requires WellWritten(p, blocks)
    ensures Strips(p, rest, blocks)
  {
    match p
    case Plain(t) => PlainIsStripped(t, rest, blocks);
    case Quoting(q, body) => QuotingIsStripped(q, body, rest, blocks);
    case ToLineEnd(note) => LineNoteIsStripped(note, rest, blocks);
    case Block(note) => BlockNoteIsStripped(note, rest);
  }

  /** A file of code, string literals and comments is stripped of exactly its comments. */
  lemma {:induction false} PiecesAreStripped(pieces: seq<Piece>, blocks: bool)
    requires forall i :: 0 <= i < |pieces| ==> WellWritten(pieces[i], blocks)
    ensures Strip(WholeText(pieces), blocks) == WholeShown(pieces)
  {
    if pieces != [] {
      PiecesAreStripped(pieces[1..], blocks);
      PieceIsStripped(pieces[0], WholeText(pieces[1..]), blocks);
    }
  }
}
