/**
 * `_swift_configfield_blocks`: the argument text of every `ConfigField(...)` call, found by counting parentheses
 * outside string literals.
 */
module SwiftFields {
  import opened Wrappers
  import opened Seqs

  const MARKER := "ConfigField("

  // ---- the scanner as an automaton ----

  datatype Mode = Out | InString | Escaped

  /** Depth 0 is the end: the closing parenthesis of the call has been read. */
  datatype State = State(depth: nat, mode: Mode)

  const START := State(1, Out)

  function Step(s: State, c: char): State {
    if s.depth == 0 then s
    else
      match s.mode
      case Out =>
        if c == '"' then s.(mode := InString)
        else if c == '(' then s.(depth := s.depth + 1)
        else if c == ')' then s.(depth := s.depth - 1)
        else s
      case InString => if c == '\\' then s.(mode := Escaped) else if c == '"' then s.(mode := Out) else s
      case Escaped => s.(mode := InString)
  }

  function Walk(t: string, s: State): State {
    if t == "" then s else Step(Walk(t[..|t| - 1], s), Last(t))
  }

  lemma WalkSnoc(t: string, k: nat, s: State)
    requires k < |t|
    ensures Walk(t[..k + 1], s) == Step(Walk(t[..k], s), t[k])
  {
    assert t[..k + 1][..k] == t[..k];
  }

  lemma {:induction false} WalkConcat(a: string, b: string, s: State)
    ensures Walk(a + b, s) == Walk(b, Walk(a, s))
  {
    if b == "" {
      AppendNothing(a, b);
    } else {
      WalkConcat(a, b[..|b| - 1], s);
      assert (a + b)[..|a + b| - 1] == a + b[..|b| - 1];
    }
  }

  lemma {:induction false} ClosedStays(t: string, s: State, k: nat)
    requires k <= |t| && Walk(t[..k], s).depth == 0
    ensures Walk(t, s).depth == 0
  {
    if k < |t| {
      assert t[..|t| - 1][..k] == t[..k];
      ClosedStays(t[..|t| - 1], s, k);
    } else {
      assert t[..k] == t;
    }
  }

  /** The call's closing parenthesis is at `k`. */
  predicate ClosesAt(t: string, k: nat) {
    k < |t| && Walk(t[..k], START).depth > 0 && Walk(t[..k + 1], START).depth == 0
  }

  /** A complete argument text: scanned from the start of a call it comes back to where it began, never closing it. */
  predicate IsArgument(b: string) {
    Walk(b, START) == START
  }

  /** A call closes at the first right parenthesis that follows a complete argument text. */
  lemma ClosesAfterArgument(t: string, k: nat)
    ensures ClosesAt(t, k) <==> k < |t| && t[k] == ')' && IsArgument(t[..k])
  {
    if k < |t| {
      WalkSnoc(t, k, START);
    }
  }

  lemma ClosesOnce(t: string, j: nat, k: nat)
    requires ClosesAt(t, j) && ClosesAt(t, k)
    ensures j == k
  {
    if j < k {
      assert t[..k][..j + 1] == t[..j + 1];
      ClosedStays(t[..k], START, j + 1);
    } else if k < j {
      assert t[..j][..k + 1] == t[..k + 1];
      ClosedStays(t[..j], START, k + 1);
    }
  }

  /** The scan of one call: the index of its closing parenthesis, or the end of the text. */
  method FindClose(t: string) returns (k: nat)
    ensures ClosesAt(t, k) || (k == |t| && forall i :: !ClosesAt(t, i))
  {
    var j, depth, inStr := 0, 1, false;
    while j < |t| && depth > 0
      invariant j <= |t| && depth > 0
      invariant Walk(t[..j], START) == State(depth, if inStr then InString else Out)
    {
      WalkSnoc(t, j, START);
      var c := t[j];
      if inStr {
        if c == '\\' {
          if j + 1 < |t| {
            WalkSnoc(t, j + 1, START);
          } else {
            NeverCloses(t);
            return |t|;
          }
          j := j + 2;
          continue;
        }
        if c == '"' {
          inStr := false;
        }
      } else {
        if c == '"' {
          inStr := true;
        } else if c == '(' {
          depth := depth + 1;
        } else if c == ')' {
          depth := depth - 1;
          if depth == 0 {
            return j;
          }
        }
      }
      j := j + 1;
    }
    NeverCloses(t);
    return |t|;
  }

  lemma NeverCloses(t: string)
    requires Walk(t[..|t|], START).depth > 0 || (t != "" && Walk(t, START).depth > 0)
    ensures forall i :: !ClosesAt(t, i)
  {
    assert t[..|t|] == t;
    forall i: nat
      ensures !ClosesAt(t, i)
    {
      if ClosesAt(t, i) {
        ClosedStays(t, START, i + 1);
      }
    }
  }

  // ---- the argument texts as a grammar ----

  /** One character of a string literal, plain or after a backslash. */
  datatype Unit = Raw(c: char) | Escape(c: char)

  datatype Piece = Plain(c: char) | Literal(body: seq<Unit>) | Group(inner: seq<Piece>)

  predicate WellFormedUnit(u: Unit) {
    u.Raw? ==> u.c != '"' && u.c != '\\'
  }

  predicate WellFormed(p: Piece) {
    match p
    case Plain(c) => c != '"' && c != '(' && c != ')'
    case Literal(body) => forall i :: 0 <= i < |body| ==> WellFormedUnit(body[i])
    case Group(inner) => forall i :: 0 <= i < |inner| ==> WellFormed(inner[i])
  }

  ghost predicate AllWellFormed(pieces: seq<Piece>) {
    forall i :: 0 <= i < |pieces| ==> WellFormed(pieces[i])
  }

  function BodyText(body: seq<Unit>): string {
    if body == [] then ""
    else
      var u := Last(body);
      BodyText(body[..|body| - 1]) + (if u.Raw? then [u.c] else ['\\', u.c])
  }

  function PieceText(p: Piece): string {
    match p
    case Plain(c) => [c]
    case Literal(body) => "\"" + (BodyText(body) + "\"")
    case Group(inner) => "(" + (Text(inner) + ")")
  }

  function Text(pieces: seq<Piece>): string {
    if pieces == [] then "" else Text(pieces[..|pieces| - 1]) + PieceText(Last(pieces))
  }

  lemma WalkOne(c: char, s: State)
    ensures Walk([c], s) == Step(s, c)
  {
    assert [c][..0] == "";
  }

  lemma {:induction false} WalkBody(body: seq<Unit>, depth: nat)
    requires depth > 0 && forall i :: 0 <= i < |body| ==> WellFormedUnit(body[i])
    ensures Walk(BodyText(body), State(depth, InString)) == State(depth, InString)
  {
    if body != [] {
      var front, u, s := body[..|body| - 1], Last(body), State(depth, InString);
      WalkBody(front, depth);
      WalkConcat(BodyText(front), if u.Raw? then [u.c] else ['\\', u.c], s);
      WalkOne(u.c, s);
      WalkTwo('\\', u.c, s);
    }
  }

  lemma WalkTwo(c: char, d: char, s: State)
    ensures Walk([c, d], s) == Step(Step(s, c), d)
  {
    assert [c, d][..1] == [c];
    WalkOne(c, s);
  }

  /** `open`, a text that leaves the state as it is, and `close`. */
  lemma WalkWrapped(open: char, middle: string, close: char, s: State)
    requires Walk(middle, Step(s, open)) == Step(s, open)
    ensures Walk([open] + (middle + [close]), s) == Step(Step(s, open), close)
  {
    WalkOne(open, s);
    WalkConcat([open], middle + [close], s);
    WalkConcat(middle, [close], Step(s, open));
    WalkOne(close, Step(s, open));
  }

  lemma {:induction false} WalkPiece(p: Piece, depth: nat)
    requires depth > 0 && WellFormed(p)
    ensures Walk(PieceText(p), State(depth, Out)) == State(depth, Out)
    decreases p
  {
    match p {
      case Plain(c) => WalkOne(c, State(depth, Out));
      case Literal(body) =>
        WalkBody(body, depth);
        WalkWrapped('"', BodyText(body), '"', State(depth, Out));
      case Group(inner) =>
        WalkPieces(inner, depth + 1);
        WalkWrapped('(', Text(inner), ')', State(depth, Out));
    }
  }

  lemma {:induction false} WalkPieces(pieces: seq<Piece>, depth: nat)
    requires depth > 0 && AllWellFormed(pieces)
    ensures Walk(Text(pieces), State(depth, Out)) == State(depth, Out)
    decreases pieces
  {
    if pieces != [] {
      var front := pieces[..|pieces| - 1];
      WalkPieces(front, depth);
      WalkPiece(Last(pieces), depth);
      WalkConcat(Text(front), PieceText(Last(pieces)), State(depth, Out));
    }
  }

  // ---- reading a text back into the grammar ----

  /** The open groups of a text read so far, outermost first. */
  function OpenText(stack: seq<seq<Piece>>): string {
    if stack == [] then ""
    else if |stack| == 1 then Text(stack[0])
    else OpenText(stack[..|stack| - 1]) + "(" + Text(Last(stack))
  }

  ghost predicate StackWellFormed(stack: seq<seq<Piece>>) {
    forall i :: 0 <= i < |stack| ==> AllWellFormed(stack[i])
  }

  /** The unfinished literal at the end of the text, by mode. */
  function TailText(mode: Mode, body: seq<Unit>): string {
    match mode
    case Out => ""
    case InString => "\"" + BodyText(body)
    case Escaped => "\"" + BodyText(body) + "\\"
  }

  /** `t` is open groups, one per level of depth, and the literal under way. */
  ghost predicate Reads(t: string, s: State, stack: seq<seq<Piece>>, body: seq<Unit>) {
    && s.depth == |stack| > 0
    && StackWellFormed(stack)
    && (forall i :: 0 <= i < |body| ==> WellFormedUnit(body[i]))
    && (s.mode == Out ==> body == [])
    && t == OpenText(stack) + TailText(s.mode, body)
  }

  /** A piece added to the innermost open group. */
  function AddPiece(stack: seq<seq<Piece>>, p: Piece): seq<seq<Piece>>
    requires stack != []
  {
    stack[..|stack| - 1] + [Last(stack) + [p]]
  }

  lemma TextSnoc(pieces: seq<Piece>, p: Piece)
    ensures Text(pieces + [p]) == Text(pieces) + PieceText(p)
  {
    assert (pieces + [p])[..|pieces|] == pieces;
  }

  lemma BodySnoc(body: seq<Unit>, u: Unit)
    ensures BodyText(body + [u]) == BodyText(body) + (if u.Raw? then [u.c] else ['\\', u.c])
  {
    assert (body + [u])[..|body|] == body;
  }

  lemma AddPieceText(stack: seq<seq<Piece>>, p: Piece)
    requires stack != [] && StackWellFormed(stack) && WellFormed(p)
    ensures OpenText(AddPiece(stack, p)) == OpenText(stack) + PieceText(p)
    ensures StackWellFormed(AddPiece(stack, p)) && |AddPiece(stack, p)| == |stack|
  {
    var more := AddPiece(stack, p);
    TextSnoc(Last(stack), p);
    assert more[..|more| - 1] == stack[..|stack| - 1];
    if |stack| > 1 {
      Associate(OpenText(stack[..|stack| - 1]) + "(", Text(Last(stack)), PieceText(p));
    }
  }

  lemma PushText(stack: seq<seq<Piece>>)
    requires stack != [] && StackWellFormed(stack)
    ensures OpenText(stack + [[]]) == OpenText(stack) + "("
    ensures StackWellFormed(stack + [[]])
  {
    assert (stack + [[]])[..|stack|] == stack;
    AppendNothing(OpenText(stack) + "(", "");
  }

  lemma PopText(stack: seq<seq<Piece>>)
    requires |stack| > 1 && StackWellFormed(stack)
    ensures OpenText(AddPiece(stack[..|stack| - 1], Group(Last(stack)))) == OpenText(stack) + ")"
    ensures StackWellFormed(AddPiece(stack[..|stack| - 1], Group(Last(stack))))
  {
    var outer, inner := stack[..|stack| - 1], Last(stack);
    AddPieceText(outer, Group(inner));
    Associate(OpenText(outer), "(", Text(inner) + ")");
    Associate(OpenText(outer) + "(", Text(inner), ")");
  }

  lemma CloseLiteral(before: string, body: string)
    ensures before + ("\"" + body) + "\"" == before + ("\"" + (body + "\""))
  {
  }

  /** One more character read outside a literal. */
  lemma ReadOut(t: string, s: State, c: char, stack0: seq<seq<Piece>>) returns (stack: seq<seq<Piece>>, body: seq<Unit>)
    requires s.mode == Out && Reads(t, s, stack0, []) && Step(s, c).depth > 0
    ensures Reads(t + [c], Step(s, c), stack, body)
  {
    stack, body := stack0, [];
    AppendNothing(OpenText(stack0), "");
    if c == '"' {
      AppendNothing("\"", "");
    } else if c == '(' {
      PushText(stack0);
      stack := stack0 + [[]];
      AppendNothing(OpenText(stack), "");
    } else if c == ')' {
      PopText(stack0);
      stack := AddPiece(stack0[..|stack0| - 1], Group(Last(stack0)));
      AppendNothing(OpenText(stack), "");
    } else {
      AddPieceText(stack0, Plain(c));
      stack := AddPiece(stack0, Plain(c));
      AppendNothing(OpenText(stack), "");
    }
  }

  /** One more character read inside a literal. */
  lemma ReadIn(t: string, s: State, c: char, stack0: seq<seq<Piece>>, body0: seq<Unit>)
    returns (stack: seq<seq<Piece>>, body: seq<Unit>)
    requires s.mode != Out && Reads(t, s, stack0, body0)
    ensures Reads(t + [c], Step(s, c), stack, body)
  {
    stack, body := stack0, body0;
    var before, text := OpenText(stack0), BodyText(body0);
    if s.mode == Escaped {
      body := body0 + [Escape(c)];
      BodySnoc(body0, Escape(c));
      Associate(before, "\"" + text + "\\", [c]);
      assert "\"" + text + "\\" + [c] == "\"" + (text + ['\\', c]);
    } else if c == '\\' {
      Associate(before, "\"" + text, "\\");
    } else if c == '"' {
      CloseLiteral(before, text);
      AddPieceText(stack0, Literal(body0));
      stack, body := AddPiece(stack0, Literal(body0)), [];
      AppendNothing(OpenText(stack), "");
    } else {
      body := body0 + [Raw(c)];
      BodySnoc(body0, Raw(c));
      Associate(before, "\"" + text, [c]);
      Associate("\"", text, [c]);
    }
  }

  lemma {:induction false} ReadBack(t: string) returns (stack: seq<seq<Piece>>, body: seq<Unit>)
    requires Walk(t, START).depth > 0
    ensures Reads(t, Walk(t, START), stack, body)
  {
    if t == "" {
      stack, body := [[]], [];
    } else {
      var front := t[..|t| - 1];
      var s := Walk(front, START);
      stack, body := ReadBack(front);
      FrontAndLast(t);
      if s.mode == Out {
        stack, body := ReadOut(front, s, Last(t), stack);
      } else {
        stack, body := ReadIn(front, s, Last(t), stack, body);
      }
    }
  }

  ghost predicate Renders(b: string, pieces: seq<Piece>) {
    AllWellFormed(pieces) && b == Text(pieces)
  }

  /** The texts the scanner takes as arguments are exactly those with balanced parentheses and closed literals. */
  lemma ArgumentsAreBalanced(b: string)
    ensures IsArgument(b) <==> exists pieces :: Renders(b, pieces)
  {
    if IsArgument(b) {
      var stack, body := ReadBack(b);
      AppendNothing(OpenText(stack), "");
      assert Renders(b, stack[0]);
    }
    forall pieces | Renders(b, pieces)
      ensures IsArgument(b)
    {
      WalkPieces(pieces, 1);
    }
  }

  // ---- the file ----

  predicate StartsWithMarker(t: string) {
    |MARKER| <= |t| && t[..|MARKER|] == MARKER
  }

  /** `str.find` of the marker. */
  function FirstMarker(t: string): Option<nat> {
    if StartsWithMarker(t) then Some(0)
    else if t == "" then None
    else
      var rest := FirstMarker(t[1..]);
      if rest.None? then None else Some(rest.value + 1)
  }

  lemma {:induction false} FirstMarkerFits(t: string)
    ensures FirstMarker(t).Some? ==> FirstMarker(t).value + |MARKER| <= |t|
  {
    if !StartsWithMarker(t) && t != "" {
      FirstMarkerFits(t[1..]);
    }
  }

  /** Where the call whose arguments begin `t` closes, looking from `j` on; the end of the text if it never does. */
  function CloseFrom(t: string, j: nat): (k: nat)
    requires j <= |t|
    ensures j <= k <= |t|
    decreases |t| - j
  {
    if j == |t| || ClosesAt(t, j) then j else CloseFrom(t, j + 1)
  }

  lemma {:induction false} CloseIs(t: string, j: nat, k: nat)
    requires j <= k <= |t| && (ClosesAt(t, k) || (k == |t| && forall i :: !ClosesAt(t, i)))
    ensures CloseFrom(t, j) == k
    decreases |t| - j
  {
    if j < k {
      if ClosesAt(t, j) {
        ClosesOnce(t, j, k);
      }
      CloseIs(t, j + 1, k);
    }
  }

  /** What follows the first marker, which is at `at`. */
  function AfterMarker(t: string, at: nat): string
    requires at + |MARKER| <= |t|
  {
    t[at + |MARKER|..]
  }

  /** The argument texts of the calls of `t`, in order. */
  function Blocks(t: string): seq<string>
    decreases |t|, 0
  {
    var at := FirstMarker(t);
    if at.None? then []
    else
      FirstMarkerFits(t);
      BlocksFrom(AfterMarker(t, at.value))
  }

  /** The call whose arguments begin `args`, then those after it: the search resumes where that call closed. */
  function BlocksFrom(args: string): seq<string>
    decreases |args|, 1
  {
    var k := CloseFrom(args, 0);
    [args[..k]] + Blocks(args[k..])
  }

  lemma BlocksAtMarker(t: string, at: nat)
    requires FirstMarker(t) == Some(at) && at + |MARKER| <= |t|
    ensures Blocks(t) == BlocksFrom(AfterMarker(t, at)) && |AfterMarker(t, at)| < |t|
  {
  }

  lemma FirstBlock(args: string, k: nat)
    requires k <= |args| && CloseFrom(args, 0) == k
    ensures BlocksFrom(args) == [args[..k]] + Blocks(args[k..])
  {
  }

  method NextBlock(t: string) returns (block: Option<string>, rest: string)
    ensures block.None? ==> Blocks(t) == []
    ensures block.Some? ==> Blocks(t) == [block.value] + Blocks(rest) && |rest| < |t|
  {
    var at := FirstMarker(t);
    if at.None? {
      return None, t;
    }
    FirstMarkerFits(t);
    BlocksAtMarker(t, at.value);
    block, rest := FirstCall(AfterMarker(t, at.value));
  }

  method FirstCall(args: string) returns (block: Option<string>, rest: string)
    ensures block.Some? && BlocksFrom(args) == [block.value] + Blocks(rest) && |rest| <= |args|
  {
    var k := FindClose(args);
    CloseIs(args, 0, k);
    FirstBlock(args, k);
    return Some(args[..k]), args[k..];
  }

  /** `_swift_configfield_blocks`. */
  method ConfigFieldBlocks(t: string) returns (blocks: seq<string>)
    ensures blocks == Blocks(t)
  {
    blocks := [];
    var rest, more := t, true;
    var block: Option<string>;
    while more
      invariant if more then blocks + Blocks(rest) == Blocks(t) else blocks == Blocks(t)
      decreases more, |rest|
    {
      block, rest := NextBlock(rest);
      if block.Some? {
        Associate(blocks, [block.value], Blocks(rest));
        blocks := blocks + [block.value];
      } else {
        AppendNothing(blocks, []);
        more := false;
      }
    }
  }

  /** A file: calls, each after some text of its own, and what follows the last. */
  datatype Call = Call(gap: string, args: seq<Piece>)

  function FileText(calls: seq<Call>, tail: string): string {
    if calls == [] then tail
    else calls[0].gap + (MARKER + (Text(calls[0].args) + (")" + FileText(calls[1..], tail))))
  }

  ghost predicate ReadableCall(c: Call) {
    FirstMarker(c.gap).None? && AllWellFormed(c.args)
  }

  lemma MarkerChars(t: string)
    ensures StartsWithMarker(t) ==> |t| >= 12 && t[0] == 'C' && forall k :: 1 <= k < 12 ==> t[k] != 'C'
  {
    assert MARKER[0] == 'C' && forall k :: 1 <= k < 12 ==> MARKER[k] != 'C';
    if StartsWithMarker(t) {
      assert forall k :: 0 <= k < 12 ==> t[k] == t[..|MARKER|][k];
    }
  }

  /** The marker does not overlap itself, so text without it cannot hide where it starts. */
  lemma NoOverlap(gap: string, rest: string)
    requires gap != "" && StartsWithMarker(gap + (MARKER + rest))
    ensures StartsWithMarker(gap)
  {
    var t := gap + (MARKER + rest);
    MarkerChars(t);
    assert t[|gap|] == 'C';
    if |gap| >= |MARKER| {
      assert t[..|MARKER|] == gap[..|MARKER|];
    }
  }

  lemma {:induction false} MarkerAfterGap(gap: string, rest: string)
    requires FirstMarker(gap).None?
    ensures FirstMarker(gap + (MARKER + rest)) == Some(|gap|)
  {
    var t := gap + (MARKER + rest);
    if gap == "" {
      assert t[..|MARKER|] == MARKER;
    } else {
      if StartsWithMarker(t) {
        NoOverlap(gap, rest);
      }
      MarkerAfterGap(gap[1..], rest);
      assert t[1..] == gap[1..] + (MARKER + rest);
    }
  }

  lemma ShiftMarker(t: string)
    ensures FirstMarker(")" + t) == if FirstMarker(t).None? then None else Some(FirstMarker(t).value + 1)
  {
    NoMarkerAtParenthesis(t);
    assert (")" + t)[1..] == t;
  }

  lemma NoMarkerAtParenthesis(t: string)
    ensures !StartsWithMarker(")" + t)
  {
    MarkerChars(")" + t);
    assert (")" + t)[0] == ')';
  }

  lemma SkipParenthesis(t: string)
    ensures Blocks(")" + t) == Blocks(t)
  {
    ShiftMarker(t);
    var at := FirstMarker(t);
    if at.Some? {
      FirstMarkerFits(t);
      ShiftAfter(t, at.value);
      BlocksAtMarker(")" + t, at.value + 1);
      BlocksAtMarker(t, at.value);
    }
  }

  lemma ShiftAfter(t: string, at: nat)
    requires at + |MARKER| <= |t|
    ensures AfterMarker(")" + t, at + 1) == AfterMarker(t, at)
  {
  }

  lemma DropGap(gap: string, rest: string)
    ensures AfterMarker(gap + (MARKER + rest), |gap|) == rest
  {
  }

  lemma ArgumentEnds(b: string, rest: string)
    requires IsArgument(b)
    ensures CloseFrom(b + (")" + rest), 0) == |b|
    ensures (b + (")" + rest))[..|b|] == b && (b + (")" + rest))[|b|..] == ")" + rest
  {
    var t := b + (")" + rest);
    assert t[..|b|] == b;
    ClosesAfterArgument(t, |b|);
    CloseIs(t, 0, |b|);
  }

  lemma CallIsRead(c: Call, rest: string)
    requires ReadableCall(c)
    ensures Blocks(c.gap + (MARKER + (Text(c.args) + (")" + rest)))) == [Text(c.args)] + Blocks(rest)
  {
    var after := Text(c.args) + (")" + rest);
    MarkerAfterGap(c.gap, after);
    DropGap(c.gap, after);
    BlocksAtMarker(c.gap + (MARKER + after), |c.gap|);
    WalkPieces(c.args, 1);
    ArgumentEnds(Text(c.args), rest);
    FirstBlock(after, |Text(c.args)|);
    SkipParenthesis(rest);
  }

  function ArgumentTexts(calls: seq<Call>): seq<string> {
    if calls == [] then [] else [Text(calls[0].args)] + ArgumentTexts(calls[1..])
  }

  /** Every call of a file is found, once, in order, with exactly its argument text. */
  lemma {:induction false} EveryCallIsRead(calls: seq<Call>, tail: string)
    requires forall i :: 0 <= i < |calls| ==> ReadableCall(calls[i])
    requires FirstMarker(tail).None?
    ensures Blocks(FileText(calls, tail)) == ArgumentTexts(calls)
  {
    if calls != [] {
      CallIsRead(calls[0], FileText(calls[1..], tail));
      EveryCallIsRead(calls[1..], tail);
    }
  }
}
