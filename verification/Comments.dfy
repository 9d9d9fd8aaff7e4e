/**
 * `strip_comments`: blank out comments of a source text without moving a character or touching a string literal.
 */
module Comments {
  import opened Wrappers
  import opened Seqs

  /** What the scanner is inside of. */
  datatype Mode = InCode | Quoted(quote: char) | InLine | InBlock

  /** What a character belongs to. */
  datatype Region = Code | Literal | LineComment | BlockComment

  predicate IsQuote(c: char) {
    c == '"' || c == '\'' || c == '`'
  }

  predicate IsComment(r: Region) {
    r.LineComment? || r.BlockComment?
  }

  /** The two characters at the head of `t`. */
  predicate Heads(t: string, a: char, b: char) {
    |t| >= 2 && t[0] == a && t[1] == b
  }

  /**
   * The region of every character, scanning from mode `m`. A block comment's closing pair is looked for from the
   * opener's own asterisk on.
   */
  function Scan(t: string, m: Mode, blocks: bool): (r: seq<Region>)
    ensures |r| == |t|
  {
    if t == "" then []
    else
      match m
      case Quoted(q) =>
        if t[0] == '\\' then
          if |t| == 1 then [Literal] else [Literal, Literal] + Scan(t[2..], m, blocks)
        else [Literal] + Scan(t[1..], if t[0] == q then InCode else m, blocks)
      case InCode =>
        if IsQuote(t[0]) then [Literal] + Scan(t[1..], Quoted(t[0]), blocks)
        else if Heads(t, '/', '/') then [LineComment] + Scan(t[1..], InLine, blocks)
        else if blocks && Heads(t, '/', '*') then [BlockComment] + Scan(t[1..], InBlock, blocks)
        else [Code] + Scan(t[1..], InCode, blocks)
      case InLine =>
        if t[0] == '\n' then [Code] + Scan(t[1..], InCode, blocks)
        else [LineComment] + Scan(t[1..], InLine, blocks)
      case InBlock =>
        if Heads(t, '*', '/') then [BlockComment, BlockComment] + Scan(t[2..], InCode, blocks)
        else [BlockComment] + Scan(t[1..], InBlock, blocks)
  }

  function Blank(c: char, r: Region): char {
    if IsComment(r) && c != '\n' then ' ' else c
  }

  /** Every comment character other than a newline becomes a space. */
  function Mask(t: string, r: seq<Region>): (s: string)
    requires |t| == |r|
    ensures |s| == |t|
  {
    seq(|t|, i requires 0 <= i < |t| => Blank(t[i], r[i]))
  }

  function Strip(t: string, blocks: bool): string {
    Mask(t, Scan(t, InCode, blocks))
  }

  // ---- the program ----

  function ModeOf(quote: Option<char>): Mode {
    if quote.None? then InCode else Quoted(quote.value)
  }

  /** Everything before `i` is done, everything from `i` on is still the text, and the scan is in mode `m`. */
  ghost predicate Done(text: string, out: string, i: nat, m: Mode, blocks: bool) {
    && i <= |text| == |out|
    && out[i..] == text[i..]
    && out[..i] == Strip(text, blocks)[..i]
    && Scan(text, InCode, blocks)[i..] == Scan(text[i..], m, blocks)
  }

  /** Passing one character in region `r`: it is blanked or kept as the mask says. */
  lemma Pass(text: string, out: string, out': string, i: nat, m: Mode, m': Mode, r: Region, blocks: bool)
    requires Done(text, out, i, m, blocks) && i < |text|
    requires Scan(text[i..], m, blocks) == [r] + Scan(text[i + 1..], m', blocks)
    requires out' == out[i := Blank(text[i], r)]
    ensures Done(text, out', i + 1, m', blocks)
  {
    var all := Scan(text, InCode, blocks);
    assert all[i] == all[i..][0] == r;
    assert all[i + 1..] == all[i..][1..];
    assert Strip(text, blocks)[i] == Blank(text[i], r);
    assert out'[..i + 1] == Strip(text, blocks)[..i + 1];
  }

  lemma Keep(out: string, i: nat)
    requires i < |out|
    ensures out[i := out[i]] == out
  {
  }

  method StripComments(text: string, blocks: bool) returns (s: string)
    ensures s == Strip(text, blocks)
  {
    var out := new char[|text|](i requires 0 <= i < |text| => text[i]);
    assert out[..] == text;
    assert text[0..] == text && Scan(text, InCode, blocks)[0..] == Scan(text, InCode, blocks);
    var i, n := 0, |text|;
    var quote: Option<char> := None;
    while i < n
      invariant Done(text, out[..], if i > n then n else i, ModeOf(quote), blocks)
      decreases n - i
    {
      var c := text[i];
      assert text[i..][0] == c && text[i..][1..] == text[i + 1..];
      if quote.Some? {
        i, quote := StepLiteral(text, out, i, quote.value, blocks);
      } else if IsQuote(c) {
        PassKept(text, out[..], i, InCode, Quoted(c), Literal, blocks);
        quote := Some(c);
        i := i + 1;
      } else if c == '/' && i + 1 < n && text[i + 1] == '/' {
        EnterLine(text, i, blocks);
        i := BlankLine(text, out, i, blocks);
      } else if blocks && c == '/' && i + 1 < n && text[i + 1] == '*' {
        EnterBlock(text, i, blocks);
        i := BlankBlock(text, out, i, blocks);
      } else {
        PassKept(text, out[..], i, InCode, InCode, Code, blocks);
        i := i + 1;
      }
    }
    assert out[..n] == out[..];
    s := out[..];
  }

  lemma PassKept(text: string, out: string, i: nat, m: Mode, m': Mode, r: Region, blocks: bool)
    requires Done(text, out, i, m, blocks) && i < |text| && !IsComment(r)
    requires Scan(text[i..], m, blocks) == [r] + Scan(text[i + 1..], m', blocks)
    ensures Done(text, out, i + 1, m', blocks)
  {
    assert out[i] == out[i..][0] == text[i..][0];
    Keep(out, i);
    Pass(text, out, out, i, m, m', r, blocks);
  }

  /** Inside a literal: an escape takes two characters, the closing quote ends it, anything else is passed. */
  method StepLiteral(text: string, out: array<char>, i: nat, q: char, blocks: bool)
    returns (i': nat, quote: Option<char>)
    requires i < |text| && Done(text, out[..], i, Quoted(q), blocks)
    ensures i < i'
    ensures Done(text, out[..], if i' > |text| then |text| else i', ModeOf(quote), blocks)
  {
    quote := Some(q);
    assert text[i..][0] == text[i] && text[i..][1..] == text[i + 1..];
    if text[i] == '\\' {
      PassEscape(text, out[..], i, q, blocks);
      return i + 2, quote;
    }
    PassKept(text, out[..], i, Quoted(q), if text[i] == q then InCode else Quoted(q), Literal, blocks);
    if text[i] == q {
      quote := None;
    }
    return i + 1, quote;
  }

  lemma PassEscape(text: string, out: string, i: nat, q: char, blocks: bool)
    requires i < |text| && text[i] == '\\' && Done(text, out, i, Quoted(q), blocks)
    ensures Done(text, out, if i + 2 > |text| then |text| else i + 2, Quoted(q), blocks)
  {
    var t := text[i..];
    var all := Scan(text, InCode, blocks);
    var end := if i + 2 > |text| then |text| else i + 2;
    if |t| == 1 {
      assert text[end..] == "" && all[end..] == [];
    } else {
      assert t[2..] == text[end..];
      assert all[end..] == all[i..][2..];
    }
    forall k | i <= k < end
      ensures Strip(text, blocks)[k] == out[k]
    {
      assert all[k] == all[i..][k - i] == Literal;
      assert out[k] == out[i..][k - i] == text[i..][k - i];
    }
    assert out[..end] == Strip(text, blocks)[..end];
    assert out[end..] == out[i..][end - i..] == text[i..][end - i..];
  }

  lemma EnterLine(text: string, i: nat, blocks: bool)
    requires i + 1 < |text| && text[i] == '/' && text[i + 1] == '/'
    ensures Scan(text[i..], InCode, blocks) == Scan(text[i..], InLine, blocks)
  {
  }

  /** A line comment: blank up to the newline, which is left to the code scan. */
  method BlankLine(text: string, out: array<char>, i: nat, blocks: bool) returns (i': nat)
    requires i + 1 < |text| && text[i] == '/'
    requires Done(text, out[..], i, InLine, blocks)
    modifies out
    ensures i < i' <= |text| && Done(text, out[..], i', InCode, blocks)
  {
    i' := i;
    while i' < |text| && text[i'] != '\n'
      invariant i <= i' <= |text| && Done(text, out[..], i', InLine, blocks)
      invariant i' == i ==> text[i'] == '/'
    {
      BlankInLine(text, out, i', blocks);
      i' := i' + 1;
    }
    LeaveLine(text, i', blocks);
  }

  method BlankInLine(text: string, out: array<char>, i: nat, blocks: bool)
    requires i < |text| && text[i] != '\n'
    requires Done(text, out[..], i, InLine, blocks)
    modifies out
    ensures Done(text, out[..], i + 1, InLine, blocks)
  {
    assert text[i..][0] == text[i] && text[i..][1..] == text[i + 1..];
    Pass(text, out[..], out[..][i := ' '], i, InLine, InLine, LineComment, blocks);
    out[i] := ' ';
  }

  lemma LeaveLine(text: string, i: nat, blocks: bool)
    requires i == |text| || (i < |text| && text[i] == '\n')
    ensures Scan(text[i..], InLine, blocks) == Scan(text[i..], InCode, blocks)
  {
  }

  lemma EnterBlock(text: string, i: nat, blocks: bool)
    requires blocks && i + 1 < |text| && text[i] == '/' && text[i + 1] == '*'
    ensures Scan(text[i..], InCode, blocks) == Scan(text[i..], InBlock, blocks)
  {
  }

  /** A block comment: blank all but newlines up to the closing pair, then that pair. */
  method BlankBlock(text: string, out: array<char>, i: nat, blocks: bool) returns (i': nat)
    requires i < |text| && text[i] == '/'
    requires Done(text, out[..], i, InBlock, blocks)
    modifies out
    ensures i < i' <= |text| && Done(text, out[..], i', InCode, blocks)
  {
    i' := i;
    while i' < |text| && !(text[i'] == '*' && i' + 1 < |text| && text[i' + 1] == '/')
      invariant i <= i' <= |text| && Done(text, out[..], i', InBlock, blocks)
      invariant i' == i ==> text[i'] == '/'
    {
      BlankInBlock(text, out, i', blocks);
      i' := i' + 1;
    }
    if i' < |text| {
      CloseBlock(text, out[..], i', blocks);
      out[i'] := ' ';
      out[i' + 1] := ' ';
      i' := i' + 2;
    }
  }

  method BlankInBlock(text: string, out: array<char>, i: nat, blocks: bool)
    requires i < |text| && !Heads(text[i..], '*', '/')
    requires Done(text, out[..], i, InBlock, blocks)
    modifies out
    ensures Done(text, out[..], i + 1, InBlock, blocks)
  {
    assert text[i..][0] == text[i] && text[i..][1..] == text[i + 1..];
    Pass(text, out[..], out[..][i := Blank(text[i], BlockComment)], i, InBlock, InBlock, BlockComment, blocks);
    if text[i] != '\n' {
      out[i] := ' ';
    } else {
      KeptNewline(text, out[..], i, InBlock, blocks);
    }
  }

  lemma KeptNewline(text: string, out: string, i: nat, m: Mode, blocks: bool)
    requires i < |text| && Done(text, out, i, m, blocks) && text[i] == '\n'
    ensures out[i := '\n'] == out
  {
    assert out[i] == out[i..][0] == text[i..][0];
  }

  lemma CloseBlock(text: string, out: string, i: nat, blocks: bool)
    requires i + 1 < |text| && text[i] == '*' && text[i + 1] == '/'
    requires Done(text, out, i, InBlock, blocks)
    ensures Done(text, out[i := ' '][i + 1 := ' '], i + 2, InCode, blocks)
  {
    var all := Scan(text, InCode, blocks);
    assert Heads(text[i..], '*', '/') && text[i..][2..] == text[i + 2..];
    assert all[i] == all[i..][0] && all[i + 1] == all[i..][1] && all[i + 2..] == all[i..][2..];
    var out' := out[i := ' '][i + 1 := ' '];
    assert out'[..i + 2] == Strip(text, blocks)[..i + 2] by {
      assert forall k :: 0 <= k < i ==> out'[k] == out[..i][k] == Strip(text, blocks)[..i][k];
    }
    assert out'[i + 2..] == out[i..][2..] == text[i..][2..];
  }

  // ---- what stripping does and does not touch ----

  /** Length, newlines, code and literals stay; every other comment character becomes a space. */
  lemma StripChangesOnlyComments(t: string, blocks: bool)
    ensures |Strip(t, blocks)| == |t|
    ensures forall i :: 0 <= i < |t| ==> (Strip(t, blocks)[i] == '\n' <==> t[i] == '\n')
    ensures forall i :: 0 <= i < |t| && !IsComment(Scan(t, InCode, blocks)[i]) ==> Strip(t, blocks)[i] == t[i]
    ensures forall i :: 0 <= i < |t| && IsComment(Scan(t, InCode, blocks)[i]) && t[i] != '\n' ==>
              Strip(t, blocks)[i] == ' '
  {
  }

  /** The mode in which the stripped text is scanned where the original was in mode `m`. */
  function Settled(m: Mode): Mode {
    if m.Quoted? then m else InCode
  }

  function Demote(r: seq<Region>): seq<Region> {
    Map(r, (x: Region) => if IsComment(x) then Code else x)
  }

  lemma MaskCons(t: string, r: seq<Region>)
    requires |t| == |r| && t != ""
    ensures Mask(t, r) == [Blank(t[0], r[0])] + Mask(t[1..], r[1..])
    ensures Demote(r) == [if IsComment(r[0]) then Code else r[0]] + Demote(r[1..])
  {
  }

  /**
   * The scan of the stripped text follows the scan of the original: literals are where they were, and what was
   * comment is now code.
   */
  lemma {:induction false} StrippedScan(t: string, m: Mode, blocks: bool)
    ensures Scan(Mask(t, Scan(t, m, blocks)), Settled(m), blocks) == Demote(Scan(t, m, blocks))
    decreases |t|, 1
  {
    var r := Scan(t, m, blocks);
    if t != "" {
      MaskCons(t, r);
      if m.Quoted? && t[0] == '\\' {
        StrippedEscape(t, m, blocks);
      } else if m == InBlock && Heads(t, '*', '/') {
        StrippedClose(t, blocks);
      } else {
        var m' := NextMode(t, m, blocks);
        StrippedScan(t[1..], m', blocks);
        assert r[1..] == Scan(t[1..], m', blocks);
        StrippedStep(t, m, blocks);
      }
    }
  }

  /** The mode after one character that is neither an escape nor a closing pair. */
  function NextMode(t: string, m: Mode, blocks: bool): Mode
    requires t != ""
  {
    match m
    case Quoted(q) => if t[0] == q then InCode else m
    case InCode =>
      if IsQuote(t[0]) then Quoted(t[0])
      else if Heads(t, '/', '/') then InLine
      else if blocks && Heads(t, '/', '*') then InBlock
      else InCode
    case InLine => if t[0] == '\n' then InCode else InLine
    case InBlock => InBlock
  }

  lemma StrippedStep(t: string, m: Mode, blocks: bool)
    requires t != "" && !(m.Quoted? && t[0] == '\\') && !(m == InBlock && Heads(t, '*', '/'))
    ensures var s, m' := Mask(t, Scan(t, m, blocks)), NextMode(t, m, blocks);
            Scan(s, Settled(m), blocks) ==
            [if IsComment(Scan(t, m, blocks)[0]) then Code else Scan(t, m, blocks)[0]]
            + Scan(s[1..], Settled(m'), blocks)
  {
    var r := Scan(t, m, blocks);
    var s := Mask(t, r);
    if |t| > 1 {
      assert s[1] == Blank(t[1], r[1]);
    }
    assert s[0] == Blank(t[0], r[0]);
  }

  lemma StrippedEscape(t: string, m: Mode, blocks: bool)
    requires t != "" && m.Quoted? && t[0] == '\\'
    ensures Scan(Mask(t, Scan(t, m, blocks)), m, blocks) == Demote(Scan(t, m, blocks))
    decreases |t|, 0
  {
    var r := Scan(t, m, blocks);
    if |t| > 1 {
      StrippedScan(t[2..], m, blocks);
      assert r[2..] == Scan(t[2..], m, blocks);
      MaskTwo(t, r);
    }
  }

  lemma StrippedClose(t: string, blocks: bool)
    requires Heads(t, '*', '/')
    ensures Scan(Mask(t, Scan(t, InBlock, blocks)), InCode, blocks) == Demote(Scan(t, InBlock, blocks))
    decreases |t|, 0
  {
    var r := Scan(t, InBlock, blocks);
    StrippedScan(t[2..], InCode, blocks);
    assert r[2..] == Scan(t[2..], InCode, blocks);
    MaskTwo(t, r);
    var s := Mask(t, r);
    assert s[0] == ' ' && s[1] == ' ';
    TwoSpaces(s, blocks);
  }

  lemma TwoSpaces(s: string, blocks: bool)
    requires Heads(s, ' ', ' ')
    ensures Scan(s, InCode, blocks) == [Code, Code] + Scan(s[2..], InCode, blocks)
  {
    assert s[1..][0] == ' ' && s[1..][1..] == s[2..];
  }

  lemma MaskTwo(t: string, r: seq<Region>)
    requires |t| == |r| >= 2
    ensures Mask(t, r)[2..] == Mask(t[2..], r[2..])
    ensures Demote(r) ==
            [if IsComment(r[0]) then Code else r[0], if IsComment(r[1]) then Code else r[1]] + Demote(r[2..])
  {
  }

  /** Nothing in a stripped text is read as a comment. */
  lemma StrippedHasNoComment(t: string, blocks: bool)
    ensures forall i :: 0 <= i < |t| ==> !IsComment(Scan(Strip(t, blocks), InCode, blocks)[i])
    ensures forall i :: 0 <= i < |t| ==>
              (Scan(Strip(t, blocks), InCode, blocks)[i] == Literal <==> Scan(t, InCode, blocks)[i] == Literal)
  {
    StrippedScan(t, InCode, blocks);
  }

  /** Stripping twice is stripping once. */
  lemma StripIsIdempotent(t: string, blocks: bool)
    ensures Strip(Strip(t, blocks), blocks) == Strip(t, blocks)
  {
    StrippedHasNoComment(t, blocks);
  }
}
