/**
 * Where `strip_comments` and the comments of the languages it reads part company. The scanner looks for the end of a
 * block comment from the opener's own asterisk on, and it never nests; TypeScript closes a comment no earlier than
 * after the opener, and Swift nests.
 */
module CommentSyntax {
  import opened Comments

  /**
   * Comments as the languages read them. `deeper` is the number of comments open around the innermost one; it stays 0
   * unless comments nest. String literals are those of the scanner.
   */
  function Reference(t: string, m: Mode, deeper: nat, nests: bool): (r: seq<Region>)
    ensures |r| == |t|
  {
    if t == "" then []
    else if m == InCode && Heads(t, '/', '*') then
      [BlockComment, BlockComment] + Reference(t[2..], InBlock, 0, nests)
    else if m.Quoted? && t[0] == '\\' then
      if |t| == 1 then [Literal] else [Literal, Literal] + Reference(t[2..], m, deeper, nests)
    else if m == InBlock && nests && Heads(t, '/', '*') then
      [BlockComment, BlockComment] + Reference(t[2..], InBlock, deeper + 1, nests)
    else if m == InBlock && Heads(t, '*', '/') then
      [BlockComment, BlockComment]
      + (if deeper == 0 then Reference(t[2..], InCode, 0, nests) else Reference(t[2..], InBlock, deeper - 1, nests))
    else
      [Owner(t, m)] + Reference(t[1..], NextMode(t, m, true), deeper, nests)
  }

  /** What a character belongs to that neither opens nor closes a block comment nor is escaped. */
  function Owner(t: string, m: Mode): Region
    requires t != ""
  {
    match m
    case Quoted(_) => Literal
    case InCode => if IsQuote(t[0]) then Literal else if Heads(t, '/', '/') then LineComment else Code
    case InLine => if t[0] == '\n' then Code else LineComment
    case InBlock => BlockComment
  }

  /** The text with the comments of the language blanked. */
  function Stripped(t: string, nests: bool): string {
    Mask(t, Reference(t, InCode, 0, nests))
  }

  // ---- when the scanner finds the very same comments, without nesting ----

  /** An opener followed by a slash, and then by anything but the end of the text or another opener. */
  predicate Misread(t: string) {
    Heads(t, '/', '*') && |t| > 3 && t[2] == '/' && !Heads(t[3..], '/', '*')
  }

  /** No opener at which a block comment begins is misread. */
  predicate NoneMisread(t: string, m: Mode) {
    if t == "" then true
    else if m == InCode && Heads(t, '/', '*') then !Misread(t) && NoneMisread(t[2..], InBlock)
    else if m.Quoted? && t[0] == '\\' then |t| == 1 || NoneMisread(t[2..], m)
    else if m == InBlock && Heads(t, '*', '/') then NoneMisread(t[2..], InCode)
    else NoneMisread(t[1..], NextMode(t, m, true))
  }

  function Flat(t: string, m: Mode): seq<Region> {
    Reference(t, m, 0, false)
  }

  lemma SameAfterOne(r: Region, a: seq<Region>, b: seq<Region>)
    ensures [r] + a == [r] + b <==> a == b
  {
    assert ([r] + a)[1..] == a && ([r] + b)[1..] == b;
  }

  lemma SameAfterTwo(r: Region, a: seq<Region>, b: seq<Region>)
    ensures [r, r] + a == [r, r] + b <==> a == b
  {
    assert ([r, r] + a)[2..] == a && ([r, r] + b)[2..] == b;
  }

  /** For comments that do not nest, the regions are the language's when, and only when, no opener is misread. */
  lemma {:induction false} ScansAsReference(t: string, m: Mode)
    ensures Scan(t, m, true) == Flat(t, m) <==> NoneMisread(t, m)
    decreases |t|
  {
    if t == "" {
    } else if m == InCode && Heads(t, '/', '*') {
      AtOpener(t);
      ScansAsReference(t[2..], InBlock);
    } else if m.Quoted? && t[0] == '\\' {
      if |t| > 1 {
        ScansAsReference(t[2..], m);
        SameAfterTwo(Literal, Scan(t[2..], m, true), Flat(t[2..], m));
      }
    } else if m == InBlock && Heads(t, '*', '/') {
      ScansAsReference(t[2..], InCode);
      SameAfterTwo(BlockComment, Scan(t[2..], InCode, true), Flat(t[2..], InCode));
    } else {
      var m' := NextMode(t, m, true);
      ScansAsReference(t[1..], m');
      SameAfterOne(Scan(t, m, true)[0], Scan(t[1..], m', true), Flat(t[1..], m'));
    }
  }

  /** At an opener: when it is not misread, both lexers are in the comment two characters on. */
  lemma AtOpener(t: string)
    requires Heads(t, '/', '*')
    ensures Misread(t) ==> Scan(t, InCode, true) != Flat(t, InCode)
    ensures !Misread(t) ==>
              (Scan(t, InCode, true) == Flat(t, InCode) <==> Scan(t[2..], InBlock, true) == Flat(t[2..], InBlock))
  {
    var u := t[1..];
    assert u[1..] == t[2..];
    if |t| > 2 && t[2] == '/' {
      assert u[2..] == t[3..] && t[2..][1..] == t[3..];
      assert Scan(t, InCode, true) == [BlockComment] + ([BlockComment, BlockComment] + Scan(t[3..], InCode, true));
      assert Flat(t[2..], InBlock) == [BlockComment] + Flat(t[3..], InBlock);
      assert Flat(t, InCode) == [BlockComment, BlockComment] + ([BlockComment] + Flat(t[3..], InBlock));
      if |t| == 3 {
      } else if Misread(t) {
        assert Scan(t, InCode, true)[3] == Scan(t[3..], InCode, true)[0] != BlockComment;
        assert Flat(t, InCode)[3] == Flat(t[3..], InBlock)[0] == BlockComment;
      } else {
        SecondOpener(t[3..]);
        assert Scan(t, InCode, true)[3..] == Scan(t[3..], InCode, true);
        assert Scan(t[2..], InBlock, true) == [BlockComment] + Scan(t[3..], InBlock, true);
        assert Scan(t, InCode, true) == [BlockComment, BlockComment] + Scan(t[2..], InBlock, true);
        SameAfterTwo(BlockComment, Scan(t[2..], InBlock, true), Flat(t[2..], InBlock));
      }
    } else {
      assert !Heads(u, '*', '/');
      assert Scan(t, InCode, true) == [BlockComment, BlockComment] + Scan(t[2..], InBlock, true);
      SameAfterTwo(BlockComment, Scan(t[2..], InBlock, true), Flat(t[2..], InBlock));
    }
  }

  /** An opener reads the same whether or not a comment is already under way. */
  lemma SecondOpener(t: string)
    requires Heads(t, '/', '*')
    ensures Scan(t, InCode, true) == Scan(t, InBlock, true)
  {
  }

  // ---- when the stripped text is the same ----

  /**
   * Nothing visible sets the scanner and the language apart, read from scanner mode `m` and language mode `n`. They
   * part at an opener followed by a slash, and at a closer inside a nested comment: the scanner is then back in code
   * while the comment goes on. That does no harm as long as only blanks, line comments and further block comments
   * follow until both agree again.
   */
  predicate Harmless(t: string, m: Mode, n: Mode, deeper: nat, nests: bool)
    decreases |t|
  {
    if t == "" then true
    else if m == InBlock then
      if Heads(t, '*', '/') then Harmless(t[2..], InCode, Outside(deeper), Outer(deeper), nests)
      else if nests && Heads(t, '/', '*') then Opened(t, deeper + 1, nests)
      else Harmless(t[1..], InBlock, InBlock, deeper, nests)
    else if m == InCode && n == InBlock then
      if Heads(t, '/', '/') then Harmless(t[1..], InLine, InBlock, deeper, nests)
      else if Heads(t, '/', '*') && nests then Opened(t, deeper + 1, nests)
      else if ShortOpener(t) then Harmless(t[3..], InCode, Outside(deeper), Outer(deeper), nests)
      else if Heads(t, '/', '*') then Harmless(t[2..], InBlock, InBlock, deeper, nests)
      else IsBlank(t[0]) && Harmless(t[1..], InCode, InBlock, deeper, nests)
    else if m == InLine && n == InBlock then
      if Heads(t, '*', '/') then Harmless(t[2..], InLine, Outside(deeper), Outer(deeper), nests)
      else if Heads(t, '/', '*') && nests then Harmless(t[2..], InLine, InBlock, deeper + 1, nests)
      else Harmless(t[1..], NextMode(t, InLine, true), InBlock, deeper, nests)
    else if m == InLine && n == InCode then
      if Heads(t, '/', '/') then Harmless(t[1..], InLine, InLine, 0, nests)
      else if Heads(t, '/', '*') then Harmless(t[2..], InLine, InBlock, 0, nests)
      else IsBlank(t[0]) && Harmless(t[1..], NextMode(t, InLine, true), InCode, 0, nests)
    else if m == InCode && Heads(t, '/', '*') then Opened(t, 0, nests)
    else if m.Quoted? && t[0] == '\\' then |t| == 1 || Harmless(t[2..], m, m, 0, nests)
    else Harmless(t[1..], NextMode(t, m, true), NextMode(t, m, true), 0, nests)
  }

  /** Both lexers enter a comment: the scanner is out of it at once when a slash follows. */
  predicate Opened(t: string, deeper: nat, nests: bool)
    requires Heads(t, '/', '*')
    decreases |t|, 0
  {
    if ShortOpener(t) then Harmless(t[3..], InCode, InBlock, deeper, nests)
    else Harmless(t[2..], InBlock, InBlock, deeper, nests)
  }

  predicate ShortOpener(t: string) {
    Heads(t, '/', '*') && |t| > 2 && t[2] == '/'
  }

  predicate IsBlank(c: char) {
    c == ' ' || c == '\n'
  }

  function Outside(deeper: nat): Mode {
    if deeper == 0 then InCode else InBlock
  }

  function Outer(deeper: nat): nat {
    if deeper == 0 then 0 else deeper - 1
  }

  /** The pairs of modes the two lexers can be in. */
  predicate Reachable(m: Mode, n: Mode, deeper: nat, nests: bool) {
    && (deeper > 0 ==> nests && n == InBlock)
    && (m == n || (m == InCode && n == InBlock) || (m == InLine && (n == InBlock || n == InCode)))
  }

  ghost predicate Alike(t: string, m: Mode, n: Mode, deeper: nat, nests: bool) {
    Mask(t, Scan(t, m, true)) == Mask(t, Reference(t, n, deeper, nests))
  }

  lemma MaskSplit(t: string, a: seq<Region>, rest: seq<Region>)
    requires |a| + |rest| == |t|
    ensures Mask(t, a + rest) == Mask(t[..|a|], a) + Mask(t[|a|..], rest)
  {
  }

  lemma SameTail(p: string, a: string, q: string, b: string)
    requires |p| == |q|
    ensures p + a == q + b <==> p == q && a == b
  {
    if p + a == q + b {
      assert (p + a)[..|p|] == p && (q + b)[..|p|] == q && (p + a)[|p|..] == a && (q + b)[|p|..] == b;
    }
  }

  /** Both lexers pass the same characters: the texts agree when the stretch does and the rest does. */
  lemma Lockstep(t: string, k: nat, a: seq<Region>, x: seq<Region>, b: seq<Region>, y: seq<Region>)
    requires |a| == |b| == k <= |t| && |x| == |y| == |t| - k
    ensures Mask(t, a + x) == Mask(t, b + y) <==>
            Mask(t[..k], a) == Mask(t[..k], b) && Mask(t[k..], x) == Mask(t[k..], y)
  {
    MaskSplit(t, a, x);
    MaskSplit(t, b, y);
    SameTail(Mask(t[..k], a), Mask(t[k..], x), Mask(t[..k], b), Mask(t[k..], y));
  }

  predicate AllComments(r: seq<Region>) {
    forall i :: 0 <= i < |r| ==> IsComment(r[i])
  }

  /** Comment characters look alike whatever comment they belong to. */
  lemma CommentsLookAlike(s: string, a: seq<Region>, b: seq<Region>)
    requires |s| == |a| == |b| && AllComments(a) && AllComments(b)
    ensures Mask(s, a) == Mask(s, b)
  {
  }

  lemma OneStep(t: string, a: Region, x: seq<Region>, b: Region, y: seq<Region>)
    requires t != "" && |x| == |y| == |t| - 1
    ensures Mask(t, [a] + x) == Mask(t, [b] + y) <==>
            Blank(t[0], a) == Blank(t[0], b) && Mask(t[1..], x) == Mask(t[1..], y)
  {
    Lockstep(t, 1, [a], x, [b], y);
    assert Mask(t[..1], [a]) == [Blank(t[0], a)] && Mask(t[..1], [b]) == [Blank(t[0], b)];
  }

  lemma CommentStep(t: string, a: seq<Region>, x: seq<Region>, b: seq<Region>, y: seq<Region>)
    requires |a| == |b| && |a| + |x| == |b| + |y| == |t| && AllComments(a) && AllComments(b)
    ensures Mask(t, a + x) == Mask(t, b + y) <==> Mask(t[|a|..], x) == Mask(t[|a|..], y)
  {
    Lockstep(t, |a|, a, x, b, y);
    CommentsLookAlike(t[..|a|], a, b);
  }

  const TWO := [BlockComment, BlockComment]
  const THREE := [BlockComment, BlockComment, BlockComment]

  /** A closer read by both, or by the language inside a line comment of the scanner. */
  lemma CloserStep(t: string, m: Mode, deeper: nat, nests: bool)
    requires Heads(t, '*', '/') && (m == InBlock || m == InLine)
    ensures Alike(t, m, InBlock, deeper, nests) <==>
            Alike(t[2..], if m == InLine then InLine else InCode, Outside(deeper), Outer(deeper), nests)
  {
    var m' := if m == InLine then InLine else InCode;
    var a := if m == InLine then [LineComment, LineComment] else TWO;
    assert t[1..][1..] == t[2..];
    assert Scan(t, m, true) == a + Scan(t[2..], m', true);
    CommentStep(t, a, Scan(t[2..], m', true), TWO, Reference(t[2..], Outside(deeper), Outer(deeper), nests));
  }

  /** An opener both take, with no slash after it. */
  lemma OpenerStep(t: string, m: Mode, n: Mode, deeper: nat, inside: nat, nests: bool)
    requires Heads(t, '/', '*') && (m == InCode || m == InBlock) && !ShortOpener(t)
    requires Reference(t, n, deeper, nests) == TWO + Reference(t[2..], InBlock, inside, nests)
    ensures Alike(t, m, n, deeper, nests) <==> Alike(t[2..], InBlock, InBlock, inside, nests)
  {
    var u := t[1..];
    assert u[1..] == t[2..];
    assert !Heads(u, '*', '/');
    assert Scan(u, InBlock, true) == [BlockComment] + Scan(t[2..], InBlock, true);
    assert Scan(t, m, true) == TWO + Scan(t[2..], InBlock, true);
    CommentStep(t, TWO, Scan(t[2..], InBlock, true), TWO, Reference(t[2..], InBlock, inside, nests));
  }

  lemma ShortScan(t: string, m: Mode)
    requires ShortOpener(t) && (m == InCode || m == InBlock)
    ensures Scan(t, m, true) == THREE + Scan(t[3..], InCode, true)
  {
    var u := t[1..];
    assert u[2..] == t[3..];
    assert Scan(u, InBlock, true) == TWO + Scan(t[3..], InCode, true);
  }

  /** An opener both take, with a slash after it: the scanner is back in code. */
  lemma ShortOpenerStep(t: string, m: Mode, n: Mode, deeper: nat, inside: nat, nests: bool)
    requires ShortOpener(t) && (m == InCode || m == InBlock)
    requires Reference(t, n, deeper, nests) == TWO + Reference(t[2..], InBlock, inside, nests)
    ensures Alike(t, m, n, deeper, nests) <==> Alike(t[3..], InCode, InBlock, inside, nests)
  {
    ShortScan(t, m);
    if nests && Heads(t[2..], '/', '*') {
      OverlapDiffers(t, m, n, deeper, inside);
    } else {
      assert t[2..][1..] == t[3..];
      assert Reference(t[2..], InBlock, inside, nests) == [BlockComment] + Reference(t[3..], InBlock, inside, nests);
      assert Reference(t, n, deeper, nests) == THREE + Reference(t[3..], InBlock, inside, nests);
      CommentStep(t, THREE, Scan(t[3..], InCode, true), THREE, Reference(t[3..], InBlock, inside, nests));
    }
  }

  /** After opener and slash a further asterisk is code to the scanner and comment to a language that nests. */
  lemma OverlapDiffers(t: string, m: Mode, n: Mode, deeper: nat, inside: nat)
    requires Heads(t, '/', '*') && Heads(t[2..], '/', '*')
    requires Scan(t, m, true) == THREE + Scan(t[3..], InCode, true)
    requires Reference(t, n, deeper, true) == TWO + Reference(t[2..], InBlock, inside, true)
    ensures !Alike(t, m, n, deeper, true)
    ensures !Alike(t[3..], InCode, InBlock, inside, true)
  {
    var u := t[3..];
    assert u[0] == '*' == t[3];
    assert Scan(u, InCode, true)[0] == Code && Reference(u, InBlock, inside, true)[0] == BlockComment;
    assert Mask(u, Scan(u, InCode, true))[0] == '*' && Mask(u, Reference(u, InBlock, inside, true))[0] == ' ';
    assert Reference(t[2..], InBlock, inside, true)[1] == BlockComment;
    assert Scan(t, m, true)[3] == Code && Reference(t, n, deeper, true)[3] == BlockComment;
    assert Mask(t, Scan(t, m, true))[3] == '*' && Mask(t, Reference(t, n, deeper, true))[3] == ' ';
  }

  /** Inside a comment of a language that does not nest, scanner and language close alike whatever the scanner is in. */
  lemma FlatOpenerStep(t: string)
    requires Heads(t, '/', '*')
    ensures Alike(t, InCode, InBlock, 0, false) <==>
            if ShortOpener(t) then Alike(t[3..], InCode, InCode, 0, false)
            else Alike(t[2..], InBlock, InBlock, 0, false)
  {
    var u := t[1..];
    assert u[1..] == t[2..];
    assert Scan(t, InCode, true) == [BlockComment] + Scan(u, InBlock, true);
    assert Reference(t, InBlock, 0, false) == [BlockComment] + Reference(u, InBlock, 0, false);
    OneStep(t, BlockComment, Scan(u, InBlock, true), BlockComment, Reference(u, InBlock, 0, false));
    if ShortOpener(t) {
      assert u[2..] == t[3..];
      CloserStep(u, InBlock, 0, false);
    } else {
      assert Scan(u, InBlock, true) == [BlockComment] + Scan(t[2..], InBlock, true);
      assert Reference(u, InBlock, 0, false) == [BlockComment] + Reference(t[2..], InBlock, 0, false);
      OneStep(u, BlockComment, Scan(t[2..], InBlock, true), BlockComment, Reference(t[2..], InBlock, 0, false));
    }
  }

  /** An opener the language takes inside a line comment of the scanner. */
  lemma LineOpenerStep(t: string, n: Mode, deeper: nat, inside: nat, nests: bool)
    requires Heads(t, '/', '*')
    requires Reference(t, n, deeper, nests) == TWO + Reference(t[2..], InBlock, inside, nests)
    ensures Alike(t, InLine, n, deeper, nests) <==> Alike(t[2..], InLine, InBlock, inside, nests)
  {
    assert t[1..][1..] == t[2..];
    assert Scan(t, InLine, true) == [LineComment, LineComment] + Scan(t[2..], InLine, true);
    CommentStep(t, [LineComment, LineComment], Scan(t[2..], InLine, true), TWO,
                Reference(t[2..], InBlock, inside, nests));
  }

  /** Neither lexer opens, closes or escapes here: one character, in its two regions. */
  predicate Plain(t: string, m: Mode, n: Mode, nests: bool) {
    && t != ""
    && !(m.Quoted? && t[0] == '\\') && !(n.Quoted? && t[0] == '\\')
    && !((m == InBlock || n == InBlock) && Heads(t, '*', '/'))
    && !((n == InCode || (n == InBlock && nests)) && Heads(t, '/', '*'))
  }

  lemma PlainStep(t: string, m: Mode, n: Mode, deeper: nat, nests: bool)
    requires Plain(t, m, n, nests) && !(m == InCode && Heads(t, '/', '*'))
    ensures Alike(t, m, n, deeper, nests) <==>
            && Blank(t[0], Owner(t, m)) == Blank(t[0], Owner(t, n))
            && Alike(t[1..], NextMode(t, m, true), NextMode(t, n, true), deeper, nests)
  {
    var m', n' := NextMode(t, m, true), NextMode(t, n, true);
    assert Scan(t, m, true) == [Owner(t, m)] + Scan(t[1..], m', true);
    OneStep(t, Owner(t, m), Scan(t[1..], m', true), Owner(t, n), Reference(t[1..], n', deeper, nests));
  }

  lemma {:induction false} OpenedIff(t: string, m: Mode, n: Mode, deeper: nat, inside: nat, nests: bool)
    requires Heads(t, '/', '*') && (m == InCode || m == InBlock) && (inside > 0 ==> nests)
    requires Reference(t, n, deeper, nests) == TWO + Reference(t[2..], InBlock, inside, nests)
    ensures Alike(t, m, n, deeper, nests) <==> Opened(t, inside, nests)
    decreases |t|, 0
  {
    if ShortOpener(t) {
      ShortOpenerStep(t, m, n, deeper, inside, nests);
      AlikeIffHarmless(t[3..], InCode, InBlock, inside, nests);
    } else {
      OpenerStep(t, m, n, deeper, inside, nests);
      AlikeIffHarmless(t[2..], InBlock, InBlock, inside, nests);
    }
  }

  /** From any pair of modes the two lexers can be in, the blanked texts agree exactly when nothing harmful follows. */
  lemma {:induction false} AlikeIffHarmless(t: string, m: Mode, n: Mode, deeper: nat, nests: bool)
    requires Reachable(m, n, deeper, nests)
    ensures Alike(t, m, n, deeper, nests) <==> Harmless(t, m, n, deeper, nests)
    decreases |t|, 2
  {
    if t == "" {
    } else if n == InBlock {
      InCommentIff(t, m, deeper, nests);
    } else if m == InLine && n == InCode {
      LineAgainstCodeIff(t, nests);
    } else if m == InCode && Heads(t, '/', '*') {
      OpenedIff(t, m, n, 0, 0, nests);
    } else if m.Quoted? && t[0] == '\\' {
      if |t| > 1 {
        Lockstep(t, 2, [Literal, Literal], Scan(t[2..], m, true), [Literal, Literal], Reference(t[2..], m, 0, nests));
        AlikeIffHarmless(t[2..], m, m, 0, nests);
      }
    } else {
      PlainStep(t, m, m, 0, nests);
      AlikeIffHarmless(t[1..], NextMode(t, m, true), NextMode(t, m, true), 0, nests);
    }
  }

  /** The language is inside a block comment. */
  lemma {:induction false} InCommentIff(t: string, m: Mode, deeper: nat, nests: bool)
    requires t != "" && Reachable(m, InBlock, deeper, nests)
    ensures Alike(t, m, InBlock, deeper, nests) <==> Harmless(t, m, InBlock, deeper, nests)
    decreases |t|, 1
  {
    if m != InCode && Heads(t, '*', '/') {
      CloserStep(t, m, deeper, nests);
      AlikeIffHarmless(t[2..], if m == InLine then InLine else InCode, Outside(deeper), Outer(deeper), nests);
    } else if Heads(t, '/', '*') && nests && m != InLine {
      OpenedIff(t, m, InBlock, deeper, deeper + 1, nests);
    } else if Heads(t, '/', '*') && nests {
      LineOpenerStep(t, InBlock, deeper, deeper + 1, nests);
      AlikeIffHarmless(t[2..], InLine, InBlock, deeper + 1, nests);
    } else if Heads(t, '/', '*') && m == InCode {
      FlatOpenerStep(t);
      if ShortOpener(t) {
        AlikeIffHarmless(t[3..], InCode, InCode, 0, false);
      } else {
        AlikeIffHarmless(t[2..], InBlock, InBlock, 0, false);
      }
    } else if m == InCode && Heads(t, '*', '/') {
      VisibleDiffers(t, deeper, nests);
    } else {
      PlainStep(t, m, InBlock, deeper, nests);
      PlainIff(t, m, deeper, nests);
    }
  }

  /** A closer the scanner reads as code. */
  lemma VisibleDiffers(t: string, deeper: nat, nests: bool)
    requires Heads(t, '*', '/')
    ensures !Alike(t, InCode, InBlock, deeper, nests)
  {
    assert Scan(t, InCode, true)[0] == Code && Reference(t, InBlock, deeper, nests)[0] == BlockComment;
    assert Mask(t, Scan(t, InCode, true))[0] == '*' && Mask(t, Reference(t, InBlock, deeper, nests))[0] == ' ';
  }

  /** The language is inside a block comment and nothing opens or closes. */
  lemma {:induction false} PlainIff(t: string, m: Mode, deeper: nat, nests: bool)
    requires Plain(t, m, InBlock, nests) && Reachable(m, InBlock, deeper, nests) && !(m == InCode && Heads(t, '/', '*'))
    ensures Harmless(t, m, InBlock, deeper, nests) <==>
            && Blank(t[0], Owner(t, m)) == Blank(t[0], BlockComment)
            && Alike(t[1..], NextMode(t, m, true), InBlock, deeper, nests)
    decreases |t|, 0
  {
    if m != InCode || IsBlank(t[0]) || Heads(t, '/', '/') {
      AlikeIffHarmless(t[1..], NextMode(t, m, true), InBlock, deeper, nests);
    }
  }

  /** The scanner is in a line comment and the language is in code. */
  lemma {:induction false} LineAgainstCodeIff(t: string, nests: bool)
    requires t != ""
    ensures Alike(t, InLine, InCode, 0, nests) <==> Harmless(t, InLine, InCode, 0, nests)
    decreases |t|, 0
  {
    if Heads(t, '/', '*') {
      LineOpenerStep(t, InCode, 0, 0, nests);
      AlikeIffHarmless(t[2..], InLine, InBlock, 0, nests);
    } else {
      PlainStep(t, InLine, InCode, 0, nests);
      if Heads(t, '/', '/') {
        AlikeIffHarmless(t[1..], InLine, InLine, 0, nests);
      } else if IsBlank(t[0]) {
        AlikeIffHarmless(t[1..], NextMode(t, InLine, true), InCode, 0, nests);
      }
    }
  }

  /**
   * `strip_comments` yields the text with the language's own comments blanked exactly when nothing harmful follows any
   * place where the two part: for languages whose comments nest, and for those whose do not.
   */
  lemma StripsAsReference(t: string, nests: bool)
    ensures Strip(t, true) == Stripped(t, nests) <==> Harmless(t, InCode, InCode, 0, nests)
  {
    AlikeIffHarmless(t, InCode, InCode, 0, nests);
  }

  // ---- a guard for languages that nest ----

  /** No block comment has an opener inside it. */
  predicate NoneNested(t: string, m: Mode) {
    if t == "" then true
    else if m == InCode && Heads(t, '/', '*') then NoneNested(t[2..], InBlock)
    else if m.Quoted? && t[0] == '\\' then |t| == 1 || NoneNested(t[2..], m)
    else if m == InBlock && Heads(t, '/', '*') then false
    else if m == InBlock && Heads(t, '*', '/') then NoneNested(t[2..], InCode)
    else NoneNested(t[1..], NextMode(t, m, true))
  }

  /** Without an opener inside a comment it makes no difference whether comments nest. */
  lemma {:induction false} NestingIsIdle(t: string, m: Mode)
    requires NoneNested(t, m)
    ensures Reference(t, m, 0, true) == Flat(t, m)
  {
    if t == "" {
    } else if m == InCode && Heads(t, '/', '*') {
      NestingIsIdle(t[2..], InBlock);
    } else if m.Quoted? && t[0] == '\\' {
      if |t| > 1 {
        NestingIsIdle(t[2..], m);
      }
    } else if m == InBlock && Heads(t, '*', '/') {
      NestingIsIdle(t[2..], InCode);
    } else {
      NestingIsIdle(t[1..], NextMode(t, m, true));
    }
  }

  /** Text without misread and without nested openers is stripped right, whether the language nests or not. */
  lemma GuardedTextIsStripped(t: string, nests: bool)
    requires NoneMisread(t, InCode) && (nests ==> NoneNested(t, InCode))
    ensures Strip(t, true) == Stripped(t, nests)
  {
    ScansAsReference(t, InCode);
    if nests {
      NestingIsIdle(t, InCode);
    }
  }

  // ---- inputs on which they part ----

  /** Opener and slash pass for a whole comment, and the `x` after them is left standing as code. */
  lemma ShortCommentEscapes(nests: bool)
    ensures !Harmless("/*/x*/", InCode, InCode, 0, nests)
    ensures Strip("/*/x*/", true) != Stripped("/*/x*/", nests)
  {
    var t := "/*/x*/";
    assert t[3..][0] == 'x';
    assert !Harmless(t[3..], InCode, InBlock, 0, nests);
    StripsAsReference(t, nests);
  }

  /** The first closer ends a nested comment for the scanner. */
  lemma NestedCommentEscapes()
    ensures !Harmless("/* /* */x*/", InCode, InCode, 0, true)
    ensures Strip("/* /* */x*/", true) != Stripped("/* /* */x*/", true)
  {
    var t := "/* /* */x*/";
    assert t[2..] == " /* */x*/" && t[2..][1..] == "/* */x*/" && "/* */x*/"[2..] == " */x*/";
    assert " */x*/"[1..] == "*/x*/" && "*/x*/"[2..] == "x*/";
    assert !Harmless("x*/", InCode, InBlock, 0, true);
    assert !Harmless("*/x*/", InBlock, InBlock, 1, true);
    assert !Harmless(" */x*/", InBlock, InBlock, 1, true);
    assert !Harmless("/* */x*/", InBlock, InBlock, 0, true);
    assert !Harmless(" /* */x*/", InBlock, InBlock, 0, true);
    StripsAsReference(t, true);
  }

  /** Its openers are all read right: nesting is the only thing in the way. */
  lemma NestedCommentIsNotMisread()
    ensures NoneMisread("/* /* */x*/", InCode) && !NoneNested("/* /* */x*/", InCode)
  {
    var t := "/* /* */x*/";
    assert t[2..] == " /* */x*/" && t[2..][1..] == "/* */x*/";
    TailIsNotMisread();
    assert NoneMisread(" /* */x*/", InBlock);
    assert !NoneNested("/* */x*/", InBlock);
    assert !NoneNested(" /* */x*/", InBlock);
  }

  lemma TailIsNotMisread()
    ensures NoneMisread("/* */x*/", InBlock)
  {
    assert "/* */x*/"[1..] == "* */x*/" && "* */x*/"[1..] == " */x*/" && " */x*/"[1..] == "*/x*/";
    EndIsNotMisread();
    assert NoneMisread(" */x*/", InBlock) && NoneMisread("* */x*/", InBlock);
  }

  lemma EndIsNotMisread()
    ensures NoneMisread("*/x*/", InBlock)
  {
    assert "*/x*/"[2..] == "x*/" && "x*/"[1..] == "*/" && "*/"[1..] == "/" && "/"[1..] == "";
    assert NoneMisread("/", InCode) && NoneMisread("*/", InCode) && NoneMisread("x*/", InCode);
  }

  /** A misread opener with only a newline after it: the regions differ and the text does not. */
  lemma MisreadCanBeHarmless(nests: bool)
    ensures !NoneMisread("/*/\n", InCode)
    ensures Strip("/*/\n", true) == Stripped("/*/\n", nests)
  {
    var t := "/*/\n";
    assert t[3..] == "\n" && t[3..][1..] == "";
    assert Harmless(t[3..], InCode, InBlock, 0, nests);
    StripsAsReference(t, nests);
  }
}
