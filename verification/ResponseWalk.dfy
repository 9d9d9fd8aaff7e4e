/**
 * The walk as the program runs it: a decoder that advances over the response and a closure that advances a mark,
 * proved to compute `ResponseGrammar.Walk`.
 */
module ResponseWalk {
  import opened Wrappers
  import opened Seqs
  import opened Spans
  import opened ResponseGrammar

  /** The JSON decoder, positioned between two lexemes. */
  class Decoder {
    const text: Text
    var pos: nat

    ghost predicate Valid()
      reads this
    {
      pos <= |text.stream|
    }

    ghost function Rest(): seq<Lexeme>
      requires Valid()
      reads this
    {
      text.stream[pos..]
    }

    constructor (text: Text)
      ensures Valid() && this.text == text && Rest() == text.stream
    {
      this.text := text;
      pos := 0;
    }

    /** `InputOffset`: the end of the last lexeme handed out. */
    function InputOffset(): nat
      requires Valid()
      reads this
    {
      if pos == 0 then 0 else text.stream[pos - 1].end
    }

    method HasMore() returns (more: bool)
      requires Valid()
      ensures more == More(Rest())
    {
      more := pos < |text.stream| && !Closes(text.stream[pos].tok);
    }

    /** `Token`: the next lexeme, or nothing at the end of the input. */
    method NextToken() returns (r: Option<Token>)
      requires Valid()
      modifies this
      ensures Valid()
      ensures r.None? <==> old(Rest()) == []
      ensures r.Some? ==> r.value == old(Rest())[0].tok && Rest() == old(Rest())[1..]
                          && InputOffset() == old(Rest())[0].end
    {
      if pos == |text.stream| {
        return None;
      }
      r := Some(text.stream[pos].tok);
      pos := pos + 1;
    }

    /** `expectDelim`. */
    method ExpectDelim(want: char) returns (ok: bool)
      requires Valid()
      modifies this
      ensures Valid()
      ensures ok <==> StartsWith(old(Rest()), want)
      ensures ok ==> Rest() == old(Rest())[1..] && InputOffset() == old(Rest())[0].end
    {
      var tok := NextToken();
      ok := tok == Some(Delim(want));
    }

    /** `Decode` into a raw message: pass over one whole value. */
    method DecodeValue() returns (ok: bool)
      requires Valid()
      modifies this
      ensures Valid()
      ensures ok <==> Skip(old(Rest()), 0).Some?
      ensures ok ==> var n := Skip(old(Rest()), 0).value;
                     Rest() == old(Rest())[n..] && InputOffset() == old(Rest())[n - 1].end
    {
      var depth: nat := 0;
      ghost var start := Rest();
      ghost var passed: nat := 0;
      ok := false;
      while pos < |text.stream|
        invariant Valid() && pos == old(pos) + passed
        invariant Skip(start, 0) == Plus(passed, Skip(Rest(), depth))
        decreases |text.stream| - pos
      {
        var tok := text.stream[pos].tok;
        SkipStep(start, passed, Rest(), depth);
        if Closes(tok) && depth == 0 {
          break;
        }
        DropDrop(text.stream, pos, 1);
        pos, passed := pos + 1, passed + 1;
        depth := DepthAfter(tok, depth);
        if depth == 0 {
          DropDrop(text.stream, old(pos), passed);
          ok := true;
          break;
        }
      }
    }
  }

  function DepthAfter(tok: Token, depth: nat): nat
    requires !(Closes(tok) && depth == 0)
  {
    if Opens(tok) then depth + 1 else if Closes(tok) then depth - 1 else depth
  }

  /** One lexeme of a value being skipped: it cannot start with a closer, and it ends when the depth is back at zero. */
  lemma SkipStep(start: seq<Lexeme>, passed: nat, rest: seq<Lexeme>, depth: nat)
    requires Skip(start, 0) == Plus(passed, Skip(rest, depth)) && rest != []
    ensures Closes(rest[0].tok) && depth == 0 ==> Skip(start, 0) == None
    ensures !(Closes(rest[0].tok) && depth == 0) ==>
              Skip(start, 0) ==
              if DepthAfter(rest[0].tok, depth) == 0 then Some(passed + 1)
              else Plus(passed + 1, Skip(rest[1..], DepthAfter(rest[0].tok, depth)))
  {
  }

  lemma DropDrop(s: seq<Lexeme>, a: nat, b: nat)
    requires a + b <= |s|
    ensures s[a..][b..] == s[a + b..]
    ensures b > 0 ==> s[a..][b - 1] == s[a + b - 1]
  {
  }

  ghost function Plus(n: nat, r: Option<nat>): Option<nat> {
    if r.None? then None else Some(n + r.value)
  }

  /** The closure `emit` with the two variables it captures. */
  class Emitter {
    var mark: nat
    var spans: seq<Span>
    /** Every request made so far. */
    ghost var requests: seq<Request>

    ghost predicate Valid()
      reads this
    {
      spans == Cut(requests, 0) && mark == MarkAfter(requests, 0)
    }

    constructor ()
      ensures Valid() && requests == []
    {
      mark, spans, requests := 0, [], [];
    }

    method Emit(tag: string, end: nat)
      requires Valid()
      modifies this
      ensures Valid()
      ensures requests == old(requests) + [Request(tag, end)]
    {
      CutSnoc(requests, Request(tag, end), 0);
      if end > mark {
        spans := spans + [Span(tag, mark, end)];
        mark := end;
      }
      requests := requests + [Request(tag, end)];
    }
  }

  lemma BeforeTwice(a: seq<Request>, b: seq<Request>, w: Option<Walked>)
    ensures Before(a, Before(b, w)) == Before(a + b, w)
  {
    if w.Some? {
      assert a + (b + w.value.requests) == (a + b) + w.value.requests;
    }
  }

  lemma BeforeNothing(w: Option<Walked>)
    ensures Before([], w) == w && Shift([], 0, w) == w
  {
    if w.Some? {
      assert [] + w.value.requests == w.value.requests;
    }
  }

  /** One pair of a tool object at the head of `s`: its request and what follows it. */
  ghost function PairAt(s: seq<Lexeme>): (r: Option<(seq<Request>, seq<Lexeme>)>)
    ensures r.Some? ==> |r.value.1| < |s|
  {
    if s == [] || !s[0].tok.Str? then None
    else
      match Skip(s[1..], 0)
      case None => None
      case Some(n) => Some(([Request(ToolTag(s[0].tok.s), s[n].end)], s[n + 1..]))
  }

  lemma PairsStep(s: seq<Lexeme>, made: seq<Request>)
    requires More(s)
    ensures Before(made, Pairs(s)) ==
            var p := PairAt(s);
            if p.None? then None else Before(made + p.value.0, Pairs(p.value.1))
  {
    var p := PairAt(s);
    if p.Some? {
      BeforeTwice(made, p.value.0, Pairs(p.value.1));
    }
  }

  method WalkPair(dec: Decoder, em: Emitter) returns (ok: bool)
    requires dec.Valid() && em.Valid()
    modifies dec, em
    ensures dec.Valid() && em.Valid()
    ensures ok <==> PairAt(old(dec.Rest())).Some?
    ensures ok ==> dec.Rest() == PairAt(old(dec.Rest())).value.1
    ensures ok ==> em.requests == old(em.requests) + PairAt(old(dec.Rest())).value.0
  {
    ghost var s := dec.Rest();
    ok := false;
    var key := dec.NextToken();
    if key.Some? && key.value.Str? {
      ok := dec.DecodeValue();
      if ok {
        em.Emit(ToolTag(key.value.s), dec.InputOffset());
        ghost var n := Skip(s[1..], 0).value;
        assert s[1..][n..] == s[n + 1..] && s[1..][n - 1] == s[n];
      }
    }
  }

  /** The inner loop: the pairs of one tool object. */
  method WalkPairs(dec: Decoder, em: Emitter) returns (ok: bool)
    requires dec.Valid() && em.Valid()
    modifies dec, em
    ensures dec.Valid() && em.Valid()
    ensures ok <==> Pairs(old(dec.Rest())).Some?
    ensures ok ==> dec.Rest() == Pairs(old(dec.Rest())).value.rest
    ensures ok ==> em.requests == old(em.requests) + Pairs(old(dec.Rest())).value.requests
  {
    ghost var start := dec.Rest();
    ghost var made: seq<Request> := [];
    BeforeNothing(Pairs(start));
    ok := true;
    var more := dec.HasMore();
    while more
      invariant dec.Valid() && em.Valid()
      invariant more == More(dec.Rest())
      invariant em.requests == old(em.requests) + made
      invariant Pairs(start) == Before(made, Pairs(dec.Rest()))
      decreases |dec.Rest()|
    {
      ghost var p := PairAt(dec.Rest());
      PairsStep(dec.Rest(), made);
      ok := WalkPair(dec, em);
      if !ok {
        return false;
      }
      Associate(old(em.requests), made, p.value.0);
      made := made + p.value.0;
      more := dec.HasMore();
    }
    return true;
  }

  ghost function Shift(made: seq<Request>, count: nat, w: Option<Walked>): Option<Walked> {
    Counted(count, Before(made, w))
  }

  lemma ToolsStep(s: seq<Lexeme>, made: seq<Request>, count: nat)
    requires More(s)
    ensures Shift(made, count, Tools(s)) ==
            var t := ToolObject(s);
            if t.None? then None else Shift(made + t.value.0, count + 1, Tools(t.value.1))
  {
    var t := ToolObject(s);
    if t.Some? {
      ShiftTwice(made, count, t.value.0, Tools(t.value.1));
    }
  }

  lemma ShiftTwice(a: seq<Request>, m: nat, b: seq<Request>, w: Option<Walked>)
    ensures Shift(a, m, Counted(1, Before(b, w))) == Shift(a + b, m + 1, w)
  {
    if w.Some? {
      Associate(a, b, w.value.requests);
    }
  }

  /** `partitionToolsArray`, past its opening bracket and up to its closing one. */
  method WalkTools(dec: Decoder, em: Emitter) returns (ok: bool, count: nat)
    requires dec.Valid() && em.Valid()
    modifies dec, em
    ensures dec.Valid() && em.Valid()
    ensures ok <==> Tools(old(dec.Rest())).Some?
    ensures ok ==> dec.Rest() == Tools(old(dec.Rest())).value.rest
    ensures ok ==> em.requests == old(em.requests) + Tools(old(dec.Rest())).value.requests
    ensures ok ==> count == Tools(old(dec.Rest())).value.tools
  {
    count := 0;
    ghost var start := dec.Rest();
    ghost var made: seq<Request> := [];
    BeforeNothing(Tools(start));
    var more := dec.HasMore();
    while more
      invariant dec.Valid() && em.Valid()
      invariant more == More(dec.Rest())
      invariant em.requests == old(em.requests) + made
      invariant Tools(start) == Shift(made, count, Tools(dec.Rest()))
      decreases |dec.Rest()|
    {
      ghost var t := ToolObject(dec.Rest());
      ToolsStep(dec.Rest(), made, count);
      ok := WalkTool(dec, em);
      if !ok {
        return false, count;
      }
      Associate(old(em.requests), made, t.value.0);
      made := made + t.value.0;
      count := count + 1;
      more := dec.HasMore();
    }
    return true, count;
  }

  /** One element of the "tools" array: its requests and what follows it. */
  ghost function ToolObject(s: seq<Lexeme>): (r: Option<(seq<Request>, seq<Lexeme>)>)
    ensures More(s) ==>
              Tools(s) == if r.None? then None else Counted(1, Before(r.value.0, Tools(r.value.1)))
    ensures r.Some? ==> |r.value.1| < |s|
  {
    if !StartsWith(s, '{') then None
    else
      var pairs := Pairs(s[1..]);
      if pairs.None? || !StartsWith(pairs.value.rest, '}') then None
      else
        var close := pairs.value.rest;
        Some(([Request(OTHER, s[0].end)] + pairs.value.requests + [Request(OTHER, close[0].end)], close[1..]))
  }

  method WalkTool(dec: Decoder, em: Emitter) returns (ok: bool)
    requires dec.Valid() && em.Valid()
    modifies dec, em
    ensures dec.Valid() && em.Valid()
    ensures ok <==> ToolObject(old(dec.Rest())).Some?
    ensures ok ==> dec.Rest() == ToolObject(old(dec.Rest())).value.1
    ensures ok ==> em.requests == old(em.requests) + ToolObject(old(dec.Rest())).value.0
  {
    ghost var s := dec.Rest();
    ok := Bracket(dec, em, '{');
    if ok {
      ok := WalkPairs(dec, em);
      if ok {
        ghost var pairs := Pairs(s[1..]).value;
        ok := Bracket(dec, em, '}');
        if ok {
          Enclose(old(em.requests), Request(OTHER, s[0].end), pairs.requests, Request(OTHER, pairs.rest[0].end));
        }
      }
    }
  }

  lemma Enclose(before: seq<Request>, open: Request, inside: seq<Request>, close: Request)
    ensures before + [open] + inside + [close] == before + ([open] + inside + [close])
  {
  }

  /** `expectDelim` followed by `emit(ComponentOther, off())`. */
  method Bracket(dec: Decoder, em: Emitter, want: char) returns (ok: bool)
    requires dec.Valid() && em.Valid()
    modifies dec, em
    ensures dec.Valid() && em.Valid()
    ensures ok <==> StartsWith(old(dec.Rest()), want)
    ensures ok ==> dec.Rest() == old(dec.Rest())[1..]
    ensures ok ==> em.requests == old(em.requests) + [Request(OTHER, old(dec.Rest())[0].end)]
  {
    ok := dec.ExpectDelim(want);
    if ok {
      em.Emit(OTHER, dec.InputOffset());
    }
  }

  /** One top-level field past its key: its requests, what follows it, and the tool count it sets. */
  ghost function FieldValue(key: string, s: seq<Lexeme>, tools: nat): (r: Option<(seq<Request>, seq<Lexeme>, nat)>)
    ensures r.Some? ==> |r.value.1| < |s|
  {
    if key == "tools" then
      if !StartsWith(s, '[') then None
      else
        var list := Tools(s[1..]);
        if list.None? || !StartsWith(list.value.rest, ']') then None
        else
          var close := list.value.rest;
          Some(([Request(OTHER, s[0].end)] + list.value.requests + [Request(OTHER, close[0].end)],
                close[1..], list.value.tools))
    else
      match Skip(s, 0)
      case None => None
      case Some(n) => Some(([Request(FieldTag(key), s[n - 1].end)], s[n..], tools))
  }

  lemma FieldsIsFieldValue(s: seq<Lexeme>, tools: nat)
    requires More(s) && s[0].tok.Str?
    ensures var f := FieldValue(s[0].tok.s, s[1..], tools);
            Fields(s, tools) == if f.None? then None else Before(f.value.0, Fields(f.value.1, f.value.2))
  {
    if s[0].tok.s == "tools" {
      if StartsWith(s[1..], '[') {
        assert s[1..][1..] == s[2..] && s[1..][0] == s[1];
      }
    } else {
      var n := Skip(s[1..], 0);
      if n.Some? {
        assert s[1..][n.value - 1] == s[n.value] && s[1..][n.value..] == s[n.value + 1..];
      }
    }
  }

  /** The value of the field `key`: the tools array, or any other value. */
  method WalkField(dec: Decoder, em: Emitter, key: string, tools: nat) returns (ok: bool, count: nat)
    requires dec.Valid() && em.Valid()
    modifies dec, em
    ensures dec.Valid() && em.Valid()
    ensures ok <==> FieldValue(key, old(dec.Rest()), tools).Some?
    ensures ok ==> dec.Rest() == FieldValue(key, old(dec.Rest()), tools).value.1
    ensures ok ==> em.requests == old(em.requests) + FieldValue(key, old(dec.Rest()), tools).value.0
    ensures ok ==> count == FieldValue(key, old(dec.Rest()), tools).value.2
  {
    count := tools;
    if key == "tools" {
      ghost var s := dec.Rest();
      ok := Bracket(dec, em, '[');
      if ok {
        ok, count := WalkTools(dec, em);
        if ok {
          ghost var list := Tools(s[1..]).value;
          ok := Bracket(dec, em, ']');
          if ok {
            Enclose(old(em.requests), Request(OTHER, s[0].end), list.requests, Request(OTHER, list.rest[0].end));
          }
        }
      }
    } else {
      ok := dec.DecodeValue();
      if ok {
        em.Emit(FieldTag(key), dec.InputOffset());
      }
    }
  }

  /** One whole field at the head of `s`, key included. */
  ghost function FieldAt(s: seq<Lexeme>, tools: nat): (r: Option<(seq<Request>, seq<Lexeme>, nat)>)
    ensures r.Some? ==> |r.value.1| < |s|
  {
    if s == [] || !s[0].tok.Str? then None else FieldValue(s[0].tok.s, s[1..], tools)
  }

  lemma FieldsStep(s: seq<Lexeme>, tools: nat, made: seq<Request>)
    requires More(s)
    ensures Before(made, Fields(s, tools)) ==
            var f := FieldAt(s, tools);
            if f.None? then None else Before(made + f.value.0, Fields(f.value.1, f.value.2))
  {
    if s[0].tok.Str? {
      FieldsIsFieldValue(s, tools);
      var f := FieldAt(s, tools);
      if f.Some? {
        BeforeTwice(made, f.value.0, Fields(f.value.1, f.value.2));
      }
    }
  }

  method WalkNamedField(dec: Decoder, em: Emitter, tools: nat) returns (ok: bool, count: nat)
    requires dec.Valid() && em.Valid()
    modifies dec, em
    ensures dec.Valid() && em.Valid()
    ensures ok <==> FieldAt(old(dec.Rest()), tools).Some?
    ensures ok ==> dec.Rest() == FieldAt(old(dec.Rest()), tools).value.1
    ensures ok ==> em.requests == old(em.requests) + FieldAt(old(dec.Rest()), tools).value.0
    ensures ok ==> count == FieldAt(old(dec.Rest()), tools).value.2
  {
    ok, count := false, tools;
    var key := dec.NextToken();
    if key.Some? && key.value.Str? {
      ok, count := WalkField(dec, em, key.value.s, tools);
    }
  }

  method WalkFields(dec: Decoder, em: Emitter) returns (ok: bool, count: nat)
    requires dec.Valid() && em.Valid()
    modifies dec, em
    ensures dec.Valid() && em.Valid()
    ensures ok <==> Fields(old(dec.Rest()), 0).Some?
    ensures ok ==> dec.Rest() == Fields(old(dec.Rest()), 0).value.rest
    ensures ok ==> em.requests == old(em.requests) + Fields(old(dec.Rest()), 0).value.requests
    ensures ok ==> count == Fields(old(dec.Rest()), 0).value.tools
  {
    count := 0;
    ghost var start := dec.Rest();
    ghost var made: seq<Request> := [];
    BeforeNothing(Fields(start, 0));
    var more := dec.HasMore();
    while more
      invariant dec.Valid() && em.Valid()
      invariant more == More(dec.Rest())
      invariant em.requests == old(em.requests) + made
      invariant Fields(start, 0) == Before(made, Fields(dec.Rest(), count))
      decreases |dec.Rest()|
    {
      ghost var f := FieldAt(dec.Rest(), count);
      FieldsStep(dec.Rest(), count, made);
      ok, count := WalkNamedField(dec, em, count);
      if !ok {
        return false, count;
      }
      Associate(old(em.requests), made, f.value.0);
      made := made + f.value.0;
      more := dec.HasMore();
    }
    return true, count;
  }

  lemma Conclude(open: Request, inside: seq<Request>, close: Request, end: Request)
    ensures [] + [open] + inside + [close] + [end] == [open] + inside + [close, end]
  {
  }

  /** `PartitionRetrieveToolsResponse`. */
  method PartitionResponse(text: Text) returns (r: Option<(seq<Span>, nat)>)
    ensures r.Some? <==> Walk(text).Some?
    ensures r.Some? ==> r.value == (Cut(Walk(text).value.0, 0), Walk(text).value.1)
  {
    var dec := new Decoder(text);
    var em := new Emitter();
    r := None;
    var ok := Bracket(dec, em, '{');
    if ok {
      var count;
      ok, count := WalkFields(dec, em);
      if ok {
        ok := dec.ExpectDelim('}');
        if ok && dec.InputOffset() >= text.blankFrom {
          var close := dec.InputOffset();
          em.Emit(OTHER, close);
          em.Emit(OTHER, text.length);
          ghost var inside := Fields(text.stream[1..], 0).value.requests;
          Conclude(Request(OTHER, text.stream[0].end), inside, Request(OTHER, close), Request(OTHER, text.length));
          r := Some((em.spans, count));
        }
      }
    }
  }

  datatype Measurement = Measurement(tokens: Attribution, resultCount: nat)

  datatype MeasureError = Rejected | NotAttributed(why: AttributionError)

  /**
   * `MeasureRetrieveToolsResponse`: the walk and the attribution composed. A response the walk accepts is never
   * turned away for its spans; what is left to fail is the tokenizer's round trip.
   */
  method MeasureResponse(text: Text, pieces: seq<nat>) returns (r: Result<Measurement, MeasureError>)
    requires EndsWithin(text.stream, text.length)
    ensures r.Ok? <==>
            && Walk(text).Some?
            && (forall k :: 0 <= k < |pieces| ==> pieces[k] > 0)
            && Offset(pieces, |pieces|) == text.length
    ensures r == Err(Rejected) <==> Walk(text).None?
    ensures r != Err(NotAttributed(BadPartition))
    ensures r.Ok? ==>
              && r.value.resultCount == Walk(text).value.1
              && r.value.tokens.total == |pieces|
              && CountsSoFar(pieces, Cut(Walk(text).value.0, 0), r.value.tokens.components, |pieces|)
  {
    var walked := PartitionResponse(text);
    if walked.None? {
      return Err(Rejected);
    }
    AcceptedIsPartitioned(text);
    var attributed := AttributeTokens(pieces, text.length, walked.value.0);
    if attributed.Err? {
      return Err(NotAttributed(attributed.error));
    }
    return Ok(Measurement(attributed.value, walked.value.1));
  }
}
