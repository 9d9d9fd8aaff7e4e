/**
 * `PartitionRetrieveToolsResponse` as a function of the lexemes the JSON decoder hands out, the tree those lexemes
 * render, and the spans the walk's requests cut.
 */
module ResponseGrammar {
  import opened Wrappers
  import opened Seqs
  import opened Spans

  /** What the decoder hands out: a delimiter, a string, or any other scalar. */
  datatype Token = Delim(c: char) | Str(s: string) | Scalar

  /** A token and the byte offset at which it ends. */
  datatype Lexeme = Lexeme(tok: Token, end: nat)

  predicate Opens(t: Token) {
    t == Delim('{') || t == Delim('[')
  }

  predicate Closes(t: Token) {
    t == Delim('}') || t == Delim(']')
  }

  /** `More`: another element or pair follows. */
  predicate More(s: seq<Lexeme>) {
    s != [] && !Closes(s[0].tok)
  }

  predicate StartsWith(s: seq<Lexeme>, c: char) {
    s != [] && s[0].tok == Delim(c)
  }

  function Bump(r: Option<nat>): Option<nat> {
    if r.None? then None else Some(r.value + 1)
  }

  /** How many lexemes a value takes, `depth` brackets being open already. */
  function Skip(s: seq<Lexeme>, depth: nat): (r: Option<nat>)
    ensures r.Some? ==> 0 < r.value <= |s|
  {
    if s == [] then None
    else if Opens(s[0].tok) then Bump(Skip(s[1..], depth + 1))
    else if Closes(s[0].tok) then
      if depth == 0 then None
      else if depth == 1 then Some(1)
      else Bump(Skip(s[1..], depth - 1))
    else if depth == 0 then Some(1)
    else Bump(Skip(s[1..], depth))
  }

  // ---- the walk ----

  /** A request to close the current span: its label and where it ends. */
  datatype Request = Request(tag: string, end: nat)

  /** What a stretch of the walk requests, the lexemes it leaves, and the tools it counted. */
  datatype Walked = Walked(requests: seq<Request>, rest: seq<Lexeme>, tools: nat)

  function Before(requests: seq<Request>, w: Option<Walked>): Option<Walked> {
    if w.None? then None else Some(w.value.(requests := requests + w.value.requests))
  }

  function Counted(n: nat, w: Option<Walked>): Option<Walked> {
    if w.None? then None else Some(w.value.(tools := n + w.value.tools))
  }

  function ToolTag(key: string): string {
    if key == "inputSchema" then INPUT_SCHEMAS
    else if key == "description" then DESCRIPTIONS
    else METADATA
  }

  function FieldTag(key: string): string {
    if key == "usage_instructions" then USAGE_INSTRUCTIONS else OTHER
  }

  /** The pairs of one tool object. */
  function Pairs(s: seq<Lexeme>): (r: Option<Walked>)
    ensures r.Some? ==> |r.value.rest| <= |s| && !More(r.value.rest)
    decreases |s|
  {
    if !More(s) then Some(Walked([], s, 0))
    else if !s[0].tok.Str? then None
    else
      match Skip(s[1..], 0)
      case None => None
      case Some(n) => Before([Request(ToolTag(s[0].tok.s), s[n].end)], Pairs(s[n + 1..]))
  }

  /** The elements of the "tools" array. */
  function Tools(s: seq<Lexeme>): (r: Option<Walked>)
    ensures r.Some? ==> |r.value.rest| <= |s| && !More(r.value.rest)
    decreases |s|
  {
    if !More(s) then Some(Walked([], s, 0))
    else if !StartsWith(s, '{') then None
    else
      var pairs := Pairs(s[1..]);
      if pairs.None? || !StartsWith(pairs.value.rest, '}') then None
      else
        var close := pairs.value.rest;
        Counted(1, Before([Request(OTHER, s[0].end)] + pairs.value.requests + [Request(OTHER, close[0].end)],
                          Tools(close[1..])))
  }

  /** The top-level fields; `tools` is the count of the last "tools" array so far. */
  function Fields(s: seq<Lexeme>, tools: nat): (r: Option<Walked>)
    ensures r.Some? ==> |r.value.rest| <= |s| && !More(r.value.rest)
    decreases |s|
  {
    if !More(s) then Some(Walked([], s, tools))
    else if !s[0].tok.Str? then None
    else if s[0].tok.s == "tools" then
      if !StartsWith(s[1..], '[') then None
      else
        var list := Tools(s[2..]);
        if list.None? || !StartsWith(list.value.rest, ']') then None
        else
          var close := list.value.rest;
          Before([Request(OTHER, s[1].end)] + list.value.requests + [Request(OTHER, close[0].end)],
                 Fields(close[1..], list.value.tools))
    else
      match Skip(s[1..], 0)
      case None => None
      case Some(n) => Before([Request(FieldTag(s[0].tok.s), s[n].end)], Fields(s[n + 1..], tools))
  }

  /** A response text: its lexemes, its byte length, and from which byte on it is all blank. */
  datatype Text = Text(stream: seq<Lexeme>, length: nat, blankFrom: nat)

  /** The whole walk: the requests it makes, the last one closing at the end of the text, and the tool count. */
  function Walk(t: Text): Option<(seq<Request>, nat)> {
    if !StartsWith(t.stream, '{') then None
    else
      var fields := Fields(t.stream[1..], 0);
      if fields.None? || !StartsWith(fields.value.rest, '}') then None
      else
        var close := fields.value.rest[0].end;
        if close < t.blankFrom then None
        else Some((
          [Request(OTHER, t.stream[0].end)] + fields.value.requests + [Request(OTHER, close), Request(OTHER, t.length)],
          fields.value.tools))
  }

  // ---- cutting spans ----

  /** The spans a sequence of requests cuts from byte `mark` on; a request that advances nothing is dropped. */
  function Cut(requests: seq<Request>, mark: nat): seq<Span> {
    if requests == [] then []
    else if requests[0].end > mark then
      [Span(requests[0].tag, mark, requests[0].end)] + Cut(requests[1..], requests[0].end)
    else Cut(requests[1..], mark)
  }

  function Max(a: nat, b: nat): nat {
    if a > b then a else b
  }

  function MarkAfter(requests: seq<Request>, mark: nat): nat {
    if requests == [] then mark else MarkAfter(requests[1..], Max(requests[0].end, mark))
  }

  lemma {:induction false} CutSnoc(requests: seq<Request>, e: Request, mark: nat)
    ensures MarkAfter(requests + [e], mark) == Max(e.end, MarkAfter(requests, mark))
    ensures Cut(requests + [e], mark) ==
            Cut(requests, mark)
            + (if e.end > MarkAfter(requests, mark) then [Span(e.tag, MarkAfter(requests, mark), e.end)] else [])
  {
    if requests == [] {
      assert requests + [e] == [e] && [e][1..] == [];
    } else {
      assert (requests + [e])[1..] == requests[1..] + [e];
      CutSnoc(requests[1..], e, Max(requests[0].end, mark));
    }
  }

  lemma {:induction false} CutTiles(requests: seq<Request>, mark: nat)
    ensures TilesFrom(Cut(requests, mark), mark, MarkAfter(requests, mark))
  {
    if requests != [] {
      CutTiles(requests[1..], Max(requests[0].end, mark));
      if requests[0].end > mark {
        assert Cut(requests, mark)[1..] == Cut(requests[1..], requests[0].end);
      }
    }
  }

  lemma {:induction false} MarkStaysBelow(requests: seq<Request>, mark: nat, bound: nat)
    requires mark <= bound && forall i :: 0 <= i < |requests| ==> requests[i].end <= bound
    ensures mark <= MarkAfter(requests, mark) <= bound
    ensures requests != [] && Last(requests).end == bound ==> MarkAfter(requests, mark) == bound
  {
    if requests != [] {
      MarkStaysBelow(requests[1..], Max(requests[0].end, mark), bound);
    }
  }

  /** Requests bounded by the text, the last one closing at its end, always cut a partition of it. */
  lemma CutIsPartition(requests: seq<Request>, length: nat)
    requires requests != [] && Last(requests).end == length
    requires forall i :: 0 <= i < |requests| ==> requests[i].end <= length
    ensures IsPartition(Cut(requests, 0), length)
  {
    CutTiles(requests, 0);
    MarkStaysBelow(requests, 0, length);
    TilesArePartition(Cut(requests, 0), length);
  }

  /** The first request that ends after byte `b`. */
  ghost predicate FirstPast(requests: seq<Request>, b: int, k: nat) {
    k < |requests| && requests[k].end > b && forall j :: 0 <= j < k ==> requests[j].end <= b
  }

  /** Every byte belongs to the first request ending after it: a pair's span starts where the previous value ended. */
  lemma {:induction false} ByteBelongsToRequest(requests: seq<Request>, mark: nat, b: int, k: nat)
    requires mark <= b && FirstPast(requests, b, k)
    ensures exists i :: 0 <= i < |Cut(requests, mark)| &&
              Cut(requests, mark)[i].tag == requests[k].tag && Holds(Cut(requests, mark)[i], b)
  {
    var spans := Cut(requests, mark);
    if k == 0 {
      assert spans[0].tag == requests[0].tag && Holds(spans[0], b);
    } else {
      var mark' := Max(requests[0].end, mark);
      ByteBelongsToRequest(requests[1..], mark', b, k - 1);
      var rest := Cut(requests[1..], mark');
      var i :| 0 <= i < |rest| && rest[i].tag == requests[k].tag && Holds(rest[i], b);
      if requests[0].end > mark {
        assert spans[i + 1] == rest[i];
      }
    }
  }

  // ---- bounds: every request ends where a lexeme ends ----

  ghost predicate EndsWithin(s: seq<Lexeme>, bound: nat) {
    forall i :: 0 <= i < |s| ==> s[i].end <= bound
  }

  ghost predicate RequestsWithin(requests: seq<Request>, bound: nat) {
    forall i :: 0 <= i < |requests| ==> requests[i].end <= bound
  }

  lemma {:induction false} PairsWithin(s: seq<Lexeme>, bound: nat)
    requires EndsWithin(s, bound) && Pairs(s).Some?
    ensures RequestsWithin(Pairs(s).value.requests, bound) && EndsWithin(Pairs(s).value.rest, bound)
    decreases |s|
  {
    if More(s) {
      PairsWithin(s[Skip(s[1..], 0).value + 1..], bound);
    }
  }

  lemma {:induction false} ToolsWithin(s: seq<Lexeme>, bound: nat)
    requires EndsWithin(s, bound) && Tools(s).Some?
    ensures RequestsWithin(Tools(s).value.requests, bound) && EndsWithin(Tools(s).value.rest, bound)
    decreases |s|
  {
    if More(s) {
      PairsWithin(s[1..], bound);
      ToolsWithin(Pairs(s[1..]).value.rest[1..], bound);
    }
  }

  lemma {:induction false} FieldsWithin(s: seq<Lexeme>, tools: nat, bound: nat)
    requires EndsWithin(s, bound) && Fields(s, tools).Some?
    ensures RequestsWithin(Fields(s, tools).value.requests, bound) && EndsWithin(Fields(s, tools).value.rest, bound)
    decreases |s|
  {
    if More(s) {
      if s[0].tok.s == "tools" {
        ToolsWithin(s[2..], bound);
        var list := Tools(s[2..]).value;
        FieldsWithin(list.rest[1..], list.tools, bound);
      } else {
        FieldsWithin(s[Skip(s[1..], 0).value + 1..], tools, bound);
      }
    }
  }

  /** Whatever response the walk accepts, the spans it cuts partition the response. */
  lemma AcceptedIsPartitioned(t: Text)
    requires EndsWithin(t.stream, t.length) && Walk(t).Some?
    ensures IsPartition(Cut(Walk(t).value.0, 0), t.length)
  {
    FieldsWithin(t.stream[1..], 0, t.length);
    CutIsPartition(Walk(t).value.0, t.length);
  }

  // ---- round trip: what the walk reads back from a rendered response ----

  /** A value by its lexemes. */
  ghost predicate IsValue(v: seq<Lexeme>) {
    Skip(v, 0) == Some(|v|)
  }

  datatype Pair = Pair(key: string, keyEnd: nat, value: seq<Lexeme>)

  datatype Tool = Tool(open: nat, pairs: seq<Pair>, close: nat)

  datatype Field = Plain(pair: Pair) | ToolList(keyEnd: nat, open: nat, tools: seq<Tool>, close: nat)

  datatype Response = Response(open: nat, fields: seq<Field>, close: nat)

  function RenderPairs(pairs: seq<Pair>): seq<Lexeme> {
    if pairs == [] then []
    else [Lexeme(Str(pairs[0].key), pairs[0].keyEnd)] + pairs[0].value + RenderPairs(pairs[1..])
  }

  function RenderTools(tools: seq<Tool>): seq<Lexeme> {
    if tools == [] then []
    else
      [Lexeme(Delim('{'), tools[0].open)] + RenderPairs(tools[0].pairs) + [Lexeme(Delim('}'), tools[0].close)]
      + RenderTools(tools[1..])
  }

  function RenderFields(fields: seq<Field>): seq<Lexeme> {
    if fields == [] then []
    else (match fields[0]
          case Plain(p) => RenderPairs([p])
          case ToolList(keyEnd, open, tools, close) =>
            [Lexeme(Str("tools"), keyEnd), Lexeme(Delim('['), open)] + RenderTools(tools) + [Lexeme(Delim(']'), close)])
         + RenderFields(fields[1..])
  }

  function Render(r: Response): seq<Lexeme> {
    [Lexeme(Delim('{'), r.open)] + RenderFields(r.fields) + [Lexeme(Delim('}'), r.close)]
  }

  function ValueEnd(p: Pair): nat
    requires p.value != []
  {
    Last(p.value).end
  }

  ghost predicate GoodPairs(pairs: seq<Pair>) {
    forall i :: 0 <= i < |pairs| ==> IsValue(pairs[i].value)
  }

  ghost predicate GoodTools(tools: seq<Tool>) {
    forall i :: 0 <= i < |tools| ==> GoodPairs(tools[i].pairs)
  }

  ghost predicate GoodField(f: Field) {
    match f
    case Plain(p) => p.key != "tools" && IsValue(p.value)
    case ToolList(_, _, tools, _) => GoodTools(tools)
  }

  ghost predicate GoodFields(fields: seq<Field>) {
    forall i :: 0 <= i < |fields| ==> GoodField(fields[i])
  }

  /** The labels a reader of the response would assign: each pair its own, up to the end of its value. */
  ghost function PairRequests(pairs: seq<Pair>): seq<Request>
    requires GoodPairs(pairs)
  {
    if pairs == [] then []
    else
      var tag :=
        if pairs[0].key == "inputSchema" then "input_schemas"
        else if pairs[0].key == "description" then "descriptions"
        else "metadata";
      [Request(tag, ValueEnd(pairs[0]))] + PairRequests(pairs[1..])
  }

  ghost function ToolRequests(tools: seq<Tool>): seq<Request>
    requires GoodTools(tools)
  {
    if tools == [] then []
    else
      [Request("other", tools[0].open)] + PairRequests(tools[0].pairs) + [Request("other", tools[0].close)]
      + ToolRequests(tools[1..])
  }

  ghost function FieldRequests(fields: seq<Field>): seq<Request>
    requires GoodFields(fields)
  {
    if fields == [] then []
    else (match fields[0]
          case Plain(p) =>
            [Request(if p.key == "usage_instructions" then "usage_instructions" else "other", ValueEnd(p))]
          case ToolList(_, open, tools, close) =>
            [Request("other", open)] + ToolRequests(tools) + [Request("other", close)])
         + FieldRequests(fields[1..])
  }

  /** The tool count of the last "tools" field, or `n` when there is none. */
  function LastCount(fields: seq<Field>, n: nat): nat {
    if fields == [] then n
    else LastCount(fields[1..], if fields[0].ToolList? then |fields[0].tools| else n)
  }

  lemma {:induction false} SkipIgnoresRest(v: seq<Lexeme>, rest: seq<Lexeme>, depth: nat)
    requires Skip(v, depth).Some?
    ensures Skip(v + rest, depth) == Skip(v, depth)
  {
    assert (v + rest)[1..] == v[1..] + rest;
    if Opens(v[0].tok) {
      SkipIgnoresRest(v[1..], rest, depth + 1);
    } else if Closes(v[0].tok) {
      if depth > 1 {
        SkipIgnoresRest(v[1..], rest, depth - 1);
      }
    } else if depth > 0 {
      SkipIgnoresRest(v[1..], rest, depth);
    }
  }

  /** One rendered pair in front of more lexemes: where its value ends, and what follows. */
  lemma PairInFront(p: Pair, rest: seq<Lexeme>)
    requires IsValue(p.value)
    ensures var s := [Lexeme(Str(p.key), p.keyEnd)] + p.value + rest;
            && More(s) && s[0].tok == Str(p.key)
            && Skip(s[1..], 0) == Some(|p.value|) && s[|p.value|].end == ValueEnd(p)
            && s[|p.value| + 1..] == rest
  {
    var s := [Lexeme(Str(p.key), p.keyEnd)] + p.value + rest;
    assert s[1..] == p.value + rest;
    SkipIgnoresRest(p.value, rest, 0);
  }

  lemma PairsStep(p: Pair, more: seq<Lexeme>)
    requires IsValue(p.value)
    ensures Pairs([Lexeme(Str(p.key), p.keyEnd)] + p.value + more) ==
            Before([Request(ToolTag(p.key), ValueEnd(p))], Pairs(more))
  {
    PairInFront(p, more);
  }

  lemma {:induction false} PairsRoundTrip(pairs: seq<Pair>, rest: seq<Lexeme>)
    requires GoodPairs(pairs) && !More(rest)
    ensures Pairs(RenderPairs(pairs) + rest) == Some(Walked(PairRequests(pairs), rest, 0))
  {
    if pairs == [] {
      assert RenderPairs(pairs) + rest == rest;
    } else {
      var p, tail := pairs[0], RenderPairs(pairs[1..]);
      PairsRoundTrip(pairs[1..], rest);
      PairsStep(p, tail + rest);
      Associate([Lexeme(Str(p.key), p.keyEnd)] + p.value, tail, rest);
    }
  }

  lemma Reassociate(a: seq<Lexeme>, b: seq<Lexeme>, c: seq<Lexeme>, d: seq<Lexeme>, e: seq<Lexeme>)
    ensures (a + b + c + d) + e == a + b + c + (d + e)
  {
  }

  lemma ToolsStep(open: nat, inside: seq<Lexeme>, close: nat, more: seq<Lexeme>, requests: seq<Request>)
    requires Pairs(inside + ([Lexeme(Delim('}'), close)] + more)) ==
             Some(Walked(requests, [Lexeme(Delim('}'), close)] + more, 0))
    ensures Tools([Lexeme(Delim('{'), open)] + inside + [Lexeme(Delim('}'), close)] + more) ==
            Counted(1, Before([Request(OTHER, open)] + requests + [Request(OTHER, close)], Tools(more)))
  {
    var head, end := Lexeme(Delim('{'), open), Lexeme(Delim('}'), close);
    var s := [head] + inside + [end] + more;
    Unwrap(head, inside, end, more);
    assert StartsWith(s, '{') && Pairs(s[1..]).Some?;
    var rest := Pairs(s[1..]).value.rest;
    assert rest[0] == end && rest[1..] == more;
  }

  lemma Unwrap(head: Lexeme, inside: seq<Lexeme>, end: Lexeme, more: seq<Lexeme>)
    ensures ([head] + inside + [end] + more)[1..] == inside + ([end] + more)
    ensures ([end] + more)[1..] == more
  {
  }

  lemma {:induction false} ToolsRoundTrip(tools: seq<Tool>, rest: seq<Lexeme>)
    requires GoodTools(tools) && !More(rest)
    ensures Tools(RenderTools(tools) + rest) == Some(Walked(ToolRequests(tools), rest, |tools|))
  {
    if tools == [] {
      assert RenderTools(tools) + rest == rest;
    } else {
      var t, tail := tools[0], RenderTools(tools[1..]) + rest;
      ToolsRoundTrip(tools[1..], rest);
      PairsRoundTrip(t.pairs, [Lexeme(Delim('}'), t.close)] + tail);
      ToolsStep(t.open, RenderPairs(t.pairs), t.close, tail, PairRequests(t.pairs));
      Reassociate([Lexeme(Delim('{'), t.open)], RenderPairs(t.pairs), [Lexeme(Delim('}'), t.close)],
                  RenderTools(tools[1..]), rest);
    }
  }

  lemma PlainStep(p: Pair, more: seq<Lexeme>, n: nat)
    requires IsValue(p.value) && p.key != "tools"
    ensures Fields([Lexeme(Str(p.key), p.keyEnd)] + p.value + more, n) ==
            Before([Request(FieldTag(p.key), ValueEnd(p))], Fields(more, n))
  {
    PairInFront(p, more);
  }

  lemma ToolListStep(keyEnd: nat, open: nat, inside: seq<Lexeme>, close: nat, more: seq<Lexeme>, n: nat,
                     requests: seq<Request>, count: nat)
    requires Tools(inside + ([Lexeme(Delim(']'), close)] + more)) ==
             Some(Walked(requests, [Lexeme(Delim(']'), close)] + more, count))
    ensures Fields(
              [Lexeme(Str("tools"), keyEnd), Lexeme(Delim('['), open)] + inside + [Lexeme(Delim(']'), close)] + more, n)
         == Before([Request(OTHER, open)] + requests + [Request(OTHER, close)], Fields(more, count))
  {
    var key, head, end := Lexeme(Str("tools"), keyEnd), Lexeme(Delim('['), open), Lexeme(Delim(']'), close);
    var s := [key, head] + inside + [end] + more;
    UnwrapTwo(key, head, inside, end, more);
    assert More(s) && StartsWith(s[1..], '[') && Tools(s[2..]).Some?;
    var rest := Tools(s[2..]).value.rest;
    assert rest[0] == end && rest[1..] == more;
  }

  lemma UnwrapTwo(key: Lexeme, head: Lexeme, inside: seq<Lexeme>, end: Lexeme, more: seq<Lexeme>)
    ensures ([key, head] + inside + [end] + more)[2..] == inside + ([end] + more)
    ensures ([end] + more)[1..] == more
  {
  }

  lemma {:induction false} FieldsRoundTrip(fields: seq<Field>, rest: seq<Lexeme>, n: nat)
    requires GoodFields(fields) && !More(rest)
    ensures Fields(RenderFields(fields) + rest, n) == Some(Walked(FieldRequests(fields), rest, LastCount(fields, n)))
  {
    if fields == [] {
      assert RenderFields(fields) + rest == rest;
    } else {
      var tail := RenderFields(fields[1..]) + rest;
      assert GoodField(fields[0]);
      match fields[0]
      case Plain(p) =>
        FieldsRoundTrip(fields[1..], rest, n);
        PlainStep(p, tail, n);
        PlainRender(p);
        Reassociate([Lexeme(Str(p.key), p.keyEnd)], p.value, [], RenderFields(fields[1..]), rest);
        assert [Lexeme(Str(p.key), p.keyEnd)] + p.value + [] == RenderPairs([p]);
      case ToolList(keyEnd, open, tools, close) =>
        FieldsRoundTrip(fields[1..], rest, |tools|);
        ToolsRoundTrip(tools, [Lexeme(Delim(']'), close)] + tail);
        ToolListStep(keyEnd, open, RenderTools(tools), close, tail, n, ToolRequests(tools), |tools|);
        Reassociate([Lexeme(Str("tools"), keyEnd), Lexeme(Delim('['), open)], RenderTools(tools),
                    [Lexeme(Delim(']'), close)], RenderFields(fields[1..]), rest);
    }
  }

  lemma PlainRender(p: Pair)
    ensures RenderPairs([p]) == [Lexeme(Str(p.key), p.keyEnd)] + p.value
  {
    assert [p][1..] == [];
    assert RenderPairs([p][1..]) == [];
  }

  /** The walk accepts every well-formed response, and requests exactly the labels of its parts. */
  lemma RoundTrip(r: Response, after: seq<Lexeme>, length: nat, blankFrom: nat)
    requires GoodFields(r.fields) && blankFrom <= r.close
    ensures Walk(Text(Render(r) + after, length, blankFrom)) ==
            Some(([Request("other", r.open)] + FieldRequests(r.fields)
                  + [Request("other", r.close), Request("other", length)],
                  LastCount(r.fields, 0)))
  {
    var end := [Lexeme(Delim('}'), r.close)];
    assert (Render(r) + after)[1..] == RenderFields(r.fields) + (end + after);
    FieldsRoundTrip(r.fields, end + after, 0);
  }
}
