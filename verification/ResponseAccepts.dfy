/** The converse of the round trip: what the walk accepts is a rendered response, and what is not is turned away. */
module ResponseAccepts {
  import opened Wrappers
  import opened Seqs
  import opened ResponseGrammar

  /** What was opened, what stands inside, and what closes it with all that follows. */
  lemma Wrap(head: seq<Lexeme>, inside: seq<Lexeme>, close: seq<Lexeme>)
    requires close != []
    ensures head + (inside + close) == head + inside + [close[0]] + close[1..]
    ensures head + inside + [close[0]] <= head + (inside + close)
  {
  }

  /** The lexemes a value takes are a value on their own. */
  lemma {:induction false} SkipTakesValue(s: seq<Lexeme>, depth: nat)
    requires Skip(s, depth).Some?
    ensures Skip(s[..Skip(s, depth).value], depth) == Skip(s, depth)
  {
    var n := Skip(s, depth).value;
    var v := s[..n];
    assert v[0] == s[0] && v[1..] == s[1..][..n - 1];
    if Opens(s[0].tok) {
      SkipTakesValue(s[1..], depth + 1);
    } else if Closes(s[0].tok) {
      if depth > 1 {
        SkipTakesValue(s[1..], depth - 1);
      }
    } else if depth > 0 {
      SkipTakesValue(s[1..], depth);
    }
  }

  /** A key and the value after it, as a pair. */
  lemma TakePair(s: seq<Lexeme>) returns (p: Pair)
    requires More(s) && s[0].tok.Str? && Skip(s[1..], 0).Some?
    ensures IsValue(p.value) && p.key == s[0].tok.s
    ensures s == RenderPairs([p]) + s[Skip(s[1..], 0).value + 1..]
  {
    var n := Skip(s[1..], 0).value;
    p := Pair(s[0].tok.s, s[0].end, s[1..][..n]);
    SkipTakesValue(s[1..], 0);
    PlainRender(p);
    assert s == [s[0]] + s[1..][..n] + s[n + 1..];
  }

  lemma PairsSnoc(p: Pair, pairs: seq<Pair>)
    ensures RenderPairs([p] + pairs) == RenderPairs([p]) + RenderPairs(pairs)
  {
    PlainRender(p);
    assert ([p] + pairs)[1..] == pairs;
  }

  lemma {:induction false} TakePairs(s: seq<Lexeme>) returns (pairs: seq<Pair>)
    requires Pairs(s).Some?
    ensures GoodPairs(pairs) && s == RenderPairs(pairs) + Pairs(s).value.rest
    decreases |s|
  {
    if !More(s) {
      pairs := [];
    } else {
      var p := TakePair(s);
      var rest := s[Skip(s[1..], 0).value + 1..];
      var more := TakePairs(rest);
      pairs := [p] + more;
      PairsSnoc(p, more);
      Associate(RenderPairs([p]), RenderPairs(more), Pairs(s).value.rest);
    }
  }

  function RenderTool(t: Tool): seq<Lexeme> {
    [Lexeme(Delim('{'), t.open)] + RenderPairs(t.pairs) + [Lexeme(Delim('}'), t.close)]
  }

  /** An object of the "tools" array, as a tool. */
  lemma TakeTool(s: seq<Lexeme>) returns (t: Tool)
    requires StartsWith(s, '{') && Pairs(s[1..]).Some? && StartsWith(Pairs(s[1..]).value.rest, '}')
    ensures GoodPairs(t.pairs) && s == RenderTool(t) + Pairs(s[1..]).value.rest[1..]
  {
    var close := Pairs(s[1..]).value.rest;
    var pairs := TakePairs(s[1..]);
    t := Tool(s[0].end, pairs, close[0].end);
    assert s == [s[0]] + s[1..];
    Wrap([s[0]], RenderPairs(pairs), close);
  }

  lemma ToolsCons(t: Tool, tools: seq<Tool>)
    ensures RenderTools([t] + tools) == RenderTool(t) + RenderTools(tools)
  {
    assert ([t] + tools)[1..] == tools;
  }

  lemma {:induction false} TakeTools(s: seq<Lexeme>) returns (tools: seq<Tool>)
    requires Tools(s).Some?
    ensures GoodTools(tools) && s == RenderTools(tools) + Tools(s).value.rest
    decreases |s|
  {
    if !More(s) {
      tools := [];
    } else {
      var t := TakeTool(s);
      var rest := Pairs(s[1..]).value.rest[1..];
      var more := TakeTools(rest);
      tools := [t] + more;
      ToolsCons(t, more);
      Associate(RenderTool(t), RenderTools(more), Tools(s).value.rest);
    }
  }

  function RenderField(f: Field): seq<Lexeme> {
    match f
    case Plain(p) => RenderPairs([p])
    case ToolList(keyEnd, open, tools, close) =>
      [Lexeme(Str("tools"), keyEnd), Lexeme(Delim('['), open)] + RenderTools(tools) + [Lexeme(Delim(']'), close)]
  }

  /** The "tools" field at the head of the lexemes. */
  lemma TakeToolList(s: seq<Lexeme>) returns (f: Field)
    requires More(s) && s[0].tok == Str("tools") && StartsWith(s[1..], '[')
    requires Tools(s[2..]).Some? && StartsWith(Tools(s[2..]).value.rest, ']')
    ensures GoodField(f) && s == RenderField(f) + Tools(s[2..]).value.rest[1..]
  {
    var close := Tools(s[2..]).value.rest;
    var tools := TakeTools(s[2..]);
    f := ToolList(s[0].end, s[1].end, tools, close[0].end);
    assert s == [s[0], s[1]] + s[2..];
    Wrap([s[0], s[1]], RenderTools(tools), close);
  }

  lemma FieldsCons(f: Field, fields: seq<Field>)
    ensures RenderFields([f] + fields) == RenderField(f) + RenderFields(fields)
  {
    assert ([f] + fields)[1..] == fields;
  }

  lemma {:induction false} TakeFields(s: seq<Lexeme>, tools: nat) returns (fields: seq<Field>)
    requires Fields(s, tools).Some?
    ensures GoodFields(fields) && s == RenderFields(fields) + Fields(s, tools).value.rest
    decreases |s|
  {
    if !More(s) {
      fields := [];
    } else {
      var f, rest, count;
      if s[0].tok.s == "tools" {
        f := TakeToolList(s);
        rest, count := Tools(s[2..]).value.rest[1..], Tools(s[2..]).value.tools;
      } else {
        var p := TakePair(s);
        f, rest, count := Plain(p), s[Skip(s[1..], 0).value + 1..], tools;
      }
      var more := TakeFields(rest, count);
      fields := [f] + more;
      FieldsCons(f, more);
      Associate(RenderField(f), RenderFields(more), Fields(s, tools).value.rest);
    }
  }

  /** The text begins with a rendered response, and only blanks follow it. */
  ghost predicate Carries(t: Text, r: Response) {
    GoodFields(r.fields) && Render(r) <= t.stream && t.blankFrom <= r.close
  }

  /** A walk that comes to its end has read a response. */
  lemma TakeResponse(t: Text) returns (r: Response)
    requires Walk(t).Some?
    ensures Carries(t, r)
  {
    var open, inside, after := t.stream[0], t.stream[1..], Fields(t.stream[1..], 0).value.rest;
    var fields := TakeFields(inside, 0);
    r := Response(open.end, fields, after[0].end);
    assert open == Lexeme(Delim('{'), r.open) && after[0] == Lexeme(Delim('}'), r.close);
    assert t.stream == [open] + inside;
    Wrap([open], RenderFields(fields), after);
  }

  lemma ResponseIsAccepted(t: Text, r: Response)
    requires Carries(t, r)
    ensures Walk(t).Some?
  {
    var after := t.stream[|Render(r)|..];
    assert t.stream == Render(r) + after;
    RoundTrip(r, after, t.length, t.blankFrom);
  }

  /** The walk accepts exactly the texts that hold a well-formed response and nothing after it. */
  lemma AcceptsExactlyResponses(t: Text)
    ensures Walk(t).Some? <==> exists r :: Carries(t, r)
  {
    if Walk(t).Some? {
      var r := TakeResponse(t);
    }
    if r :| Carries(t, r) {
      ResponseIsAccepted(t, r);
    }
  }
}
