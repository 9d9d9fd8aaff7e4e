/**
 * `partitionToolDefinition` and `DecomposePayload`: the rendering of every tool, attributed to name, description,
 * schema and separators by the same one-pass attribution the response measurement uses.
 */
module Payload {
  import opened Wrappers
  import opened Seqs
  import opened Catalog
  import opened Spans

  const NAME := "name"
  const DESCRIPTION := "description"
  const SCHEMA := "schema"
  const STRUCTURAL := "structural"

  /** One labelled piece of a rendering. */
  datatype Part = Part(tag: string, text: string)

  function Flatten(parts: seq<Part>): string {
    if parts == [] then "" else parts[0].text + Flatten(parts[1..])
  }

  /** The span of one part starting at byte `at`; an empty part takes none. */
  function PartSpan(p: Part, at: nat): seq<Span> {
    if p.text == "" then [] else [Span(p.tag, at, at + |p.text|)]
  }

  /** The parts laid end to end from byte `mark`. */
  function Layout(parts: seq<Part>, mark: nat): seq<Span> {
    if parts == [] then [] else PartSpan(parts[0], mark) + Layout(parts[1..], mark + |parts[0].text|)
  }

  lemma {:induction false} FlattenSnoc(parts: seq<Part>, p: Part)
    ensures Flatten(parts + [p]) == Flatten(parts) + p.text
  {
    if parts == [] {
      assert parts + [p] == [p] && [p][1..] == [];
    } else {
      FlattenSnoc(parts[1..], p);
      assert (parts + [p])[1..] == parts[1..] + [p];
      Associate(parts[0].text, Flatten(parts[1..]), p.text);
    }
  }

  lemma {:induction false} LayoutSnoc(parts: seq<Part>, p: Part, mark: nat)
    ensures Layout(parts + [p], mark) == Layout(parts, mark) + PartSpan(p, mark + |Flatten(parts)|)
  {
    if parts == [] {
      assert parts + [p] == [p] && [p][1..] == [];
      assert Layout([p], mark) == PartSpan(p, mark) + [];
    } else {
      var n := mark + |parts[0].text|;
      LayoutSnoc(parts[1..], p, n);
      assert (parts + [p])[1..] == parts[1..] + [p];
      Associate(PartSpan(parts[0], mark), Layout(parts[1..], n), PartSpan(p, n + |Flatten(parts[1..])|));
    }
  }

  lemma {:induction false} LayoutTiles(parts: seq<Part>, mark: nat)
    ensures TilesFrom(Layout(parts, mark), mark, mark + |Flatten(parts)|)
  {
    if parts != [] {
      LayoutTiles(parts[1..], mark + |parts[0].text|);
      if parts[0].text != "" {
        assert Layout(parts, mark)[1..] == Layout(parts[1..], mark + |parts[0].text|);
      } else {
        assert Layout(parts, mark) == Layout(parts[1..], mark);
      }
    }
  }

  /** A span of the layout holds exactly the text of one of the parts, under that part's label. */
  ghost predicate HoldsPart(parts: seq<Part>, text: string, s: Span) {
    0 <= s.start <= s.end <= |text| && Part(s.tag, text[s.start..s.end]) in parts
  }

  lemma MiddleSlice(before: string, middle: string, after: string)
    ensures (before + (middle + after))[|before|..|before| + |middle|] == middle
  {
  }

  lemma {:induction false} LayoutHolds(parts: seq<Part>, before: string, i: nat)
    requires i < |Layout(parts, |before|)|
    ensures HoldsPart(parts, before + Flatten(parts), Layout(parts, |before|)[i])
  {
    var p, rest := parts[0], parts[1..];
    Associate(before, p.text, Flatten(rest));
    var text := before + Flatten(parts);
    assert Flatten(parts) == p.text + Flatten(rest);
    if p.text != "" && i == 0 {
      FirstHolds(parts, before);
    } else {
      var j := if p.text == "" then i else i - 1;
      LayoutHolds(rest, before + p.text, j);
      assert Layout(parts, |before|)[i] == Layout(rest, |before + p.text|)[j];
    }
  }

  lemma FirstHolds(parts: seq<Part>, before: string)
    requires parts != [] && parts[0].text != ""
    ensures HoldsPart(parts, before + Flatten(parts), Layout(parts, |before|)[0])
  {
    var p, rest := parts[0], parts[1..];
    Associate(before, p.text, Flatten(rest));
    MiddleSlice(before, p.text, Flatten(rest));
    assert Part(p.tag, p.text) == p;
  }

  /** Laid-out parts partition their rendering, and each span holds exactly one part's text. */
  lemma LayoutIsPartition(parts: seq<Part>)
    ensures IsPartition(Layout(parts, 0), |Flatten(parts)|)
    ensures forall i :: 0 <= i < |Layout(parts, 0)| ==> HoldsPart(parts, Flatten(parts), Layout(parts, 0)[i])
  {
    LayoutTiles(parts, 0);
    TilesArePartition(Layout(parts, 0), |Flatten(parts)|);
    assert "" + Flatten(parts) == Flatten(parts);
    forall i | 0 <= i < |Layout(parts, 0)|
      ensures HoldsPart(parts, Flatten(parts), Layout(parts, 0)[i])
    {
      LayoutHolds(parts, "", i);
    }
  }

  /** The closure `add` with the text and spans it extends. */
  class Rendering {
    var text: string
    var spans: seq<Span>
    /** The parts added so far. */
    ghost var parts: seq<Part>

    ghost predicate Valid()
      reads this
    {
      text == Flatten(parts) && spans == Layout(parts, 0)
    }

    constructor ()
      ensures Valid() && parts == []
    {
      text, spans, parts := "", [], [];
    }

    method Add(tag: string, s: string)
      requires Valid()
      modifies this
      ensures Valid()
      ensures parts == old(parts) + [Part(tag, s)]
    {
      FlattenSnoc(parts, Part(tag, s));
      LayoutSnoc(parts, Part(tag, s), 0);
      parts := parts + [Part(tag, s)];
      if s == "" {
        return;
      }
      var start := |text|;
      text := text + s;
      spans := spans + [Span(tag, start, |text|)];
    }
  }

  /** What a tool renders as, part by part; nothing when its schema is not valid JSON. */
  function Parts(t: Tool, canon: string -> Option<string>): Option<seq<Part>> {
    var prose := [Part(NAME, t.name), Part(STRUCTURAL, "\n"), Part(DESCRIPTION, t.description)];
    if t.schema == "" then Some(prose)
    else
      match canon(t.schema)
      case None => None
      case Some(c) => Some(prose + [Part(STRUCTURAL, "\n"), Part(SCHEMA, c)])
  }

  /** The rendering of a tool, and which bytes of it are its name, its description and its schema. */
  ghost predicate Renders(t: Tool, schema: string, text: string, spans: seq<Span>) {
    var n, d := |t.name|, |t.description|;
    && text == t.name + "\n" + t.description + (if t.schema == "" then "" else "\n" + schema)
    && (t.name != "" ==> Span("name", 0, n) in spans)
    && Span("structural", n, n + 1) in spans
    && (t.description != "" ==> Span("description", n + 1, n + 1 + d) in spans)
    && (t.schema != "" ==>
          && Span("structural", n + 1 + d, n + 2 + d) in spans
          && (schema != "" ==> Span("schema", n + 2 + d, n + 2 + d + |schema|) in spans))
  }

  /** A part that is not empty has its span, after all the parts before it. */
  lemma {:induction false} PartHasSpan(parts: seq<Part>, mark: nat, i: nat)
    requires i < |parts| && parts[i].text != ""
    ensures var at := mark + |Flatten(parts[..i])|;
            Span(parts[i].tag, at, at + |parts[i].text|) in Layout(parts, mark)
  {
    if i > 0 {
      var rest, next := parts[1..], mark + |parts[0].text|;
      PartHasSpan(rest, next, i - 1);
      assert parts[..i][1..] == rest[..i - 1];
      assert Flatten(parts[..i]) == parts[0].text + Flatten(rest[..i - 1]);
      assert Layout(parts, mark) == PartSpan(parts[0], mark) + Layout(rest, next);
    } else {
      assert parts[..0] == [];
    }
  }

  /** Where the parts of a tool stand. */
  lemma PartsFlatten(t: Tool, canon: string -> Option<string>, parts: seq<Part>)
    requires Parts(t, canon) == Some(parts)
    ensures Flatten(parts[..0]) == "" && Flatten(parts[..1]) == t.name && Flatten(parts[..2]) == t.name + "\n"
    ensures Flatten(parts[..3]) == t.name + "\n" + t.description
    ensures |parts| > 3 ==> Flatten(parts[..4]) == t.name + "\n" + t.description + "\n"
  {
    assert parts[..1] == parts[..0] + [parts[0]] && parts[..2] == parts[..1] + [parts[1]];
    assert parts[..3] == parts[..2] + [parts[2]];
    FlattenSnoc(parts[..0], parts[0]);
    FlattenSnoc(parts[..1], parts[1]);
    FlattenSnoc(parts[..2], parts[2]);
    if |parts| > 3 {
      assert parts[..4] == parts[..3] + [parts[3]];
      FlattenSnoc(parts[..3], parts[3]);
    }
  }

  lemma SpanAt(parts: seq<Part>, i: nat, at: nat, n: nat)
    requires i < |parts| && |Flatten(parts[..i])| == at && |parts[i].text| == n > 0
    ensures Span(parts[i].tag, at, at + n) in Layout(parts, 0)
  {
    PartHasSpan(parts, 0, i);
  }

  lemma PartsText(t: Tool, canon: string -> Option<string>, parts: seq<Part>)
    requires Parts(t, canon) == Some(parts)
    ensures Flatten(parts) ==
            t.name + "\n" + t.description + (if t.schema == "" then "" else "\n" + canon(t.schema).value)
  {
    PartsFlatten(t, canon, parts);
    if t.schema == "" {
      assert parts == parts[..3] && Flatten(parts) + "" == Flatten(parts);
    } else {
      FlattenSnoc(parts[..4], parts[4]);
      Associate(t.name + "\n" + t.description, "\n", parts[4].text);
      assert parts == parts[..4] + [parts[4]];
    }
  }

  lemma ProseSpans(t: Tool, canon: string -> Option<string>, parts: seq<Part>)
    requires Parts(t, canon) == Some(parts)
    ensures var n, d, spans := |t.name|, |t.description|, Layout(parts, 0);
            && (n > 0 ==> Span("name", 0, n) in spans)
            && Span("structural", n, n + 1) in spans
            && (d > 0 ==> Span("description", n + 1, n + 1 + d) in spans)
  {
    var n, d := |t.name|, |t.description|;
    PartsFlatten(t, canon, parts);
    if n > 0 {
      SpanAt(parts, 0, 0, n);
    }
    SpanAt(parts, 1, n, 1);
    if d > 0 {
      SpanAt(parts, 2, n + 1, d);
    }
  }

  lemma SchemaSpans(t: Tool, canon: string -> Option<string>, parts: seq<Part>)
    requires Parts(t, canon) == Some(parts) && t.schema != ""
    ensures var at, schema, spans := |t.name| + 1 + |t.description|, canon(t.schema).value, Layout(parts, 0);
            && Span("structural", at, at + 1) in spans
            && (schema != "" ==> Span("schema", at + 1, at + 1 + |schema|) in spans)
  {
    var at := |t.name| + 1 + |t.description|;
    PartsFlatten(t, canon, parts);
    SpanAt(parts, 3, at, 1);
    if canon(t.schema).value != "" {
      SpanAt(parts, 4, at + 1, |canon(t.schema).value|);
    }
  }

  /** A tool renders exactly when it has no schema or a canonical one, and then part by part as it should. */
  lemma PartsRender(t: Tool, canon: string -> Option<string>)
    ensures Parts(t, canon).Some? <==> t.schema == "" || canon(t.schema).Some?
    ensures Parts(t, canon).Some? ==>
              var parts := Parts(t, canon).value;
              Renders(t, if t.schema == "" then "" else canon(t.schema).value, Flatten(parts), Layout(parts, 0))
  {
    if Parts(t, canon).Some? {
      var parts := Parts(t, canon).value;
      PartsText(t, canon, parts);
      ProseSpans(t, canon, parts);
      if t.schema != "" {
        SchemaSpans(t, canon, parts);
      }
    }
  }

  method PartitionToolDefinition(t: Tool, canon: string -> Option<string>)
    returns (r: Option<(string, seq<Span>)>)
    ensures r.Some? <==> Parts(t, canon).Some?
    ensures r.Some? ==> r.value == (Flatten(Parts(t, canon).value), Layout(Parts(t, canon).value, 0))
    ensures r.Some? ==> r.value.0 != "" && IsPartition(r.value.1, |r.value.0|)
  {
    var rendering := new Rendering();
    rendering.Add(NAME, t.name);
    rendering.Add(STRUCTURAL, "\n");
    rendering.Add(DESCRIPTION, t.description);
    if |t.schema| > 0 {
      var canonical := canon(t.schema);
      if canonical.None? {
        return None;
      }
      rendering.Add(STRUCTURAL, "\n");
      rendering.Add(SCHEMA, canonical.value);
    }
    ghost var parts := Parts(t, canon).value;
    assert rendering.parts == parts;
    LayoutIsPartition(parts);
    NeverEmpty(t, canon);
    return Some((rendering.text, rendering.spans));
  }

  /** Why "tool renders to an empty definition" is never reported: the separator is always there. */
  lemma NeverEmpty(t: Tool, canon: string -> Option<string>)
    requires Parts(t, canon).Some?
    ensures Flatten(Parts(t, canon).value) != ""
  {
    var parts := Parts(t, canon).value;
    assert parts[1] == Part(STRUCTURAL, "\n") && parts[1..][0] == parts[1];
    assert |Flatten(parts[1..])| >= 1;
  }

  // ---- the four components add up ----

  lemma {:induction false} NoSpanNoTokens(pieces: seq<nat>, spans: seq<Span>, tag: string, n: nat)
    requires n <= |pieces| && forall i :: 0 <= i < |spans| ==> spans[i].tag != tag
    ensures TokensIn(pieces, spans, tag, n) == 0
  {
    if n > 0 {
      NoSpanNoTokens(pieces, spans, tag, n - 1);
    }
  }

  lemma SplitOut(m: map<string, nat>, keys: set<string>, k: string)
    requires keys <= m.Keys && (k in keys || k !in m)
    ensures SumOver(m, keys) == Count(m, k) + SumOver(m, keys - {k})
  {
    if k in keys {
      SumOverPick(m, keys, k);
    } else {
      assert keys - {k} == keys;
    }
  }

  /** When only the four payload labels occur, their counts add up to the whole. */
  lemma FourAddUp(pieces: seq<nat>, spans: seq<Span>, m: map<string, nat>)
    requires CountsSoFar(pieces, spans, m, |pieces|)
    requires forall i :: 0 <= i < |spans| ==> spans[i].tag in {NAME, DESCRIPTION, SCHEMA, STRUCTURAL}
    ensures Count(m, NAME) + Count(m, DESCRIPTION) + Count(m, SCHEMA) + Count(m, STRUCTURAL) == |pieces|
  {
    var keys := m.Keys;
    SplitOut(m, keys, NAME);
    SplitOut(m, keys - {NAME}, DESCRIPTION);
    SplitOut(m, keys - {NAME} - {DESCRIPTION}, SCHEMA);
    SplitOut(m, keys - {NAME} - {DESCRIPTION} - {SCHEMA}, STRUCTURAL);
    var others := keys - {NAME} - {DESCRIPTION} - {SCHEMA} - {STRUCTURAL};
    forall k | k in others
      ensures m[k] == 0
    {
      NoSpanNoTokens(pieces, spans, k, |pieces|);
      assert Count(m, k) == TokensIn(pieces, spans, k, |pieces|);
    }
    AllZero(m, others);
  }

  // ---- the corpus ----

  datatype Decomposition = Decomposition(
    toolCount: nat, toolsWithSchema: nat, total: nat, name: nat, description: nat, schema: nat, structural: nat)

  datatype PayloadError = NoTools | BadSchema | BadAttribution

  /** The tokenizer cuts this tool's rendering into non-empty pieces that cover it. */
  ghost predicate Measurable(t: Tool, canon: string -> Option<string>, tokenize: string -> seq<nat>) {
    && Parts(t, canon).Some?
    && var text := Flatten(Parts(t, canon).value);
       && (forall k :: 0 <= k < |tokenize(text)| ==> tokenize(text)[k] > 0)
       && Offset(tokenize(text), |tokenize(text)|) == |text|
  }

  /** The tokens of one tool that start in a part of this label. */
  ghost function ToolTokens(t: Tool, canon: string -> Option<string>, tokenize: string -> seq<nat>, tag: string): nat
    requires Parts(t, canon).Some?
  {
    var parts := Parts(t, canon).value;
    TokensIn(tokenize(Flatten(parts)), Layout(parts, 0), tag, |tokenize(Flatten(parts))|)
  }

  /** The same over a corpus, each tool tokenised on its own. */
  ghost function CorpusTokens(tools: seq<Tool>, canon: string -> Option<string>, tokenize: string -> seq<nat>,
                              tag: string): nat
    requires forall i :: 0 <= i < |tools| ==> Parts(tools[i], canon).Some?
  {
    if tools == [] then 0
    else CorpusTokens(tools[..|tools| - 1], canon, tokenize, tag) + ToolTokens(Last(tools), canon, tokenize, tag)
  }

  ghost function CorpusTotal(tools: seq<Tool>, canon: string -> Option<string>, tokenize: string -> seq<nat>): nat
    requires forall i :: 0 <= i < |tools| ==> Parts(tools[i], canon).Some?
  {
    if tools == [] then 0
    else
      CorpusTotal(tools[..|tools| - 1], canon, tokenize)
      + |tokenize(Flatten(Parts(Last(tools), canon).value))|
  }

  ghost function WithSchema(tools: seq<Tool>): nat {
    if tools == [] then 0
    else WithSchema(tools[..|tools| - 1]) + (if Last(tools).schema != "" then 1 else 0)
  }

  /** `d` is the decomposition of the first `n` tools. */
  ghost predicate Decomposes(tools: seq<Tool>, canon: string -> Option<string>, tokenize: string -> seq<nat>,
                             d: Decomposition, n: nat) {
    && n <= |tools|
    && (forall i :: 0 <= i < n ==> Measurable(tools[i], canon, tokenize))
    && d.toolCount == |tools|
    && d.toolsWithSchema == WithSchema(tools[..n])
    && d.total == CorpusTotal(tools[..n], canon, tokenize)
    && d.name == CorpusTokens(tools[..n], canon, tokenize, NAME)
    && d.description == CorpusTokens(tools[..n], canon, tokenize, DESCRIPTION)
    && d.schema == CorpusTokens(tools[..n], canon, tokenize, SCHEMA)
    && d.structural == CorpusTokens(tools[..n], canon, tokenize, STRUCTURAL)
    && d.name + d.description + d.schema + d.structural == d.total
  }

  method MeasureTool(t: Tool, canon: string -> Option<string>, tokenize: string -> seq<nat>)
    returns (r: Result<Attribution, PayloadError>)
    ensures r.Ok? <==> Measurable(t, canon, tokenize)
    ensures r == Err(BadSchema) <==> Parts(t, canon).None?
    ensures r != Err(NoTools)
    ensures r.Ok? ==> MeasuredAs(t, canon, tokenize, r.value)
  {
    var rendered := PartitionToolDefinition(t, canon);
    if rendered.None? {
      return Err(BadSchema);
    }
    var text, spans := rendered.value.0, rendered.value.1;
    var pieces := tokenize(text);
    var attributed := AttributeTokens(pieces, |text|, spans);
    if attributed.Err? {
      return Err(BadAttribution);
    }
    ghost var parts := Parts(t, canon).value;
    LayoutIsPartition(parts);
    forall i | 0 <= i < |spans|
      ensures spans[i].tag in {NAME, DESCRIPTION, SCHEMA, STRUCTURAL}
    {
      assert forall p :: p in parts ==> p.tag in {NAME, DESCRIPTION, SCHEMA, STRUCTURAL};
    }
    FourAddUp(pieces, spans, attributed.value.components);
    return Ok(attributed.value);
  }

  function Include(d: Decomposition, t: Tool, a: Attribution): Decomposition {
    d.(toolsWithSchema := if |t.schema| > 0 then d.toolsWithSchema + 1 else d.toolsWithSchema,
       total := d.total + a.total,
       name := d.name + Count(a.components, NAME),
       description := d.description + Count(a.components, DESCRIPTION),
       schema := d.schema + Count(a.components, SCHEMA),
       structural := d.structural + Count(a.components, STRUCTURAL))
  }

  /** `a` is what one tool measures as. */
  ghost predicate MeasuredAs(t: Tool, canon: string -> Option<string>, tokenize: string -> seq<nat>, a: Attribution) {
    && Measurable(t, canon, tokenize)
    && a.total == |tokenize(Flatten(Parts(t, canon).value))|
    && (forall tag :: Count(a.components, tag) == ToolTokens(t, canon, tokenize, tag))
    && a.total == Count(a.components, NAME) + Count(a.components, DESCRIPTION)
                  + Count(a.components, SCHEMA) + Count(a.components, STRUCTURAL)
  }

  lemma DecomposesOneMore(tools: seq<Tool>, canon: string -> Option<string>, tokenize: string -> seq<nat>,
                          d: Decomposition, k: nat, a: Attribution)
    requires k < |tools| && Decomposes(tools, canon, tokenize, d, k)
    requires MeasuredAs(tools[k], canon, tokenize, a)
    ensures Decomposes(tools, canon, tokenize, Include(d, tools[k], a), k + 1)
  {
    assert tools[..k + 1][..k] == tools[..k] && Last(tools[..k + 1]) == tools[k];
  }

  /** `DecomposePayload`: it succeeds exactly when every tool can be measured, and the components add up. */
  method DecomposePayload(tools: seq<Tool>, canon: string -> Option<string>, tokenize: string -> seq<nat>)
    returns (r: Result<Decomposition, PayloadError>)
    ensures r == Err(NoTools) <==> tools == []
    ensures r.Ok? <==> tools != [] && forall i :: 0 <= i < |tools| ==> Measurable(tools[i], canon, tokenize)
    ensures r.Ok? ==> Decomposes(tools, canon, tokenize, r.value, |tools|)
  {
    if tools == [] {
      return Err(NoTools);
    }
    var d := Decomposition(|tools|, 0, 0, 0, 0, 0, 0);
    for k := 0 to |tools|
      invariant Decomposes(tools, canon, tokenize, d, k)
    {
      var measured := MeasureTool(tools[k], canon, tokenize);
      if measured.Err? {
        return Err(measured.error);
      }
      DecomposesOneMore(tools, canon, tokenize, d, k, measured.value);
      d := Include(d, tools[k], measured.value);
    }
    assert tools[..|tools|] == tools;
    return Ok(d);
  }
}
