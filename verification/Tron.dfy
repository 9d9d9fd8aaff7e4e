/**
 * The TRON arm: schemas replaced by references to classes named after their content, each class written once. The
 * hash and the JSON canonicaliser are arbitrary functions, so nothing below rests on the hash being collision-free.
 */
module Tron {
  import opened Wrappers
  import opened Seqs
  import opened Catalog

  /** The canonical form of a schema, and the class name its hash gives. */
  datatype Encoding = Encoding(canonical: string -> Option<string>, className: string -> string)

  /** One line of the preamble. */
  datatype ClassDef = ClassDef(name: string, body: string)

  /** One tool's line: a class reference when the tool has a schema. */
  datatype Entry = Entry(name: string, description: string, reference: Option<string>)

  datatype Listing = Listing(preamble: seq<ClassDef>, entries: seq<Entry>)

  datatype EncodeError = BadSchema(toolId: string) | Collision(name: string)

  /** What a reader of a listing is owed: the tool, with its schema in canonical form. */
  datatype Definition = Definition(name: string, description: string, schema: Option<string>)

  // ---- what a listing says ----

  function Canonical(e: Encoding, t: Tool): Option<string> {
    if t.schema == "" then None else e.canonical(t.schema)
  }

  predicate Encodable(e: Encoding, t: Tool) {
    t.schema != "" ==> e.canonical(t.schema).Some?
  }

  function DefinitionOf(e: Encoding, t: Tool): Definition {
    Definition(t.name, t.description, Canonical(e, t))
  }

  /** The canonical schemas in use, tool by tool. */
  function Schemas(e: Encoding, tools: seq<Tool>): seq<string> {
    if tools == [] then []
    else
      var front, own := Schemas(e, tools[..|tools| - 1]), Canonical(e, Last(tools));
      if own.Some? then front + [own.value] else front
  }

  lemma {:induction false} SchemasFacts(e: Encoding, tools: seq<Tool>)
    ensures forall c :: c in Schemas(e, tools) <==> exists t :: t in tools && Canonical(e, t) == Some(c)
  {
    if tools != [] {
      SchemasFacts(e, tools[..|tools| - 1]);
      FrontAndLast(tools);
      assert forall t :: t in tools <==> t in tools[..|tools| - 1] || t == Last(tools);
    }
  }

  /** Two of the schemas differ and share a class name. */
  ghost predicate Clash(e: Encoding, schemas: seq<string>) {
    exists c, d :: c in schemas && d in schemas && c != d && e.className(c) == e.className(d)
  }

  ghost predicate AllEncodable(e: Encoding, tools: seq<Tool>) {
    forall t :: t in tools ==> Encodable(e, t)
  }

  function Define(e: Encoding, schemas: seq<string>): seq<ClassDef> {
    Map(schemas, (c: string) => ClassDef(e.className(c), c))
  }

  function EntryOf(e: Encoding, t: Tool): Entry {
    var own := Canonical(e, t);
    Entry(t.name, t.description, if own.Some? then Some(e.className(own.value)) else None)
  }

  function Names(e: Encoding, schemas: seq<string>): seq<string> {
    Map(schemas, (c: string) => e.className(c))
  }

  // ---- encoding ----

  /** The class table of the loop: names in order of first appearance, and the body of each. */
  ghost predicate Tables(e: Encoding, schemas: seq<string>, classOrder: seq<string>, classBody: map<string, string>) {
    && !Clash(e, schemas)
    && classOrder == Names(e, Distinct(schemas))
    && Bodies(e, schemas, classBody)
  }

  lemma NoNewClash(e: Encoding, schemas: seq<string>, c: string)
    requires !Clash(e, schemas) && forall d :: d in schemas ==> e.className(d) != e.className(c) || d == c
    ensures !Clash(e, schemas + [c])
  {
    assert forall d :: d in schemas + [c] <==> d in schemas || d == c;
  }

  /** Every schema has its class in the table, and the table has nothing else. */
  ghost predicate Bodies(e: Encoding, schemas: seq<string>, classBody: map<string, string>) {
    && (forall c :: c in schemas ==> e.className(c) in classBody && classBody[e.className(c)] == c)
    && (forall n :: n in classBody ==> classBody[n] in schemas && e.className(classBody[n]) == n)
  }

  lemma NewBody(e: Encoding, schemas: seq<string>, classBody: map<string, string>, c: string)
    requires Bodies(e, schemas, classBody) && e.className(c) !in classBody
    ensures c !in schemas && Bodies(e, schemas + [c], classBody[e.className(c) := c])
    ensures forall d :: d in schemas ==> e.className(d) != e.className(c)
  {
    assert forall d :: d in schemas + [c] <==> d in schemas || d == c;
  }

  lemma NewClass(e: Encoding, schemas: seq<string>, classOrder: seq<string>, classBody: map<string, string>, c: string)
    requires Tables(e, schemas, classOrder, classBody) && e.className(c) !in classBody
    ensures Tables(e, schemas + [c], classOrder + [e.className(c)], classBody[e.className(c) := c])
  {
    NewBody(e, schemas, classBody, c);
    NoNewClash(e, schemas, c);
    DistinctFacts(schemas);
    DistinctSnoc(schemas, c);
    assert Names(e, Distinct(schemas) + [c]) == Names(e, Distinct(schemas)) + [e.className(c)];
  }

  lemma KnownClass(e: Encoding, schemas: seq<string>, classOrder: seq<string>, classBody: map<string, string>,
                   c: string)
    requires Tables(e, schemas, classOrder, classBody)
    requires e.className(c) in classBody && classBody[e.className(c)] == c
    ensures Tables(e, schemas + [c], classOrder, classBody)
  {
    NoNewClash(e, schemas, c);
    DistinctFacts(schemas);
    DistinctSnoc(schemas, c);
    assert forall d :: d in schemas + [c] <==> d in schemas || d == c;
  }

  lemma ClashNow(e: Encoding, schemas: seq<string>, classOrder: seq<string>, classBody: map<string, string>, c: string)
    requires Tables(e, schemas, classOrder, classBody)
    requires e.className(c) in classBody && classBody[e.className(c)] != c
    ensures Clash(e, schemas + [c])
  {
    var d := classBody[e.className(c)];
    assert d in schemas + [c] && c in schemas + [c];
  }

  /** One tool's schema entered in the class table, or refused. */
  method EnterClass(e: Encoding, t: Tool, ghost schemas: seq<string>, classOrder0: seq<string>,
                    classBody0: map<string, string>)
    returns (problem: Option<EncodeError>, classOrder: seq<string>, classBody: map<string, string>)
    requires Tables(e, schemas, classOrder0, classBody0)
    ensures problem.None? ==>
              && Encodable(e, t)
              && Tables(e, schemas + (if Canonical(e, t).Some? then [Canonical(e, t).value] else []),
                        classOrder, classBody)
    ensures problem.Some? ==>
              match problem.value
              case BadSchema(_) => !Encodable(e, t)
              case Collision(_) => Canonical(e, t).Some? && Clash(e, schemas + [Canonical(e, t).value])
  {
    problem, classOrder, classBody := None, classOrder0, classBody0;
    if t.schema == "" {
      AppendNothing(schemas, schemas);
      return;
    }
    var canon := e.canonical(t.schema);
    if canon.None? {
      problem := Some(BadSchema(t.toolId));
      return;
    }
    var name := e.className(canon.value);
    if name in classBody {
      if classBody[name] != canon.value {
        ClashNow(e, schemas, classOrder, classBody, canon.value);
        problem := Some(Collision(name));
      } else {
        KnownClass(e, schemas, classOrder, classBody, canon.value);
      }
    } else {
      NewClass(e, schemas, classOrder, classBody, canon.value);
      classOrder, classBody := classOrder + [name], classBody[name := canon.value];
    }
  }

  lemma SchemasSnoc(e: Encoding, tools: seq<Tool>, i: nat)
    requires i < |tools|
    ensures Schemas(e, tools[..i + 1]) ==
            Schemas(e, tools[..i]) + (if Canonical(e, tools[i]).Some? then [Canonical(e, tools[i]).value] else [])
  {
    assert tools[..i + 1][..i] == tools[..i];
    AppendNothing(Schemas(e, tools[..i]), []);
  }

  lemma ClashGrows(e: Encoding, tools: seq<Tool>, i: nat)
    requires i < |tools| && Clash(e, Schemas(e, tools[..i + 1]))
    ensures Clash(e, Schemas(e, tools))
  {
    SchemasFacts(e, tools);
    SchemasFacts(e, tools[..i + 1]);
    var c, d :| c in Schemas(e, tools[..i + 1]) && d in Schemas(e, tools[..i + 1]) && c != d
                && e.className(c) == e.className(d);
    assert c in Schemas(e, tools) && d in Schemas(e, tools);
  }

  /** The first loop: the class table and the entries of all the tools, or the first refusal. */
  method EncodeEntries(e: Encoding, tools: seq<Tool>)
    returns (problem: Option<EncodeError>, entries: seq<Entry>, classOrder: seq<string>, classBody: map<string, string>)
    ensures problem.None? ==>
              && AllEncodable(e, tools)
              && Tables(e, Schemas(e, tools), classOrder, classBody)
              && entries == Map(tools, (t: Tool) => EntryOf(e, t))
    ensures problem.Some? ==>
              match problem.value
              case BadSchema(_) => !AllEncodable(e, tools)
              case Collision(_) => Clash(e, Schemas(e, tools))
  {
    problem, entries, classOrder, classBody := None, [], [], map[];
    for i := 0 to |tools|
      invariant problem.None?
      invariant AllEncodable(e, tools[..i])
      invariant Tables(e, Schemas(e, tools[..i]), classOrder, classBody)
      invariant entries == Map(tools[..i], (t: Tool) => EntryOf(e, t))
    {
      SchemasSnoc(e, tools, i);
      problem, classOrder, classBody := EnterClass(e, tools[i], Schemas(e, tools[..i]), classOrder, classBody);
      if problem.Some? {
        if problem.value.Collision? {
          ClashGrows(e, tools, i);
        } else {
          assert tools[i] in tools;
        }
        return;
      }
      entries := entries + [EntryOf(e, tools[i])];
    }
    assert tools[..|tools|] == tools;
  }

  /** The listing the arm should produce. */
  ghost function Encoded(e: Encoding, tools: seq<Tool>): Listing {
    Listing(Define(e, Distinct(Schemas(e, tools))), Map(tools, (t: Tool) => EntryOf(e, t)))
  }

  /**
   * `EncodeListing`: one class per distinct canonical schema, in order of first appearance; with every schema
   * canonicalisable it fails exactly when two distinct canonical schemas share a class name.
   */
  method EncodeListing(e: Encoding, tools: seq<Tool>) returns (r: Result<Listing, EncodeError>)
    ensures r.Ok? <==> AllEncodable(e, tools) && !Clash(e, Schemas(e, tools))
    ensures r.Ok? ==> r.value == Encoded(e, tools)
    ensures r.Err? ==> if r.error.BadSchema? then !AllEncodable(e, tools) else Clash(e, Schemas(e, tools))
  {
    var problem, entries, classOrder, classBody := EncodeEntries(e, tools);
    if problem.Some? {
      return Err(problem.value);
    }
    var preamble := WritePreamble(e, Schemas(e, tools), classOrder, classBody);
    return Ok(Listing(preamble, entries));
  }

  method WritePreamble(e: Encoding, ghost schemas: seq<string>, classOrder: seq<string>, classBody: map<string, string>)
    returns (preamble: seq<ClassDef>)
    requires Tables(e, schemas, classOrder, classBody)
    ensures preamble == Define(e, Distinct(schemas))
  {
    DistinctFacts(schemas);
    preamble := [];
    for i := 0 to |classOrder|
      invariant |preamble| == i
      invariant forall j :: 0 <= j < i ==> preamble[j] == Define(e, Distinct(schemas))[j]
    {
      assert Distinct(schemas)[i] in schemas;
      preamble := preamble + [ClassDef(classOrder[i], classBody[classOrder[i]])];
    }
  }

  // ---- decoding ----

  /** The body of a class, looked up by name. */
  function Resolve(preamble: seq<ClassDef>, name: string): Option<string> {
    if preamble == [] then None
    else if preamble[0].name == name then Some(preamble[0].body)
    else Resolve(preamble[1..], name)
  }

  /** A listing read back: every reference replaced by the body of its class; None when one has no definition. */
  function Decode(l: Listing): Option<seq<Definition>> {
    DecodeEntries(l.preamble, l.entries)
  }

  function DecodeEntries(preamble: seq<ClassDef>, entries: seq<Entry>): Option<seq<Definition>> {
    if entries == [] then Some([])
    else
      var head, rest := entries[0], DecodeEntries(preamble, entries[1..]);
      var schema := if head.reference.Some? then Resolve(preamble, head.reference.value) else None;
      if rest.None? || (head.reference.Some? && schema.None?) then None
      else Some([Definition(head.name, head.description, schema)] + rest.value)
  }

  lemma {:induction false} ResolveDefined(e: Encoding, schemas: seq<string>, c: string)
    requires c in schemas && forall d :: d in schemas && e.className(d) == e.className(c) ==> d == c
    ensures Resolve(Define(e, schemas), e.className(c)) == Some(c)
  {
    assert schemas[0] in schemas;
    if schemas[0] != c {
      assert schemas == [schemas[0]] + schemas[1..];
      ResolveDefined(e, schemas[1..], c);
      assert Define(e, schemas)[1..] == Define(e, schemas[1..]);
    }
  }

  /** Every reference resolves, in any class table that gives each class the one schema of that name. */
  lemma {:induction false} EntriesDecode(e: Encoding, preamble: seq<ClassDef>, tools: seq<Tool>)
    requires forall t :: t in tools && Canonical(e, t).Some? ==>
               Resolve(preamble, e.className(Canonical(e, t).value)) == Canonical(e, t)
    ensures DecodeEntries(preamble, Map(tools, (t: Tool) => EntryOf(e, t))) ==
            Some(Map(tools, (t: Tool) => DefinitionOf(e, t)))
  {
    var entries := Map(tools, (t: Tool) => EntryOf(e, t));
    var definitions := Map(tools, (t: Tool) => DefinitionOf(e, t));
    if tools != [] {
      assert tools[0] in tools && forall t :: t in tools[1..] ==> t in tools;
      EntriesDecode(e, preamble, tools[1..]);
      assert entries[1..] == Map(tools[1..], (t: Tool) => EntryOf(e, t));
      assert entries[0] == EntryOf(e, tools[0]) && definitions[0] == DefinitionOf(e, tools[0]);
      assert definitions == [definitions[0]] + Map(tools[1..], (t: Tool) => DefinitionOf(e, t));
    }
  }

  /** Nothing is lost, whatever the hash: an encoded listing reads back as exactly the tools and canonical schemas. */
  lemma ListingIsLossless(e: Encoding, tools: seq<Tool>)
    requires AllEncodable(e, tools) && !Clash(e, Schemas(e, tools))
    ensures Decode(Encoded(e, tools)) == Some(Map(tools, (t: Tool) =>
              Definition(t.name, t.description, if t.schema == "" then None else e.canonical(t.schema))))
  {
    var told := Map(tools, (t: Tool) =>
      Definition(t.name, t.description, if t.schema == "" then None else e.canonical(t.schema)));
    assert told == Map(tools, (t: Tool) => DefinitionOf(e, t));
    var firsts := Distinct(Schemas(e, tools));
    DistinctFacts(Schemas(e, tools));
    SchemasFacts(e, tools);
    forall t | t in tools && Canonical(e, t).Some?
      ensures Resolve(Define(e, firsts), e.className(Canonical(e, t).value)) == Canonical(e, t)
    {
      var c := Canonical(e, t).value;
      assert c in Schemas(e, tools) && c in firsts;
      ResolveDefined(e, firsts, c);
    }
    EntriesDecode(e, Define(e, firsts), tools);
  }

  /** The preamble repeats neither a name nor a body, and defines nothing no tool uses. */
  lemma PreambleIsMinimal(e: Encoding, tools: seq<Tool>)
    requires AllEncodable(e, tools) && !Clash(e, Schemas(e, tools))
    ensures var preamble := Encoded(e, tools).preamble;
            && (forall i, j :: 0 <= i < j < |preamble| ==>
                  preamble[i].name != preamble[j].name && preamble[i].body != preamble[j].body)
            && (forall i :: 0 <= i < |preamble| ==> preamble[i].name == e.className(preamble[i].body))
            && (forall i :: 0 <= i < |preamble| ==>
                  exists t :: t in tools && Canonical(e, t) == Some(preamble[i].body))
            && (forall i, j :: 0 <= i < j < |preamble| ==>
                  ComesBefore(Schemas(e, tools), preamble[i].body, preamble[j].body))
  {
    var schemas := Schemas(e, tools);
    var firsts := Distinct(schemas);
    DistinctFacts(schemas);
    SchemasFacts(e, tools);
    forall i, j | 0 <= i < j < |firsts|
      ensures e.className(firsts[i]) != e.className(firsts[j])
      ensures ComesBefore(schemas, firsts[i], firsts[j])
    {
      DistinctInOrder(schemas, i, j);
      assert firsts[i] in schemas && firsts[j] in schemas && firsts[i] != firsts[j];
    }
    forall i | 0 <= i < |firsts|
      ensures exists t :: t in tools && Canonical(e, t) == Some(firsts[i])
    {
      assert firsts[i] in firsts;
    }
  }

  // ---- the index ----

  /** The class `EncodeIndexMetadata` names for a tool, if any; an error when its schema cannot be canonicalised. */
  function IndexClass(e: Encoding, t: Tool): Result<Option<string>, EncodeError> {
    if t.schema == "" then Ok(None)
    else
      var canon := e.canonical(t.schema);
      if canon.None? then Err(BadSchema(t.toolId)) else Ok(Some(e.className(canon.value)))
  }

  /** The index names, for each tool of a listing, a class that the listing defines as the tool's own schema. */
  lemma IndexNamesADefinedClass(e: Encoding, tools: seq<Tool>, t: Tool)
    requires AllEncodable(e, tools) && !Clash(e, Schemas(e, tools)) && t in tools
    ensures IndexClass(e, t).Ok?
    ensures t.schema == "" ==> IndexClass(e, t) == Ok(None)
    ensures t.schema != "" ==>
              && IndexClass(e, t).value.Some?
              && Resolve(Encoded(e, tools).preamble, IndexClass(e, t).value.value) == e.canonical(t.schema)
  {
    if t.schema != "" {
      var c := Canonical(e, t).value;
      DistinctFacts(Schemas(e, tools));
      SchemasFacts(e, tools);
      assert c in Schemas(e, tools);
      ResolveDefined(e, Distinct(Schemas(e, tools)), c);
    }
  }
}
