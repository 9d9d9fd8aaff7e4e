/**
 * `FetchToolsList` and `FleetFromToolsList`: a tool listing read page by page from a server that may answer anything,
 * mapped to canonical tools, and refused when a population's schemas are all stubs.
 */
module ToolsList {
  import opened Wrappers
  import opened Seqs
  import opened Catalog

  const MAX_PAGES := 512
  const SEPARATOR := "__"
  const PLACEHOLDER := "{\"type\":\"object\"}"

  datatype WireTool = WireTool(name: string, description: string, inputSchema: string)

  /** What one round trip comes back with. */
  datatype Reply = Failed | Undecodable | Page(tools: seq<WireTool>, nextCursor: string)

  /** The server: its answer to the i-th call, for the cursor asked. */
  type Server = (nat, string) -> Reply

  /**
   * What is asked of a JSON library: the canonical form of a text that is JSON, the number of properties a schema
   * declares when it decodes as an object, and whether it declares outright that there are none.
   */
  datatype Json = Json(
    canonical: string -> Option<string>, properties: string -> Option<nat>, parameterless: string -> bool)

  datatype Population = Upstream | BuiltIn

  datatype FetchError =
    | TransportError | DecodeError | TooManyPages | RepeatedCursor(cursor: string) | NoTools
    | BadSchema | DuplicateId(id: string)
    | StubSchemas(population: Population, tools: nat, deferred: nat)
    | NoUpstreamTools

  // ---- pagination ----

  /** A run of requests in which each answer but the last names the next cursor. */
  ghost predicate Chain(server: Server, asked: seq<string>) {
    && asked != [] && asked[0] == ""
    && forall i :: 0 <= i < |asked| - 1 ==> Continues(server(i, asked[i]), asked[i + 1])
  }

  predicate Continues(reply: Reply, cursor: string) {
    reply.Page? && reply.nextCursor == cursor && cursor != ""
  }

  /** A chain that ends, within the page limit, at a page with no cursor, having asked for no cursor twice. */
  ghost predicate Complete(server: Server, asked: seq<string>) {
    && Chain(server, asked) && NoDup(asked) && |asked| <= MAX_PAGES
    && var last := server(|asked| - 1, Last(asked)); last.Page? && last.nextCursor == ""
  }

  /** The tools of the pages asked for, in order. */
  function Listed(server: Server, asked: seq<string>): seq<WireTool> {
    if asked == [] then []
    else
      var reply := server(|asked| - 1, Last(asked));
      Listed(server, asked[..|asked| - 1]) + (if reply.Page? then reply.tools else [])
  }

  /** Page `i` stands in the listing, tool by tool, after all the pages before it. */
  lemma {:induction false} PagesAreListedInOrder(server: Server, asked: seq<string>, i: nat, j: nat)
    requires i < |asked| && server(i, asked[i]).Page? && j < |server(i, asked[i]).tools|
    ensures var at := |Listed(server, asked[..i])| + j;
            at < |Listed(server, asked)| && Listed(server, asked)[at] == server(i, asked[i]).tools[j]
  {
    var front := asked[..|asked| - 1];
    if i == |front| {
      assert asked[..i] == front;
    } else {
      PagesAreListedInOrder(server, front, i, j);
      assert front[..i] == asked[..i];
    }
  }

  /** Two chains agree as far as the shorter one goes: the server leaves no choice. */
  lemma {:induction false} ChainsAgree(server: Server, a: seq<string>, b: seq<string>, i: nat)
    requires Chain(server, a) && Chain(server, b) && i < |a| && i < |b|
    ensures a[i] == b[i]
  {
    if i > 0 {
      ChainsAgree(server, a, b, i - 1);
      assert Continues(server(i - 1, a[i - 1]), a[i]) && Continues(server(i - 1, b[i - 1]), b[i]);
    }
  }

  /** A chain is a prefix of every complete one, and is it when its own last page is the end. */
  lemma ChainWithinComplete(server: Server, asked: seq<string>, full: seq<string>)
    requires Chain(server, asked) && Complete(server, full)
    ensures asked <= full
    ensures var last := server(|asked| - 1, Last(asked));
            && last.Page?
            && if last.nextCursor == "" then asked == full
               else asked + [last.nextCursor] <= full && last.nextCursor !in asked
  {
    var n := if |asked| < |full| then |asked| else |full|;
    forall i | 0 <= i < n
      ensures asked[i] == full[i]
    {
      ChainsAgree(server, asked, full, i);
    }
    ghost var k := |full| - 1;
    assert k + 1 < |asked| ==> Continues(server(k, asked[k]), asked[k + 1]);
    if |asked| < |full| {
      assert Continues(server(|asked| - 1, full[|asked| - 1]), full[|asked|]);
      assert forall i :: 0 <= i < |asked| ==> asked[i] == full[i] && full[i] != full[|asked|];
    }
  }

  lemma CompleteIsUnique(server: Server, a: seq<string>, b: seq<string>)
    requires Complete(server, a) && Complete(server, b)
    ensures a == b
  {
    ChainWithinComplete(server, a, b);
  }

  /** Why a chain can go no further, and hence why no complete one exists. */
  ghost predicate Stuck(server: Server, asked: seq<string>, error: FetchError) {
    && Chain(server, asked)
    && var last := server(|asked| - 1, Last(asked));
    match error
    case TransportError => last.Failed?
    case DecodeError => last.Undecodable?
    case RepeatedCursor(c) => last.Page? && last.nextCursor == c && c != "" && c in asked
    case TooManyPages => last.Page? && last.nextCursor != "" && |asked| == MAX_PAGES
    case _ => false
  }

  lemma StuckIsFinal(server: Server, asked: seq<string>, error: FetchError, full: seq<string>)
    requires Stuck(server, asked, error)
    ensures !Complete(server, full)
  {
    if Complete(server, full) {
      ChainWithinComplete(server, asked, full);
    }
  }

  lemma ChainSnoc(server: Server, asked: seq<string>, cursor: string)
    requires Chain(server, asked) && NoDup(asked)
    requires Continues(server(|asked| - 1, Last(asked)), cursor) && cursor !in asked
    ensures Chain(server, asked + [cursor]) && NoDup(asked + [cursor])
  {
  }

  /** The pagination loop: at most 512 requests, no cursor asked twice, and the pages' tools in order at the end. */
  method ReadPages(server: Server) returns (r: Result<seq<WireTool>, FetchError>, ghost asked: seq<string>)
    ensures Chain(server, asked) && NoDup(asked) && |asked| <= MAX_PAGES
    ensures r.Ok? ==> Complete(server, asked) && r.value == Listed(server, asked)
    ensures r.Err? ==> Stuck(server, asked, r.error)
    ensures forall full :: Complete(server, full) ==> r == Ok(Listed(server, full))
  {
    r, asked := FollowCursors(server);
    forall full | Complete(server, full)
      ensures r == Ok(Listed(server, full))
    {
      if r.Ok? {
        CompleteIsUnique(server, asked, full);
      } else {
        StuckIsFinal(server, asked, r.error, full);
      }
    }
  }

  method FollowCursors(server: Server) returns (r: Result<seq<WireTool>, FetchError>, ghost asked: seq<string>)
    ensures Chain(server, asked) && NoDup(asked) && |asked| <= MAX_PAGES
    ensures r.Ok? ==> Complete(server, asked) && r.value == Listed(server, asked)
    ensures r.Err? ==> Stuck(server, asked, r.error)
  {
    var wire, cursor, seenCursor: set<string>, i := [], "", {}, 0;
    asked := [""];
    while true
      invariant i < MAX_PAGES && |asked| == i + 1
      invariant Chain(server, asked) && NoDup(asked) && Last(asked) == cursor
      invariant forall c :: c in asked <==> c == "" || c in seenCursor
      invariant wire == Listed(server, asked[..i])
      decreases MAX_PAGES - i
    {
      var reply := server(i, cursor);
      match reply {
        case Failed => return Err(TransportError), asked;
        case Undecodable => return Err(DecodeError), asked;
        case Page(tools, next) =>
          wire := wire + tools;
          if next == "" {
            return Ok(wire), asked;
          }
          if next in seenCursor {
            return Err(RepeatedCursor(next)), asked;
          }
          if i + 1 >= MAX_PAGES {
            return Err(TooManyPages), asked;
          }
          ChainSnoc(server, asked, next);
          seenCursor := seenCursor + {next};
          assert (asked + [next])[..i + 1] == asked;
          asked := asked + [next];
          cursor, i := next, i + 1;
      }
    }
  }

  // ---- names ----

  /** The position of the first separator. */
  function FirstSeparator(s: string): Option<nat> {
    if |s| < 2 then None
    else if s[0] == '_' && s[1] == '_' then Some(0)
    else
      var rest := FirstSeparator(s[1..]);
      if rest.None? then None else Some(rest.value + 1)
  }

  /** `ParseDirectToolName`: server and tool, split at the first separator; both must be non-empty. */
  function ParseName(name: string): Option<(string, string)> {
    SeparatorFacts(name);
    var at := FirstSeparator(name);
    if at.None? || at.value == 0 || at.value + 2 >= |name| then None
    else Some((name[..at.value], name[at.value + 2..]))
  }

  predicate SeparatorAt(s: string, i: int) {
    0 <= i && i + 2 <= |s| && s[i] == '_' && s[i + 1] == '_'
  }

  lemma {:induction false} SeparatorFacts(s: string)
    ensures FirstSeparator(s).Some? ==> SeparatorAt(s, FirstSeparator(s).value)
    ensures forall i :: SeparatorAt(s, i) ==> FirstSeparator(s).Some? && FirstSeparator(s).value <= i
  {
    if |s| >= 2 && !SeparatorAt(s, 0) {
      SeparatorFacts(s[1..]);
      forall i | SeparatorAt(s, i)
        ensures FirstSeparator(s).Some? && FirstSeparator(s).value <= i
      {
        assert i > 0 && SeparatorAt(s[1..], i - 1);
      }
    }
  }

  function FormatName(server: string, tool: string): string {
    server + SEPARATOR + tool
  }

  /** Whether a server's name can be told from the text that follows it. */
  predicate Splittable(server: string) {
    && server != ""
    && Last(server) != '_'
    && FirstSeparator(server).None?
  }

  /**
   * Parsing undoes formatting exactly when both names are non-empty and the server's neither contains the separator
   * nor ends in its first character.
   */
  lemma ParseInvertsFormat(server: string, tool: string)
    ensures ParseName(FormatName(server, tool)) == Some((server, tool)) <==> Splittable(server) && tool != ""
  {
    var name := FormatName(server, tool);
    SeparatorFacts(name);
    SeparatorFacts(server);
    assert SeparatorAt(name, |server|);
    assert name[..|server|] == server && name[|server| + 2..] == tool;
    var at := FirstSeparator(name).value;
    if at < |server| {
      assert name[..at] != server;
      assert at + 1 == |server| || SeparatorAt(server, at);
    }
    if FirstSeparator(server).Some? {
      assert SeparatorAt(name, FirstSeparator(server).value);
    }
    if server != "" && Last(server) == '_' {
      assert SeparatorAt(name, |server| - 1);
    }
  }

  // ---- one entry ----

  /** `normalizeSchema`: an absent, null or empty schema is no schema; any other is canonicalised. */
  function NormalizeSchema(json: Json, raw: string): Option<string> {
    if raw == "" || raw == "null" then Some("")
    else
      var canon := json.canonical(raw);
      if canon == Some("{}") || canon == Some("null") then Some("") else canon
  }

  function StripPrefix(description: string, server: string): string {
    var prefix := "[" + server + "] ";
    if prefix <= description then description[|prefix|..] else description
  }

  /** `toolFromWire`. */
  function FromWire(json: Json, w: WireTool): Option<Tool> {
    var schema := NormalizeSchema(json, w.inputSchema);
    if schema.None? then None
    else
      var parsed := ParseName(w.name);
      if parsed.None? then Some(Tool("mcpproxy:" + w.name, "", w.name, w.description, schema.value))
      else
        var (server, tool) := parsed.value;
        Some(Tool(server + ":" + tool, server, tool, StripPrefix(w.description, server), schema.value))
  }

  /** The first separator of a name that leaves something on either side. */
  ghost predicate SplitsAt(name: string, i: int) {
    0 < i && i + 2 < |name| && SeparatorAt(name, i) && forall j :: 0 <= j < i ==> !SeparatorAt(name, j)
  }

  /** What an entry is read as: by server and tool where its name splits, as a tool of the proxy's own otherwise. */
  lemma EntryReads(json: Json, w: WireTool)
    ensures FromWire(json, w).None? <==> w.inputSchema !in {"", "null"} && json.canonical(w.inputSchema).None?
    ensures FromWire(json, w).Some? ==>
              var t := FromWire(json, w).value;
              && (t.schema == "" <==>
                    w.inputSchema in {"", "null"} || json.canonical(w.inputSchema).value in {"", "{}", "null"})
              && (t.schema != "" ==> Some(t.schema) == json.canonical(w.inputSchema))
              && (forall i :: SplitsAt(w.name, i) ==>
                    && t.server == w.name[..i] && t.name == w.name[i + 2..] && t.toolId == t.server + ":" + t.name
                    && (w.description == "[" + t.server + "] " + t.description
                        || (t.description == w.description && !("[" + t.server + "] " <= w.description))))
              && ((forall i :: !SplitsAt(w.name, i)) ==>
                    && t.server == "" && t.name == w.name && t.toolId == "mcpproxy:" + w.name
                    && t.description == w.description)
  {
    SeparatorFacts(w.name);
    var parsed := ParseName(w.name);
    if parsed.Some? {
      var i, prefix := FirstSeparator(w.name).value, "[" + parsed.value.0 + "] ";
      assert SplitsAt(w.name, i);
      assert prefix <= w.description ==> w.description == prefix + w.description[|prefix|..];
    }
  }

  /** How the direct surface renders an upstream tool. */
  function Rendered(server: string, tool: string, description: string, schema: string): WireTool {
    WireTool(FormatName(server, tool), "[" + server + "] " + description, schema)
  }

  /**
   * A tool rendered by the direct surface is read back as itself, its schema normalised, exactly when its server's
   * name can be split off.
   */
  lemma RenderedIsReadBack(json: Json, server: string, tool: string, description: string, schema: string)
    requires NormalizeSchema(json, schema).Some?
    ensures FromWire(json, Rendered(server, tool, description, schema)) ==
              Some(Tool(server + ":" + tool, server, tool, description, NormalizeSchema(json, schema).value))
            <==> Splittable(server) && tool != ""
  {
    ParseInvertsFormat(server, tool);
    var prefix := "[" + server + "] ";
    assert prefix <= prefix + description && (prefix + description)[|prefix|..] == description;
    var read := FromWire(json, Rendered(server, tool, description, schema)).value;
    if ParseName(FormatName(server, tool)).None? && read.server == server {
      assert server == "";
    }
  }

  /** A server whose name ends in an underscore: the tool is read as another server's. */
  lemma TrailingUnderscoreIsMisread()
    ensures ParseName(FormatName("a_", "t")) == Some(("a", "_t"))
  {
    var name := FormatName("a_", "t");
    assert name == "a___t" && name[1..] == "___t";
    assert FirstSeparator("___t") == Some(0);
    assert FirstSeparator(name) == Some(1);
    assert name[..1] == "a" && name[3..] == "_t";
  }

  // ---- the listing ----

  ghost predicate DistinctIds(tools: seq<Tool>) {
    forall i, j :: 0 <= i < j < |tools| ==> tools[i].toolId != tools[j].toolId
  }

  /** The tools are the entries, mapped one by one. */
  ghost predicate MapsTo(json: Json, wire: seq<WireTool>, tools: seq<Tool>) {
    |tools| == |wire| && forall i :: 0 <= i < |wire| ==> FromWire(json, wire[i]) == Some(tools[i])
  }

  /** The first `i` entries map to tools with distinct ids, and entry `i` is the reason to stop. */
  ghost predicate StopsAt(json: Json, wire: seq<WireTool>, i: int, before: seq<Tool>, error: FetchError) {
    && 0 <= i < |wire| && MapsTo(json, wire[..i], before) && DistinctIds(before)
    && var t := FromWire(json, wire[i]);
       if t.None? then error == BadSchema
       else error == DuplicateId(t.value.toolId) && exists j :: 0 <= j < i && before[j].toolId == t.value.toolId
  }

  method MapEntries(json: Json, wire: seq<WireTool>) returns (r: Result<seq<Tool>, FetchError>)
    ensures r.Ok? ==> MapsTo(json, wire, r.value) && DistinctIds(r.value)
    ensures r.Err? ==> forall tools :: MapsTo(json, wire, tools) ==> !DistinctIds(tools)
    ensures r.Err? ==> exists i, before :: StopsAt(json, wire, i, before, r.error)
  {
    var tools, seenId: set<string> := [], {};
    for i := 0 to |wire|
      invariant MapsTo(json, wire[..i], tools) && DistinctIds(tools)
      invariant forall id :: id in seenId <==> exists j :: 0 <= j < i && tools[j].toolId == id
    {
      var t := FromWire(json, wire[i]);
      if t.None? {
        assert StopsAt(json, wire, i, tools, BadSchema);
        return Err(BadSchema);
      }
      if t.value.toolId in seenId {
        RepeatIsFatal(json, wire, tools, i, t.value);
        assert StopsAt(json, wire, i, tools, DuplicateId(t.value.toolId));
        return Err(DuplicateId(t.value.toolId));
      }
      tools, seenId := tools + [t.value], seenId + {t.value.toolId};
    }
    assert wire[..|wire|] == wire;
    return Ok(tools);
  }

  lemma RepeatIsFatal(json: Json, wire: seq<WireTool>, tools: seq<Tool>, i: nat, t: Tool)
    requires i < |wire| && MapsTo(json, wire[..i], tools) && FromWire(json, wire[i]) == Some(t)
    requires exists j :: 0 <= j < i && tools[j].toolId == t.toolId
    ensures forall all :: MapsTo(json, wire, all) ==> !DistinctIds(all)
  {
    var j :| 0 <= j < i && tools[j].toolId == t.toolId;
    forall all | MapsTo(json, wire, all)
      ensures !DistinctIds(all)
    {
      assert wire[..i][j] == wire[j];
      assert all[j] == tools[j] && all[i] == t;
    }
  }

  // ---- the schema guard ----

  predicate IsStub(json: Json, schema: string) {
    json.properties(schema) == None || json.properties(schema) == Some(0)
  }

  predicate HasRealSchema(json: Json, t: Tool) {
    t.schema != "" && !IsStub(json, t.schema)
  }

  /** `schemaCensus`: one population counted by the kind of schema its tools carry. */
  class Census {
    var tools: nat
    var priced: nat
    var placeholder: nat
    var parameterless: nat
    var example: Option<Tool>

    constructor ()
      ensures tools == 0 && priced == 0 && placeholder == 0 && parameterless == 0 && example == None
    {
      tools, priced, placeholder, parameterless, example := 0, 0, 0, 0, None;
    }

    /** The counts are those of this population. */
    ghost predicate Counts(json: Json, population: seq<Tool>)
      reads this
    {
      && tools == |population|
      && priced == Priced(json, population)
      && placeholder == Placeholders(json, population)
      && parameterless == Parameterless(json, population)
      && example == FirstStub(json, population)
    }

    method Add(json: Json, t: Tool, ghost before: seq<Tool>)
      requires Counts(json, before)
      modifies this
      ensures Counts(json, before + [t])
    {
      CountsSnoc(json, before, t);
      tools := tools + 1;
      if t.schema != "" && !IsStub(json, t.schema) {
        priced := priced + 1;
      } else {
        if t.schema == PLACEHOLDER {
          placeholder := placeholder + 1;
        } else if json.parameterless(t.schema) {
          parameterless := parameterless + 1;
        }
        if example.None? {
          example := Some(t);
        }
      }
    }
  }

  function Priced(json: Json, tools: seq<Tool>): nat {
    |Filter(tools, (t: Tool) => HasRealSchema(json, t))|
  }

  function Placeholders(json: Json, tools: seq<Tool>): nat {
    |Filter(tools, (t: Tool) => IsPlaceholder(json, t))|
  }

  function Parameterless(json: Json, tools: seq<Tool>): nat {
    |Filter(tools, (t: Tool) => IsParameterless(json, t))|
  }

  /** What one more tool adds to each count. */
  lemma CountsSnoc(json: Json, before: seq<Tool>, t: Tool)
    ensures Priced(json, before + [t]) == Priced(json, before) + if HasRealSchema(json, t) then 1 else 0
    ensures Placeholders(json, before + [t]) == Placeholders(json, before) + if IsPlaceholder(json, t) then 1 else 0
    ensures Parameterless(json, before + [t]) ==
            Parameterless(json, before) + if IsParameterless(json, t) then 1 else 0
    ensures FirstStub(json, before + [t]) ==
            if FirstStub(json, before).Some? then FirstStub(json, before)
            else if HasRealSchema(json, t) then None else Some(t)
  {
    CountSnoc(before, t, (u: Tool) => HasRealSchema(json, u));
    CountSnoc(before, t, (u: Tool) => IsPlaceholder(json, u));
    CountSnoc(before, t, (u: Tool) => IsParameterless(json, u));
    FirstStubSnoc(json, before, t);
  }

  predicate IsPlaceholder(json: Json, t: Tool) {
    !HasRealSchema(json, t) && t.schema == PLACEHOLDER
  }

  predicate IsParameterless(json: Json, t: Tool) {
    !HasRealSchema(json, t) && t.schema != PLACEHOLDER && json.parameterless(t.schema)
  }

  function FirstStub(json: Json, tools: seq<Tool>): Option<Tool> {
    if tools == [] then None
    else
      var before := FirstStub(json, tools[..|tools| - 1]);
      if before.Some? then before else if HasRealSchema(json, Last(tools)) then None else Some(Last(tools))
  }

  lemma FirstStubSnoc(json: Json, tools: seq<Tool>, t: Tool)
    ensures FirstStub(json, tools + [t]) ==
            if FirstStub(json, tools).Some? then FirstStub(json, tools)
            else if HasRealSchema(json, t) then None else Some(t)
  {
    assert (tools + [t])[..|tools|] == tools;
  }

  lemma CountSnoc(tools: seq<Tool>, t: Tool, p: Tool -> bool)
    ensures |Filter(tools + [t], p)| == |Filter(tools, p)| + if p(t) then 1 else 0
  {
    FilterConcat(tools, [t], p);
    assert [t][1..] == [];
  }

  function Members(tools: seq<Tool>, population: Population): seq<Tool> {
    Filter(tools, (t: Tool) => t.server == "" <==> population == BuiltIn)
  }

  /** Present, and without one real schema. */
  ghost predicate AllStubs(json: Json, members: seq<Tool>) {
    members != [] && forall i :: 0 <= i < |members| ==> !HasRealSchema(json, members[i])
  }

  /** One tool of the population, whatever its schema. */
  ghost predicate Lists(tools: seq<Tool>, population: Population) {
    exists t :: t in tools && (t.server == "" <==> population == BuiltIn)
  }

  /** One tool of the population has a schema that declares a property. */
  ghost predicate Prices(json: Json, tools: seq<Tool>, population: Population) {
    exists t :: && t in tools && (t.server == "" <==> population == BuiltIn)
                && t.schema != "" && json.properties(t.schema).Some? && json.properties(t.schema).value >= 1
  }

  lemma StubsAreNotPriced(json: Json, tools: seq<Tool>, population: Population)
    ensures AllStubs(json, Members(tools, population)) <==> Lists(tools, population) && !Prices(json, tools, population)
  {
    var members := Members(tools, population);
    if members != [] {
      assert members[0] in members;
    }
    if t :| t in tools && (t.server == "" <==> population == BuiltIn) {
      assert t in members;
    }
    if i :| 0 <= i < |members| && HasRealSchema(json, members[i]) {
      assert members[i] in members;
    }
    if t :| t in tools && (t.server == "" <==> population == BuiltIn) && HasRealSchema(json, t) {
      assert t in members;
      var i :| 0 <= i < |members| && members[i] == t;
    }
  }

  ghost predicate Priceable(json: Json, tools: seq<Tool>) {
    !AllStubs(json, Members(tools, Upstream)) && !AllStubs(json, Members(tools, BuiltIn))
  }

  lemma RealCount(json: Json, members: seq<Tool>)
    ensures Priced(json, members) > 0 <==>
            exists i :: 0 <= i < |members| && HasRealSchema(json, members[i])
  {
    var priced := Filter(members, (t: Tool) => HasRealSchema(json, t));
    if priced != [] {
      assert priced[0] in members;
    }
    if i :| 0 <= i < |members| && HasRealSchema(json, members[i]) {
      assert members[i] in priced;
    }
  }

  lemma MembersSnoc(tools: seq<Tool>, t: Tool, population: Population)
    ensures Members(tools + [t], population) ==
            Members(tools, population) + (if t.server == "" <==> population == BuiltIn then [t] else [])
  {
    FilterConcat(tools, [t], (u: Tool) => u.server == "" <==> population == BuiltIn);
    assert [t][1..] == [];
    AppendNothing(Members(tools, population), []);
  }

  /** The two populations counted. */
  method TakeCensus(json: Json, tools: seq<Tool>) returns (upstream: Census, builtin: Census)
    ensures fresh(upstream) && fresh(builtin)
    ensures upstream.Counts(json, Members(tools, Upstream)) && builtin.Counts(json, Members(tools, BuiltIn))
  {
    upstream := new Census();
    builtin := new Census();
    for i := 0 to |tools|
      invariant fresh(upstream) && fresh(builtin) && upstream != builtin
      invariant upstream.Counts(json, Members(tools[..i], Upstream))
      invariant builtin.Counts(json, Members(tools[..i], BuiltIn))
    {
      AppendTake([], tools, i);
      assert [] + tools[..i + 1] == tools[..i + 1] && [] + tools[..i] == tools[..i];
      CountOne(json, tools[..i], tools[i], upstream, builtin);
    }
    AppendNothing([], tools);
  }

  method CountOne(json: Json, ghost before: seq<Tool>, t: Tool, upstream: Census, builtin: Census)
    requires upstream != builtin
    requires upstream.Counts(json, Members(before, Upstream)) && builtin.Counts(json, Members(before, BuiltIn))
    modifies upstream, builtin
    ensures upstream.Counts(json, Members(before + [t], Upstream))
    ensures builtin.Counts(json, Members(before + [t], BuiltIn))
  {
    ghost var up, own := Members(before, Upstream), Members(before, BuiltIn);
    MembersSnoc(before, t, Upstream);
    MembersSnoc(before, t, BuiltIn);
    AppendNothing(up, []);
    AppendNothing(own, []);
    if t.server == "" {
      builtin.Add(json, t, own);
    } else {
      upstream.Add(json, t, up);
    }
  }

  /** What the guard says: this population is present and none of its tools has a schema worth a price. */
  ghost predicate GuardReads(json: Json, tools: seq<Tool>, error: FetchError)
    requires error.StubSchemas?
  {
    && Lists(tools, error.population) && !Prices(json, tools, error.population)
    && (error.population == BuiltIn ==> !Lists(tools, Upstream) || Prices(json, tools, Upstream))
    && error.tools == |Members(tools, error.population)|
    && error.deferred == |Filter(Members(tools, error.population), (t: Tool) => t.schema == "{\"type\":\"object\"}")|
  }

  lemma {:induction false} StubPlaceholders(json: Json, members: seq<Tool>)
    requires forall i :: 0 <= i < |members| ==> !HasRealSchema(json, members[i])
    ensures Placeholders(json, members) == |Filter(members, (t: Tool) => t.schema == "{\"type\":\"object\"}")|
  {
    if members != [] {
      StubPlaceholders(json, members[1..]);
    }
  }

  /** `guardToolSchemas`: passes exactly when no population present is all stubs, and names the first that is. */
  method GuardSchemas(json: Json, tools: seq<Tool>) returns (problem: Option<FetchError>)
    ensures problem.None? <==> Priceable(json, tools)
    ensures problem.None? <==> forall p :: Lists(tools, p) ==> Prices(json, tools, p)
    ensures problem.Some? ==> problem.value.StubSchemas? && GuardReads(json, tools, problem.value)
    ensures problem.Some? ==>
              && problem.value.StubSchemas?
              && var members := Members(tools, problem.value.population);
              && AllStubs(json, members) && problem.value.tools == |members|
              && problem.value.deferred == Placeholders(json, members)
              && (problem.value.population == BuiltIn ==> !AllStubs(json, Members(tools, Upstream)))
  {
    var upstream, builtin := TakeCensus(json, tools);
    StubsAreNotPriced(json, tools, Upstream);
    StubsAreNotPriced(json, tools, BuiltIn);
    problem := Refusal(json, Members(tools, Upstream), Upstream, upstream);
    if problem.None? {
      problem := Refusal(json, Members(tools, BuiltIn), BuiltIn, builtin);
    }
    if problem.Some? {
      StubPlaceholders(json, Members(tools, problem.value.population));
    }
  }

  method Refusal(json: Json, ghost members: seq<Tool>, population: Population, c: Census)
    returns (problem: Option<FetchError>)
    requires c.Counts(json, members)
    ensures problem.None? <==> !AllStubs(json, members)
    ensures problem.Some? ==>
              problem.value == StubSchemas(population, |members|, Placeholders(json, members))
  {
    RealCount(json, members);
    problem := if c.tools == 0 || c.priced > 0 then None else Some(StubSchemas(population, c.tools, c.placeholder));
  }

  // ---- the fetch ----

  /** A listing that may be returned: not empty, mapped entry by entry, ids distinct, every population priceable. */
  ghost predicate Admissible(json: Json, wire: seq<WireTool>, tools: seq<Tool>) {
    wire != [] && MapsTo(json, wire, tools) && DistinctIds(tools) && Priceable(json, tools)
  }

  /** The reason a listing is not admissible. */
  ghost predicate Objects(json: Json, wire: seq<WireTool>, error: FetchError) {
    match error
    case NoTools => wire == []
    case BadSchema => exists i, before :: StopsAt(json, wire, i, before, error)
    case DuplicateId(_) => exists i, before :: StopsAt(json, wire, i, before, error)
    case StubSchemas(_, _, _) =>
      exists tools :: MapsTo(json, wire, tools) && DistinctIds(tools) && GuardReads(json, tools, error)
    case _ => false
  }

  /** Why no listing is returned: the chain of requests is stuck, or the complete listing is not admissible. */
  ghost predicate Explains(server: Server, json: Json, asked: seq<string>, error: FetchError) {
    || Stuck(server, asked, error)
    || (Complete(server, asked) && Objects(json, Listed(server, asked), error))
  }

  lemma MapsToIsUnique(json: Json, wire: seq<WireTool>, a: seq<Tool>, b: seq<Tool>)
    requires MapsTo(json, wire, a) && MapsTo(json, wire, b)
    ensures a == b
  {
    forall i | 0 <= i < |wire|
      ensures a[i] == b[i]
    {
      assert FromWire(json, wire[i]) == Some(a[i]);
    }
  }

  /**
   * `FetchToolsList`, against any server: at most 512 requests and no cursor twice; a result is the whole listing in
   * order, and there is one exactly when the server has a complete listing and that listing is admissible.
   */
  method FetchToolsList(server: Server, json: Json) returns (r: Result<seq<Tool>, FetchError>, ghost asked: seq<string>)
    ensures Chain(server, asked) && NoDup(asked) && |asked| <= 512
    ensures r.Ok? ==> Complete(server, asked) && Admissible(json, Listed(server, asked), r.value)
    ensures r.Ok? ==> forall p :: Lists(r.value, p) ==> Prices(json, r.value, p)
    ensures r.Err? ==> Explains(server, json, asked, r.error)
    ensures r.Err? ==> forall full, tools ::
              Complete(server, full) ==> !Admissible(json, Listed(server, full), tools)
  {
    var pages;
    pages, asked := ReadPages(server);
    if pages.Err? {
      forall full
        ensures !Complete(server, full)
      {
        StuckIsFinal(server, asked, pages.error, full);
      }
      return Err(pages.error), asked;
    }
    r := AdmitListing(json, pages.value);
    if r.Err? {
      forall full, tools | Complete(server, full)
        ensures !Admissible(json, Listed(server, full), tools)
      {
        CompleteIsUnique(server, asked, full);
      }
    }
  }

  method AdmitListing(json: Json, wire: seq<WireTool>) returns (r: Result<seq<Tool>, FetchError>)
    ensures r.Ok? ==> Admissible(json, wire, r.value) && forall p :: Lists(r.value, p) ==> Prices(json, r.value, p)
    ensures r.Err? ==> Objects(json, wire, r.error) && forall tools :: !Admissible(json, wire, tools)
  {
    if wire == [] {
      return Err(NoTools);
    }
    r := MapEntries(json, wire);
    if r.Ok? {
      var problem := GuardSchemas(json, r.value);
      if problem.Some? {
        forall tools
          ensures !Admissible(json, wire, tools)
        {
          if MapsTo(json, wire, tools) {
            MapsToIsUnique(json, wire, tools, r.value);
          }
        }
        r := Err(problem.value);
      }
    }
  }

  /** `FleetFromToolsList`: the upstream tools of an admissible listing, at least one of them with a real schema. */
  method FleetFromToolsList(server: Server, json: Json)
    returns (r: Result<seq<Tool>, FetchError>, ghost asked: seq<string>, ghost listing: seq<Tool>)
    ensures r.Ok? ==>
              && Complete(server, asked) && Admissible(json, Listed(server, asked), listing)
              && r.value == Filter(listing, (t: Tool) => t.server != "")
              && r.value != [] && Prices(json, r.value, Upstream)
    ensures r.Err? ==>
              if r.error == NoUpstreamTools
              then
                && Complete(server, asked) && Admissible(json, Listed(server, asked), listing)
                && !Lists(listing, Upstream)
              else Explains(server, json, asked, r.error)
    ensures r.Err? ==> forall full, tools ::
              Complete(server, full) && Admissible(json, Listed(server, full), tools) ==> Members(tools, Upstream) == []
  {
    var fetched;
    fetched, asked := FetchToolsList(server, json);
    listing := [];
    if fetched.Err? {
      return Err(fetched.error), asked, listing;
    }
    listing := fetched.value;
    var upstream := UpstreamOf(fetched.value);
    if upstream == [] {
      forall full, tools | Complete(server, full) && Admissible(json, Listed(server, full), tools)
        ensures Members(tools, Upstream) == []
      {
        CompleteIsUnique(server, asked, full);
        MapsToIsUnique(json, Listed(server, asked), tools, fetched.value);
        MembersAreUpstream(tools);
      }
      return Err(NoUpstreamTools), asked, listing;
    }
    MembersAreUpstream(listing);
    assert upstream[0] in upstream && Lists(listing, Upstream);
    return Ok(upstream), asked, listing;
  }

  /** A listing of deferred placeholders, which declare no property, is never admitted. */
  lemma PlaceholdersAreRefused(json: Json, wire: seq<WireTool>, tools: seq<Tool>)
    requires json.properties("{\"type\":\"object\"}") == Some(0)
    requires forall t :: t in tools ==> t.schema == "{\"type\":\"object\"}"
    ensures !Admissible(json, wire, tools)
  {
    StubsAreNotPriced(json, tools, Upstream);
    StubsAreNotPriced(json, tools, BuiltIn);
    if tools != [] {
      assert tools[0] in tools;
      assert Lists(tools, if tools[0].server == "" then BuiltIn else Upstream);
    }
  }

  method UpstreamOf(tools: seq<Tool>) returns (upstream: seq<Tool>)
    ensures upstream == Filter(tools, (t: Tool) => t.server != "")
  {
    upstream := [];
    for i := 0 to |tools|
      invariant upstream == Filter(tools[..i], (t: Tool) => t.server != "")
    {
      assert tools[..i + 1] == tools[..i] + [tools[i]];
      FilterConcat(tools[..i], [tools[i]], (t: Tool) => t.server != "");
      if tools[i].server == "" {
        continue;
      }
      upstream := upstream + [tools[i]];
    }
    assert tools[..|tools|] == tools;
  }

  lemma {:induction false} MembersAreUpstream(tools: seq<Tool>)
    ensures Members(tools, Upstream) == Filter(tools, (t: Tool) => t.server != "")
  {
    if tools != [] {
      MembersAreUpstream(tools[1..]);
    }
  }
}
