/**
 * The compact-signature arm: a tool's input schema reduced to a flat parameter list. The order in which the
 * properties map is iterated is an arbitrary enumeration of its keys.
 */
module Compact {
  import opened Seqs

  const ANY := "any"

  /** The `type` of a parameter schema, as far as the renderer decodes it. */
  datatype TypeField = Absent | Single(name: string) | Union(names: seq<string>) | Undecodable

  /** `anyOf` and `oneOf` carry the type names of their alternatives. */
  datatype ParamSchema = ParamSchema(declared: TypeField, anyOf: seq<string>, oneOf: seq<string>)

  datatype InputSchema = InputSchema(properties: map<string, ParamSchema>, required: seq<string>)

  datatype Param = Param(name: string, optional: bool, text: string)

  const TYPE_NAMES := map[
    "string" := "string", "integer" := "int", "number" := "number",
    "boolean" := "bool", "object" := "obj", "array" := "arr"]

  function TypeName(n: string): string {
    if n in TYPE_NAMES then TYPE_NAMES[n] else ANY
  }

  /** `m` is the short name of JSON Schema's `n`, and "any" of anything else. */
  predicate Shortens(n: string, m: string) {
    if n == "string" then m == "string"
    else if n == "integer" then m == "int"
    else if n == "number" then m == "number"
    else if n == "boolean" then m == "bool"
    else if n == "object" then m == "obj"
    else if n == "array" then m == "arr"
    else m == "any"
  }

  lemma TypeNameShortens(n: string, m: string)
    ensures Shortens(n, m) <==> m == TypeName(n)
    ensures n in TYPE_NAMES <==> n in {"string", "integer", "number", "boolean", "object", "array"}
  {
  }

  // ---- unions ----

  predicate Ignored(n: string) {
    n == "null" || n == ""
  }

  /** The members of a union that are rendered: mapped, each at its first appearance. */
  function UnionMembers(names: seq<string>): seq<string> {
    if names == [] then []
    else
      var front, n := UnionMembers(names[..|names| - 1]), Last(names);
      if Ignored(n) || TypeName(n) in front then front else front + [TypeName(n)]
  }

  function Join(parts: seq<string>, separator: string): string {
    if parts == [] then ""
    else if |parts| == 1 then parts[0]
    else Join(parts[..|parts| - 1], separator) + separator + Last(parts)
  }

  function UnionText(members: seq<string>): string {
    if members == [] then ANY else Join(members, "|")
  }

  /** `compactUnion`. */
  method CompactUnion(names: seq<string>) returns (text: string)
    ensures text == UnionText(UnionMembers(names))
  {
    var mapped, seen: set<string> := [], {};
    for i := 0 to |names|
      invariant mapped == UnionMembers(names[..i])
      invariant forall m :: m in seen <==> m in mapped
    {
      assert names[..i + 1][..i] == names[..i];
      if Ignored(names[i]) {
        continue;
      }
      var m := TypeName(names[i]);
      if m !in seen {
        seen, mapped := seen + {m}, mapped + [m];
      }
    }
    assert names[..|names|] == names;
    return UnionText(mapped);
  }

  ghost predicate Named(names: seq<string>, m: string) {
    exists i :: 0 <= i < |names| && !Ignored(names[i]) && TypeName(names[i]) == m
  }

  /** A union renders exactly the types it names, once each, in the order in which they are first named. */
  lemma {:induction false} UnionKeepsFirsts(names: seq<string>, n: nat)
    requires n <= |names|
    ensures NoDup(UnionMembers(names))
    ensures forall m :: m in UnionMembers(names) <==> Named(names, m)
    ensures UnionMembers(names[..n]) <= UnionMembers(names)
  {
    if names == [] {
      assert names[..n] == names;
    } else {
      var front := names[..|names| - 1];
      if n == |names| {
        assert names[..n] == names;
        UnionKeepsFirsts(front, 0);
      } else {
        UnionKeepsFirsts(front, n);
        assert front[..n] == names[..n];
      }
      forall m
        ensures m in UnionMembers(names) <==> Named(names, m)
      {
        NamedSnoc(names, m);
      }
    }
  }

  lemma NamedSnoc(names: seq<string>, m: string)
    requires names != []
    ensures Named(names, m) <==> Named(names[..|names| - 1], m) || (!Ignored(Last(names)) && TypeName(Last(names)) == m)
  {
    var front := names[..|names| - 1];
    if i :| 0 <= i < |front| && !Ignored(front[i]) && TypeName(front[i]) == m {
      assert names[i] == front[i];
    }
    if i :| 0 <= i < |names| && !Ignored(names[i]) && TypeName(names[i]) == m {
      assert i < |front| ==> front[i] == names[i];
    }
  }

  /** Nullability is not a type: null and empty alternatives never change what is rendered. */
  lemma {:induction false} NullsAreInvisible(names: seq<string>)
    ensures UnionMembers(Filter(names, (n: string) => !Ignored(n))) == UnionMembers(names)
  {
    if names != [] {
      var front, n := names[..|names| - 1], Last(names);
      NullsAreInvisible(front);
      FrontAndLast(names);
      FilterConcat(front, [n], (m: string) => !Ignored(m));
      assert [n][1..] == [];
      var kept := Filter(front, (m: string) => !Ignored(m));
      if Ignored(n) {
        AppendNothing(kept, []);
      } else {
        assert (kept + [n])[..|kept|] == kept;
      }
    }
  }

  /** What a parameter's type resolves to, first applicable source first. */
  function TypeMembers(p: ParamSchema): seq<string> {
    match p.declared
    case Single(n) => [TypeName(n)]
    case Union(names) => UnionMembers(names)
    case Undecodable => []
    case Absent => UnionMembers(if p.anyOf != [] then p.anyOf else p.oneOf)
  }

  /** The parameter's schema names this type, in the source that decides. */
  predicate Offers(p: ParamSchema, n: string) {
    || p.declared == Single(n)
    || (p.declared.Union? && n in p.declared.names)
    || (p.declared.Absent? && n in (if p.anyOf != [] then p.anyOf else p.oneOf))
  }

  ghost predicate OffersType(p: ParamSchema, m: string) {
    exists n :: Offers(p, n) && !Ignored(n) && TypeName(n) == m
  }

  /** A rendered type taken apart at its bars. */
  function Split(text: string): (parts: seq<string>)
    ensures parts != []
  {
    if text == "" then [""]
    else
      var rest := Split(text[1..]);
      if text[0] == '|' then [""] + rest else [[text[0]] + rest[0]] + rest[1..]
  }

  lemma {:induction false} SplitWord(m: string)
    requires '|' !in m
    ensures Split(m) == [m]
  {
    if m == "" {
    } else {
      SplitWord(m[1..]);
      assert m == [m[0]] + m[1..];
    }
  }

  lemma {:induction false} SplitSnoc(a: string, m: string)
    requires '|' !in m
    ensures Split(a + "|" + m) == Split(a) + [m]
  {
    var text := a + "|" + m;
    if a == "" {
      SplitWord(m);
      assert text[1..] == m;
    } else {
      SplitSnoc(a[1..], m);
      assert text[1..] == a[1..] + "|" + m;
    }
  }

  lemma {:induction false} SplitJoin(members: seq<string>)
    requires members != [] && forall i :: 0 <= i < |members| ==> '|' !in members[i]
    ensures Split(Join(members, "|")) == members
  {
    if |members| == 1 {
      SplitWord(members[0]);
    } else {
      var front := members[..|members| - 1];
      SplitJoin(front);
      SplitSnoc(Join(front, "|"), Last(members));
      FrontAndLast(members);
    }
  }

  lemma NoBars(n: string)
    ensures '|' !in TypeName(n)
  {
  }

  lemma {:induction false} MembersHaveNoBars(names: seq<string>)
    ensures forall m :: m in UnionMembers(names) ==> '|' !in m
  {
    if names == [] {
    } else {
      MembersHaveNoBars(names[..|names| - 1]);
      NoBars(Last(names));
    }
  }

  lemma MembersAreOffered(p: ParamSchema)
    requires !p.declared.Single?
    ensures NoDup(TypeMembers(p))
    ensures forall m :: m in TypeMembers(p) ==> '|' !in m
    ensures forall m :: m in TypeMembers(p) <==> OffersType(p, m)
  {
    var names :=
      match p.declared
      case Union(ns) => ns
      case Absent => if p.anyOf != [] then p.anyOf else p.oneOf
      case _ => [];
    UnionKeepsFirsts(names, 0);
    MembersHaveNoBars(names);
    forall m
      ensures OffersType(p, m) <==> m in UnionMembers(names)
    {
      if i :| 0 <= i < |names| && !Ignored(names[i]) && TypeName(names[i]) == m {
        assert Offers(p, names[i]);
      }
    }
  }

  /** Taken apart again, a rendered type names exactly the types its schema names, once each, or is "any" alone. */
  ghost predicate TellsTypes(p: ParamSchema, text: string) {
    && NoDup(Split(text))
    && (forall m :: m in Split(text) <==>
          || (exists n :: Offers(p, n) && n != "null" && n != "" && Shortens(n, m))
          || (m == "any" && forall n :: Offers(p, n) ==> n == "null" || n == ""))
    && (text == "any" <==>
          forall n :: Offers(p, n) ==> n !in {"string", "integer", "number", "boolean", "object", "array"})
  }

  /** The same in terms of the table. */
  ghost predicate TellsNames(p: ParamSchema, text: string) {
    && NoDup(Split(text))
    && (forall m :: m in Split(text) <==> OffersType(p, m) || (m == ANY && OffersNone(p)))
    && (text == ANY <==> forall n :: Offers(p, n) ==> n !in TYPE_NAMES)
  }

  ghost predicate OffersNone(p: ParamSchema) {
    forall n :: Offers(p, n) ==> Ignored(n)
  }

  lemma NamesAreShort(p: ParamSchema, text: string)
    requires TellsNames(p, text)
    ensures TellsTypes(p, text)
  {
    forall n, m
      ensures Shortens(n, m) <==> m == TypeName(n)
    {
      TypeNameShortens(n, m);
    }
    forall m
      ensures OffersType(p, m) <==> exists n :: Offers(p, n) && n != "null" && n != "" && Shortens(n, m)
    {
      if n :| Offers(p, n) && !Ignored(n) && TypeName(n) == m {
        assert Shortens(n, m);
      }
    }
    forall n
      ensures n in TYPE_NAMES <==> n in {"string", "integer", "number", "boolean", "object", "array"}
    {
      TypeNameShortens(n, ANY);
    }
  }

  lemma TypeTextTells(p: ParamSchema)
    ensures TellsTypes(p, UnionText(TypeMembers(p)))
  {
    if p.declared.Single? {
      SingleTells(p, p.declared.name);
    } else {
      MembersAreOffered(p);
      UnionTells(p);
    }
    NamesAreShort(p, UnionText(TypeMembers(p)));
  }

  lemma SingleTells(p: ParamSchema, n: string)
    requires p.declared == Single(n)
    ensures TellsNames(p, TypeName(n))
    ensures UnionText(TypeMembers(p)) == TypeName(n)
  {
    NoBars(n);
    SplitWord(TypeName(n));
    assert Offers(p, n) && forall k :: Offers(p, k) ==> k == n;
  }

  lemma KnownIsNotAny(n: string)
    ensures n in TYPE_NAMES <==> TypeName(n) != ANY
    ensures Ignored(n) ==> n !in TYPE_NAMES
  {
  }

  lemma UnionTells(p: ParamSchema)
    requires NoDup(TypeMembers(p)) && forall m :: m in TypeMembers(p) ==> '|' !in m
    requires forall m :: m in TypeMembers(p) <==> OffersType(p, m)
    requires !p.declared.Single?
    ensures TellsNames(p, UnionText(TypeMembers(p)))
  {
    var members := TypeMembers(p);
    var text := UnionText(members);
    if members == [] {
      SplitWord(ANY);
      forall n | Offers(p, n)
        ensures Ignored(n)
      {
        assert TypeName(n) !in members;
      }
    } else {
      SplitJoin(members);
      assert members[0] in members;
    }
    SplitWord(ANY);
    assert Split(text) == (if members == [] then [ANY] else members);
    assert text == ANY <==> Split(text) == [ANY];
    forall n | Offers(p, n)
      ensures n in TYPE_NAMES ==> text != ANY
    {
      KnownIsNotAny(n);
      if n in TYPE_NAMES {
        assert TypeName(n) in members;
      }
    }
    if text != ANY {
      AnotherMember(members);
      var m :| m in members && m != ANY;
      var n :| Offers(p, n) && !Ignored(n) && TypeName(n) == m;
      KnownIsNotAny(n);
    }
  }

  lemma AnotherMember(members: seq<string>)
    requires NoDup(members) && members != [] && members != [ANY]
    ensures exists m :: m in members && m != ANY
  {
    assert members[0] in members;
    if members[0] == ANY {
      assert |members| > 1;
      assert members[1] in members;
    }
  }

  /** `compactType`: the text tells exactly the types the schema names. */
  method CompactType(p: ParamSchema) returns (text: string)
    ensures text == UnionText(TypeMembers(p))
    ensures TellsTypes(p, text)
  {
    TypeTextTells(p);
    match p.declared {
      case Single(n) => text := TypeName(n);
      case Union(names) => text := CompactUnion(names);
      case Undecodable => text := ANY;
      case Absent =>
        var variants := if p.anyOf != [] then p.anyOf else p.oneOf;
        if variants != [] {
          text := CompactUnion(variants);
        } else {
          text := ANY;
        }
    }
  }

  // ---- string order ----

  predicate Less(a: string, b: string) {
    if b == "" then false
    else if a == "" then true
    else a[0] < b[0] || (a[0] == b[0] && Less(a[1..], b[1..]))
  }

  /** Strings are compared at the first place where they differ; a proper prefix comes first. */
  lemma {:induction false} LessIsLexicographic(a: string, b: string)
    ensures Less(a, b) <==>
            || (a != b && a <= b)
            || (exists i :: 0 <= i < |a| && i < |b| && a[..i] == b[..i] && a[i] < b[i])
  {
    if a != "" && b != "" {
      LessIsLexicographic(a[1..], b[1..]);
      if a[0] == b[0] {
        LaterPlaces(a, b);
      } else {
        assert a[..0] == b[..0];
        assert forall i :: 0 < i < |a| && i < |b| ==> a[..i][0] == a[0] && b[..i][0] == b[0];
      }
    }
  }

  lemma LaterPlaces(a: string, b: string)
    requires a != "" && b != "" && a[0] == b[0]
    ensures (a != b && a <= b) <==> (a[1..] != b[1..] && a[1..] <= b[1..])
    ensures (exists i :: 0 <= i < |a| && i < |b| && a[..i] == b[..i] && a[i] < b[i]) <==>
            (exists i :: 0 <= i < |a| - 1 && i < |b| - 1 && a[1..][..i] == b[1..][..i] && a[1..][i] < b[1..][i])
  {
    assert a == [a[0]] + a[1..] && b == [b[0]] + b[1..];
    if i :| 0 <= i < |a| && i < |b| && a[..i] == b[..i] && a[i] < b[i] {
      assert a[1..][..i - 1] == a[..i][1..] && b[1..][..i - 1] == b[..i][1..];
      assert a[1..][i - 1] < b[1..][i - 1];
    }
    if i :| 0 <= i < |a| - 1 && i < |b| - 1 && a[1..][..i] == b[1..][..i] && a[1..][i] < b[1..][i] {
      assert a[..i + 1] == [a[0]] + a[1..][..i] && b[..i + 1] == [b[0]] + b[1..][..i];
      assert a[i + 1] < b[i + 1];
    }
  }

  lemma {:induction false} LessIsStrict(a: string, b: string)
    ensures !(Less(a, b) && Less(b, a))
    ensures a == b ==> !Less(a, b)
  {
    if a != "" && b != "" {
      LessIsStrict(a[1..], b[1..]);
    }
  }

  lemma {:induction false} LessIsTotal(a: string, b: string)
    ensures Less(a, b) || Less(b, a) || a == b
  {
    if a != "" && b != "" {
      LessIsTotal(a[1..], b[1..]);
      if a[0] == b[0] && a[1..] == b[1..] {
        assert a == [a[0]] + a[1..] && b == [b[0]] + b[1..];
      }
    }
  }

  lemma {:induction false} LessIsTransitive(a: string, b: string, c: string)
    requires Less(a, b) && Less(b, c)
    ensures Less(a, c)
  {
    if a != "" && a[0] == b[0] == c[0] {
      LessIsTransitive(a[1..], b[1..], c[1..]);
    }
  }

  ghost predicate StrictlySorted(s: seq<string>) {
    forall i, j :: 0 <= i < j < |s| ==> Less(s[i], s[j])
  }

  function InsertSorted(s: seq<string>, x: string): seq<string> {
    if s != [] && Less(x, Last(s)) then InsertSorted(s[..|s| - 1], x) + [Last(s)] else s + [x]
  }

  /** `sort.Strings`. */
  function SortStrings(s: seq<string>): seq<string> {
    if s == [] then [] else InsertSorted(SortStrings(s[..|s| - 1]), Last(s))
  }

  lemma {:induction false} InsertKeepsSorted(s: seq<string>, x: string)
    requires StrictlySorted(s) && x !in s
    ensures StrictlySorted(InsertSorted(s, x))
    ensures forall y :: y in InsertSorted(s, x) <==> y in s || y == x
  {
    if s != [] {
      var front, last := s[..|s| - 1], Last(s);
      FrontAndLast(s);
      assert forall y :: y in s <==> y in front || y == last;
      if Less(x, last) {
        InsertKeepsSorted(front, x);
        SortedSnoc(InsertSorted(front, x), last);
      } else {
        LessIsTotal(x, last);
        forall y | y in front
          ensures Less(y, x)
        {
          LessIsTransitive(y, last, x);
        }
        SortedSnoc(s, x);
      }
    }
  }

  lemma SortedSnoc(s: seq<string>, x: string)
    requires StrictlySorted(s) && forall y :: y in s ==> Less(y, x)
    ensures StrictlySorted(s + [x])
    ensures forall y :: y in s + [x] <==> y in s || y == x
  {
    assert forall i :: 0 <= i < |s| ==> s[i] in s;
  }

  lemma {:induction false} SortFacts(s: seq<string>)
    requires NoDup(s)
    ensures StrictlySorted(SortStrings(s)) && forall y :: y in SortStrings(s) <==> y in s
  {
    if s != [] {
      var front := s[..|s| - 1];
      FrontAndLast(s);
      assert forall y :: y in s <==> y in front || y == Last(s);
      SortFacts(front);
      assert forall i :: 0 <= i < |front| ==> front[i] == s[i];
      InsertKeepsSorted(SortStrings(front), Last(s));
    }
  }

  ghost predicate SameMembers(s: seq<string>, t: seq<string>) {
    forall x :: x in s <==> x in t
  }

  /** A strictly sorted sequence is determined by its elements. */
  lemma {:induction false} SortedIsUnique(s: seq<string>, t: seq<string>)
    requires StrictlySorted(s) && StrictlySorted(t) && SameMembers(s, t)
    ensures s == t
  {
    HeadIsMember(t);
    if s != [] {
      assert Last(s) in t && t != [] && Last(t) in s;
      LastIsGreatest(s, Last(t));
      LastIsGreatest(t, Last(s));
      LessIsStrict(Last(s), Last(t));
      assert Last(s) == Last(t);
      FrontMembers(s);
      FrontMembers(t);
      SameFronts(s, t);
      SortedIsUnique(s[..|s| - 1], t[..|t| - 1]);
      FrontAndLast(s);
      FrontAndLast(t);
    }
  }

  lemma SameFronts(s: seq<string>, t: seq<string>)
    requires s != [] && t != [] && SameMembers(s, t) && Last(s) == Last(t)
    requires forall x :: x in s[..|s| - 1] <==> x in s && x != Last(s)
    requires forall x :: x in t[..|t| - 1] <==> x in t && x != Last(t)
    ensures SameMembers(s[..|s| - 1], t[..|t| - 1])
  {
    var a, b := s[..|s| - 1], t[..|t| - 1];
    forall x
      ensures x in a <==> x in b
    {
      assert x in s <==> x in t;
    }
  }

  lemma HeadIsMember(s: seq<string>)
    ensures s == [] || s[0] in s
  {
  }

  lemma LastIsGreatest(s: seq<string>, x: string)
    requires StrictlySorted(s) && x in s
    ensures s != [] && (x == Last(s) || Less(x, Last(s)))
  {
  }

  lemma FrontMembers(s: seq<string>)
    requires StrictlySorted(s) && s != []
    ensures StrictlySorted(s[..|s| - 1])
    ensures forall x :: x in s[..|s| - 1] <==> x in s && x != Last(s)
  {
    FrontAndLast(s);
    forall i | 0 <= i < |s| - 1
      ensures s[i] != Last(s)
    {
      LessIsStrict(s[i], Last(s));
    }
  }

  // ---- the parameter list ----

  /** The declared required names, each at its first appearance in the required array. */
  function RequiredNames(schema: InputSchema, required: seq<string>): seq<string> {
    if required == [] then []
    else
      var front, n := RequiredNames(schema, required[..|required| - 1]), Last(required);
      if n in schema.properties && n !in front then front + [n] else front
  }

  /** The map's iteration order: its keys, each once. */
  ghost predicate Enumerates(order: seq<string>, keys: set<string>) {
    NoDup(order) && forall x :: x in order <==> x in keys
  }

  ghost predicate IsParam(schema: InputSchema, p: Param, name: string, optional: bool) {
    && name in schema.properties
    && p == Param(name, optional, UnionText(TypeMembers(schema.properties[name])))
  }

  ghost predicate AreParams(schema: InputSchema, params: seq<Param>, names: seq<string>, optional: bool) {
    |params| == |names| && forall i :: 0 <= i < |names| ==> IsParam(schema, params[i], names[i], optional)
  }

  /** Required parameters in required-array order, then every other declared one in strictly sorted order. */
  ghost predicate IsSignature(schema: InputSchema, params: seq<Param>) {
    exists optional: seq<string> ::
      && SplitsAs(schema, params, optional)
  }

  ghost predicate SplitsAs(schema: InputSchema, params: seq<Param>, optional: seq<string>) {
    var required := RequiredNames(schema, schema.required);
    && StrictlySorted(optional)
    && (forall x :: x in optional <==> x in schema.properties && x !in required)
    && |required| <= |params|
    && AreParams(schema, params[..|required|], required, false)
    && AreParams(schema, params[|required|..], optional, true)
  }

  lemma {:induction false} RequiredFacts(schema: InputSchema, required: seq<string>)
    ensures NoDup(RequiredNames(schema, required))
    ensures forall x :: x in RequiredNames(schema, required) <==> x in required && x in schema.properties
  {
    if required != [] {
      RequiredFacts(schema, required[..|required| - 1]);
      FrontAndLast(required);
      assert forall x :: x in required <==> x in required[..|required| - 1] || x == Last(required);
    }
  }

  method CollectRequired(schema: InputSchema) returns (required: seq<string>, isRequired: set<string>)
    ensures required == RequiredNames(schema, schema.required)
    ensures forall x :: x in isRequired <==> x in required
  {
    required, isRequired := [], {};
    for i := 0 to |schema.required|
      invariant required == RequiredNames(schema, schema.required[..i])
      invariant forall x :: x in isRequired <==> x in required
    {
      var name := schema.required[i];
      assert schema.required[..i + 1][..i] == schema.required[..i];
      if name !in schema.properties || name in isRequired {
        continue;
      }
      isRequired, required := isRequired + {name}, required + [name];
    }
    assert schema.required[..|schema.required|] == schema.required;
  }

  method CollectOptional(order: seq<string>, isRequired: set<string>) returns (optional: seq<string>)
    requires NoDup(order)
    ensures StrictlySorted(optional)
    ensures forall x :: x in optional <==> x in order && x !in isRequired
  {
    optional := [];
    for i := 0 to |order|
      invariant NoDup(optional)
      invariant forall x :: x in optional <==> x in order[..i] && x !in isRequired
    {
      assert order[i] !in order[..i];
      assert order[..i + 1] == order[..i] + [order[i]];
      if order[i] !in isRequired {
        optional := optional + [order[i]];
      }
    }
    assert order[..|order|] == order;
    SortFacts(optional);
    optional := SortStrings(optional);
  }

  method RenderParam(schema: InputSchema, name: string, optional: bool) returns (p: Param)
    requires name in schema.properties
    ensures IsParam(schema, p, name, optional)
  {
    var text := CompactType(schema.properties[name]);
    p := Param(name, optional, text);
  }

  method RenderParams(schema: InputSchema, names: seq<string>, optional: bool) returns (params: seq<Param>)
    requires forall x :: x in names ==> x in schema.properties
    ensures AreParams(schema, params, names, optional)
  {
    params := [];
    for i := 0 to |names|
      invariant AreParams(schema, params, names[..i], optional)
    {
      var p := RenderParam(schema, names[i], optional);
      params := params + [p];
    }
    assert names[..|names|] == names;
  }

  /** `compactParams`, for a map iterated in any order. */
  method CompactParams(schema: InputSchema, order: seq<string>) returns (params: seq<Param>)
    requires Enumerates(order, schema.properties.Keys)
    ensures IsSignature(schema, params)
  {
    var required, isRequired := CollectRequired(schema);
    RequiredFacts(schema, schema.required);
    var optional := CollectOptional(order, isRequired);
    var bare := RenderParams(schema, required, false);
    var rest := RenderParams(schema, optional, true);
    params := bare + rest;
    assert params[..|required|] == bare && params[|required|..] == rest;
    assert SplitsAs(schema, params, optional);
  }

  /** A schema has one signature: the order in which the map is iterated cannot be seen in it. */
  lemma SignatureIsUnique(schema: InputSchema, p: seq<Param>, q: seq<Param>)
    requires IsSignature(schema, p) && IsSignature(schema, q)
    ensures p == q
  {
    var a :| SplitsAs(schema, p, a);
    var b :| SplitsAs(schema, q, b);
    assert SameMembers(a, b);
    SortedIsUnique(a, b);
    SamePieces(schema, p, q, a);
  }

  lemma SamePieces(schema: InputSchema, p: seq<Param>, q: seq<Param>, optional: seq<string>)
    requires SplitsAs(schema, p, optional) && SplitsAs(schema, q, optional)
    ensures p == q
  {
    var n := |RequiredNames(schema, schema.required)|;
    SameParams(schema, p[..n], q[..n], RequiredNames(schema, schema.required), false);
    SameParams(schema, p[n..], q[n..], optional, true);
    assert p == p[..n] + p[n..] && q == q[..n] + q[n..];
  }

  lemma SameParams(schema: InputSchema, p: seq<Param>, q: seq<Param>, names: seq<string>, optional: bool)
    requires AreParams(schema, p, names, optional) && AreParams(schema, q, names, optional)
    ensures p == q
  {
    forall i | 0 <= i < |names|
      ensures p[i] == q[i]
    {
      assert IsParam(schema, p[i], names[i], optional) && IsParam(schema, q[i], names[i], optional);
    }
  }

  function NamesOf(params: seq<Param>): seq<string> {
    Map(params, (p: Param) => p.name)
  }

  lemma {:induction false} RequiredInOrder(schema: InputSchema, required: seq<string>, i: nat, j: nat)
    requires i < j < |RequiredNames(schema, required)|
    ensures ComesBefore(required, RequiredNames(schema, required)[i], RequiredNames(schema, required)[j])
  {
    var front, names := required[..|required| - 1], RequiredNames(schema, required);
    var before := RequiredNames(schema, front);
    RequiredFacts(schema, front);
    if j < |before| {
      RequiredInOrder(schema, front, i, j);
      var p :| 0 <= p < |front| && front[p] == names[i] && names[j] !in front[..p + 1];
      assert required[..p + 1] == front[..p + 1];
    } else {
      assert before[i] in before;
      var p :| 0 <= p < |front| && front[p] == before[i];
      assert Last(required) !in front;
      assert required[..p + 1] == front[..p + 1];
    }
  }

  /** Every declared property appears in the signature exactly once, bare exactly when it is required. */
  lemma SignatureCoversSchema(schema: InputSchema, params: seq<Param>)
    requires IsSignature(schema, params)
    ensures Enumerates(NamesOf(params), schema.properties.Keys)
    ensures forall i :: 0 <= i < |params| ==> (params[i].optional <==> params[i].name !in schema.required)
    ensures forall i, j :: 0 <= i < j < |params| ==> !(params[i].optional && !params[j].optional)
  {
    var required := RequiredNames(schema, schema.required);
    var optional :| SplitsAs(schema, params, optional);
    RequiredFacts(schema, schema.required);
    NamesOfParams(schema, params, required, optional);
    NoDupConcat(required, optional);
  }

  /** Bare names keep the order of the required array, optional ones are sorted, and each type is told. */
  lemma SignatureOrder(schema: InputSchema, params: seq<Param>)
    requires IsSignature(schema, params)
    ensures forall i, j :: 0 <= i < j < |params| && !params[j].optional ==>
              ComesBefore(schema.required, params[i].name, params[j].name)
    ensures forall i, j :: 0 <= i < j < |params| && params[i].optional ==> Less(params[i].name, params[j].name)
    ensures forall i :: 0 <= i < |params| ==>
              && params[i].name in schema.properties
              && TellsTypes(schema.properties[params[i].name], params[i].text)
  {
    var required := RequiredNames(schema, schema.required);
    var optional :| SplitsAs(schema, params, optional);
    forall i | 0 <= i < |params|
      ensures params[i].name in schema.properties && TellsTypes(schema.properties[params[i].name], params[i].text)
    {
      ParamTells(schema, params, required, optional, i);
    }
    forall i, j | 0 <= i < j < |params| && !params[j].optional
      ensures ComesBefore(schema.required, params[i].name, params[j].name)
    {
      PairInOrder(schema, params, required, optional, i, j);
    }
    forall i, j | 0 <= i < j < |params| && params[i].optional
      ensures Less(params[i].name, params[j].name)
    {
      PairInOrder(schema, params, required, optional, i, j);
    }
  }

  lemma PairInOrder(schema: InputSchema, params: seq<Param>, required: seq<string>, optional: seq<string>,
                    i: nat, j: nat)
    requires required == RequiredNames(schema, schema.required) && StrictlySorted(optional)
    requires |required| <= |params| && i < j < |params|
    requires AreParams(schema, params[..|required|], required, false)
    requires AreParams(schema, params[|required|..], optional, true)
    ensures !params[j].optional ==> ComesBefore(schema.required, params[i].name, params[j].name)
    ensures params[i].optional ==> Less(params[i].name, params[j].name)
  {
    ParamTells(schema, params, required, optional, i);
    ParamTells(schema, params, required, optional, j);
    if j < |required| {
      RequiredInOrder(schema, schema.required, i, j);
    }
  }

  lemma ParamTells(schema: InputSchema, params: seq<Param>, required: seq<string>, optional: seq<string>, i: nat)
    requires |required| <= |params| && i < |params|
    requires AreParams(schema, params[..|required|], required, false)
    requires AreParams(schema, params[|required|..], optional, true)
    ensures params[i].name == if i < |required| then required[i] else optional[i - |required|]
    ensures params[i].optional <==> i >= |required|
    ensures params[i].name in schema.properties && TellsTypes(schema.properties[params[i].name], params[i].text)
  {
    var n := |required|;
    if i < n {
      assert IsParam(schema, params[..n][i], required[i], false);
    } else {
      assert IsParam(schema, params[n..][i - n], optional[i - n], true);
    }
    TypeTextTells(schema.properties[params[i].name]);
  }

  lemma NamesOfParams(schema: InputSchema, params: seq<Param>, required: seq<string>, optional: seq<string>)
    requires |required| <= |params|
    requires AreParams(schema, params[..|required|], required, false)
    requires AreParams(schema, params[|required|..], optional, true)
    ensures NamesOf(params) == required + optional
    ensures forall i :: 0 <= i < |params| ==>
              (params[i].optional <==> i >= |required|)
              && (params[i].optional ==> params[i].name in optional)
              && (!params[i].optional ==> params[i].name in required)
  {
    var n := |required|;
    forall i | 0 <= i < |params|
      ensures params[i].name == (required + optional)[i]
      ensures params[i].optional <==> i >= n
      ensures params[i].optional ==> params[i].name in optional
      ensures !params[i].optional ==> params[i].name in required
    {
      if i < n {
        assert IsParam(schema, params[..n][i], required[i], false);
      } else {
        assert IsParam(schema, params[n..][i - n], optional[i - n], true);
      }
    }
  }

  lemma NoDupConcat(a: seq<string>, b: seq<string>)
    requires NoDup(a) && StrictlySorted(b) && forall x :: x in b ==> x !in a
    ensures NoDup(a + b)
    ensures forall x :: x in a + b <==> x in a || x in b
  {
    forall i, j | 0 <= i < j < |b|
      ensures b[i] != b[j]
    {
      LessIsStrict(b[i], b[j]);
    }
    assert forall i :: 0 <= i < |b| ==> b[i] in b;
  }
}
