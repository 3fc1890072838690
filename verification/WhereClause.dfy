/**
 The WHERE-clause compiler for memory-node searches (agent-host reframe_memory/search.py). A search
 is compiled to clauses over named variables and a map that binds them.
 */
module WhereClause {
  import opened Ids
  import opened Text

  datatype Outcome<T> = Ok(value: T) | ValueError(reason: Refused)

  /** The two ways in which a search is refused. */
  datatype Refused = NoSearchableField | InvalidFieldPath

  datatype TagSearch = TagSearch(anyOf: seq<string>, allOf: seq<string>, noneOf: seq<string>)
  datatype StringSearch = StringSearch(contains: seq<string>, equals: seq<string>)
  datatype FieldTerms = FieldTerms(field: string, terms: seq<string>)
  datatype NodeSearch = NodeSearch(tags: TagSearch, strings: StringSearch, stringFields: seq<string>,
                                   contentContains: seq<FieldTerms>, contentEquals: seq<FieldTerms>)

  // ---------- compiled form ----------

  datatype Value = Many(items: seq<string>) | One(text: string)

  datatype Atom =
    | HasTerm(field: string, variable: string)    // string::contains(string::lowercase(<string>content.f), $v)
    | IsValue(field: string, variable: string)    // content.f = $v

  datatype Clause =
    | SharesAny(variable: string)                 // array::len(array::intersect(tags, $v)) > 0
    | SharesAll(variable: string)                 // array::len(array::intersect(tags, $v)) = array::len($v)
    | SharesNone(variable: string)                // array::len(array::intersect(tags, $v)) = 0
    | AnyAtom(atoms: seq<Atom>)

  datatype Query = Query(clauses: seq<Clause>, variables: map<string, Value>)

  // ---------- variable names ----------

  datatype Address =
    | TagAnyOf | TagAllOf | TagNoneOf
    | ContentTerm(i: nat, j: nat) | ContentValue(i: nat, j: nat)
    | StringContains(i: nat, j: nat) | StringEquals(i: nat, j: nat)

  /** How variable positions are spelled; the compiler uses `Name`. */
  type Naming = Address -> string

  datatype Binding = Binding(address: Address, value: Value)

  /** The variable map after binding a list of variables in order. */
  function Bind(name: Naming, m: map<string, Value>, bs: seq<Binding>): map<string, Value> {
    if bs == [] then m
    else
      var n := |bs| - 1;
      Bind(name, m, bs[..n])[name(bs[n].address) := bs[n].value]
  }

  // ---------- cleaning and validation ----------

  /** `_clean_terms`. */
  function CleanTerms(terms: seq<string>): seq<string> {
    if terms == [] then []
    else
      var n := |terms| - 1;
      CleanTerms(terms[..n]) + (if Strip(terms[n]) != "" then [Strip(terms[n])] else [])
  }

  /** The tag list that every create, update and publication stores. */
  function NormalizedTags(tags: seq<string>): seq<string> {
    Dedup(CleanTerms(tags))
  }

  predicate IsNameStart(c: char) {
    'A' <= c <= 'Z' || 'a' <= c <= 'z' || c == '_'
  }

  predicate IsNameChar(c: char) {
    IsNameStart(c) || '0' <= c <= '9'
  }

  /** `[A-Za-z_][A-Za-z0-9_]*(\.[A-Za-z_][A-Za-z0-9_]*)*`: dotted names, each starting with a letter or underscore. */
  predicate IsFieldPath(f: string) {
    f != "" && f[|f| - 1] != '.' && forall k {:trigger IsPathChar(f, k)} :: 0 <= k < |f| ==> IsPathChar(f, k)
  }

  predicate IsPathChar(f: string, k: nat)
    requires k < |f|
  {
    if k == 0 || f[k - 1] == '.' then IsNameStart(f[k]) else IsNameChar(f[k]) || f[k] == '.'
  }

  function CleanFieldTerms(cs: seq<FieldTerms>): (r: seq<FieldTerms>)
    ensures |r| == |cs|
    ensures forall i :: 0 <= i < |cs| ==> r[i].field == cs[i].field
  {
    seq(|cs|, i requires 0 <= i < |cs| => FieldTerms(cs[i].field, CleanTerms(cs[i].terms)))
  }

  /** The search with every term and searchable field cleaned, as each clause builder does on entry. */
  function Cleaned(s: NodeSearch): NodeSearch {
    NodeSearch(s.tags, StringSearch(CleanTerms(s.strings.contains), CleanTerms(s.strings.equals)),
               Dedup(CleanTerms(s.stringFields)), CleanFieldTerms(s.contentContains), CleanFieldTerms(s.contentEquals))
  }

  /** Why a cleaned search is refused, in the order in which the compiler looks. */
  function Refusal(s: NodeSearch): Option<Refused> {
    if StringsRefusal(s.strings, s.stringFields).Some? then StringsRefusal(s.strings, s.stringFields)
    else if !FieldsValid(s.contentContains) || !FieldsValid(s.contentEquals) then Some(InvalidFieldPath)
    else None
  }

  predicate FieldsValid(cs: seq<FieldTerms>) {
    forall c :: c in cs ==> IsFieldPath(c.field)
  }

  function StringsRefusal(strings: StringSearch, fields: seq<string>): Option<Refused> {
    if strings.contains == [] && strings.equals == [] then None
    else if fields == [] then Some(NoSearchableField)
    else if exists f :: f in fields && !IsFieldPath(f) then Some(InvalidFieldPath)
    else None
  }

  // ---------- compilation ----------

  datatype Part = Part(clauses: seq<Clause>, bindings: seq<Binding>)

  function Join(a: Part, b: Part): Part {
    Part(a.clauses + b.clauses, a.bindings + b.bindings)
  }

  function TagTerms(terms: seq<string>, address: Address, clause: Clause): Part {
    if terms == [] then Part([], []) else Part([clause], [Binding(address, Many(terms))])
  }

  function TagPart(name: Naming, tags: TagSearch): Part {
    Join(Join(TagTerms(tags.anyOf, TagAnyOf, SharesAny(name(TagAnyOf))),
              TagTerms(tags.allOf, TagAllOf, SharesAll(name(TagAllOf)))),
         TagTerms(tags.noneOf, TagNoneOf, SharesNone(name(TagNoneOf))))
  }

  /** The four families of numbered variables. */
  datatype Family = Terms | Values | StringTerms | StringValues

  function At(family: Family, i: nat, j: nat): Address {
    match family
    case Terms => ContentTerm(i, j)
    case Values => ContentValue(i, j)
    case StringTerms => StringContains(i, j)
    case StringValues => StringEquals(i, j)
  }

  predicate ByContainment(family: Family) {
    family.Terms? || family.StringTerms?
  }

  function AtomOf(name: Naming, family: Family, field: string, i: nat, j: nat): Atom {
    if ByContainment(family) then HasTerm(field, name(At(family, i, j))) else IsValue(field, name(At(family, i, j)))
  }

  function ValueOf(family: Family, term: string): Value {
    One(if ByContainment(family) then Lower(term) else term)
  }

  function AtomsOf(name: Naming, family: Family, field: string, i: nat, count: nat): seq<Atom> {
    seq(count, j requires 0 <= j < count => AtomOf(name, family, field, i, j))
  }

  function BindingsOf(family: Family, i: nat, terms: seq<string>): seq<Binding> {
    seq(|terms|, j requires 0 <= j < |terms| => Binding(At(family, i, j), ValueOf(family, terms[j])))
  }

  /** One disjunction per content field that has terms, over the first fields of the mapping. */
  function ContentPart(name: Naming, family: Family, cs: seq<FieldTerms>): Part {
    if cs == [] then Part([], [])
    else
      var n := |cs| - 1;
      var terms := cs[n].terms;
      var before := ContentPart(name, family, cs[..n]);
      if terms == [] then before
      else Join(before, Part([AnyAtom(AtomsOf(name, family, cs[n].field, n, |terms|))], BindingsOf(family, n, terms)))
  }

  function StringAtoms(name: Naming, fields: seq<string>, contains: nat, equals: nat): seq<Atom> {
    if fields == [] then []
    else
      var n := |fields| - 1;
      StringAtoms(name, fields[..n], contains, equals) +
      AtomsOf(name, StringTerms, fields[n], n, contains) + AtomsOf(name, StringValues, fields[n], n, equals)
  }

  function StringBindings(fields: nat, contains: seq<string>, equals: seq<string>): seq<Binding> {
    if fields == 0 then []
    else StringBindings(fields - 1, contains, equals) +
         BindingsOf(StringTerms, fields - 1, contains) + BindingsOf(StringValues, fields - 1, equals)
  }

  function StringPart(name: Naming, strings: StringSearch, fields: seq<string>): Part {
    if strings.contains == [] && strings.equals == [] then Part([], [])
    else Part([AnyAtom(StringAtoms(name, fields, |strings.contains|, |strings.equals|))],
              StringBindings(|fields|, strings.contains, strings.equals))
  }

  function Compiled(name: Naming, s: NodeSearch): Part {
    Join(Join(Join(TagPart(name, s.tags), StringPart(name, s.strings, s.stringFields)),
              ContentPart(name, Terms, s.contentContains)),
         ContentPart(name, Values, s.contentEquals))
  }

  function Compile(name: Naming, s: Option<NodeSearch>): Outcome<Query> {
    if s.None? then Ok(Query([], map[])) else CompileCleaned(name, Cleaned(s.value))
  }

  function CompileCleaned(name: Naming, s: NodeSearch): Outcome<Query> {
    if Refusal(s).Some? then ValueError(Refusal(s).value)
    else Ok(Query(Compiled(name, s).clauses, Bind(name, map[], Compiled(name, s).bindings)))
  }

  // ---------- the builder of the source ----------

  class QueryBuilder {
    const name: Naming
    var clauses: seq<Clause>
    var variables: map<string, Value>

    constructor (name: Naming)
      ensures this.name == name && clauses == [] && variables == map[]
    {
      this.name := name;
      clauses, variables := [], map[];
    }

    method AddTagClauses(tags: TagSearch)
      modifies this
      ensures clauses == old(clauses) + TagPart(name, tags).clauses
      ensures variables == Bind(name, old(variables), TagPart(name, tags).bindings)
    {
      if tags.anyOf != [] {
        variables := variables[name(TagAnyOf) := Many(tags.anyOf)];
        clauses := clauses + [SharesAny(name(TagAnyOf))];
      }
      if tags.allOf != [] {
        variables := variables[name(TagAllOf) := Many(tags.allOf)];
        clauses := clauses + [SharesAll(name(TagAllOf))];
      }
      if tags.noneOf != [] {
        variables := variables[name(TagNoneOf) := Many(tags.noneOf)];
        clauses := clauses + [SharesNone(name(TagNoneOf))];
      }
      BindTags(name, old(variables), tags);
    }

    /** The inner loop over terms: bind each one and build its atom. */
    method AddTerms(family: Family, field: string, i: nat, terms: seq<string>) returns (atoms: seq<Atom>)
      modifies this`variables
      ensures atoms == AtomsOf(name, family, field, i, |terms|)
      ensures variables == Bind(name, old(variables), BindingsOf(family, i, terms))
    {
      atoms := [];
      ghost var bs := BindingsOf(family, i, terms);
      for j := 0 to |terms|
        invariant atoms == AtomsOf(name, family, field, i, j)
        invariant variables == Bind(name, old(variables), bs[..j])
      {
        assert bs[..j + 1][..j] == bs[..j];
        variables := variables[name(At(family, i, j)) := ValueOf(family, terms[j])];
        atoms := atoms + [AtomOf(name, family, field, i, j)];
      }
      assert bs[..|terms|] == bs;
    }

    /** `_add_content_clauses` and `_add_content_equals_clauses`. */
    method AddContentClauses(family: Family, cs: seq<FieldTerms>) returns (ok: bool)
      modifies this
      ensures ok <==> FieldsValid(cs)
      ensures ok ==> clauses == old(clauses) + ContentPart(name, family, cs).clauses
      ensures ok ==> variables == Bind(name, old(variables), ContentPart(name, family, cs).bindings)
    {
      for i := 0 to |cs|
        invariant FieldsValid(cs[..i])
        invariant clauses == old(clauses) + ContentPart(name, family, cs[..i]).clauses
        invariant variables == Bind(name, old(variables), ContentPart(name, family, cs[..i]).bindings)
      {
        assert cs[..i + 1][..i] == cs[..i];
        if !IsFieldPath(cs[i].field) {
          return false;
        }
        var terms := cs[i].terms;
        if terms != [] {
          BindAppend(name, old(variables), ContentPart(name, family, cs[..i]).bindings, BindingsOf(family, i, terms));
          var atoms := AddTerms(family, cs[i].field, i, terms);
          clauses := clauses + [AnyAtom(atoms)];
        }
      }
      assert cs[..|cs|] == cs;
      return true;
    }

    method AddStringSearchClause(strings: StringSearch, fields: seq<string>) returns (r: Outcome<()>)
      modifies this
      ensures StringsRefusal(strings, fields).Some? ==> r == ValueError(StringsRefusal(strings, fields).value)
      ensures StringsRefusal(strings, fields).None? ==>
                && r == Ok(())
                && clauses == old(clauses) + StringPart(name, strings, fields).clauses
                && variables == Bind(name, old(variables), StringPart(name, strings, fields).bindings)
    {
      var contains, equals := strings.contains, strings.equals;
      if contains == [] && equals == [] {
        return Ok(());
      }
      if fields == [] {
        return ValueError(NoSearchableField);
      }
      if exists f :: f in fields && !IsFieldPath(f) {
        return ValueError(InvalidFieldPath);
      }
      var atoms := [];
      for i := 0 to |fields|
        invariant clauses == old(clauses)
        invariant atoms == StringAtoms(name, fields[..i], |contains|, |equals|)
        invariant variables == Bind(name, old(variables), StringBindings(i, contains, equals))
      {
        assert fields[..i + 1][..i] == fields[..i];
        ghost var before := StringBindings(i, contains, equals);
        BindAppend(name, old(variables), before, BindingsOf(StringTerms, i, contains));
        BindAppend(name, old(variables), before + BindingsOf(StringTerms, i, contains),
                   BindingsOf(StringValues, i, equals));
        var containing := AddTerms(StringTerms, fields[i], i, contains);
        var equal := AddTerms(StringValues, fields[i], i, equals);
        atoms := atoms + containing + equal;
      }
      assert fields[..|fields|] == fields;
      clauses := clauses + [AnyAtom(atoms)];
      return Ok(());
    }
  }

  method BuildCleaned(name: Naming, s: NodeSearch) returns (r: Outcome<Query>)
    ensures r == CompileCleaned(name, s)
  {
    var builder := new QueryBuilder(name);
    builder.AddTagClauses(s.tags);
    var strings := builder.AddStringSearchClause(s.strings, s.stringFields);
    if strings.ValueError? {
      return ValueError(strings.reason);
    }
    var containsOk := builder.AddContentClauses(Terms, s.contentContains);
    if !containsOk {
      return ValueError(InvalidFieldPath);
    }
    var equalsOk := builder.AddContentClauses(Values, s.contentEquals);
    if !equalsOk {
      return ValueError(InvalidFieldPath);
    }
    Assembled(name, TagPart(name, s.tags), StringPart(name, s.strings, s.stringFields),
              ContentPart(name, Terms, s.contentContains), ContentPart(name, Values, s.contentEquals));
    assert [] + TagPart(name, s.tags).clauses == TagPart(name, s.tags).clauses;
    return Ok(Query(builder.clauses, builder.variables));
  }

  /** `build_memory_node_where`, for a spelling of the variables. */
  method BuildWhere(name: Naming, search: Option<NodeSearch>) returns (r: Outcome<Query>)
    ensures r == Compile(name, search)
  {
    if search.None? {
      return Ok(Query([], map[]));
    }
    r := BuildCleaned(name, Cleaned(search.value));
  }

  /** Binding the parts one after another is binding their joined list. */
  lemma Assembled(name: Naming, t: Part, f: Part, c: Part, e: Part)
    ensures Bind(name, map[], Join(Join(Join(t, f), c), e).bindings) ==
            Bind(name, Bind(name, Bind(name, Bind(name, map[], t.bindings), f.bindings), c.bindings), e.bindings)
  {
    BindAppend(name, map[], t.bindings, f.bindings);
    BindAppend(name, map[], Join(t, f).bindings, c.bindings);
    BindAppend(name, map[], Join(Join(t, f), c).bindings, e.bindings);
  }

  lemma {:induction false} BindAppend(name: Naming, m: map<string, Value>, a: seq<Binding>, b: seq<Binding>)
    ensures Bind(name, m, a + b) == Bind(name, Bind(name, m, a), b)
    decreases |b|
  {
    if b == [] {
      assert a + b == a;
    } else {
      var n := |b| - 1;
      assert (a + b)[..|a + b| - 1] == a + b[..n];
      BindAppend(name, m, a, b[..n]);
    }
  }

  lemma BindTags(name: Naming, m: map<string, Value>, tags: TagSearch)
    ensures Bind(name, m, TagPart(name, tags).bindings) ==
            var m1 := if tags.anyOf == [] then m else m[name(TagAnyOf) := Many(tags.anyOf)];
            var m2 := if tags.allOf == [] then m1 else m1[name(TagAllOf) := Many(tags.allOf)];
            if tags.noneOf == [] then m2 else m2[name(TagNoneOf) := Many(tags.noneOf)]
  {
    var a, b, c := TagTerms(tags.anyOf, TagAnyOf, SharesAny(name(TagAnyOf))).bindings,
                   TagTerms(tags.allOf, TagAllOf, SharesAll(name(TagAllOf))).bindings,
                   TagTerms(tags.noneOf, TagNoneOf, SharesNone(name(TagNoneOf))).bindings;
    BindAppend(name, m, a, b);
    BindAppend(name, m, a + b, c);
    BindSingle(name, m, a);
    BindSingle(name, Bind(name, m, a), b);
    BindSingle(name, Bind(name, m, a + b), c);
  }

  lemma BindSingle(name: Naming, m: map<string, Value>, bs: seq<Binding>)
    requires |bs| <= 1
    ensures Bind(name, m, bs) == if bs == [] then m else m[name(bs[0].address) := bs[0].value]
  {
    if bs != [] {
      assert bs[..0] == [];
    }
  }
}
