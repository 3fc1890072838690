/**
 The provider searches of seeding go through the WHERE-clause compiler: the node predicates that the
 seeding model selects by are exactly what the compiled queries select.
 */
module SeedSearch {
  import opened Ids
  import opened Seeding
  import opened Text
  import opened WhereClause
  import opened WhereMeaning
  import WhereNames

  /** The content fields of a provider record. */
  datatype Fields = Fields(name: string, description: string, surface: string, modelId: string, effort: string)

  ghost predicate FieldsOk(f: Fields) {
    && f.name != f.description && f.name != f.surface && f.name != f.modelId && f.name != f.effort
    && f.description != f.surface && f.description != f.modelId && f.description != f.effort
    && f.surface != f.modelId && f.surface != f.effort && f.modelId != f.effort
    && IsFieldPath(f.name) && IsFieldPath(f.description) && IsFieldPath(f.surface)
    && IsFieldPath(f.modelId) && IsFieldPath(f.effort)
  }

  function Put(m: map<string, string>, field: string, value: Option<string>): map<string, string> {
    if value.None? then m else m[field := value.value]
  }

  /** A provider node as a query sees it; absent optional fields are stored as NONE. */
  function DocumentOf(f: Fields, n: ProviderNode): Document {
    var texts := map[f.name := n.content.name, f.description := n.content.description, f.surface := n.content.surface];
    Document(n.tags, Put(Put(texts, f.modelId, n.content.modelId), f.effort, n.content.effort))
  }

  /** `_memory_search_from_provider_search`. */
  function SearchOf(f: Fields, allOf: seq<string>, names: seq<string>, surfaces: seq<string>,
                    models: seq<string>, efforts: seq<string>): NodeSearch {
    NodeSearch(TagSearch([], CleanTerms(allOf), []), StringSearch([], []),
               [f.name, f.description, f.surface, f.modelId, f.effort],
               [FieldTerms(f.name, names), FieldTerms(f.description, []), FieldTerms(f.surface, surfaces)],
               [FieldTerms(f.modelId, models), FieldTerms(f.effort, efforts)])
  }

  predicate AnyContained(text: string, terms: seq<string>) {
    terms == [] || exists t :: t in terms && Text.Contains(Lower(text), Lower(t))
  }

  predicate AnyEqual(value: Option<string>, terms: seq<string>) {
    terms == [] || exists t :: t in terms && value == Some(t)
  }

  lemma FieldsRead(f: Fields, n: ProviderNode)
    requires FieldsOk(f)
    ensures FieldText(DocumentOf(f, n), f.name) == n.content.name &&
            FieldText(DocumentOf(f, n), f.surface) == n.content.surface
    ensures forall t :: TermMatches(Values, DocumentOf(f, n), f.modelId, t) <==> n.content.modelId == Some(t)
    ensures forall t :: TermMatches(Values, DocumentOf(f, n), f.effort, t) <==> n.content.effort == Some(t)
  {
  }

  lemma ContainsField(d: Document, field: string, terms: seq<string>)
    ensures (terms == [] || exists t :: t in terms && TermMatches(Terms, d, field, t)) <==>
            AnyContained(FieldText(d, field), terms)
  {
    if t :| t in terms && Text.Contains(Lower(FieldText(d, field)), Lower(t)) {
      assert TermMatches(Terms, d, field, t);
    }
    if t :| t in terms && TermMatches(Terms, d, field, t) {
      assert Text.Contains(Lower(FieldText(d, field)), Lower(t));
    }
  }

  lemma EqualsField(d: Document, field: string, value: Option<string>, terms: seq<string>)
    requires forall t :: TermMatches(Values, d, field, t) <==> value == Some(t)
    ensures (terms == [] || exists t :: t in terms && TermMatches(Values, d, field, t)) <==> AnyEqual(value, terms)
  {
    if t :| t in terms && value == Some(t) {
      assert TermMatches(Values, d, field, t);
    }
  }

  lemma ThreeFields(d: Document, a: FieldTerms, b: FieldTerms, c: FieldTerms)
    requires b.terms == []
    ensures ContentMatches(Terms, [a, b, c], d) <==>
            AnyContained(FieldText(d, a.field), a.terms) && AnyContained(FieldText(d, c.field), c.terms)
  {
    ContainsField(d, a.field, a.terms);
    ContainsField(d, c.field, c.terms);
    assert a in [a, b, c] && c in [a, b, c];
  }

  lemma TwoFields(d: Document, a: FieldTerms, x: Option<string>, b: FieldTerms, y: Option<string>)
    requires forall t :: TermMatches(Values, d, a.field, t) <==> x == Some(t)
    requires forall t :: TermMatches(Values, d, b.field, t) <==> y == Some(t)
    ensures ContentMatches(Values, [a, b], d) <==> AnyEqual(x, a.terms) && AnyEqual(y, b.terms)
  {
    EqualsField(d, a.field, x, a.terms);
    EqualsField(d, b.field, y, b.terms);
    assert a in [a, b] && b in [a, b];
  }

  lemma TagsOnly(f: Fields, allOf: seq<string>, n: ProviderNode)
    ensures TagsMatch(TagSearch([], CleanTerms(allOf), []), DocumentOf(f, n)) <==> CarriesAll(n.tags, allOf)
  {
  }

  /** What a provider search means for a node, field by field. */
  lemma SearchMeaning(f: Fields, allOf: seq<string>, names: seq<string>, surfaces: seq<string>,
                      models: seq<string>, efforts: seq<string>, n: ProviderNode)
    requires FieldsOk(f)
    ensures Matches(Cleaned(SearchOf(f, allOf, names, surfaces, models, efforts)), DocumentOf(f, n)) <==>
            && CarriesAll(n.tags, allOf)
            && AnyContained(n.content.name, CleanTerms(names)) && AnyContained(n.content.surface, CleanTerms(surfaces))
            && AnyEqual(n.content.modelId, CleanTerms(models)) && AnyEqual(n.content.effort, CleanTerms(efforts))
  {
    hide ContentMatches, TagsMatch, CarriesAll, DocumentOf, FieldText, TermMatches, AnyContained, AnyEqual, Cleaned,
         SearchOf, FieldsOk;
    var d := DocumentOf(f, n);
    FieldsRead(f, n);
    TagsOnly(f, allOf, n);
    CleanedFields(f, allOf, names, surfaces, models, efforts);
    ThreeFields(d, FieldTerms(f.name, CleanTerms(names)), FieldTerms(f.description, []),
                FieldTerms(f.surface, CleanTerms(surfaces)));
    TwoFields(d, FieldTerms(f.modelId, CleanTerms(models)), n.content.modelId,
              FieldTerms(f.effort, CleanTerms(efforts)), n.content.effort);
  }

  lemma CleanedFields(f: Fields, allOf: seq<string>, names: seq<string>, surfaces: seq<string>, models: seq<string>,
                      efforts: seq<string>)
    ensures var s := Cleaned(SearchOf(f, allOf, names, surfaces, models, efforts));
            && s.tags == TagSearch([], CleanTerms(allOf), []) && s.strings == StringSearch([], [])
            && s.contentContains ==
               [FieldTerms(f.name, CleanTerms(names)), FieldTerms(f.description, []),
                FieldTerms(f.surface, CleanTerms(surfaces))]
            && s.contentEquals == [FieldTerms(f.modelId, CleanTerms(models)), FieldTerms(f.effort, CleanTerms(efforts))]
  {
  }

  // ---------- one term per field ----------

  lemma OneTerm(t: string)
    ensures CleanTerms([t]) == if Strip(t) == "" then [] else [Strip(t)]
  {
    assert [t][..0] == [];
  }

  lemma MentionsOne(text: string, term: string)
    ensures AnyContained(text, CleanTerms([term])) <==> Mentions(text, term)
  {
    OneTerm(term);
  }

  /** `(value or "",)`. */
  function OrEmpty(value: Option<string>): seq<string> {
    [if value.None? then "" else value.value]
  }

  lemma IsOne(value: Option<string>, term: Option<string>)
    ensures AnyEqual(value, CleanTerms(OrEmpty(term))) <==> Is(value, term)
  {
    OneTerm(if term.None? then "" else term.value);
    assert Strip("") == "";
  }

  lemma IsOption(value: Option<string>, term: Option<string>)
    ensures AnyEqual(value, CleanTerms(OptionTags(term))) <==> Is(value, term)
  {
    if term.Some? {
      OneTerm(term.value);
    }
  }

  // ---------- the compiled queries ----------

  /** Whether the compiled form of a search accepts a node. */
  predicate Found(f: Fields, s: NodeSearch, n: ProviderNode) {
    var query := Compile(WhereNames.Name, Some(s));
    query.Ok? && Selects(query.value, DocumentOf(f, n))
  }

  lemma FoundIsMatch(f: Fields, allOf: seq<string>, names: seq<string>, surfaces: seq<string>,
                     models: seq<string>, efforts: seq<string>, n: ProviderNode)
    requires FieldsOk(f)
    ensures var s := SearchOf(f, allOf, names, surfaces, models, efforts);
            Found(f, s, n) <==> Matches(Cleaned(s), DocumentOf(f, n))
  {
    var s := SearchOf(f, allOf, names, surfaces, models, efforts);
    NeverRefused(f, allOf, names, surfaces, models, efforts);
    hide Matches, Selects, Compile, Cleaned, Refusal, SearchOf, DocumentOf, FieldsOk;
    CompiledMeaning(s, DocumentOf(f, n));
  }

  lemma NeverRefused(f: Fields, allOf: seq<string>, names: seq<string>, surfaces: seq<string>, models: seq<string>,
                     efforts: seq<string>)
    requires FieldsOk(f)
    ensures Refusal(Cleaned(SearchOf(f, allOf, names, surfaces, models, efforts))) == None
  {
    CleanedFields(f, allOf, names, surfaces, models, efforts);
  }

  /** The query of `_ensure_provider`. */
  lemma ProviderQuery(f: Fields, p: Provider, n: ProviderNode)
    requires FieldsOk(f)
    ensures Found(f, SearchOf(f, [], [p.name], [p.surface], OrEmpty(p.modelId), OrEmpty(p.effort)), n) <==>
            ProviderSearch(p)(n)
  {
    FoundIsMatch(f, [], [p.name], [p.surface], OrEmpty(p.modelId), OrEmpty(p.effort), n);
    SearchMeaning(f, [], [p.name], [p.surface], OrEmpty(p.modelId), OrEmpty(p.effort), n);
    MentionsOne(n.content.name, p.name);
    MentionsOne(n.content.surface, p.surface);
    IsOne(n.content.modelId, p.modelId);
    IsOne(n.content.effort, p.effort);
  }

  /** The query of `_provider_for_definition`. */
  lemma DirectQuery(f: Fields, w: Wording, d: Demand, n: ProviderNode)
    requires FieldsOk(f)
    ensures Found(f, SearchOf(f, w.directTags + [d.modelId], [], [], [d.modelId], OptionTags(d.effort)), n) <==>
            DirectSearch(w, d)(n)
  {
    FoundIsMatch(f, w.directTags + [d.modelId], [], [], [d.modelId], OptionTags(d.effort), n);
    SearchMeaning(f, w.directTags + [d.modelId], [], [], [d.modelId], OptionTags(d.effort), n);
    IsOption(n.content.modelId, Some(d.modelId));
    IsOption(n.content.effort, d.effort);
  }

  /** The queries of the magic provider and of pruning. */
  lemma OtherQueries(f: Fields, w: Wording, n: ProviderNode)
    requires FieldsOk(f)
    ensures Found(f, SearchOf(f, [], [], [], [w.magicModelId], []), n) <==> ModelSearch(w.magicModelId)(n)
    ensures Found(f, SearchOf(f, w.magicTags, [], [], [w.magicModelId], []), n) <==> MagicSearch(w)(n)
    ensures Found(f, SearchOf(f, [w.family], [], [], [], []), n) <==> InFamily(w)(n)
  {
    FoundIsMatch(f, [], [], [], [w.magicModelId], [], n);
    SearchMeaning(f, [], [], [], [w.magicModelId], [], n);
    FoundIsMatch(f, w.magicTags, [], [], [w.magicModelId], [], n);
    SearchMeaning(f, w.magicTags, [], [], [w.magicModelId], [], n);
    FoundIsMatch(f, [w.family], [], [], [], [], n);
    SearchMeaning(f, [w.family], [], [], [], [], n);
    IsOption(n.content.modelId, Some(w.magicModelId));
  }

  // ---------- the field names of the source ----------

  lemma PlainPath(s: string)
    requires s != "" && IsNameStart(s[0]) && forall i :: 0 <= i < |s| ==> IsNameChar(s[i])
    ensures IsFieldPath(s)
  {
  }

  const SOURCE_FIELDS := Fields("name", "description", "baml_surface", "model_id", "reasoning_effort")

  lemma SourceFieldsOk()
    ensures FieldsOk(SOURCE_FIELDS)
  {
    PlainPath("name");
    PlainPath("description");
    PlainPath("baml_surface");
    PlainPath("model_id");
    PlainPath("reasoning_effort");
    assert "name"[0] == 'n' && "description"[0] == 'd' && "baml_surface"[0] == 'b' && "model_id"[0] == 'm' &&
           "reasoning_effort"[0] == 'r';
  }
}
