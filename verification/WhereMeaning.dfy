/** A compiled search under its variable map means exactly what the search says. */
module WhereMeaning {
  import opened Ids
  import opened Text
  import opened WhereClause
  import opened WhereNames

  /** A stored node as a query sees it: its tags and its content fields by path. */
  datatype Document = Document(tags: seq<string>, content: map<string, string>)

  /** `<string>content.f`. */
  function FieldText(d: Document, field: string): string {
    if field in d.content then d.content[field] else "NONE"
  }

  /** `array::intersect(a, b)`: the items of `a` that find a partner in `b`, each partner used once. */
  function Intersect(a: seq<string>, b: multiset<string>): seq<string> {
    if a == [] then []
    else if a[0] in b then [a[0]] + Intersect(a[1..], b - multiset{a[0]})
    else Intersect(a[1..], b)
  }

  predicate AtomHolds(a: Atom, d: Document, vars: map<string, Value>) {
    && a.variable in vars && vars[a.variable].One?
    && match a
       case HasTerm(field, v) => Text.Contains(Lower(FieldText(d, field)), vars[v].text)
       case IsValue(field, v) => field in d.content && d.content[field] == vars[v].text
  }

  predicate ClauseHolds(c: Clause, d: Document, vars: map<string, Value>) {
    match c
    case AnyAtom(atoms) => exists a :: a in atoms && AtomHolds(a, d, vars)
    case SharesAny(v) => v in vars && vars[v].Many? && |Intersect(d.tags, multiset(vars[v].items))| > 0
    case SharesAll(v) => v in vars && vars[v].Many? && |Intersect(d.tags, multiset(vars[v].items))| == |vars[v].items|
    case SharesNone(v) => v in vars && vars[v].Many? && |Intersect(d.tags, multiset(vars[v].items))| == 0
  }

  /** A node passes the query when every clause holds; no clauses means no restriction. */
  predicate Selects(q: Query, d: Document) {
    AllHold(q.clauses, d, q.variables)
  }

  predicate AllHold(clauses: seq<Clause>, d: Document, vars: map<string, Value>) {
    forall c :: c in clauses ==> ClauseHolds(c, d, vars)
  }

  // ---------- the direct meaning of a search ----------

  predicate TermMatches(family: Family, d: Document, field: string, term: string) {
    if ByContainment(family) then Text.Contains(Lower(FieldText(d, field)), Lower(term))
    else field in d.content && d.content[field] == term
  }

  predicate TagsMatch(tags: TagSearch, d: Document) {
    && (tags.anyOf == [] || exists t :: t in tags.anyOf && t in d.tags)
    && multiset(tags.allOf) <= multiset(d.tags)
    && forall t :: t in tags.noneOf ==> t !in d.tags
  }

  predicate StringsMatch(strings: StringSearch, fields: seq<string>, d: Document) {
    || (strings.contains == [] && strings.equals == [])
    || (exists f, t :: f in fields && t in strings.contains && TermMatches(StringTerms, d, f, t))
    || (exists f, t :: f in fields && t in strings.equals && TermMatches(StringValues, d, f, t))
  }

  predicate ContentMatches(family: Family, cs: seq<FieldTerms>, d: Document) {
    forall c :: c in cs ==> c.terms == [] || exists t :: t in c.terms && TermMatches(family, d, c.field, t)
  }

  predicate Matches(s: NodeSearch, d: Document) {
    && TagsMatch(s.tags, d) && StringsMatch(s.strings, s.stringFields, d)
    && ContentMatches(Terms, s.contentContains, d) && ContentMatches(Values, s.contentEquals, d)
  }

  // ---------- bindings ----------

  ghost predicate Injective(name: Naming) {
    forall a, b :: name(a) == name(b) ==> a == b
  }

  ghost predicate DistinctAddresses(bs: seq<Binding>) {
    forall i, j :: 0 <= i < j < |bs| ==> bs[i].address != bs[j].address
  }

  /** Every listed binding is what the variable map holds under its name. */
  ghost predicate Binds(name: Naming, vars: map<string, Value>, bs: seq<Binding>) {
    forall b :: b in bs ==> name(b.address) in vars && vars[name(b.address)] == b.value
  }

  lemma FreshName(name: Naming, bs: seq<Binding>)
    requires Injective(name) && DistinctAddresses(bs) && bs != []
    ensures forall b :: b in bs[..|bs| - 1] ==> name(b.address) != name(bs[|bs| - 1].address)
  {
    var n := |bs| - 1;
    forall b | b in bs[..n]
      ensures name(b.address) != name(bs[n].address)
    {
      var i :| 0 <= i < n && bs[..n][i] == b;
      assert bs[i] == b;
    }
  }

  /** Distinctly named bindings do not overwrite each other: the map holds each, and nothing else. */
  lemma {:induction false} BindBinds(name: Naming, bs: seq<Binding>)
    requires Injective(name) && DistinctAddresses(bs)
    ensures Binds(name, Bind(name, map[], bs), bs)
    ensures Bind(name, map[], bs).Keys == set b | b in bs :: name(b.address)
    ensures |Bind(name, map[], bs)| == |bs|
  {
    if bs != [] {
      var n := |bs| - 1;
      BindBinds(name, bs[..n]);
      FreshName(name, bs);
      assert bs == bs[..n] + [bs[n]];
      BindOne(name, Bind(name, map[], bs[..n]), bs[..n], bs[n]);
    }
  }

  lemma BindOne(name: Naming, m: map<string, Value>, init: seq<Binding>, last: Binding)
    requires Binds(name, m, init) && |m| == |init| && m.Keys == set b | b in init :: name(b.address)
    requires forall b :: b in init ==> name(b.address) != name(last.address)
    ensures var after := m[name(last.address) := last.value];
            && Binds(name, after, init + [last]) && |after| == |init| + 1
            && after.Keys == set b | b in init + [last] :: name(b.address)
  {
    var after := m[name(last.address) := last.value];
    assert name(last.address) !in m.Keys;
    assert after.Keys == m.Keys + {name(last.address)};
  }

  /** Addresses of one family whose field number is below `n`. */
  predicate Within(family: Family, a: Address, n: nat) {
    match family
    case Terms => a.ContentTerm? && a.i < n
    case Values => a.ContentValue? && a.i < n
    case StringTerms => a.StringContains? && a.i < n
    case StringValues => a.StringEquals? && a.i < n
  }

  lemma AppendDistinct(a: seq<Binding>, b: seq<Binding>)
    requires DistinctAddresses(a) && DistinctAddresses(b)
    requires forall x, y :: x in a && y in b ==> x.address != y.address
    ensures DistinctAddresses(a + b)
  {
    forall i, j | 0 <= i < j < |a + b|
      ensures (a + b)[i].address != (a + b)[j].address
    {
      if i < |a| <= j {
        assert a[i] in a && b[j - |a|] in b;
      }
    }
  }

  lemma BlockDistinct(family: Family, i: nat, terms: seq<string>)
    ensures DistinctAddresses(BindingsOf(family, i, terms))
    ensures forall b :: b in BindingsOf(family, i, terms) ==>
              Within(family, b.address, i + 1) && !Within(family, b.address, i)
  {
  }

  lemma {:induction false} ContentDistinct(name: Naming, family: Family, cs: seq<FieldTerms>)
    ensures DistinctAddresses(ContentPart(name, family, cs).bindings)
    ensures forall b :: b in ContentPart(name, family, cs).bindings ==> Within(family, b.address, |cs|)
  {
    if cs != [] {
      var n := |cs| - 1;
      ContentDistinct(name, family, cs[..n]);
      BlockDistinct(family, n, cs[n].terms);
      AppendDistinct(ContentPart(name, family, cs[..n]).bindings, BindingsOf(family, n, cs[n].terms));
    }
  }

  lemma {:induction false} StringDistinct(n: nat, contains: seq<string>, equals: seq<string>)
    ensures DistinctAddresses(StringBindings(n, contains, equals))
    ensures forall b :: b in StringBindings(n, contains, equals) ==>
              Within(StringTerms, b.address, n) || Within(StringValues, b.address, n)
  {
    if n > 0 {
      var before, c, e := StringBindings(n - 1, contains, equals),
        BindingsOf(StringTerms, n - 1, contains), BindingsOf(StringValues, n - 1, equals);
      StringDistinct(n - 1, contains, equals);
      BlockDistinct(StringTerms, n - 1, contains);
      BlockDistinct(StringValues, n - 1, equals);
      AppendDistinct(before, c);
      AppendDistinct(before + c, e);
    }
  }

  lemma TagDistinct(name: Naming, tags: TagSearch)
    ensures DistinctAddresses(TagPart(name, tags).bindings)
    ensures forall b :: b in TagPart(name, tags).bindings ==>
              b.address.TagAnyOf? || b.address.TagAllOf? || b.address.TagNoneOf?
  {
  }

  lemma CompiledDistinct(name: Naming, s: NodeSearch)
    ensures DistinctAddresses(Compiled(name, s).bindings)
  {
    var t, f := TagPart(name, s.tags).bindings, StringPart(name, s.strings, s.stringFields).bindings;
    var c, e := ContentPart(name, Terms, s.contentContains).bindings,
      ContentPart(name, Values, s.contentEquals).bindings;
    TagDistinct(name, s.tags);
    StringDistinct(|s.stringFields|, s.strings.contains, s.strings.equals);
    ContentDistinct(name, Terms, s.contentContains);
    ContentDistinct(name, Values, s.contentEquals);
    AppendRanked(t, f, 1);
    AppendRanked(t + f, c, 2);
    AppendRanked(t + f + c, e, 3);
  }

  /** The order in which the four clause builders bind their variables. */
  function Rank(a: Address): nat {
    match a
    case TagAnyOf => 0
    case TagAllOf => 0
    case TagNoneOf => 0
    case StringContains(_, _) => 1
    case StringEquals(_, _) => 1
    case ContentTerm(_, _) => 2
    case ContentValue(_, _) => 3
  }

  lemma AppendRanked(a: seq<Binding>, b: seq<Binding>, rank: nat)
    requires DistinctAddresses(a) && DistinctAddresses(b)
    requires (forall x :: x in a ==> Rank(x.address) < rank) && (forall y :: y in b ==> Rank(y.address) == rank)
    ensures DistinctAddresses(a + b) && forall x :: x in a + b ==> Rank(x.address) < rank + 1
  {
    AppendDistinct(a, b);
  }

  // ---------- meaning, part by part ----------

  lemma {:induction false} IntersectMultiset(a: seq<string>, b: multiset<string>)
    ensures multiset(Intersect(a, b)) == multiset(a) * b
  {
    if a != [] {
      assert a == [a[0]] + a[1..];
      if a[0] in b {
        IntersectMultiset(a[1..], b - multiset{a[0]});
      } else {
        IntersectMultiset(a[1..], b);
      }
    }
  }

  lemma IntersectSize(tags: seq<string>, terms: seq<string>)
    ensures |Intersect(tags, multiset(terms))| == |multiset(tags) * multiset(terms)|
  {
    IntersectMultiset(tags, multiset(terms));
    assert |multiset(Intersect(tags, multiset(terms)))| == |Intersect(tags, multiset(terms))|;
  }

  /** The intersection is empty exactly when no term is a tag. */
  lemma IntersectNonEmpty(tags: seq<string>, terms: seq<string>)
    ensures |Intersect(tags, multiset(terms))| > 0 <==> exists t :: t in terms && t in tags
  {
    var common := multiset(tags) * multiset(terms);
    IntersectSize(tags, terms);
    if |common| > 0 {
      var t :| t in common;
      assert t in terms && t in tags;
    }
    if t :| t in terms && t in tags {
      assert t in common;
    }
  }

  /** The intersection is as long as the terms exactly when every term is a tag, with multiplicity. */
  lemma IntersectFull(tags: seq<string>, terms: seq<string>)
    ensures |Intersect(tags, multiset(terms))| == |terms| <==> multiset(terms) <= multiset(tags)
  {
    var a, b := multiset(tags), multiset(terms);
    IntersectSize(tags, terms);
    assert |b| == |terms|;
    assert b == a * b + (b - a);
    assert |b| == |a * b| + |b - a|;
    if multiset(terms) <= multiset(tags) {
      assert b - a == multiset{};
    }
  }

  /** With duplicate-free node tags, the all-of clause means: no repeated term, and every term a tag. */
  lemma AllOfExact(tags: seq<string>, terms: seq<string>)
    requires NoDup(tags)
    ensures multiset(terms) <= multiset(tags) <==> NoDup(terms) && forall t :: t in terms ==> t in tags
  {
    CountsOfDistinct(tags);
    if multiset(terms) <= multiset(tags) {
      forall i, j | 0 <= i < j < |terms|
        ensures terms[i] != terms[j]
      {
        CountPair(terms, i, j);
      }
      forall t | t in terms
        ensures t in tags
      {
        assert t in multiset(terms);
      }
    }
    if NoDup(terms) {
      CountsOfDistinct(terms);
    }
  }

  lemma {:induction false} CountsOfDistinct(xs: seq<string>)
    requires NoDup(xs)
    ensures forall x :: multiset(xs)[x] <= 1 && (x in xs <==> multiset(xs)[x] == 1)
  {
    if xs != [] {
      var n := |xs| - 1;
      assert xs == xs[..n] + [xs[n]];
      CountsOfDistinct(xs[..n]);
    }
  }

  lemma CountPair(xs: seq<string>, i: nat, j: nat)
    requires i < j < |xs|
    ensures xs[i] == xs[j] ==> multiset(xs)[xs[i]] >= 2
  {
    assert xs == xs[..i] + [xs[i]] + xs[i + 1..j] + [xs[j]] + xs[j + 1..];
  }

  lemma AllHoldAppend(a: seq<Clause>, b: seq<Clause>, d: Document, vars: map<string, Value>)
    ensures AllHold(a + b, d, vars) <==> AllHold(a, d, vars) && AllHold(b, d, vars)
  {
    if AllHold(a + b, d, vars) {
      assert forall c :: c in a || c in b ==> c in a + b;
    }
  }

  lemma AllHoldSingle(c: Clause, d: Document, vars: map<string, Value>)
    ensures AllHold([c], d, vars) <==> ClauseHolds(c, d, vars)
  {
    assert c in [c];
  }

  lemma BindsAppend(name: Naming, vars: map<string, Value>, a: seq<Binding>, b: seq<Binding>)
    ensures Binds(name, vars, a + b) <==> Binds(name, vars, a) && Binds(name, vars, b)
  {
    if Binds(name, vars, a + b) {
      assert forall x :: x in a || x in b ==> x in a + b;
    }
  }

  lemma TagTermsMeaning(name: Naming, terms: seq<string>, address: Address, clause: Clause, d: Document,
                        vars: map<string, Value>)
    requires Binds(name, vars, TagTerms(terms, address, clause).bindings)
    requires !clause.AnyAtom? && clause.variable == name(address)
    ensures AllHold(TagTerms(terms, address, clause).clauses, d, vars) <==>
            terms == [] ||
            (match clause
             case SharesAny(_) => exists t :: t in terms && t in d.tags
             case SharesAll(_) => multiset(terms) <= multiset(d.tags)
             case SharesNone(_) => !exists t :: t in terms && t in d.tags)
  {
    if terms != [] {
      AllHoldSingle(clause, d, vars);
      assert Binding(address, Many(terms)) in TagTerms(terms, address, clause).bindings;
      IntersectNonEmpty(d.tags, terms);
      IntersectFull(d.tags, terms);
    }
  }

  lemma TagMeaning(name: Naming, tags: TagSearch, d: Document, vars: map<string, Value>)
    requires Binds(name, vars, TagPart(name, tags).bindings)
    ensures AllHold(TagPart(name, tags).clauses, d, vars) <==> TagsMatch(tags, d)
  {
    var any, all, none := TagTerms(tags.anyOf, TagAnyOf, SharesAny(name(TagAnyOf))),
                          TagTerms(tags.allOf, TagAllOf, SharesAll(name(TagAllOf))),
                          TagTerms(tags.noneOf, TagNoneOf, SharesNone(name(TagNoneOf)));
    BindsAppend(name, vars, any.bindings + all.bindings, none.bindings);
    BindsAppend(name, vars, any.bindings, all.bindings);
    AllHoldAppend(any.clauses + all.clauses, none.clauses, d, vars);
    AllHoldAppend(any.clauses, all.clauses, d, vars);
    TagTermsMeaning(name, tags.anyOf, TagAnyOf, SharesAny(name(TagAnyOf)), d, vars);
    TagTermsMeaning(name, tags.allOf, TagAllOf, SharesAll(name(TagAllOf)), d, vars);
    TagTermsMeaning(name, tags.noneOf, TagNoneOf, SharesNone(name(TagNoneOf)), d, vars);
  }

  lemma AtomMeaning(name: Naming, family: Family, d: Document, field: string, i: nat, j: nat, term: string,
                    vars: map<string, Value>)
    requires name(At(family, i, j)) in vars && vars[name(At(family, i, j))] == ValueOf(family, term)
    ensures AtomHolds(AtomOf(name, family, field, i, j), d, vars) <==> TermMatches(family, d, field, term)
  {
  }

  /** A block of atoms holds somewhere exactly when some term of its field matches. */
  lemma AtomsMeaning(name: Naming, family: Family, d: Document, field: string, i: nat, terms: seq<string>,
                     vars: map<string, Value>)
    requires Binds(name, vars, BindingsOf(family, i, terms))
    ensures (exists a :: a in AtomsOf(name, family, field, i, |terms|) && AtomHolds(a, d, vars)) <==>
            exists t :: t in terms && TermMatches(family, d, field, t)
  {
    var atoms, bs := AtomsOf(name, family, field, i, |terms|), BindingsOf(family, i, terms);
    forall j | 0 <= j < |terms|
      ensures AtomHolds(atoms[j], d, vars) <==> TermMatches(family, d, field, terms[j])
    {
      assert bs[j] in bs;
      AtomMeaning(name, family, d, field, i, j, terms[j], vars);
    }
    if a :| a in atoms && AtomHolds(a, d, vars) {
      var j :| 0 <= j < |atoms| && atoms[j] == a;
      assert terms[j] in terms;
    }
    if t :| t in terms && TermMatches(family, d, field, t) {
      var j :| 0 <= j < |terms| && terms[j] == t;
      assert atoms[j] in atoms;
    }
  }

  predicate FieldMatches(family: Family, c: FieldTerms, d: Document) {
    c.terms == [] || exists t :: t in c.terms && TermMatches(family, d, c.field, t)
  }

  lemma ContentMatchesStep(family: Family, cs: seq<FieldTerms>, d: Document)
    requires cs != []
    ensures var n := |cs| - 1;
            ContentMatches(family, cs, d) <==> ContentMatches(family, cs[..n], d) && FieldMatches(family, cs[n], d)
  {
    var n := |cs| - 1;
    assert cs == cs[..n] + [cs[n]];
    assert forall c :: c in cs <==> c in cs[..n] || c == cs[n];
  }

  lemma {:induction false} ContentMeaning(name: Naming, family: Family, cs: seq<FieldTerms>, d: Document,
                                          vars: map<string, Value>)
    requires Binds(name, vars, ContentPart(name, family, cs).bindings)
    ensures AllHold(ContentPart(name, family, cs).clauses, d, vars) <==> ContentMatches(family, cs, d)
  {
    if cs != [] {
      var n := |cs| - 1;
      var before, last := ContentPart(name, family, cs[..n]), cs[n];
      ContentMatchesStep(family, cs, d);
      if last.terms == [] {
        ContentMeaning(name, family, cs[..n], d, vars);
      } else {
        var block, atoms := BindingsOf(family, n, last.terms), AtomsOf(name, family, last.field, n, |last.terms|);
        BindsAppend(name, vars, before.bindings, block);
        ContentMeaning(name, family, cs[..n], d, vars);
        AtomsMeaning(name, family, d, last.field, n, last.terms, vars);
        AllHoldAppend(before.clauses, [AnyAtom(atoms)], d, vars);
        AllHoldSingle(AnyAtom(atoms), d, vars);
      }
    }
  }

  /** The atoms of a string search, over the first fields. */
  lemma {:induction false} StringAtomsMeaning(name: Naming, fields: seq<string>, contains: seq<string>,
                                              equals: seq<string>,
                                             d: Document, vars: map<string, Value>)
    requires Binds(name, vars, StringBindings(|fields|, contains, equals))
    ensures (exists a :: a in StringAtoms(name, fields, |contains|, |equals|) && AtomHolds(a, d, vars)) <==>
            || (exists f, t :: f in fields && t in contains && TermMatches(StringTerms, d, f, t))
            || (exists f, t :: f in fields && t in equals && TermMatches(StringValues, d, f, t))
  {
    if fields != [] {
      var n := |fields| - 1;
      var init, f := fields[..n], fields[n];
      assert fields == init + [f];
      StringAtomsMeaning(name, init, contains, equals, d, vars);
      AtomsMeaning(name, StringTerms, d, f, n, contains, vars);
      AtomsMeaning(name, StringValues, d, f, n, equals, vars);
      SplitAtoms(StringAtoms(name, init, |contains|, |equals|), AtomsOf(name, StringTerms, f, n, |contains|),
                 AtomsOf(name, StringValues, f, n, |equals|), d, vars);
      SplitFields(StringTerms, init, f, contains, d);
      SplitFields(StringValues, init, f, equals, d);
    }
  }

  lemma SplitAtoms(a: seq<Atom>, b: seq<Atom>, c: seq<Atom>, d: Document, vars: map<string, Value>)
    ensures (exists x :: x in a + b + c && AtomHolds(x, d, vars)) <==>
            || (exists x :: x in a && AtomHolds(x, d, vars))
            || (exists x :: x in b && AtomHolds(x, d, vars))
            || (exists x :: x in c && AtomHolds(x, d, vars))
  {
    assert forall x :: x in a + b + c <==> x in a || x in b || x in c;
  }

  lemma SplitFields(family: Family, init: seq<string>, last: string, terms: seq<string>, d: Document)
    ensures (exists f, t :: f in init + [last] && t in terms && TermMatches(family, d, f, t)) <==>
            || (exists f, t :: f in init && t in terms && TermMatches(family, d, f, t))
            || (exists t :: t in terms && TermMatches(family, d, last, t))
  {
    assert forall f :: f in init + [last] <==> f in init || f == last;
  }

  lemma StringMeaning(name: Naming, strings: StringSearch, fields: seq<string>, d: Document, vars: map<string, Value>)
    requires Binds(name, vars, StringPart(name, strings, fields).bindings)
    ensures AllHold(StringPart(name, strings, fields).clauses, d, vars) <==>
            StringsMatch(strings, fields, d)
  {
    if strings.contains != [] || strings.equals != [] {
      StringAtomsMeaning(name, fields, strings.contains, strings.equals, d, vars);
      AllHoldSingle(AnyAtom(StringAtoms(name, fields, |strings.contains|, |strings.equals|)), d, vars);
    }
  }

  lemma PartsMeaning(name: Naming, s: NodeSearch, d: Document, vars: map<string, Value>)
    requires Binds(name, vars, Compiled(name, s).bindings)
    ensures AllHold(Compiled(name, s).clauses, d, vars) <==> Matches(s, d)
  {
    var t, f := TagPart(name, s.tags), StringPart(name, s.strings, s.stringFields);
    var c, e := ContentPart(name, Terms, s.contentContains), ContentPart(name, Values, s.contentEquals);
    BindsAppend(name, vars, Join(Join(t, f), c).bindings, e.bindings);
    BindsAppend(name, vars, Join(t, f).bindings, c.bindings);
    BindsAppend(name, vars, t.bindings, f.bindings);
    AllHoldAppend(Join(Join(t, f), c).clauses, e.clauses, d, vars);
    AllHoldAppend(Join(t, f).clauses, c.clauses, d, vars);
    AllHoldAppend(t.clauses, f.clauses, d, vars);
    TagMeaning(name, s.tags, d, vars);
    StringMeaning(name, s.strings, s.stringFields, d, vars);
    ContentMeaning(name, Terms, s.contentContains, d, vars);
    ContentMeaning(name, Values, s.contentEquals, d, vars);
  }

  // ---------- every referenced variable is bound ----------

  function VariablesOf(c: Clause): set<string> {
    if c.AnyAtom? then set a | a in c.atoms :: a.variable else {c.variable}
  }

  function AddressNames(name: Naming, bs: seq<Binding>): set<string> {
    set b | b in bs :: name(b.address)
  }

  ghost predicate References(clauses: seq<Clause>, names: set<string>) {
    forall c, v :: c in clauses && v in VariablesOf(c) ==> v in names
  }

  lemma BlockReferences(name: Naming, family: Family, field: string, i: nat, terms: seq<string>)
    ensures forall a :: a in AtomsOf(name, family, field, i, |terms|) ==>
              a.variable in AddressNames(name, BindingsOf(family, i, terms))
  {
    forall a | a in AtomsOf(name, family, field, i, |terms|)
      ensures a.variable in AddressNames(name, BindingsOf(family, i, terms))
    {
      var j :| 0 <= j < |terms| && AtomsOf(name, family, field, i, |terms|)[j] == a;
      assert BindingsOf(family, i, terms)[j] in BindingsOf(family, i, terms);
    }
  }

  lemma JoinReferences(name: Naming, a: Part, b: Part)
    requires References(a.clauses, AddressNames(name, a.bindings)) &&
             References(b.clauses, AddressNames(name, b.bindings))
    ensures References(Join(a, b).clauses, AddressNames(name, Join(a, b).bindings))
  {
    assert forall x :: x in a.bindings || x in b.bindings ==> x in Join(a, b).bindings;
    assert AddressNames(name, a.bindings) <= AddressNames(name, Join(a, b).bindings);
    assert AddressNames(name, b.bindings) <= AddressNames(name, Join(a, b).bindings);
  }

  lemma {:induction false} ContentReferences(name: Naming, family: Family, cs: seq<FieldTerms>)
    ensures References(ContentPart(name, family, cs).clauses,
                       AddressNames(name, ContentPart(name, family, cs).bindings))
  {
    if cs != [] {
      var n := |cs| - 1;
      ContentReferences(name, family, cs[..n]);
      BlockReferences(name, family, cs[n].field, n, cs[n].terms);
      var block := Part([AnyAtom(AtomsOf(name, family, cs[n].field, n, |cs[n].terms|))],
                        BindingsOf(family, n, cs[n].terms));
      JoinReferences(name, ContentPart(name, family, cs[..n]), block);
    }
  }

  lemma {:induction false} StringReferences(name: Naming, fields: seq<string>, contains: seq<string>,
                                            equals: seq<string>)
    ensures forall a :: a in StringAtoms(name, fields, |contains|, |equals|) ==>
              a.variable in AddressNames(name, StringBindings(|fields|, contains, equals))
  {
    if fields != [] {
      var n := |fields| - 1;
      StringReferences(name, fields[..n], contains, equals);
      BlockReferences(name, StringTerms, fields[n], n, contains);
      BlockReferences(name, StringValues, fields[n], n, equals);
      var before, c, e := StringBindings(n, contains, equals), BindingsOf(StringTerms, n, contains),
        BindingsOf(StringValues, n, equals);
      assert StringBindings(|fields|, contains, equals) == before + c + e;
      assert forall x :: x in before || x in c || x in e ==> x in before + c + e;
    }
  }

  lemma CompiledReferences(name: Naming, s: NodeSearch)
    ensures References(Compiled(name, s).clauses, AddressNames(name, Compiled(name, s).bindings))
  {
    StringReferences(name, s.stringFields, s.strings.contains, s.strings.equals);
    ContentReferences(name, Terms, s.contentContains);
    ContentReferences(name, Values, s.contentEquals);
    var t, f := TagPart(name, s.tags), StringPart(name, s.strings, s.stringFields);
    var c, e := ContentPart(name, Terms, s.contentContains), ContentPart(name, Values, s.contentEquals);
    TagReferences(name, s.tags);
    JoinReferences(name, t, f);
    JoinReferences(name, Join(t, f), c);
    JoinReferences(name, Join(Join(t, f), c), e);
  }

  lemma TagReferences(name: Naming, tags: TagSearch)
    ensures References(TagPart(name, tags).clauses, AddressNames(name, TagPart(name, tags).bindings))
  {
    var any, all, none := TagTerms(tags.anyOf, TagAnyOf, SharesAny(name(TagAnyOf))),
                          TagTerms(tags.allOf, TagAllOf, SharesAll(name(TagAllOf))),
                          TagTerms(tags.noneOf, TagNoneOf, SharesNone(name(TagNoneOf)));
    TagTermsReference(name, tags.anyOf, TagAnyOf, SharesAny(name(TagAnyOf)));
    TagTermsReference(name, tags.allOf, TagAllOf, SharesAll(name(TagAllOf)));
    TagTermsReference(name, tags.noneOf, TagNoneOf, SharesNone(name(TagNoneOf)));
    JoinReferences(name, any, all);
    JoinReferences(name, Join(any, all), none);
  }

  lemma TagTermsReference(name: Naming, terms: seq<string>, address: Address, clause: Clause)
    requires !clause.AnyAtom? && clause.variable == name(address)
    ensures var p := TagTerms(terms, address, clause); References(p.clauses, AddressNames(name, p.bindings))
  {
    var p := TagTerms(terms, address, clause);
    assert terms != [] ==> Binding(address, Many(terms)) in p.bindings;
  }

  // ---------- main result ----------

  /**
   A search is refused exactly for a bad field path or a string search without fields. Otherwise the
   compiled query selects exactly the documents that match the cleaned search, it references only bound
   variables, and it binds as many variables as it has terms, so no two terms share a name.
   */
  lemma CompiledMeaning(s: NodeSearch, d: Document)
    ensures var r := Compile(Name, Some(s));
            && (r.ValueError? <==> Refusal(Cleaned(s)).Some?)
            && (r.Ok? ==>
                  && (Selects(r.value, d) <==> Matches(Cleaned(s), d))
                  && References(r.value.clauses, r.value.variables.Keys)
                  && |r.value.variables| == |Compiled(Name, Cleaned(s)).bindings|)
  {
    forall a, b | Name(a) == Name(b)
      ensures a == b
    {
      NameInjective(a, b);
    }
    NamedMeaning(Name, Cleaned(s), d);
  }

  lemma NamedMeaning(name: Naming, s: NodeSearch, d: Document)
    requires Injective(name)
    ensures var r := CompileCleaned(name, s);
            r.Ok? ==>
              && (Selects(r.value, d) <==> Matches(s, d))
              && References(r.value.clauses, r.value.variables.Keys)
              && |r.value.variables| == |Compiled(name, s).bindings|
  {
    CompiledDistinct(name, s);
    BindBinds(name, Compiled(name, s).bindings);
    PartsMeaning(name, s, d, Bind(name, map[], Compiled(name, s).bindings));
    CompiledReferences(name, s);
  }
}
