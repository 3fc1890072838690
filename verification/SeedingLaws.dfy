/**
 What each phase of seeding leaves behind: every wanted provider and task is found by its own lookup, up
 to date, and every provider left in the family has an allowed key.
 */
module SeedingLaws {
  import opened Ids
  import opened Nodes
  import opened SeedTable
  import opened Seeding
  import opened Text
  import WhereClause

  // ---------- what the inventory and the catalog must be like ----------

  /** Tags that are stored exactly as they are written: none blank or padded, none twice. */
  ghost predicate CleanTags(tags: seq<string>) {
    NoDup(tags) && forall t :: t in tags ==> t != "" && Stripped(t)
  }

  predicate CleanText(s: string) {
    s != "" && Stripped(s)
  }

  ghost predicate CleanReference(w: Wording, r: ModelReference) {
    && CleanTags(w.directTags + [r.modelId]) && CleanTags(w.workspaceTags + [r.modelId])
    && forall e :: e in r.efforts ==> CleanTags(w.directTags + [r.modelId] + [e])
  }

  /** The tags of every provider that the inventory asks for are clean, which covers its model ids and efforts. */
  ghost predicate CleanInventory(w: Wording, inventory: seq<ModelReference>) {
    forall r :: r in inventory ==> CleanReference(w, r)
  }

  /** No entry has the key of the magic provider. */
  ghost predicate MagicApart(w: Wording, inventory: seq<ModelReference>) {
    forall r :: r in inventory && r.modelId == w.magicModelId ==>
      r.directSurface != w.magicSurface && r.workspaceSurface != w.magicSurface
  }

  /** Two definitions that differ at most in two demands for the magic model, which one provider serves. */
  predicate SameTask(w: Wording, a: TaskDefinition, b: TaskDefinition) {
    && a.(demand := b.demand) == b
    && (a.demand == b.demand || (a.demand.modelId == w.magicModelId && b.demand.modelId == w.magicModelId))
  }

  /** Clean task tags, and one task per name. */
  ghost predicate CleanCatalog(w: Wording, defs: seq<TaskDefinition>) {
    && (forall d :: d in defs ==> CleanTags(d.tags))
    && forall a, b :: a in defs && b in defs && a.name == b.name ==> SameTask(w, a, b)
  }

  ghost predicate WordingOk(w: Wording) {
    && CleanText(w.family) && w.family in w.directTags && w.family !in w.magicTags
    && CleanText(w.magicModelId) && CleanTags(w.magicTags)
    && (forall m, e, m' {:trigger w.directName(m, e), w.workspaceName(m')} :: w.directName(m, e) != w.workspaceName(m'))
    && (forall m, e :: w.directName(m, e) != w.magicName) && (forall m :: w.workspaceName(m) != w.magicName)
  }

  /** Some inventory entry offers the model with that effort, or it is the magic model. */
  predicate Offered(w: Wording, inventory: seq<ModelReference>, d: Demand) {
    d.modelId == w.magicModelId || exists r :: r in inventory && Offers(r, d)
  }

  predicate Offers(r: ModelReference, d: Demand) {
    r.modelId == d.modelId && (d.effort.None? || d.effort.value in r.efforts)
  }

  // ---------- clean texts are stored and found as they are ----------

  lemma {:induction false} CleanTermsFixed(terms: seq<string>)
    requires forall t :: t in terms ==> t != "" && Stripped(t)
    ensures WhereClause.CleanTerms(terms) == terms
  {
    if terms != [] {
      var n := |terms| - 1;
      assert forall t :: t in terms[..n] ==> t in terms;
      assert terms == terms[..n] + [terms[n]];
      hide Strip, Stripped;
      CleanTermsFixed(terms[..n]);
      StripFixed(terms[n]);
    }
  }

  lemma {:induction false} CleanTermsAreClean(terms: seq<string>)
    ensures forall t :: t in WhereClause.CleanTerms(terms) ==> t != "" && Stripped(t)
  {
    if terms != [] {
      CleanTermsAreClean(terms[..|terms| - 1]);
    }
  }

  lemma {:induction false} CleanTermsKeep(terms: seq<string>, t: string)
    requires t in terms && CleanText(t)
    ensures t in WhereClause.CleanTerms(terms)
  {
    var n := |terms| - 1;
    assert terms == terms[..n] + [terms[n]];
    if t == terms[n] {
      StripFixed(t);
    } else {
      CleanTermsKeep(terms[..n], t);
    }
  }

  lemma NormalizedAreClean(tags: seq<string>)
    ensures CleanTags(WhereClause.NormalizedTags(tags))
  {
    CleanTermsAreClean(tags);
    var r := WhereClause.NormalizedTags(tags);
    forall t | t in r
      ensures t != "" && Stripped(t)
    {
      var i :| 0 <= i < |r| && r[i] == t;
    }
  }

  /** Tags survive being written exactly when they are clean. */
  lemma TagsStoredIff(tags: seq<string>)
    ensures WhereClause.NormalizedTags(tags) == tags <==> CleanTags(tags)
  {
    if CleanTags(tags) {
      CleanTermsFixed(tags);
    }
    NormalizedAreClean(tags);
  }

  lemma MentionsItself(s: string)
    ensures Mentions(s, s)
  {
    var a := SpaceRun(s);
    var n := RightEdge(s[a..]);
    var p := Strip(s);
    assert p == s[a..a + n];
    assert Lower(s)[a..a + |p|] == Lower(p);
    assert OccursAt(Lower(s), Lower(p), a);
  }

  lemma IsItself(v: Option<string>)
    requires v.Some? ==> Stripped(v.value)
    ensures Is(v, v)
  {
    if v.Some? {
      StripFixed(v.value);
    }
  }

  ghost predicate CleanProvider(want: Wanted<Provider>) {
    && CleanTags(want.tags)
    && (want.content.modelId.Some? ==> CleanText(want.content.modelId.value))
    && (want.content.effort.Some? ==> CleanText(want.content.effort.value))
  }

  /** A clean provider is stored as wanted and found by its own search. */
  lemma ProviderFound(want: Wanted<Provider>, n: ProviderNode)
    requires CleanProvider(want) && UpToDate(n, want)
    ensures ProviderHit(want.content)(n)
  {
    MentionsItself(want.content.name);
    MentionsItself(want.content.surface);
    IsItself(want.content.modelId);
    IsItself(want.content.effort);
    assert ProviderSearch(want.content)(n) && SameProvider(want.content)(n);
  }

  lemma ProviderHitMeans(p: Provider, n: ProviderNode)
    ensures ProviderHit(p)(n) ==> n.content.name == p.name && KeyOf(n.content) == KeyOf(p)
  {
    assert ProviderHit(p)(n) ==> SameProvider(p)(n);
  }

  lemma MagicHitMeans(w: Wording, n: ProviderNode)
    ensures MagicHit(w)(n) ==> KeyOf(n.content) == KeyOf(MagicWanted(w).content)
  {
    assert MagicHit(w)(n) ==> SameKey(MagicWanted(w).content)(n);
  }

  lemma TaskHitMeans(name: string, n: TaskNode)
    ensures TaskHit(name)(n) <==> n.content.name == name
  {
    MentionsItself(name);
    assert Named(name)(n) ==> TaskSearch(name)(n);
  }

  lemma ProviderStored(want: Wanted<Provider>)
    requires CleanProvider(want)
    ensures StoredProvider(want) == want
  {
    TagsStoredIff(want.tags);
  }

  // ---------- what the inventory wants ----------

  lemma {:induction false} WantedFrom(w: Wording, inventory: seq<ModelReference>, want: Wanted<Provider>)
    ensures want in InventoryWanted(w, inventory) <==> exists r :: r in inventory && want in ReferenceWanted(w, r)
  {
    if inventory != [] {
      var k := |inventory| - 1;
      assert inventory == inventory[..k] + [inventory[k]];
      WantedFrom(w, inventory[..k], want);
    }
  }

  lemma ReferenceWants(w: Wording, r: ModelReference, want: Wanted<Provider>)
    ensures want in ReferenceWanted(w, r) <==>
            || want == DirectWanted(w, r, None) || want == WorkspaceWanted(w, r)
            || exists e :: e in r.efforts && want == DirectWanted(w, r, Some(e))
  {
    var efforts := EffortsWanted(w, r, r.efforts);
    assert want in ReferenceWanted(w, r) <==>
           want == DirectWanted(w, r, None) || want in efforts || want == WorkspaceWanted(w, r);
    if e :| e in r.efforts && want == DirectWanted(w, r, Some(e)) {
      var i :| 0 <= i < |r.efforts| && r.efforts[i] == e;
      assert efforts[i] == want;
    }
  }

  lemma {:induction false} AllowedFrom(inventory: seq<ModelReference>, key: Key)
    ensures key in AllowedKeys(inventory) <==> exists r :: r in inventory && ReferenceAllows(r, key)
  {
    if inventory != [] {
      var k := |inventory| - 1;
      assert inventory == inventory[..k] + [inventory[k]];
      AllowedFrom(inventory[..k], key);
      assert key in AllowedKeys(inventory) <==>
             key in AllowedKeys(inventory[..k]) || ReferenceAllows(inventory[k], key);
    }
  }

  predicate ReferenceAllows(r: ModelReference, key: Key) {
    key == Key(r.directSurface, Some(r.modelId), None) || key in EffortKeys(r) ||
    key == Key(r.workspaceSurface, Some(r.modelId), None)
  }

  /** The pruning loop allows exactly the keys of what the seeding loop wants. */
  lemma AllowedExactly(w: Wording, inventory: seq<ModelReference>, key: Key)
    ensures key in AllowedKeys(inventory) <==>
            exists want :: want in InventoryWanted(w, inventory) && KeyOf(want.content) == key
  {
    AllowedFrom(inventory, key);
    if key in AllowedKeys(inventory) {
      var r :| r in inventory && ReferenceAllows(r, key);
      var want := if key == Key(r.directSurface, Some(r.modelId), None) then DirectWanted(w, r, None)
                  else if key == Key(r.workspaceSurface, Some(r.modelId), None) then WorkspaceWanted(w, r)
                  else DirectWanted(w, r, key.effort);
      ReferenceWants(w, r, want);
      WantedFrom(w, inventory, want);
      assert KeyOf(want.content) == key;
    }
    if want :| want in InventoryWanted(w, inventory) && KeyOf(want.content) == key {
      WantedFrom(w, inventory, want);
      var r :| r in inventory && want in ReferenceWanted(w, r);
      ReferenceWants(w, r, want);
      assert ReferenceAllows(r, key);
    }
  }

  /** Everything wanted is clean and determined by its name and key. */
  ghost predicate GoodWants(wants: seq<Wanted<Provider>>) {
    && (forall a :: a in wants ==> CleanProvider(a))
    && forall a, b ::
         a in wants && b in wants && a.content.name == b.content.name && KeyOf(a.content) == KeyOf(b.content) ==>
           a == b
  }

  ghost predicate WantsApart(w: Wording, wants: seq<Wanted<Provider>>) {
    forall a :: a in wants ==> KeyOf(a.content) != KeyOf(MagicWanted(w).content)
  }

  lemma CleanPrefix(a: seq<string>, b: seq<string>)
    requires CleanTags(a + b)
    ensures CleanTags(a)
    ensures forall t :: t in b ==> CleanText(t)
  {
    forall i, j | 0 <= i < j < |a|
      ensures a[i] != a[j]
    {
      assert (a + b)[i] == a[i] && (a + b)[j] == a[j];
    }
    assert forall t :: t in a ==> t in a + b;
    assert forall t :: t in b ==> t in a + b;
  }

  lemma WantedClean(w: Wording, inventory: seq<ModelReference>, r: ModelReference, want: Wanted<Provider>)
    requires CleanInventory(w, inventory) && r in inventory && want in ReferenceWanted(w, r)
    ensures CleanProvider(want)
  {
    ReferenceWants(w, r, want);
    CleanPrefix(w.directTags, [r.modelId]);
    assert r.modelId in [r.modelId];
    if want == DirectWanted(w, r, None) {
      assert want.tags == w.directTags + [r.modelId];
    } else if want != WorkspaceWanted(w, r) {
      var e :| e in r.efforts && want == DirectWanted(w, r, Some(e));
      CleanPrefix(w.directTags + [r.modelId], [e]);
      assert e in [e];
    }
  }

  lemma WantedApart(w: Wording, inventory: seq<ModelReference>, r: ModelReference, want: Wanted<Provider>)
    requires MagicApart(w, inventory) && r in inventory && want in ReferenceWanted(w, r)
    ensures KeyOf(want.content) != KeyOf(MagicWanted(w).content)
  {
    ReferenceWants(w, r, want);
  }

  predicate IsDirect(w: Wording, want: Wanted<Provider>, r: ModelReference) {
    want == DirectWanted(w, r, want.content.effort)
  }

  /** Direct and workspace providers never share a name, so name and key determine the rest. */
  lemma WantedDetermined(w: Wording, r: ModelReference, a: Wanted<Provider>, q: ModelReference, b: Wanted<Provider>)
    requires WordingOk(w) && a in ReferenceWanted(w, r) && b in ReferenceWanted(w, q)
    requires a.content.name == b.content.name && KeyOf(a.content) == KeyOf(b.content)
    ensures a == b
  {
    ReferenceWants(w, r, a);
    ReferenceWants(w, q, b);
    assert IsDirect(w, a, r) || a == WorkspaceWanted(w, r);
    assert IsDirect(w, b, q) || b == WorkspaceWanted(w, q);
  }

  lemma InventoryGood(w: Wording, inventory: seq<ModelReference>)
    requires WordingOk(w) && CleanInventory(w, inventory)
    ensures GoodWants(InventoryWanted(w, inventory))
  {
    var wants := InventoryWanted(w, inventory);
    forall a | a in wants
      ensures CleanProvider(a)
    {
      WantedFrom(w, inventory, a);
      var r :| r in inventory && a in ReferenceWanted(w, r);
      WantedClean(w, inventory, r, a);
    }
    forall a, b | a in wants && b in wants && a.content.name == b.content.name && KeyOf(a.content) == KeyOf(b.content)
      ensures a == b
    {
      WantedFrom(w, inventory, a);
      WantedFrom(w, inventory, b);
      var r :| r in inventory && a in ReferenceWanted(w, r);
      var q :| q in inventory && b in ReferenceWanted(w, q);
      WantedDetermined(w, r, a, q, b);
    }
  }

  lemma InventoryApart(w: Wording, inventory: seq<ModelReference>)
    requires MagicApart(w, inventory)
    ensures WantsApart(w, InventoryWanted(w, inventory))
  {
    forall a | a in InventoryWanted(w, inventory)
      ensures KeyOf(a.content) != KeyOf(MagicWanted(w).content)
    {
      WantedFrom(w, inventory, a);
      var r :| r in inventory && a in ReferenceWanted(w, r);
      WantedApart(w, inventory, r, a);
    }
  }

  // ---------- the provider phase ----------

  ghost predicate ProviderSettled(s: Store, want: Wanted<Provider>) {
    Settled(s.providers, ProviderHit(want.content), want)
  }

  ghost predicate AllSettled(s: Store, wants: seq<Wanted<Provider>>) {
    forall want :: want in wants ==> ProviderSettled(s, want)
  }

  /** A step for one provider settles it. */
  lemma EnsureSettles(s: Store, want: Wanted<Provider>)
    requires Valid(s) && CleanProvider(want)
    ensures ProviderSettled(EnsureProvider(s, want).0, want)
  {
    ProviderStored(want);
    MintedFresh(s);
    forall n: ProviderNode | UpToDate(n, want)
      ensures ProviderHit(want.content)(n)
    {
      ProviderFound(want, n);
    }
    SettleSettles(s.providers, ProviderHit(want.content), want, s.clock, MintedId(s.minted));
  }

  /** A step leaves every other wanted provider settled. */
  lemma StepKeepsSettled(s: Store, hit: ProviderNode -> bool, want: Wanted<Provider>, other: Wanted<Provider>)
    requires Valid(s) && ProviderSettled(s, other)
    requires forall n {:trigger hit(n)} :: hit(n) ==> !ProviderHit(other.content)(n)
    requires forall n: ProviderNode :: UpToDate(n, StoredProvider(want)) ==> !ProviderHit(other.content)(n)
    ensures ProviderSettled(SettleProvider(s, hit, want).0, other)
  {
    SettleFrame(s.providers, hit, want, StoredProvider(want), s.clock, MintedId(s.minted), ProviderHit(other.content));
  }

  lemma EnsureKeeps(s: Store, want: Wanted<Provider>, other: Wanted<Provider>)
    requires Valid(s) && CleanProvider(want) && ProviderSettled(s, other)
    requires want.content.name != other.content.name || KeyOf(want.content) != KeyOf(other.content)
    ensures ProviderSettled(EnsureProvider(s, want).0, other)
  {
    ProviderStored(want);
    forall n: ProviderNode
      ensures ProviderHit(want.content)(n) || UpToDate(n, want) ==> !ProviderHit(other.content)(n)
    {
      ProviderHitMeans(want.content, n);
      ProviderHitMeans(other.content, n);
    }
    StepKeepsSettled(s, ProviderHit(want.content), want, other);
  }

  lemma {:induction false} EnsureAllSettles(s: Store, wants: seq<Wanted<Provider>>)
    requires Valid(s) && GoodWants(wants)
    ensures AllSettled(EnsureProviders(s, wants).store, wants)
  {
    if wants != [] {
      var k := |wants| - 1;
      assert wants == wants[..k] + [wants[k]];
      EnsureAllSettles(s, wants[..k]);
      EnsureProvidersValid(s, wants[..k]);
      var before := EnsureProviders(s, wants[..k]).store;
      EnsureSettles(before, wants[k]);
      forall want | want in wants
        ensures ProviderSettled(EnsureProvider(before, wants[k]).0, want)
      {
        if want != wants[k] {
          EnsureKeeps(before, wants[k], want);
        }
      }
    }
  }

  lemma SelectSound<T(!new)>(xs: seq<MemoryNode<T>>, keep: MemoryNode<T> -> bool, clock: int)
    requires Sound(xs, clock)
    ensures Sound(Select(xs, keep), clock)
    decreases |xs|
  {
    if xs != [] {
      var k := |xs| - 1;
      assert xs == xs[..k] + [xs[k]];
      SelectSound(xs[..k], keep, clock);
      Selected(xs[..k], keep);
      forall n | n in Select(xs[..k], keep)
        ensures n.id != xs[k].id
      {
        var i :| 0 <= i < k && xs[i] == n;
      }
    }
  }

  lemma PrunedValid(w: Wording, allowed: set<Key>, s: Store)
    requires Valid(s)
    ensures Valid(Pruned(w, allowed, s))
  {
    SelectSound(s.providers, Stays(w, allowed), s.clock);
    Selected(s.providers, Stays(w, allowed));
  }

  /** Pruning keeps every wanted provider settled. */
  lemma PruneKeeps(w: Wording, inventory: seq<ModelReference>, s: Store)
    requires AllSettled(s, InventoryWanted(w, inventory))
    ensures AllSettled(Pruned(w, AllowedKeys(inventory), s), InventoryWanted(w, inventory))
  {
    forall want | want in InventoryWanted(w, inventory)
      ensures ProviderSettled(Pruned(w, AllowedKeys(inventory), s), want)
    {
      AllowedExactly(w, inventory, KeyOf(want.content));
      forall n: ProviderNode
        ensures ProviderHit(want.content)(n) ==> Stays(w, AllowedKeys(inventory))(n)
      {
        ProviderHitMeans(want.content, n);
      }
      SelectKeeps(s.providers, Stays(w, AllowedKeys(inventory)), ProviderHit(want.content));
    }
  }

  ghost predicate FamilyAllowed(w: Wording, allowed: set<Key>, ps: seq<ProviderNode>) {
    forall n :: n in ps ==> Stays(w, allowed)(n)
  }

  lemma MagicStored(w: Wording)
    requires WordingOk(w)
    ensures StoredProvider(MagicWanted(w)) == MagicWanted(w) && CleanProvider(MagicWanted(w))
    ensures forall n: ProviderNode :: UpToDate(n, MagicWanted(w)) ==> MagicHit(w)(n)
  {
    ProviderStored(MagicWanted(w));
    forall n: ProviderNode | UpToDate(n, MagicWanted(w))
      ensures MagicHit(w)(n)
    {
      IsItself(Some(w.magicModelId));
      assert ModelSearch(w.magicModelId)(n) && SameKey(MagicWanted(w).content)(n);
    }
  }

  function MagicEnsured(w: Wording, s: Store): Store {
    SettleProvider(s, MagicHit(w), MagicWanted(w)).0
  }

  lemma MagicSettles(w: Wording, s: Store)
    requires Valid(s) && WordingOk(w)
    ensures Settled(MagicEnsured(w, s).providers, MagicHit(w), MagicWanted(w))
  {
    MagicStored(w);
    MintedFresh(s);
    SettleSettles(s.providers, MagicHit(w), MagicWanted(w), s.clock, MintedId(s.minted));
  }

  lemma MagicKeepsSettled(w: Wording, s: Store, wants: seq<Wanted<Provider>>)
    requires Valid(s) && WordingOk(w) && WantsApart(w, wants) && AllSettled(s, wants)
    ensures AllSettled(MagicEnsured(w, s), wants)
  {
    MagicStored(w);
    forall want | want in wants
      ensures ProviderSettled(MagicEnsured(w, s), want)
    {
      forall n: ProviderNode
        ensures MagicHit(w)(n) || UpToDate(n, MagicWanted(w)) ==> !ProviderHit(want.content)(n)
      {
        MagicHitMeans(w, n);
        ProviderHitMeans(want.content, n);
      }
      StepKeepsSettled(s, MagicHit(w), MagicWanted(w), want);
    }
  }

  lemma CarriesOne(tags: seq<string>, t: string)
    requires CleanText(t) && CarriesAll(tags, [t])
    ensures t in tags
  {
    CleanTermsFixed([t]);
    assert t in multiset([t]);
  }

  lemma MagicOutside(w: Wording, n: ProviderNode)
    requires WordingOk(w) && n.tags == w.magicTags
    ensures !InFamily(w)(n)
  {
    if CarriesAll(n.tags, [w.family]) {
      CarriesOne(n.tags, w.family);
    }
  }

  lemma MagicWritten(w: Wording, s: Store, n: ProviderNode)
    requires Valid(s) && WordingOk(w) && n in MagicEnsured(w, s).providers && n !in s.providers
    ensures n.tags == w.magicTags
  {
    MagicStored(w);
    var found := Newest(s.providers, MagicHit(w));
    hide WordingOk, CleanTags, CleanProvider, Valid, MagicHit, Newest;
    WrittenTags(s.providers, found, MagicWanted(w), s.clock, MintedId(s.minted), n);
  }

  lemma WrittenTags(ps: seq<ProviderNode>, found: Option<ProviderNode>, want: Wanted<Provider>, clock: int, id: string,
                    n: ProviderNode)
    requires n in Settle(ps, found, want, want, clock, id).nodes && n !in ps
    ensures n.tags == want.tags
  {
  }

  lemma MagicKeepsFamily(w: Wording, allowed: set<Key>, s: Store)
    requires Valid(s) && WordingOk(w) && FamilyAllowed(w, allowed, s.providers)
    ensures FamilyAllowed(w, allowed, MagicEnsured(w, s).providers)
  {
    MagicStored(w);
    var found := Newest(s.providers, MagicHit(w));
    forall n | n in MagicEnsured(w, s).providers
      ensures Stays(w, allowed)(n)
    {
      if n !in s.providers {
        MagicWritten(w, s, n);
        MagicOutside(w, n);
      }
    }
  }

  // ---------- the task phase ----------

  lemma NewestMember(ps: seq<ProviderNode>, hit: ProviderNode -> bool)
    ensures Newest(ps, hit).Some? ==> Newest(ps, hit).value in ps && hit(Newest(ps, hit).value)
    ensures (exists n :: n in ps && hit(n)) ==> Newest(ps, hit).Some?
  {
    NewestExact(ps, hit);
  }

  /** The providers that the task phase starts from. */
  ghost predicate ProvidersReady(w: Wording, inventory: seq<ModelReference>, s: Store) {
    && AllSettled(s, InventoryWanted(w, inventory))
    && Settled(s.providers, MagicHit(w), MagicWanted(w))
    && FamilyAllowed(w, AllowedKeys(inventory), s.providers)
  }

  /** The providers that a demand is met from: the magic one, and those for every other model. */
  ghost predicate ReadyToServe(w: Wording, inventory: seq<ModelReference>, s: Store) {
    && (forall want :: want in InventoryWanted(w, inventory) && want.content.modelId != Some(w.magicModelId) ==>
          ProviderSettled(s, want))
    && Settled(s.providers, MagicHit(w), MagicWanted(w))
    && FamilyAllowed(w, AllowedKeys(inventory), s.providers)
  }

  lemma MagicIsFound(w: Wording, n: ProviderNode)
    requires WordingOk(w) && MagicHit(w)(n) && n.tags == w.magicTags
    ensures MagicLookup(w)(n)
  {
    CleanTermsFixed(w.magicTags);
    assert CarriesAll(n.tags, w.magicTags) && ModelSearch(w.magicModelId)(n) && SameKey(MagicWanted(w).content)(n);
    assert MagicSearch(w)(n);
  }

  lemma DirectIsFound(w: Wording, d: Demand, n: ProviderNode)
    requires CleanTags(w.directTags + [d.modelId]) && CleanText(d.modelId) &&
             (d.effort.Some? ==> CleanText(d.effort.value))
    requires n.tags == w.directTags + [d.modelId] + OptionTags(d.effort)
    requires n.content.modelId == Some(d.modelId) && n.content.effort == d.effort
    ensures DirectLookup(w, d)(n)
  {
    var base := w.directTags + [d.modelId];
    CleanTermsFixed(base);
    assert multiset(base) <= multiset(base + OptionTags(d.effort));
    IsItself(Some(d.modelId));
    IsItself(d.effort);
    assert CarriesAll(n.tags, base);
    assert DirectSearch(w, d)(n) && Serves(d)(n);
  }

  lemma FamilyCarried(w: Wording, terms: seq<string>, tags: seq<string>)
    requires w.family in terms && CleanText(w.family) && CarriesAll(tags, terms)
    ensures CarriesAll(tags, [w.family])
  {
    CleanTermsKeep(terms, w.family);
    CleanTermsFixed([w.family]);
    assert w.family in multiset(WhereClause.CleanTerms(terms));
  }

  lemma DirectMeans(w: Wording, d: Demand, n: ProviderNode)
    requires WordingOk(w) && DirectLookup(w, d)(n)
    ensures InFamily(w)(n) && n.content.modelId == Some(d.modelId) && n.content.effort == d.effort
  {
    assert DirectSearch(w, d)(n) && Serves(d)(n);
    FamilyCarried(w, w.directTags + [d.modelId], n.tags);
  }

  lemma MagicFound(w: Wording, ps: seq<ProviderNode>)
    requires WordingOk(w) && Settled(ps, MagicHit(w), MagicWanted(w))
    ensures Newest(ps, MagicLookup(w)).Some?
  {
    var n := Newest(ps, MagicHit(w)).value;
    NewestMember(ps, MagicHit(w));
    MagicIsFound(w, n);
    NewestMember(ps, MagicLookup(w));
  }

  lemma OfferedFound(w: Wording, inventory: seq<ModelReference>, s: Store, r: ModelReference, d: Demand)
    requires WordingOk(w) && CleanInventory(w, inventory) && ReadyToServe(w, inventory, s)
    requires r in inventory && Offers(r, d) && d.modelId != w.magicModelId
    ensures Newest(s.providers, DirectLookup(w, d)).Some?
  {
    var want := DirectWanted(w, r, d.effort);
    ReferenceWants(w, r, want);
    WantedFrom(w, inventory, want);
    WantedClean(w, inventory, r, want);
    hide WordingOk, CleanInventory, CleanTags, InventoryWanted, ReferenceWanted, FamilyAllowed, ProviderHit,
         DirectLookup,
         MagicHit, Newest, CarriesAll, Stripped;
    var n := Newest(s.providers, ProviderHit(want.content)).value;
    NewestMember(s.providers, ProviderHit(want.content));
    DirectIsFound(w, d, n);
    NewestMember(s.providers, DirectLookup(w, d));
  }

  lemma FoundOffered(w: Wording, inventory: seq<ModelReference>, s: Store, d: Demand)
    requires WordingOk(w) && ReadyToServe(w, inventory, s) && Newest(s.providers, DirectLookup(w, d)).Some?
    ensures exists r :: r in inventory && Offers(r, d)
  {
    var n := Newest(s.providers, DirectLookup(w, d)).value;
    NewestMember(s.providers, DirectLookup(w, d));
    DirectMeans(w, d, n);
    AllowedFrom(inventory, KeyOf(n.content));
    var r :| r in inventory && ReferenceAllows(r, KeyOf(n.content));
    assert Offers(r, d);
  }

  /** Once the providers are seeded, a provider is found for exactly the demands that are offered. */
  lemma ProviderFoundIff(w: Wording, inventory: seq<ModelReference>, s: Store, d: Demand)
    requires WordingOk(w) && CleanInventory(w, inventory) && ReadyToServe(w, inventory, s)
    ensures ProviderFor(w, s.providers, d).Some? <==> Offered(w, inventory, d)
  {
    if d.modelId == w.magicModelId {
      MagicFound(w, s.providers);
    } else {
      if r :| r in inventory && Offers(r, d) {
        OfferedFound(w, inventory, s, r, d);
      }
      if ProviderFor(w, s.providers, d).Some? {
        FoundOffered(w, inventory, s, d);
      }
    }
  }

  ghost predicate TaskSettled(w: Wording, s: Store, d: TaskDefinition) {
    var provider := ProviderFor(w, s.providers, d.demand);
    provider.Some? && Settled(s.tasks, TaskHit(d.name), TaskWanted(d, provider.value.id))
  }

  lemma {:induction false} TasksLeaveProviders(w: Wording, s: Store, defs: seq<TaskDefinition>)
    requires Valid(s)
    ensures SeedTasks(w, s, defs).store.providers == s.providers && Valid(SeedTasks(w, s, defs).store)
  {
    if defs != [] {
      var k := |defs| - 1;
      TasksLeaveProviders(w, s, defs[..k]);
      var before := SeedTasks(w, s, defs[..k]);
      var provider := ProviderFor(w, before.store.providers, defs[k].demand);
      if provider.Some? {
        SettleTaskValid(before.store, defs[k], provider.value.id);
      }
    }
  }

  lemma SettleTaskSettles(s: Store, d: TaskDefinition, providerId: string)
    requires Valid(s) && CleanTags(d.tags)
    ensures Settled(SettleTask(s, d, providerId).0.tasks, TaskHit(d.name), TaskWanted(d, providerId))
  {
    var want := TaskWanted(d, providerId);
    TagsStoredIff(d.tags);
    MintedFresh(s);
    forall n: TaskNode | UpToDate(n, want)
      ensures TaskHit(d.name)(n)
    {
      TaskHitMeans(d.name, n);
    }
    SettleSettles(s.tasks, TaskHit(d.name), want, s.clock, MintedId(s.minted));
  }

  lemma SettleTaskKeeps(s: Store, d: TaskDefinition, providerId: string, name: string, want: Wanted<Task>)
    requires Valid(s) && d.name != name && Settled(s.tasks, TaskHit(name), want)
    ensures Settled(SettleTask(s, d, providerId).0.tasks, TaskHit(name), want)
  {
    var mine := TaskWanted(d, providerId);
    forall n: TaskNode
      ensures TaskHit(d.name)(n) || UpToDate(n, StoredTask(mine)) ==> !TaskHit(name)(n)
    {
      TaskHitMeans(d.name, n);
      TaskHitMeans(name, n);
    }
    SettleFrame(s.tasks, TaskHit(d.name), mine, StoredTask(mine), s.clock, MintedId(s.minted), TaskHit(name));
  }

  lemma TaskStepSettles(w: Wording, p: Progress, defs: seq<TaskDefinition>, d: TaskDefinition)
    requires Valid(p.store) && CleanCatalog(w, defs + [d]) && p.missing.None?
    requires ProviderFor(w, p.store.providers, d.demand).Some?
    requires forall e :: e in defs ==> TaskSettled(w, p.store, e)
    ensures forall e :: e in defs + [d] ==> TaskSettled(w, SeedTask(w, p, d).store, e)
  {
    var id := ProviderFor(w, p.store.providers, d.demand).value.id;
    assert d in defs + [d];
    SettleTaskSettles(p.store, d, id);
    forall e | e in defs + [d]
      ensures TaskSettled(w, SeedTask(w, p, d).store, e)
    {
      if e.name != d.name {
        SettleTaskKeeps(p.store, d, id, e.name, TaskWanted(e, ProviderFor(w, p.store.providers, e.demand).value.id));
      } else {
        assert SameTask(w, e, d);
      }
    }
  }

  lemma CatalogPrefix(w: Wording, defs: seq<TaskDefinition>, k: nat)
    requires CleanCatalog(w, defs) && k <= |defs|
    ensures CleanCatalog(w, defs[..k])
  {
    assert forall d :: d in defs[..k] ==> d in defs;
  }

  /** With a clean catalog and every demand met the loop settles every task. */
  lemma {:induction false} TasksSettle(w: Wording, s: Store, defs: seq<TaskDefinition>)
    requires Valid(s) && CleanCatalog(w, defs)
    requires forall d :: d in defs ==> ProviderFor(w, s.providers, d.demand).Some?
    ensures forall d :: d in defs ==> TaskSettled(w, SeedTasks(w, s, defs).store, d)
  {
    if defs != [] {
      var k := |defs| - 1;
      assert defs == defs[..k] + [defs[k]];
      CatalogPrefix(w, defs, k);
      TasksSettle(w, s, defs[..k]);
      TasksSucceedIff(w, s, defs[..k]);
      TasksLeaveProviders(w, s, defs[..k]);
      TaskStepSettles(w, SeedTasks(w, s, defs[..k]), defs[..k], defs[k]);
    }
  }

  /** The loop runs to its end exactly when every demand is met. */
  lemma {:induction false} TasksSucceedIff(w: Wording, s: Store, defs: seq<TaskDefinition>)
    requires Valid(s)
    ensures SeedTasks(w, s, defs).missing.None? <==>
            forall d :: d in defs ==> ProviderFor(w, s.providers, d.demand).Some?
  {
    if defs != [] {
      var k := |defs| - 1;
      assert defs == defs[..k] + [defs[k]];
      TasksSucceedIff(w, s, defs[..k]);
      TasksLeaveProviders(w, s, defs[..k]);
    }
  }
}
