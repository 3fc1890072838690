/**
 What a successful seeding leaves in the store, field by field: every task of the catalog as it is defined,
 with a provider that serves it, and every provider of the inventory.
 */
module SeedingContents {
  import opened Ids
  import opened SeedTable
  import opened Seeding
  import opened SeedingLaws
  import opened SeedingFixpoint
  import WhereClause

  // ---------- tasks ----------

  /** The provider serves the demand: the built-in one, or one of the direct family with the model and effort. */
  ghost predicate Serving(w: Wording, d: Demand, p: ProviderNode) {
    if d.modelId == w.magicModelId then
      p.content.surface == w.magicSurface && p.content.modelId == Some(w.magicModelId) && p.content.effort == None
    else
      && p.content.modelId == Some(d.modelId) && p.content.effort == d.effort
      && forall t :: t in w.directTags && CleanText(t) ==> t in p.tags
  }

  /** The most recently updated task of the definition's name, with each of its fields. */
  ghost predicate HoldsTask(w: Wording, s: Store, d: TaskDefinition, n: TaskNode) {
    && n in s.tasks && n.content.name == d.name && n.content.description == d.description
    && n.content.input == d.input && n.content.output == d.output && n.content.prompt == d.prompt
    && n.tags == d.tags
    && (forall m :: m in s.tasks && m.content.name == d.name ==> m.stamps.updatedAt <= n.stamps.updatedAt)
    && exists p :: p in s.providers && p.id == n.content.providerId && Serving(w, d.demand, p)
  }

  lemma FoundServes(w: Wording, ps: seq<ProviderNode>, d: Demand)
    requires ProviderFor(w, ps, d).Some?
    ensures ProviderFor(w, ps, d).value in ps && Serving(w, d, ProviderFor(w, ps, d).value)
  {
    var p := ProviderFor(w, ps, d).value;
    if d.modelId == w.magicModelId {
      NewestMember(ps, MagicLookup(w));
      assert MagicSearch(w)(p) && SameKey(MagicWanted(w).content)(p);
    } else {
      NewestMember(ps, DirectLookup(w, d));
      assert DirectSearch(w, d)(p) && Serves(d)(p);
      forall t | t in w.directTags && CleanText(t)
        ensures t in p.tags
      {
        CarriesTerm(p.tags, w.directTags + [d.modelId], t);
      }
    }
  }

  lemma CarriesTerm(tags: seq<string>, terms: seq<string>, t: string)
    requires CarriesAll(tags, terms) && t in terms && CleanText(t)
    ensures t in tags
  {
    CleanTermsKeep(terms, t);
    assert t in multiset(WhereClause.CleanTerms(terms));
  }

  lemma SettledHolds(w: Wording, s: Store, d: TaskDefinition)
    requires TaskSettled(w, s, d)
    ensures HoldsTask(w, s, d, Newest(s.tasks, TaskHit(d.name)).value)
  {
    var n := Newest(s.tasks, TaskHit(d.name)).value;
    NewestExact(s.tasks, TaskHit(d.name));
    FoundServes(w, s.providers, d.demand);
    forall m | m in s.tasks
      ensures TaskHit(d.name)(m) <==> m.content.name == d.name
    {
      TaskHitMeans(d.name, m);
    }
  }

  /** After a run that found its providers, every definition of a clean catalog is held as it is written. */
  lemma TasksHoldDefinitions(w: Wording, inventory: seq<ModelReference>, defs: seq<TaskDefinition>, s: Store,
                             d: TaskDefinition)
    requires WordingOk(w) && CleanCatalog(w, defs) && Valid(s) && d in defs
    requires Core(w, inventory, defs, s).tasks.missing.None?
    ensures exists n :: HoldsTask(w, Core(w, inventory, defs, s).tasks.store, d, n)
  {
    var run := Core(w, inventory, defs, s);
    var start := run.magic.0;
    assert run.tasks == SeedTasks(w, start, defs);
    StartHasMagic(w, inventory, defs, s);
    hide Core, HoldsTask, CleanCatalog, Valid, SeedTasks, ProviderFor;
    TasksSucceedIff(w, start, defs);
    TasksSettle(w, start, defs);
    SettledHolds(w, run.tasks.store, d);
  }

  // ---------- providers ----------

  ghost predicate HoldsProvider(s: Store, name: string, description: string, surface: string, modelId: string,
                                effort: Option<string>, tags: seq<string>) {
    exists n :: n in s.providers && n.content == Provider(name, description, surface, Some(modelId), effort) &&
                n.tags == tags
  }

  /** The direct providers of an entry, one without and one for each effort, and its workspace provider. */
  ghost predicate HoldsEntry(w: Wording, s: Store, r: ModelReference) {
    && HoldsProvider(s, w.directName(r.modelId, None), w.directDescription(r.modelId, None), r.directSurface,
                     r.modelId, None, w.directTags + [r.modelId])
    && (forall e :: e in r.efforts ==>
          HoldsProvider(s, w.directName(r.modelId, Some(e)), w.directDescription(r.modelId, Some(e)), r.directSurface,
                        r.modelId, Some(e), w.directTags + [r.modelId] + [e]))
    && HoldsProvider(s, w.workspaceName(r.modelId), w.workspaceDescription(r.modelId), r.workspaceSurface,
                     r.modelId, None, w.workspaceTags + [r.modelId])
  }

  ghost predicate HoldsMagic(w: Wording, s: Store) {
    HoldsProvider(s, w.magicName, w.magicDescription, w.magicSurface, w.magicModelId, None, w.magicTags)
  }

  lemma SettledEntry(w: Wording, inventory: seq<ModelReference>, s: Store, r: ModelReference)
    requires r in inventory && AllSettled(s, InventoryWanted(w, inventory))
    ensures HoldsEntry(w, s, r)
  {
    forall want | want in ReferenceWanted(w, r)
      ensures exists n :: n in s.providers && UpToDate(n, want)
    {
      WantedFrom(w, inventory, want);
      assert ProviderSettled(s, want);
      ProviderHeld(s.providers, want);
    }
    var direct, workspace := DirectWanted(w, r, None), WorkspaceWanted(w, r);
    ReferenceWants(w, r, direct);
    ReferenceWants(w, r, workspace);
    assert direct.tags == w.directTags + [r.modelId];
    forall e | e in r.efforts
      ensures HoldsProvider(s, w.directName(r.modelId, Some(e)), w.directDescription(r.modelId, Some(e)),
                            r.directSurface, r.modelId, Some(e), w.directTags + [r.modelId] + [e])
    {
      ReferenceWants(w, r, DirectWanted(w, r, Some(e)));
    }
  }

  /**
   After any run with a clean inventory, every entry's providers and the built-in one are held as they are
   written.
   */
  lemma ProvidersHoldInventory(w: Wording, inventory: seq<ModelReference>, defs: seq<TaskDefinition>, s: Store)
    requires WordingOk(w) && CleanInventory(w, inventory) && MagicApart(w, inventory) && Valid(s)
    ensures var end := Core(w, inventory, defs, s).tasks.store;
            HoldsMagic(w, end) && forall r :: r in inventory ==> HoldsEntry(w, end, r)
  {
    var run := Core(w, inventory, defs, s);
    var start := run.magic.0;
    assert run.tasks == SeedTasks(w, start, defs);
    ProvidersBecomeReady(w, inventory, defs, s);
    TasksLeaveProviders(w, start, defs);
    forall r | r in inventory
      ensures HoldsEntry(w, run.tasks.store, r)
    {
      SettledEntry(w, inventory, start, r);
      EntrySame(w, start, run.tasks.store, r);
    }
    NewestMember(start.providers, MagicHit(w));
  }

  lemma EntrySame(w: Wording, s: Store, t: Store, r: ModelReference)
    requires s.providers == t.providers && HoldsEntry(w, s, r)
    ensures HoldsEntry(w, t, r)
  {
  }
}
