/**
 When seeding reaches a fixpoint: a run writes nothing exactly on a seeded store, and a run that succeeds
 leaves one behind exactly when the inventory's tags and the catalog are clean.
 */
module SeedingFixpoint {
  import opened Ids
  import opened SeedTable
  import opened Seeding
  import opened SeedingLaws
  import opened Text

  ghost predicate AllExisting(changes: seq<Change>) {
    forall c :: c in changes ==> c.Existing?
  }

  /** The run finds its providers and creates, updates and prunes nothing. */
  ghost predicate Quiet(r: CoreRun) {
    && r.tasks.missing.None? && r.removed == [] && r.magic.1.Existing?
    && AllExisting(r.providers.changes) && AllExisting(r.tasks.changes)
  }

  // ---------- a run writes nothing exactly on a seeded store ----------

  lemma ExistingSnoc(changes: seq<Change>, c: Change)
    ensures AllExisting(changes + [c]) <==> AllExisting(changes) && c.Existing?
  {
    assert c in changes + [c] && forall x :: x in changes ==> x in changes + [c];
  }

  lemma EnsureQuietIff(s: Store, want: Wanted<Provider>)
    ensures EnsureProvider(s, want).1.Existing? <==> ProviderSettled(s, want)
    ensures ProviderSettled(s, want) ==>
              EnsureProvider(s, want).0.providers == s.providers && EnsureProvider(s, want).0.tasks == s.tasks
  {
    SettledKept(s.providers, ProviderHit(want.content), want, StoredProvider(want), s.clock, MintedId(s.minted));
  }

  lemma SettledSame(s: Store, t: Store, want: Wanted<Provider>)
    requires s.providers == t.providers
    ensures ProviderSettled(s, want) == ProviderSettled(t, want)
  {
  }

  lemma {:induction false} ProvidersQuietIff(s: Store, wants: seq<Wanted<Provider>>)
    ensures AllExisting(EnsureProviders(s, wants).changes) <==> AllSettled(s, wants)
    ensures AllSettled(s, wants) ==>
              EnsureProviders(s, wants).store.providers == s.providers &&
              EnsureProviders(s, wants).store.tasks == s.tasks
  {
    hide EnsureProvider, ProviderSettled;
    if wants != [] {
      var k := |wants| - 1;
      var want, before := wants[k], EnsureProviders(s, wants[..k]);
      assert wants == wants[..k] + [want] && want in wants;
      ProvidersQuietIff(s, wants[..k]);
      EnsureQuietIff(before.store, want);
      ExistingSnoc(before.changes, EnsureProvider(before.store, want).1);
      if AllSettled(s, wants[..k]) {
        SettledSame(s, before.store, want);
      }
    }
  }

  lemma {:induction false} TasksQuietIff(w: Wording, s: Store, defs: seq<TaskDefinition>)
    ensures var r := SeedTasks(w, s, defs);
            && (r.missing.None? && AllExisting(r.changes) <==> forall d :: d in defs ==> TaskSettled(w, s, d))
            && (r.missing.None? && AllExisting(r.changes) ==>
                r.store.providers == s.providers && r.store.tasks == s.tasks)
  {
    if defs != [] {
      var k := |defs| - 1;
      var d, before := defs[k], SeedTasks(w, s, defs[..k]);
      assert defs == defs[..k] + [d] && d in defs;
      TasksQuietIff(w, s, defs[..k]);
      var provider := ProviderFor(w, before.store.providers, d.demand);
      if before.missing.None? && provider.Some? {
        var want := TaskWanted(d, provider.value.id);
        ExistingSnoc(before.changes, SettleTask(before.store, d, provider.value.id).1);
        SettledKept(before.store.tasks, TaskHit(d.name), want, StoredTask(want), before.store.clock,
                    MintedId(before.store.minted));
      }
    }
  }

  lemma {:induction false} SelectNone(xs: seq<ProviderNode>, hit: ProviderNode -> bool)
    ensures Select(xs, hit) == [] <==> forall n :: n in xs ==> !hit(n)
  {
    Selected(xs, hit);
    if Select(xs, hit) != [] {
      assert Select(xs, hit)[0] in Select(xs, hit);
    }
  }

  lemma NothingRemovedIff(w: Wording, allowed: set<Key>, s: Store)
    ensures RemovedIds(w, allowed, s.providers) == [] <==> FamilyAllowed(w, allowed, s.providers)
    ensures FamilyAllowed(w, allowed, s.providers) ==> Pruned(w, allowed, s) == s
  {
    if FamilyAllowed(w, allowed, s.providers) {
      SelectAll(s.providers, Stays(w, allowed));
    }
    QueryMembers(s.providers, InFamily(w));
    SelectNone(Query(s.providers, InFamily(w)), Unlisted(allowed));
  }

  /** Every wanted provider and task is settled and nothing is left to prune. */
  ghost predicate SeededStore(w: Wording, inventory: seq<ModelReference>, defs: seq<TaskDefinition>, s: Store) {
    ProvidersReady(w, inventory, s) && forall d :: d in defs ==> TaskSettled(w, s, d)
  }

  lemma TasksSeeSameProviders(w: Wording, defs: seq<TaskDefinition>, s: Store, t: Store)
    requires s.providers == t.providers && s.tasks == t.tasks
    ensures (forall d :: d in defs ==> TaskSettled(w, s, d)) <==> (forall d :: d in defs ==> TaskSettled(w, t, d))
  {
    assert forall d :: TaskSettled(w, s, d) <==> TaskSettled(w, t, d);
  }

  /** A run is quiet exactly on a seeded store, and then leaves the records as they were. */
  lemma RunQuietIff(w: Wording, inventory: seq<ModelReference>, defs: seq<TaskDefinition>, s: Store)
    ensures Quiet(Core(w, inventory, defs, s)) <==> SeededStore(w, inventory, defs, s)
    ensures Quiet(Core(w, inventory, defs, s)) ==>
              var end := Core(w, inventory, defs, s).tasks.store; end.providers == s.providers && end.tasks == s.tasks
  {
    var wants, allowed := InventoryWanted(w, inventory), AllowedKeys(inventory);
    ProvidersQuietIff(s, wants);
    if AllSettled(s, wants) {
      var one := EnsureProviders(s, wants).store;
      NothingRemovedIff(w, allowed, one);
      if FamilyAllowed(w, allowed, one.providers) {
        var magic := MagicWanted(w);
        SettledKept(one.providers, MagicHit(w), magic, StoredProvider(magic), one.clock, MintedId(one.minted));
        if Settled(one.providers, MagicHit(w), magic) {
          var two := SettleProvider(one, MagicHit(w), magic).0;
          TasksQuietIff(w, two, defs);
          TasksSeeSameProviders(w, defs, s, two);
        }
      }
    }
  }

  // ---------- two definitions of one name ----------

  lemma Distinct(s: Store, n: ProviderNode, m: ProviderNode)
    requires Valid(s) && n in s.providers && m in s.providers && n.id == m.id
    ensures n == m
  {
  }

  lemma ProviderServes(w: Wording, ps: seq<ProviderNode>, d: Demand)
    requires ProviderFor(w, ps, d).Some?
    ensures var n := ProviderFor(w, ps, d).value;
            && n in ps
            && (if d.modelId == w.magicModelId then n.content.modelId == Some(w.magicModelId)
                else n.content.modelId == Some(d.modelId) && n.content.effort == d.effort)
  {
    var n := ProviderFor(w, ps, d).value;
    if d.modelId == w.magicModelId {
      NewestMember(ps, MagicLookup(w));
      assert SameKey(MagicWanted(w).content)(n);
    } else {
      NewestMember(ps, DirectLookup(w, d));
      assert Serves(d)(n);
    }
  }

  /** Definitions of one name are settled together only if they want the same task from the same provider. */
  lemma SettledTogether(w: Wording, s: Store, a: TaskDefinition, b: TaskDefinition)
    requires Valid(s) && a.name == b.name && TaskSettled(w, s, a) && TaskSettled(w, s, b)
    ensures SameTask(w, a, b)
  {
    var p, q := ProviderFor(w, s.providers, a.demand).value, ProviderFor(w, s.providers, b.demand).value;
    var n := Newest(s.tasks, TaskHit(a.name)).value;
    assert n.content == TaskWanted(a, p.id).content && n.content == TaskWanted(b, q.id).content;
    ProviderServes(w, s.providers, a.demand);
    ProviderServes(w, s.providers, b.demand);
    Distinct(s, p, q);
  }

  /** With two different tasks of one name, no run from any store is quiet. */
  lemma SharedNameNeverQuiet(w: Wording, inventory: seq<ModelReference>, defs: seq<TaskDefinition>, s: Store,
                             a: TaskDefinition, b: TaskDefinition)
    requires Valid(s) && a in defs && b in defs && a.name == b.name && !SameTask(w, a, b)
    ensures !Quiet(Core(w, inventory, defs, s))
  {
    RunQuietIff(w, inventory, defs, s);
    if Quiet(Core(w, inventory, defs, s)) {
      SettledTogether(w, s, a, b);
    }
  }

  /** The provider phases leave a valid store with the magic provider settled, whatever the inventory. */
  lemma StartHasMagic(w: Wording, inventory: seq<ModelReference>, defs: seq<TaskDefinition>, s: Store)
    requires WordingOk(w) && Valid(s)
    ensures var start := Core(w, inventory, defs, s).magic.0;
            Valid(start) && Settled(start.providers, MagicHit(w), MagicWanted(w))
  {
    var wants, allowed := InventoryWanted(w, inventory), AllowedKeys(inventory);
    var seeded := EnsureProviders(s, wants).store;
    EnsureProvidersValid(s, wants);
    PrunedValid(w, allowed, seeded);
    MagicSettles(w, Pruned(w, allowed, seeded));
    SettleProviderValid(Pruned(w, allowed, seeded), MagicHit(w), MagicWanted(w));
  }

  function PlainTask(w: Wording, description: string): TaskDefinition {
    TaskDefinition("", description, "", "", "", Demand(w.magicModelId, None), [])
  }

  /** Two descriptions under one name, served by the built-in provider: every run succeeds and every run writes. */
  lemma TwoDescriptionsNeverSettle(w: Wording, inventory: seq<ModelReference>, s: Store)
    requires WordingOk(w) && Valid(s)
    ensures var run := Core(w, inventory, [PlainTask(w, "a"), PlainTask(w, "b")], s);
            run.tasks.missing.None? && !AllExisting(run.tasks.changes)
  {
    var a, b := PlainTask(w, "a"), PlainTask(w, "b");
    var defs := [a, b];
    var start := Core(w, inventory, defs, s).magic.0;
    StartHasMagic(w, inventory, defs, s);
    MagicFound(w, start.providers);
    TasksSucceedIff(w, start, defs);
    TasksQuietIff(w, start, defs);
    assert a in defs && b in defs && "a"[0] != "b"[0];
    if forall d :: d in defs ==> TaskSettled(w, start, d) {
      SettledTogether(w, start, a, b);
    }
  }

  // ---------- tags in the store ----------

  /** Every record has the tags that a create or update stores. */
  ghost predicate TagsStored(s: Store) {
    (forall n :: n in s.providers ==> CleanTags(n.tags)) && forall n :: n in s.tasks ==> CleanTags(n.tags)
  }

  lemma SettleProviderTags(s: Store, hit: ProviderNode -> bool, want: Wanted<Provider>)
    requires TagsStored(s)
    ensures TagsStored(SettleProvider(s, hit, want).0)
  {
    NormalizedAreClean(want.tags);
  }

  lemma SettleTaskTags(s: Store, d: TaskDefinition, providerId: string)
    requires TagsStored(s)
    ensures TagsStored(SettleTask(s, d, providerId).0)
  {
    hide CleanTags, TaskHit, Newest;
    NormalizedAreClean(d.tags);
  }

  lemma {:induction false} EnsureProvidersTags(s: Store, wants: seq<Wanted<Provider>>)
    requires TagsStored(s)
    ensures TagsStored(EnsureProviders(s, wants).store)
  {
    if wants != [] {
      var k := |wants| - 1;
      EnsureProvidersTags(s, wants[..k]);
      SettleProviderTags(EnsureProviders(s, wants[..k]).store, ProviderHit(wants[k].content), wants[k]);
    }
  }

  lemma {:induction false} SeedTasksTags(w: Wording, s: Store, defs: seq<TaskDefinition>)
    requires TagsStored(s)
    ensures TagsStored(SeedTasks(w, s, defs).store)
  {
    if defs != [] {
      var k := |defs| - 1;
      SeedTasksTags(w, s, defs[..k]);
      var before := SeedTasks(w, s, defs[..k]);
      var provider := ProviderFor(w, before.store.providers, defs[k].demand);
      if provider.Some? {
        SettleTaskTags(before.store, defs[k], provider.value.id);
      }
    }
  }

  lemma CoreTags(w: Wording, inventory: seq<ModelReference>, defs: seq<TaskDefinition>, s: Store)
    requires TagsStored(s)
    ensures TagsStored(Core(w, inventory, defs, s).magic.0) && TagsStored(Core(w, inventory, defs, s).tasks.store)
  {
    var allowed, seeded := AllowedKeys(inventory), EnsureProviders(s, InventoryWanted(w, inventory)).store;
    EnsureProvidersTags(s, InventoryWanted(w, inventory));
    Selected(seeded.providers, Stays(w, allowed));
    SettleProviderTags(Pruned(w, allowed, seeded), MagicHit(w), MagicWanted(w));
    SeedTasksTags(w, Core(w, inventory, defs, s).magic.0, defs);
  }

  // ---------- single records ----------

  /**
   A task that needs writing is settled by it exactly when its tags are clean; otherwise every run updates it
   again.
   */
  lemma TaskSettlesIff(s: Store, d: TaskDefinition, providerId: string)
    requires Valid(s) && !Settled(s.tasks, TaskHit(d.name), TaskWanted(d, providerId))
    ensures Settled(SettleTask(s, d, providerId).0.tasks, TaskHit(d.name), TaskWanted(d, providerId)) <==>
            CleanTags(d.tags)
  {
    var want := TaskWanted(d, providerId);
    if CleanTags(d.tags) {
      SettleTaskSettles(s, d, providerId);
    } else {
      TagsStoredIff(d.tags);
      MintedFresh(s);
      forall n: TaskNode | UpToDate(n, StoredTask(want))
        ensures TaskHit(d.name)(n)
      {
        TaskHitMeans(d.name, n);
      }
      UnstorableNeverSettles(s.tasks, TaskHit(d.name), want, StoredTask(want), s.clock, MintedId(s.minted));
    }
  }

  lemma ProviderHeld(ps: seq<ProviderNode>, want: Wanted<Provider>)
    requires Settled(ps, ProviderHit(want.content), want)
    ensures exists n :: n in ps && UpToDate(n, want)
  {
    NewestMember(ps, ProviderHit(want.content));
  }

  /** A clean list of an entry's tags makes the whole provider clean: its model id and effort are among them. */
  lemma CleanByTags(w: Wording, r: ModelReference, want: Wanted<Provider>)
    requires want in ReferenceWanted(w, r) && CleanTags(want.tags)
    ensures CleanProvider(want)
  {
    ReferenceWants(w, r, want);
    assert r.modelId in want.tags && (want.content.effort.Some? ==> want.content.effort.value in want.tags);
  }

  /** The step for any provider of any inventory settles it exactly when its tags are clean. */
  lemma ProviderSettlesIff(w: Wording, r: ModelReference, s: Store, want: Wanted<Provider>)
    requires Valid(s) && TagsStored(s) && want in ReferenceWanted(w, r)
    ensures ProviderSettled(EnsureProvider(s, want).0, want) <==> CleanTags(want.tags)
  {
    if CleanTags(want.tags) {
      CleanByTags(w, r, want);
      EnsureSettles(s, want);
    }
    if ProviderSettled(EnsureProvider(s, want).0, want) {
      SettleProviderTags(s, ProviderHit(want.content), want);
      ProviderHeld(EnsureProvider(s, want).0.providers, want);
    }
  }

  /** A text that a search strips to something else. */
  predicate Padded(v: Option<string>) {
    v.Some? && Strip(v.value) != "" && Strip(v.value) != v.value
  }

  /**
   A padded model id or effort hides the provider from its own search: every run creates another one, in any
   store.
   */
  lemma PaddedAlwaysCreated(s: Store, want: Wanted<Provider>)
    requires Padded(want.content.modelId) || Padded(want.content.effort)
    ensures EnsureProvider(s, want).1.Created?
  {
    forall n | n in s.providers
      ensures !ProviderHit(want.content)(n)
    {
      assert ProviderHit(want.content)(n) ==> ProviderSearch(want.content)(n) && SameProvider(want.content)(n);
      assert Is(n.content.modelId, want.content.modelId) && Is(n.content.effort, want.content.effort) ==>
               KeyOf(n.content) != KeyOf(want.content);
    }
    NewestExact(s.providers, ProviderHit(want.content));
  }

  // ---------- the fixpoint ----------

  lemma {:induction false} SettledAreClean(w: Wording, inventory: seq<ModelReference>, s: Store)
    requires TagsStored(s) && AllSettled(s, InventoryWanted(w, inventory))
    ensures CleanInventory(w, inventory)
  {
    forall r, want | r in inventory && want in ReferenceWanted(w, r)
      ensures CleanTags(want.tags)
    {
      WantedFrom(w, inventory, want);
      ProviderHeld(s.providers, want);
    }
    forall r | r in inventory
      ensures CleanReference(w, r)
    {
      EntryWants(w, r);
    }
  }

  lemma EntryWants(w: Wording, r: ModelReference)
    requires forall want :: want in ReferenceWanted(w, r) ==> CleanTags(want.tags)
    ensures CleanReference(w, r)
  {
    ReferenceWants(w, r, WorkspaceWanted(w, r));
    ReferenceWants(w, r, DirectWanted(w, r, None));
    assert DirectWanted(w, r, None).tags == w.directTags + [r.modelId];
    forall e | e in r.efforts
      ensures CleanTags(w.directTags + [r.modelId] + [e])
    {
      ReferenceWants(w, r, DirectWanted(w, r, Some(e)));
    }
  }

  /** What the seeding and pruning phases leave to the magic step. */
  lemma ProvidersPruned(w: Wording, inventory: seq<ModelReference>, s: Store)
    requires WordingOk(w) && CleanInventory(w, inventory) && Valid(s)
    ensures var wants, allowed := InventoryWanted(w, inventory), AllowedKeys(inventory);
            var pruned := Pruned(w, allowed, EnsureProviders(s, wants).store);
            Valid(pruned) && AllSettled(pruned, wants) && FamilyAllowed(w, allowed, pruned.providers)
  {
    var wants, allowed := InventoryWanted(w, inventory), AllowedKeys(inventory);
    var seeded := EnsureProviders(s, wants).store;
    Selected(seeded.providers, Stays(w, allowed));
    assert FamilyAllowed(w, allowed, Pruned(w, allowed, seeded).providers);
    hide *;
    InventoryGood(w, inventory);
    EnsureAllSettles(s, wants);
    EnsureProvidersValid(s, wants);
    PrunedValid(w, allowed, seeded);
    PruneKeeps(w, inventory, seeded);
  }

  lemma StartIsMagic(w: Wording, inventory: seq<ModelReference>, defs: seq<TaskDefinition>, s: Store)
    ensures var pruned := Pruned(w, AllowedKeys(inventory), EnsureProviders(s, InventoryWanted(w, inventory)).store);
            Core(w, inventory, defs, s).magic.0 == MagicEnsured(w, pruned)
            && MagicEnsured(w, pruned) == SettleProvider(pruned, MagicHit(w), MagicWanted(w)).0
  {
  }

  /** The provider phases leave the store ready for the tasks. */
  lemma ProvidersBecomeReady(w: Wording, inventory: seq<ModelReference>, defs: seq<TaskDefinition>, s: Store)
    requires WordingOk(w) && CleanInventory(w, inventory) && MagicApart(w, inventory) && Valid(s)
    ensures var start := Core(w, inventory, defs, s).magic.0; Valid(start) && ProvidersReady(w, inventory, start)
  {
    var wants, allowed := InventoryWanted(w, inventory), AllowedKeys(inventory);
    var pruned := Pruned(w, allowed, EnsureProviders(s, wants).store);
    StartIsMagic(w, inventory, defs, s);
    hide Core, Pruned, EnsureProviders, WordingOk, CleanInventory, MagicApart, Valid, AllSettled, FamilyAllowed,
         Settled, MagicEnsured, MagicHit, MagicWanted, InventoryWanted, AllowedKeys, SettleProvider;
    ProvidersPruned(w, inventory, s);
    InventoryApart(w, inventory);
    MagicSettles(w, pruned);
    MagicKeepsSettled(w, pruned, wants);
    MagicKeepsFamily(w, allowed, pruned);
    SettleProviderValid(pruned, MagicHit(w), MagicWanted(w));
  }

  /** The provider phases settle everything that they want exactly when the inventory's tags are clean. */
  lemma ProvidersSettleIff(w: Wording, inventory: seq<ModelReference>, defs: seq<TaskDefinition>, s: Store)
    requires WordingOk(w) && MagicApart(w, inventory) && Valid(s) && TagsStored(s)
    ensures ProvidersReady(w, inventory, Core(w, inventory, defs, s).magic.0) <==> CleanInventory(w, inventory)
  {
    var start := Core(w, inventory, defs, s).magic.0;
    CoreTags(w, inventory, defs, s);
    if CleanInventory(w, inventory) {
      ProvidersBecomeReady(w, inventory, defs, s);
    }
    if ProvidersReady(w, inventory, start) {
      SettledAreClean(w, inventory, start);
    }
  }

  /** The provider phases leave the store ready to meet demands, whatever keys the inventory uses. */
  lemma ProvidersBecomeServing(w: Wording, inventory: seq<ModelReference>, defs: seq<TaskDefinition>, s: Store)
    requires WordingOk(w) && CleanInventory(w, inventory) && Valid(s)
    ensures var start := Core(w, inventory, defs, s).magic.0; Valid(start) && ReadyToServe(w, inventory, start)
  {
    var wants, allowed := InventoryWanted(w, inventory), AllowedKeys(inventory);
    var pruned := Pruned(w, allowed, EnsureProviders(s, wants).store);
    StartIsMagic(w, inventory, defs, s);
    hide Core, Pruned, EnsureProviders, WordingOk, CleanInventory, Valid, AllSettled, FamilyAllowed, Settled,
         MagicEnsured, MagicHit, MagicWanted, InventoryWanted, AllowedKeys, SettleProvider, ProviderSettled;
    ProvidersPruned(w, inventory, s);
    MagicSettles(w, pruned);
    MagicKeepsFamily(w, allowed, pruned);
    SettleProviderValid(pruned, MagicHit(w), MagicWanted(w));
    forall want | want in wants && want.content.modelId != Some(w.magicModelId)
      ensures ProviderSettled(MagicEnsured(w, pruned), want)
    {
      MagicKeepsOne(w, pruned, wants, want);
    }
  }

  lemma MagicKeepsOne(w: Wording, s: Store, wants: seq<Wanted<Provider>>, want: Wanted<Provider>)
    requires Valid(s) && WordingOk(w) && AllSettled(s, wants)
    requires want in wants && want.content.modelId != Some(w.magicModelId)
    ensures ProviderSettled(MagicEnsured(w, s), want)
  {
    hide Valid, WordingOk, ProviderSettled, MagicEnsured;
    MagicKeepsSettled(w, s, [want]);
    assert want in [want];
  }

  /** A demand for a padded model id or effort is never met, offered or not: the search strips its own term. */
  lemma PaddedNeverServed(w: Wording, ps: seq<ProviderNode>, d: Demand)
    requires d.modelId != w.magicModelId && (Padded(Some(d.modelId)) || Padded(d.effort))
    ensures ProviderFor(w, ps, d).None?
  {
    forall n | n in ps
      ensures !DirectLookup(w, d)(n)
    {
      assert DirectLookup(w, d)(n) ==> DirectSearch(w, d)(n) && Serves(d)(n);
    }
    NewestExact(ps, DirectLookup(w, d));
  }

  /** With a clean inventory a run succeeds exactly when the inventory offers what every task asks for. */
  lemma SeedingSucceedsIff(w: Wording, inventory: seq<ModelReference>, defs: seq<TaskDefinition>, s: Store)
    requires WordingOk(w) && CleanInventory(w, inventory) && Valid(s)
    ensures Core(w, inventory, defs, s).tasks.missing.None? <==>
            forall d :: d in defs ==> Offered(w, inventory, d.demand)
  {
    var start := Core(w, inventory, defs, s).magic.0;
    ProvidersBecomeServing(w, inventory, defs, s);
    TasksSucceedIff(w, start, defs);
    forall d | d in defs
      ensures ProviderFor(w, start.providers, d.demand).Some? <==> Offered(w, inventory, d.demand)
    {
      ProviderFoundIff(w, inventory, start, d.demand);
    }
  }

  /** The store after a run, met again at any later time. */
  function LaterStore(s: Store, clock: int, minted: nat): Store {
    s.(clock := clock, minted := minted)
  }

  lemma SeededLater(w: Wording, inventory: seq<ModelReference>, defs: seq<TaskDefinition>, s: Store, clock: int,
                    minted: nat)
    ensures SeededStore(w, inventory, defs, LaterStore(s, clock, minted)) <==> SeededStore(w, inventory, defs, s)
  {
    var t := LaterStore(s, clock, minted);
    assert AllSettled(t, InventoryWanted(w, inventory)) <==> AllSettled(s, InventoryWanted(w, inventory)) by {
      assert forall want :: ProviderSettled(t, want) <==> ProviderSettled(s, want);
    }
    TasksSeeSameProviders(w, defs, s, t);
  }

  /** A successful run with a clean inventory and catalog seeds the store. */
  lemma RunSeeds(w: Wording, inventory: seq<ModelReference>, defs: seq<TaskDefinition>, s: Store)
    requires WordingOk(w) && CleanInventory(w, inventory) && MagicApart(w, inventory) && CleanCatalog(w, defs) &&
             Valid(s)
    requires Core(w, inventory, defs, s).tasks.missing.None?
    ensures SeededStore(w, inventory, defs, Core(w, inventory, defs, s).tasks.store)
  {
    var start := Core(w, inventory, defs, s).magic.0;
    ProvidersBecomeReady(w, inventory, defs, s);
    TasksSucceedIff(w, start, defs);
    TasksSettle(w, start, defs);
    TasksLeaveProviders(w, start, defs);
  }

  /**
   Seeding settles from any store: after a run that found its providers, a run at any later time finds
   them again, creates, updates and prunes nothing, and leaves only allowed providers in the family.
   */
  lemma SeedingSettles(w: Wording, inventory: seq<ModelReference>, defs: seq<TaskDefinition>, s: Store, clock: int,
                       minted: nat)
    requires WordingOk(w) && CleanInventory(w, inventory) && MagicApart(w, inventory) && CleanCatalog(w, defs) &&
             Valid(s)
    requires Core(w, inventory, defs, s).tasks.missing.None?
    ensures var first := Core(w, inventory, defs, s).tasks.store;
            var again := Core(w, inventory, defs, LaterStore(first, clock, minted));
            && Quiet(again) && again.tasks.store.providers == first.providers && again.tasks.store.tasks == first.tasks
            && forall n :: n in first.providers && InFamily(w)(n) ==> KeyOf(n.content) in AllowedKeys(inventory)
  {
    var first := Core(w, inventory, defs, s).tasks.store;
    RunSeeds(w, inventory, defs, s);
    SeededLater(w, inventory, defs, first, clock, minted);
    RunQuietIff(w, inventory, defs, LaterStore(first, clock, minted));
  }

  lemma SeededAreClean(w: Wording, inventory: seq<ModelReference>, defs: seq<TaskDefinition>, s: Store)
    requires Valid(s) && TagsStored(s) && SeededStore(w, inventory, defs, s)
    ensures CleanInventory(w, inventory) && CleanCatalog(w, defs)
  {
    SettledAreClean(w, inventory, s);
    forall d | d in defs
      ensures CleanTags(d.tags)
    {
      NewestExact(s.tasks, TaskHit(d.name));
    }
    forall a, b | a in defs && b in defs && a.name == b.name
      ensures SameTask(w, a, b)
    {
      SettledTogether(w, s, a, b);
    }
  }

  /**
   The exact condition: after a successful run, a run at any later time is quiet if and only if the tags
   of the inventory and of the catalog are clean and any two definitions of one name want the same task
   from the same provider.
   */
  lemma SeedingSettlesIff(w: Wording, inventory: seq<ModelReference>, defs: seq<TaskDefinition>, s: Store, clock: int,
                          minted: nat)
    requires WordingOk(w) && MagicApart(w, inventory) && Valid(s) && TagsStored(s)
    requires Core(w, inventory, defs, s).tasks.missing.None?
    ensures var first := Core(w, inventory, defs, s).tasks.store;
            Quiet(Core(w, inventory, defs, LaterStore(first, clock, minted))) <==>
            CleanInventory(w, inventory) && CleanCatalog(w, defs)
  {
    var run := Core(w, inventory, defs, s);
    var first := run.tasks.store;
    if CleanInventory(w, inventory) && CleanCatalog(w, defs) {
      SeedingSettles(w, inventory, defs, s, clock, minted);
    }
    if Quiet(Core(w, inventory, defs, LaterStore(first, clock, minted))) {
      RunQuietIff(w, inventory, defs, LaterStore(first, clock, minted));
      SeededLater(w, inventory, defs, first, clock, minted);
      StartHasMagic(w, inventory, defs, s);
      TasksLeaveProviders(w, run.magic.0, defs);
      CoreTags(w, inventory, defs, s);
      SeededAreClean(w, inventory, defs, first);
    }
  }
}
