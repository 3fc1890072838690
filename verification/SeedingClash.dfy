/**
 An inventory entry under the magic provider's key: the magic step takes the entry's provider over, so the
 next run writes it anew. From a store without providers under that key this completes the exact condition
 for seeding to settle.
 */
module SeedingClash {
  import opened Ids
  import opened SeedTable
  import opened Seeding
  import opened SeedingLaws
  import opened SeedingFixpoint

  // ---------- the magic step takes over ----------

  ghost predicate NoneUnderMagicKey(w: Wording, s: Store) {
    forall n :: n in s.providers ==> KeyOf(n.content) != KeyOf(MagicWanted(w).content)
  }

  /** Every node under the key is some wanted provider, and no two of them share a name. */
  ghost predicate KeyHeld(ps: seq<ProviderNode>, wants: seq<Wanted<Provider>>, key: Key) {
    && (forall n :: n in ps && KeyOf(n.content) == key ==> exists v :: v in wants && n.content == v.content)
    && forall n, m ::
         n in ps && m in ps && KeyOf(n.content) == key && KeyOf(m.content) == key &&
         n.content.name == m.content.name ==>
           n == m
  }

  /** A clean provider is found by its name and key. */
  lemma CleanHit(want: Wanted<Provider>, n: ProviderNode)
    requires CleanProvider(want) && n.content.name == want.content.name && KeyOf(n.content) == KeyOf(want.content)
    ensures ProviderHit(want.content)(n)
  {
    var m := n.(content := want.content, tags := want.tags);
    ProviderFound(want, m);
    assert ProviderSearch(want.content)(m) && SameProvider(want.content)(m);
    assert ProviderSearch(want.content)(n) && SameProvider(want.content)(n);
  }

  lemma KeyHeldAppend(ps: seq<ProviderNode>, wants: seq<Wanted<Provider>>, key: Key, x: ProviderNode)
    requires KeyHeld(ps, wants, key) && exists v :: v in wants && x.content == v.content
    requires forall n :: n in ps && n.content.name == x.content.name ==> KeyOf(n.content) != KeyOf(x.content)
    ensures KeyHeld(ps + [x], wants, key)
  {
  }

  lemma KeyHeldReplace(ps: seq<ProviderNode>, wants: seq<Wanted<Provider>>, key: Key, found: ProviderNode,
                       x: ProviderNode, clock: int)
    requires Sound(ps, clock) && KeyHeld(ps, wants, key) && found in ps &&
             exists v :: v in wants && x.content == v.content
    requires x.content.name == found.content.name && KeyOf(x.content) == KeyOf(found.content)
    ensures KeyHeld(Replace(ps, found.id, x), wants, key)
  {
    var k :| 0 <= k < |ps| && ps[k] == found;
    ReplaceAt(ps, k, x);
    forall n | n in ps[k := x]
      ensures n == x || (n in ps && n != found)
    {
      var i :| 0 <= i < |ps| && ps[k := x][i] == n;
    }
  }

  lemma KeyHeldStep(s: Store, wants: seq<Wanted<Provider>>, want: Wanted<Provider>, key: Key)
    requires Valid(s) && CleanProvider(want) && want in wants && KeyHeld(s.providers, wants, key)
    ensures KeyHeld(EnsureProvider(s, want).0.providers, wants, key)
  {
    var ps, found := s.providers, Newest(s.providers, ProviderHit(want.content));
    ProviderStored(want);
    NewestExact(ps, ProviderHit(want.content));
    hide KeyHeld, CleanProvider, Newest, ProviderHit;
    if found.None? {
      forall n | n in ps && n.content.name == want.content.name
        ensures KeyOf(n.content) != KeyOf(want.content)
      {
        if KeyOf(n.content) == KeyOf(want.content) {
          CleanHit(want, n);
        }
      }
      KeyHeldAppend(ps, wants, key, Born(want, s.clock, MintedId(s.minted)));
    } else if !UpToDate(found.value, want) {
      ProviderHitMeans(want.content, found.value);
      KeyHeldReplace(ps, wants, key, found.value, Renewed(found.value, want, s.clock), s.clock);
    }
  }

  lemma {:induction false} KeyHeldAll(s: Store, wants: seq<Wanted<Provider>>, k: nat, key: Key)
    requires Valid(s) && GoodWants(wants) && k <= |wants| && KeyHeld(s.providers, wants, key)
    ensures KeyHeld(EnsureProviders(s, wants[..k]).store.providers, wants, key)
  {
    hide KeyHeld, EnsureProvider, CleanProvider;
    if k > 0 {
      KeyHeldAll(s, wants, k - 1, key);
      EnsureProvidersValid(s, wants[..k - 1]);
      EnsureStep(s, wants, k - 1);
      KeyHeldStep(EnsureProviders(s, wants[..k - 1]).store, wants, wants[k - 1], key);
    }
  }

  /** What the magic step finds is one of the wanted providers under its key, not yet the magic one. */
  lemma MagicFindsWanted(w: Wording, s: Store, wants: seq<Wanted<Provider>>, v: Wanted<Provider>)
    returns (a: Wanted<Provider>)
    requires WordingOk(w) && KeyHeld(s.providers, wants, KeyOf(MagicWanted(w).content))
    requires forall a :: a in wants ==> a.content.name != w.magicName
    requires v in wants && KeyOf(v.content) == KeyOf(MagicWanted(w).content) && ProviderSettled(s, v)
    ensures a in wants && KeyOf(a.content) == KeyOf(MagicWanted(w).content)
    ensures var found := Newest(s.providers, MagicHit(w));
            found.Some? && found.value in s.providers && found.value.content == a.content
  {
    ProviderHeld(s.providers, v);
    var held :| held in s.providers && UpToDate(held, v);
    IsItself(Some(w.magicModelId));
    assert ModelSearch(w.magicModelId)(held) && SameKey(MagicWanted(w).content)(held);
    NewestExact(s.providers, MagicHit(w));
    var found := Newest(s.providers, MagicHit(w)).value;
    MagicHitMeans(w, found);
    a :| a in wants && found.content == a.content;
  }

  /** Rewriting the one node with a name and key leaves none with its content. */
  lemma RewrittenGone(ps: seq<ProviderNode>, wants: seq<Wanted<Provider>>, found: ProviderNode, x: ProviderNode,
                      key: Key, clock: int)
    requires Sound(ps, clock) && KeyHeld(ps, wants, key) && found in ps && KeyOf(found.content) == key
    requires x.content.name != found.content.name
    ensures forall n :: n in Replace(ps, found.id, x) ==> n.content != found.content
  {
    var k :| 0 <= k < |ps| && ps[k] == found;
    ReplaceAt(ps, k, x);
    forall n | n in ps[k := x]
      ensures n.content != found.content
    {
      var i :| 0 <= i < |ps| && ps[k := x][i] == n;
      if i != k {
        assert n in ps && n.id != found.id;
      }
    }
  }

  /** The magic step takes over one of the wanted providers under its key. */
  lemma MagicTakesOver(w: Wording, s: Store, wants: seq<Wanted<Provider>>, v: Wanted<Provider>)
    returns (a: Wanted<Provider>)
    requires WordingOk(w) && Valid(s) && KeyHeld(s.providers, wants, KeyOf(MagicWanted(w).content))
    requires forall a :: a in wants ==> a.content.name != w.magicName
    requires v in wants && KeyOf(v.content) == KeyOf(MagicWanted(w).content) && ProviderSettled(s, v)
    ensures a in wants && forall n :: n in MagicEnsured(w, s).providers ==> n.content != a.content
  {
    a := MagicFindsWanted(w, s, wants, v);
    MagicStored(w);
    var found := Newest(s.providers, MagicHit(w)).value;
    hide KeyHeld, ProviderSettled, WordingOk, Newest, Replace;
    RewrittenGone(s.providers, wants, found, Renewed(found, MagicWanted(w), s.clock), KeyOf(MagicWanted(w).content),
                  s.clock);
  }

  lemma WantedNames(w: Wording, inventory: seq<ModelReference>)
    requires WordingOk(w)
    ensures forall a :: a in InventoryWanted(w, inventory) ==> a.content.name != w.magicName
  {
    forall a | a in InventoryWanted(w, inventory)
      ensures a.content.name != w.magicName
    {
      WantedFrom(w, inventory, a);
      var r :| r in inventory && a in ReferenceWanted(w, r);
      ReferenceWants(w, r, a);
    }
  }

  /**
   From a store without providers under the magic key, the provider phases lose a wanted provider to the magic
   one.
   */
  lemma WantedIsTakenOver(w: Wording, inventory: seq<ModelReference>, s: Store, v: Wanted<Provider>)
    returns (a: Wanted<Provider>)
    requires WordingOk(w) && CleanInventory(w, inventory) && Valid(s)
    requires v in InventoryWanted(w, inventory) && KeyOf(v.content) == KeyOf(MagicWanted(w).content)
    requires NoneUnderMagicKey(w, s)
    ensures a in InventoryWanted(w, inventory)
    ensures var pruned := Pruned(w, AllowedKeys(inventory), EnsureProviders(s, InventoryWanted(w, inventory)).store);
            forall n :: n in MagicEnsured(w, pruned).providers ==> n.content != a.content
  {
    hide KeyHeld, ProviderSettled, MagicEnsured, Pruned;
    var pruned := PrunedClash(w, inventory, s);
    WantedNames(w, inventory);
    a := MagicTakesOver(w, pruned, InventoryWanted(w, inventory), v);
  }

  lemma KeyHeldPruned(w: Wording, allowed: set<Key>, s: Store, wants: seq<Wanted<Provider>>, key: Key)
    requires KeyHeld(s.providers, wants, key)
    ensures KeyHeld(Pruned(w, allowed, s).providers, wants, key)
  {
    Selected(s.providers, Stays(w, allowed));
  }

  /** The store after pruning, when the run started without providers under the magic key. */
  lemma PrunedClash(w: Wording, inventory: seq<ModelReference>, s: Store) returns (pruned: Store)
    requires WordingOk(w) && CleanInventory(w, inventory) && Valid(s)
    requires NoneUnderMagicKey(w, s)
    ensures pruned == Pruned(w, AllowedKeys(inventory), EnsureProviders(s, InventoryWanted(w, inventory)).store)
    ensures Valid(pruned) && AllSettled(pruned, InventoryWanted(w, inventory))
    ensures KeyHeld(pruned.providers, InventoryWanted(w, inventory), KeyOf(MagicWanted(w).content))
  {
    var wants, allowed, key := InventoryWanted(w, inventory), AllowedKeys(inventory), KeyOf(MagicWanted(w).content);
    var seeded := EnsureProviders(s, wants).store;
    assert KeyHeld(s.providers, wants, key);
    pruned := Pruned(w, allowed, seeded);
    hide *;
    InventoryGood(w, inventory);
    EnsureProvidersValid(s, wants);
    EnsureAllSettles(s, wants);
    KeyHeldAll(s, wants, |wants|, key);
    assert wants[..|wants|] == wants;
    PrunedValid(w, allowed, seeded);
    PruneKeeps(w, inventory, seeded);
    KeyHeldPruned(w, allowed, seeded, wants, key);
  }

  // ---------- the exact condition, from a store without providers under the magic key ----------

  /** The wanted provider that clashes. */
  lemma ClashingWant(w: Wording, inventory: seq<ModelReference>) returns (v: Wanted<Provider>)
    requires !MagicApart(w, inventory)
    ensures v in InventoryWanted(w, inventory) && KeyOf(v.content) == KeyOf(MagicWanted(w).content)
  {
    var r :| r in inventory && r.modelId == w.magicModelId &&
             (r.directSurface == w.magicSurface || r.workspaceSurface == w.magicSurface);
    v := if r.directSurface == w.magicSurface then DirectWanted(w, r, None) else WorkspaceWanted(w, r);
    ReferenceWants(w, r, v);
    WantedFrom(w, inventory, v);
  }

  /** An entry with the magic key loses a provider to the magic one in every such run. */
  lemma ClashNeverReady(w: Wording, inventory: seq<ModelReference>, defs: seq<TaskDefinition>, s: Store)
    requires WordingOk(w) && CleanInventory(w, inventory) && Valid(s) && NoneUnderMagicKey(w, s)
    requires !MagicApart(w, inventory)
    ensures !ProvidersReady(w, inventory, Core(w, inventory, defs, s).magic.0)
  {
    var start := Core(w, inventory, defs, s).magic.0;
    StartIsMagic(w, inventory, defs, s);
    var v := ClashingWant(w, inventory);
    hide WordingOk, CleanInventory, Valid, MagicApart, Core, MagicEnsured, Pruned, EnsureProviders, InventoryWanted;
    var a := WantedIsTakenOver(w, inventory, s, v);
    if ProvidersReady(w, inventory, start) {
      assert ProviderSettled(start, a);
      ProviderHeld(start.providers, a);
    }
  }

  /** The provider phases settle all that they want exactly if its tags are clean and its keys are not the magic one. */
  lemma ProvidersSettleFreshIff(w: Wording, inventory: seq<ModelReference>, defs: seq<TaskDefinition>, s: Store)
    requires WordingOk(w) && Valid(s) && TagsStored(s) && NoneUnderMagicKey(w, s)
    ensures ProvidersReady(w, inventory, Core(w, inventory, defs, s).magic.0) <==>
            CleanInventory(w, inventory) && MagicApart(w, inventory)
  {
    var start := Core(w, inventory, defs, s).magic.0;
    CoreTags(w, inventory, defs, s);
    assert ProvidersReady(w, inventory, start) ==> AllSettled(start, InventoryWanted(w, inventory));
    hide *;
    if MagicApart(w, inventory) {
      ProvidersSettleIff(w, inventory, defs, s);
    } else if ProvidersReady(w, inventory, start) {
      SettledAreClean(w, inventory, start);
      ClashNeverReady(w, inventory, defs, s);
    }
  }

  /** A later run is quiet only if the first one left its providers ready. */
  lemma QuietWasReady(w: Wording, inventory: seq<ModelReference>, defs: seq<TaskDefinition>, s: Store,
                      clock: int, minted: nat)
    requires WordingOk(w) && Valid(s)
    requires Quiet(Core(w, inventory, defs, LaterStore(Core(w, inventory, defs, s).tasks.store, clock, minted)))
    ensures ProvidersReady(w, inventory, Core(w, inventory, defs, s).magic.0)
  {
    var run := Core(w, inventory, defs, s);
    var first, start := run.tasks.store, run.magic.0;
    assert first == SeedTasks(w, start, defs).store;
    assert SeededStore(w, inventory, defs, first) ==> ProvidersReady(w, inventory, first);
    assert first.providers == start.providers ==>
             (ProvidersReady(w, inventory, first) <==> ProvidersReady(w, inventory, start));
    hide *;
    StartHasMagic(w, inventory, defs, s);
    TasksLeaveProviders(w, start, defs);
    RunQuietIff(w, inventory, defs, LaterStore(first, clock, minted));
    SeededLater(w, inventory, defs, first, clock, minted);
  }

  /**
   The exact condition for any inventory and catalog: after a successful run on a store without providers
   under the magic key, a run at any later time is quiet if and only if the tags are clean, definitions of
   one name want the same task from the same provider, and no entry has the magic key.
   */
  lemma SeedingSettlesFreshIff(w: Wording, inventory: seq<ModelReference>, defs: seq<TaskDefinition>, s: Store,
                               clock: int, minted: nat)
    requires WordingOk(w) && Valid(s) && TagsStored(s) && NoneUnderMagicKey(w, s)
    requires Core(w, inventory, defs, s).tasks.missing.None?
    ensures Quiet(Core(w, inventory, defs, LaterStore(Core(w, inventory, defs, s).tasks.store, clock, minted))) <==>
            CleanInventory(w, inventory) && CleanCatalog(w, defs) && MagicApart(w, inventory)
  {
    hide *;
    if MagicApart(w, inventory) {
      SeedingSettlesIff(w, inventory, defs, s, clock, minted);
    } else if Quiet(Core(w, inventory, defs, LaterStore(Core(w, inventory, defs, s).tasks.store, clock, minted))) {
      QuietWasReady(w, inventory, defs, s, clock, minted);
      ProvidersSettleFreshIff(w, inventory, defs, s);
    }
  }

  /** In particular for the first seeding of an empty database, where no store condition is left. */
  lemma FirstSeedingSettlesIff(w: Wording, inventory: seq<ModelReference>, defs: seq<TaskDefinition>,
                               now: int, clock: int, minted: nat)
    requires WordingOk(w)
    ensures var first := Core(w, inventory, defs, Store([], [], now, 0)).tasks;
            first.missing.None? ==>
              (Quiet(Core(w, inventory, defs, LaterStore(first.store, clock, minted))) <==>
               CleanInventory(w, inventory) && CleanCatalog(w, defs) && MagicApart(w, inventory))
  {
    var empty := Store([], [], now, 0);
    assert Valid(empty) && TagsStored(empty) && NoneUnderMagicKey(w, empty);
    if Core(w, inventory, defs, empty).tasks.missing.None? {
      SeedingSettlesFreshIff(w, inventory, defs, empty, clock, minted);
    }
  }
}
