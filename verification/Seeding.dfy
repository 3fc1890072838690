/**
 Seeding of providers and core tasks (agent-host reframe_agent_host/memory_seed/opencode_go.py and
 core_task_seed.py): the inventory's providers are created or brought up to date, providers that the
 inventory no longer lists are pruned, and the task catalog is written against the providers found.
 */
module Seeding {
  import opened Ids
  import opened Nodes
  import opened SeedTable
  import opened Text
  import WhereClause

  datatype Provider = Provider(name: string, description: string, surface: string,
                               modelId: Option<string>, effort: Option<string>)
  datatype Task = Task(name: string, description: string, input: string, output: string, prompt: string,
                       providerId: string)

  type ProviderNode = MemoryNode<Provider>
  type TaskNode = MemoryNode<Task>

  datatype Key = Key(surface: string, modelId: Option<string>, effort: Option<string>)

  function KeyOf(p: Provider): Key {
    Key(p.surface, p.modelId, p.effort)
  }

  datatype ModelReference = ModelReference(modelId: string, directSurface: string, workspaceSurface: string,
                                           efforts: seq<string>)

  /** The model and effort that a task asks for. */
  datatype Demand = Demand(modelId: string, effort: Option<string>)

  datatype TaskDefinition = TaskDefinition(name: string, description: string, input: string, output: string,
                                           prompt: string, demand: Demand, tags: seq<string>)

  /** The fixed texts of seeding; `SeedWording.SOURCE` holds those of the source. */
  datatype Wording = Wording(
    family: string, directTags: seq<string>, workspaceTags: seq<string>,
    directName: (string, Option<string>) -> string, directDescription: (string, Option<string>) -> string,
    workspaceName: string -> string, workspaceDescription: string -> string,
    magicName: string, magicDescription: string, magicSurface: string, magicModelId: string, magicTags: seq<string>)

  datatype Store = Store(providers: seq<ProviderNode>, tasks: seq<TaskNode>, clock: int, minted: nat)

  /** A stand-in for the ids that the database mints: only that no id is minted twice matters. */
  function MintedId(n: nat): string {
    seq(n + 1, i => 'x')
  }

  // ---------- what is wanted ----------

  function OptionTags(effort: Option<string>): seq<string> {
    if effort.None? then [] else [effort.value]
  }

  function DirectWanted(w: Wording, r: ModelReference, effort: Option<string>): Wanted<Provider> {
    Wanted(Provider(w.directName(r.modelId, effort), w.directDescription(r.modelId, effort), r.directSurface,
                    Some(r.modelId), effort),
           w.directTags + [r.modelId] + OptionTags(effort))
  }

  function WorkspaceWanted(w: Wording, r: ModelReference): Wanted<Provider> {
    Wanted(Provider(w.workspaceName(r.modelId), w.workspaceDescription(r.modelId), r.workspaceSurface, Some(r.modelId),
                    None),
           w.workspaceTags + [r.modelId])
  }

  function MagicWanted(w: Wording): Wanted<Provider> {
    Wanted(Provider(w.magicName, w.magicDescription, w.magicSurface, Some(w.magicModelId), None), w.magicTags)
  }

  function TaskWanted(d: TaskDefinition, providerId: string): Wanted<Task> {
    Wanted(Task(d.name, d.description, d.input, d.output, d.prompt, providerId), d.tags)
  }

  function NonEmpty(s: Option<string>): Option<string> {
    if s == Some("") then None else s
  }

  /** What a provider reads back as once written: empty optional texts vanish and the tags are normalized. */
  function StoredProvider(want: Wanted<Provider>): Wanted<Provider> {
    Wanted(want.content.(modelId := NonEmpty(want.content.modelId), effort := NonEmpty(want.content.effort)),
           WhereClause.NormalizedTags(want.tags))
  }

  function StoredTask(want: Wanted<Task>): Wanted<Task> {
    want.(tags := WhereClause.NormalizedTags(want.tags))
  }

  // ---------- searches, as the WHERE clauses that they compile to select ----------

  /** A containment term on one field; a blank term restricts nothing. */
  predicate Mentions(text: string, term: string) {
    Strip(term) == "" || Text.Contains(Lower(text), Lower(Strip(term)))
  }

  /** An equality term on one optional field. */
  predicate Is(value: Option<string>, term: Option<string>) {
    term.None? || Strip(term.value) == "" || value == Some(Strip(term.value))
  }

  /** An all-of tag search. */
  predicate CarriesAll(tags: seq<string>, terms: seq<string>) {
    multiset(WhereClause.CleanTerms(terms)) <= multiset(tags)
  }

  function ProviderSearch(p: Provider): ProviderNode -> bool {
    (n: ProviderNode) =>
      Mentions(n.content.name, p.name) && Mentions(n.content.surface, p.surface) &&
      Is(n.content.modelId, p.modelId) && Is(n.content.effort, p.effort)
  }

  function SameProvider(p: Provider): ProviderNode -> bool {
    (n: ProviderNode) => n.content.name == p.name && KeyOf(n.content) == KeyOf(p)
  }

  function ProviderHit(p: Provider): ProviderNode -> bool {
    (n: ProviderNode) => ProviderSearch(p)(n) && SameProvider(p)(n)
  }

  function ModelSearch(modelId: string): ProviderNode -> bool {
    (n: ProviderNode) => Is(n.content.modelId, Some(modelId))
  }

  function SameKey(p: Provider): ProviderNode -> bool {
    (n: ProviderNode) => KeyOf(n.content) == KeyOf(p)
  }

  /** The match of `_ensure_magic_providers`. */
  function MagicHit(w: Wording): ProviderNode -> bool {
    (n: ProviderNode) => ModelSearch(w.magicModelId)(n) && SameKey(MagicWanted(w).content)(n)
  }

  function MagicSearch(w: Wording): ProviderNode -> bool {
    (n: ProviderNode) => CarriesAll(n.tags, w.magicTags) && ModelSearch(w.magicModelId)(n)
  }

  /** The match of `_magic_do_nothing_provider`. */
  function MagicLookup(w: Wording): ProviderNode -> bool {
    (n: ProviderNode) => MagicSearch(w)(n) && SameKey(MagicWanted(w).content)(n)
  }

  function DirectSearch(w: Wording, d: Demand): ProviderNode -> bool {
    (n: ProviderNode) =>
      CarriesAll(n.tags, w.directTags + [d.modelId]) && Is(n.content.modelId, Some(d.modelId)) &&
      Is(n.content.effort, d.effort)
  }

  function Serves(d: Demand): ProviderNode -> bool {
    (n: ProviderNode) => n.content.modelId == Some(d.modelId) && n.content.effort == d.effort
  }

  /** The match of `_provider_for_definition`. */
  function DirectLookup(w: Wording, d: Demand): ProviderNode -> bool {
    (n: ProviderNode) => DirectSearch(w, d)(n) && Serves(d)(n)
  }

  function TaskSearch(name: string): TaskNode -> bool {
    (n: TaskNode) => Mentions(n.content.name, name)
  }

  function Named(name: string): TaskNode -> bool {
    (n: TaskNode) => n.content.name == name
  }

  /** The match of `_find_task`. */
  function TaskHit(name: string): TaskNode -> bool {
    (n: TaskNode) => TaskSearch(name)(n) && Named(name)(n)
  }

  // ---------- seeding providers ----------

  datatype Seeded = Seeded(store: Store, changes: seq<Change>)

  function SettleProvider(s: Store, hit: ProviderNode -> bool, want: Wanted<Provider>): (Store, Change) {
    var r := Settle(s.providers, Newest(s.providers, hit), want, StoredProvider(want), s.clock, MintedId(s.minted));
    (s.(providers := r.nodes, clock := s.clock + 1, minted := s.minted + 1), r.change)
  }

  /** `_ensure_provider`. */
  function EnsureProvider(s: Store, want: Wanted<Provider>): (Store, Change) {
    SettleProvider(s, ProviderHit(want.content), want)
  }

  function EnsureProviders(s: Store, wants: seq<Wanted<Provider>>): (r: Seeded)
    ensures |r.changes| == |wants|
  {
    if wants == [] then Seeded(s, [])
    else
      var k := |wants| - 1;
      var before := EnsureProviders(s, wants[..k]);
      var step := EnsureProvider(before.store, wants[k]);
      Seeded(step.0, before.changes + [step.1])
  }

  function EffortsWanted(w: Wording, r: ModelReference, efforts: seq<string>): seq<Wanted<Provider>> {
    seq(|efforts|, i requires 0 <= i < |efforts| => DirectWanted(w, r, Some(efforts[i])))
  }

  function ReferenceWanted(w: Wording, r: ModelReference): seq<Wanted<Provider>> {
    [DirectWanted(w, r, None)] + EffortsWanted(w, r, r.efforts) + [WorkspaceWanted(w, r)]
  }

  /** Everything that the inventory asks for, in order. */
  function InventoryWanted(w: Wording, inventory: seq<ModelReference>): seq<Wanted<Provider>> {
    if inventory == [] then []
    else
      var k := |inventory| - 1;
      InventoryWanted(w, inventory[..k]) + ReferenceWanted(w, inventory[k])
  }

  function EffortKeys(r: ModelReference): set<Key> {
    set e | e in r.efforts :: Key(r.directSurface, Some(r.modelId), Some(e))
  }

  /** `_allowed_provider_keys`. */
  function AllowedKeys(inventory: seq<ModelReference>): set<Key> {
    if inventory == [] then {}
    else
      var r := inventory[|inventory| - 1];
      AllowedKeys(inventory[..|inventory| - 1]) +
      {Key(r.directSurface, Some(r.modelId), None)} + EffortKeys(r) + {Key(r.workspaceSurface, Some(r.modelId), None)}
  }

  function InFamily(w: Wording): ProviderNode -> bool {
    (n: ProviderNode) => CarriesAll(n.tags, [w.family])
  }

  function Unlisted(allowed: set<Key>): ProviderNode -> bool {
    (n: ProviderNode) => KeyOf(n.content) !in allowed
  }

  function Stays(w: Wording, allowed: set<Key>): ProviderNode -> bool {
    (n: ProviderNode) => InFamily(w)(n) ==> KeyOf(n.content) in allowed
  }

  function IdsOf<T>(xs: seq<MemoryNode<T>>): seq<string> {
    seq(|xs|, i requires 0 <= i < |xs| => xs[i].id)
  }

  /** The ids that `_prune_removed_providers` deletes, in query order. */
  function RemovedIds(w: Wording, allowed: set<Key>, ps: seq<ProviderNode>): seq<string> {
    IdsOf(Select(Query(ps, InFamily(w)), Unlisted(allowed)))
  }

  function Pruned(w: Wording, allowed: set<Key>, s: Store): Store {
    s.(providers := Select(s.providers, Stays(w, allowed)))
  }

  // ---------- seeding tasks ----------

  /** `_provider_for_definition`; nothing found is the source's ValueError. */
  function ProviderFor(w: Wording, ps: seq<ProviderNode>, d: Demand): Option<ProviderNode> {
    if d.modelId == w.magicModelId then Newest(ps, MagicLookup(w)) else Newest(ps, DirectLookup(w, d))
  }

  datatype Progress = Progress(store: Store, changes: seq<Change>, missing: Option<Demand>)

  function SettleTask(s: Store, d: TaskDefinition, providerId: string): (Store, Change) {
    var want := TaskWanted(d, providerId);
    var r := Settle(s.tasks, Newest(s.tasks, TaskHit(d.name)), want, StoredTask(want), s.clock, MintedId(s.minted));
    (s.(tasks := r.nodes, clock := s.clock + 1, minted := s.minted + 1), r.change)
  }

  function SeedTask(w: Wording, p: Progress, d: TaskDefinition): Progress {
    if p.missing.Some? then p
    else
      var provider := ProviderFor(w, p.store.providers, d.demand);
      if provider.None? then p.(missing := Some(d.demand))
      else
        var step := SettleTask(p.store, d, provider.value.id);
        Progress(step.0, p.changes + [step.1], None)
  }

  /** The task loop, without its cache of providers. */
  function SeedTasks(w: Wording, s: Store, defs: seq<TaskDefinition>): Progress {
    if defs == [] then Progress(s, [], None) else SeedTask(w, SeedTasks(w, s, defs[..|defs| - 1]), defs[|defs| - 1])
  }

  // ---------- the whole run ----------

  datatype CoreRun = CoreRun(providers: Seeded, removed: seq<string>, magic: (Store, Change), tasks: Progress)

  /** `ensure_core_tasks`. */
  function Core(w: Wording, inventory: seq<ModelReference>, defs: seq<TaskDefinition>, s: Store): CoreRun {
    var providers := EnsureProviders(s, InventoryWanted(w, inventory));
    var allowed := AllowedKeys(inventory);
    var pruned := Pruned(w, allowed, providers.store);
    var magic := SettleProvider(pruned, MagicHit(w), MagicWanted(w));
    CoreRun(providers, RemovedIds(w, allowed, providers.store.providers), magic, SeedTasks(w, magic.0, defs))
  }

  // ---------- the store and the loops of the source ----------

  ghost predicate Valid(s: Store) {
    && Sound(s.providers, s.clock) && Sound(s.tasks, s.clock)
    && (forall n :: n in s.providers ==> |n.id| <= s.minted)
    && forall n :: n in s.tasks ==> |n.id| <= s.minted
  }

  lemma MintedFresh(s: Store)
    requires Valid(s)
    ensures FreshId(s.providers, MintedId(s.minted)) && FreshId(s.tasks, MintedId(s.minted))
  {
  }

  lemma SettleProviderValid(s: Store, hit: ProviderNode -> bool, want: Wanted<Provider>)
    requires Valid(s)
    ensures Valid(SettleProvider(s, hit, want).0)
  {
    MintedFresh(s);
    SettleSound(s.providers, hit, want, StoredProvider(want), s.clock, MintedId(s.minted));
  }

  lemma SettleTaskValid(s: Store, d: TaskDefinition, providerId: string)
    requires Valid(s)
    ensures Valid(SettleTask(s, d, providerId).0)
  {
    var want := TaskWanted(d, providerId);
    MintedFresh(s);
    SettleSound(s.tasks, TaskHit(d.name), want, StoredTask(want), s.clock, MintedId(s.minted));
  }

  class MemoryDatabase {
    var providers: seq<ProviderNode>
    var tasks: seq<TaskNode>
    var clock: int
    var minted: nat

    ghost function Contents(): Store
      reads this
    {
      Store(providers, tasks, clock, minted)
    }

    constructor (s: Store)
      ensures Contents() == s
    {
      providers, tasks, clock, minted := s.providers, s.tasks, s.clock, s.minted;
    }

    /** Create, update or keep a provider that has been looked up. */
    method WriteProvider(ghost hit: ProviderNode -> bool, found: Option<ProviderNode>, want: Wanted<Provider>)
      returns (change: Change)
      requires found == Newest(providers, hit)
      modifies this
      ensures (Contents(), change) == SettleProvider(old(Contents()), hit, want)
    {
      hide Newest;
      var stored := StoredProvider(want);
      if found.None? {
        var node := Born(stored, clock, MintedId(minted));
        providers := providers + [node];
        change := Created(node.id);
      } else if !UpToDate(found.value, want) {
        providers := Replace(providers, found.value.id, Renewed(found.value, stored, clock));
        change := Updated(found.value.id);
      } else {
        change := Existing(found.value.id);
      }
      clock, minted := clock + 1, minted + 1;
    }

    method WriteTask(found: Option<TaskNode>, d: TaskDefinition, providerId: string) returns (change: Change)
      requires found == Newest(tasks, TaskHit(d.name))
      modifies this
      ensures (Contents(), change) == SettleTask(old(Contents()), d, providerId)
    {
      hide Newest;
      var want := TaskWanted(d, providerId);
      var stored := StoredTask(want);
      if found.None? {
        var node := Born(stored, clock, MintedId(minted));
        tasks := tasks + [node];
        change := Created(node.id);
      } else if !UpToDate(found.value, want) {
        tasks := Replace(tasks, found.value.id, Renewed(found.value, stored, clock));
        change := Updated(found.value.id);
      } else {
        change := Existing(found.value.id);
      }
      clock, minted := clock + 1, minted + 1;
    }

    method EnsureOne(want: Wanted<Provider>) returns (change: Change)
      modifies this
      ensures (Contents(), change) == EnsureProvider(old(Contents()), want)
    {
      var found := FirstExact(Query(providers, ProviderSearch(want.content)), SameProvider(want.content));
      ProviderLookedUp(providers, want.content);
      change := WriteProvider(ProviderHit(want.content), found, want);
    }

    /** `_prune_removed_providers`. */
    method Prune(w: Wording, allowed: set<Key>) returns (removed: seq<string>)
      requires Valid(Contents())
      modifies this
      ensures removed == RemovedIds(w, allowed, old(providers)) && Contents() == Pruned(w, allowed, old(Contents()))
    {
      var found := Query(providers, InFamily(w));
      removed := [];
      SelectAll(providers, NotAmong([]));
      for i := 0 to |found|
        invariant removed == IdsOf(Select(found[..i], Unlisted(allowed)))
        invariant Contents() == old(Contents()).(providers := Select(old(providers), NotAmong(removed)))
      {
        RemovedStep(found, i, allowed);
        if KeyOf(found[i].content) !in allowed {
          DropOne(old(providers), removed, found[i].id);
          providers := Select(providers, NotAmong([found[i].id]));
          removed := removed + [found[i].id];
        }
      }
      assert found[..|found|] == found;
      PruneExact(w, allowed, old(Contents()));
    }

    /** The loop body of `ensure_opencode_go_providers`: one model and its efforts. */
    method EnsureReference(w: Wording, r: ModelReference) returns (changes: seq<Change>)
      modifies this
      ensures Seeded(Contents(), changes) == EnsureProviders(old(Contents()), ReferenceWanted(w, r))
    {
      hide EnsureProvider, ReferenceWanted, DirectWanted, WorkspaceWanted;
      ghost var start, wants := Contents(), ReferenceWanted(w, r);
      ReferenceOrder(w, r);
      var direct := EnsureOne(DirectWanted(w, r, None));
      EnsureStep(start, wants, 0);
      changes := [direct];
      for j := 0 to |r.efforts|
        invariant Seeded(Contents(), changes) == EnsureProviders(start, wants[..j + 1])
      {
        var one := EnsureOne(DirectWanted(w, r, Some(r.efforts[j])));
        EnsureStep(start, wants, j + 1);
        changes := changes + [one];
      }
      var workspace := EnsureOne(WorkspaceWanted(w, r));
      EnsureStep(start, wants, |r.efforts| + 1);
      changes := changes + [workspace];
      assert wants[..|r.efforts| + 2] == wants;
    }

    /** `ensure_opencode_go_providers`. */
    method EnsureOpencodeGoProviders(w: Wording, inventory: seq<ModelReference>)
      returns (changes: seq<Change>, removed: seq<string>)
      requires Valid(Contents())
      modifies this
      ensures var seeded := EnsureProviders(old(Contents()), InventoryWanted(w, inventory));
              && changes == seeded.changes
              && removed == RemovedIds(w, AllowedKeys(inventory), seeded.store.providers)
              && Contents() == Pruned(w, AllowedKeys(inventory), seeded.store)
    {
      changes := [];
      for i := 0 to |inventory|
        invariant Seeded(Contents(), changes) == EnsureProviders(old(Contents()), InventoryWanted(w, inventory[..i]))
      {
        InventoryStep(w, inventory, i);
        EnsureAppend(old(Contents()), InventoryWanted(w, inventory[..i]), ReferenceWanted(w, inventory[i]));
        var more := EnsureReference(w, inventory[i]);
        changes := changes + more;
      }
      assert inventory[..|inventory|] == inventory;
      EnsureProvidersValid(old(Contents()), InventoryWanted(w, inventory));
      removed := Prune(w, AllowedKeys(inventory));
    }

    /** `_ensure_magic_providers`. */
    method EnsureMagicProviders(w: Wording) returns (change: Change)
      modifies this
      ensures (Contents(), change) == SettleProvider(old(Contents()), MagicHit(w), MagicWanted(w))
    {
      var magic := MagicWanted(w);
      var found := FirstExact(Query(providers, ModelSearch(w.magicModelId)), SameKey(magic.content));
      MagicLookedUp(w, providers);
      change := WriteProvider(MagicHit(w), found, magic);
    }

    method ProviderForDefinition(w: Wording, d: Demand) returns (r: Option<ProviderNode>)
      ensures r == ProviderFor(w, providers, d)
    {
      if d.modelId == w.magicModelId {
        r := FirstExact(Query(providers, MagicSearch(w)), SameKey(MagicWanted(w).content));
        DemandLookedUp(w, providers, d);
      } else {
        r := FirstExact(Query(providers, DirectSearch(w, d)), Serves(d));
        DemandLookedUp(w, providers, d);
      }
    }

    method FindTask(name: string) returns (r: Option<TaskNode>)
      ensures r == Newest(tasks, TaskHit(name))
    {
      r := FirstExact(Query(tasks, TaskSearch(name)), Named(name));
      TaskLookedUp(tasks, name);
    }

    /** The task loop of `ensure_core_tasks`; the cache of providers changes nothing. */
    method EnsureTasks(w: Wording, defs: seq<TaskDefinition>) returns (changes: seq<Change>, missing: Option<Demand>)
      modifies this
      ensures Progress(Contents(), changes, missing) == SeedTasks(w, old(Contents()), defs)
    {
      var cache: map<Demand, ProviderNode> := map[];
      changes, missing := [], None;
      for i := 0 to |defs|
        invariant missing.None? && providers == old(providers)
        invariant Progress(Contents(), changes, missing) == SeedTasks(w, old(Contents()), defs[..i])
        invariant forall d :: d in cache ==> ProviderFor(w, providers, d) == Some(cache[d])
      {
        var d := defs[i];
        SeedStep(w, old(Contents()), defs, i);
        if d.demand !in cache {
          var found := ProviderForDefinition(w, d.demand);
          if found.None? {
            missing := Some(d.demand);
            MissingStays(w, old(Contents()), defs, i + 1);
            return;
          }
          cache := cache[d.demand := found.value];
        }
        var existing := FindTask(d.name);
        var change := WriteTask(existing, d, cache[d.demand].id);
        changes := changes + [change];
      }
      assert defs[..|defs|] == defs;
    }

    method EnsureCoreTasks(w: Wording, inventory: seq<ModelReference>, defs: seq<TaskDefinition>)
      returns (changes: seq<Change>, missing: Option<Demand>)
      requires Valid(Contents())
      modifies this
      ensures Progress(Contents(), changes, missing) == Core(w, inventory, defs, old(Contents())).tasks
    {
      var _, _ := EnsureOpencodeGoProviders(w, inventory);
      var _ := EnsureMagicProviders(w);
      changes, missing := EnsureTasks(w, defs);
    }
  }

  // ---------- what the loops rest on ----------

  function NotAmong(ids: seq<string>): ProviderNode -> bool {
    (n: ProviderNode) => n.id !in ids
  }

  lemma {:induction false} SelectAll(xs: seq<ProviderNode>, hit: ProviderNode -> bool)
    requires forall n :: n in xs ==> hit(n)
    ensures Select(xs, hit) == xs
  {
    if xs != [] {
      var k := |xs| - 1;
      assert xs == xs[..k] + [xs[k]];
      SelectAll(xs[..k], hit);
    }
  }

  lemma {:induction false} SelectAgree(xs: seq<ProviderNode>, p: ProviderNode -> bool, q: ProviderNode -> bool)
    requires forall n :: n in xs ==> p(n) == q(n)
    ensures Select(xs, p) == Select(xs, q)
  {
    if xs != [] {
      SelectAgree(xs[..|xs| - 1], p, q);
    }
  }

  lemma DropOne(xs: seq<ProviderNode>, removed: seq<string>, id: string)
    ensures Select(Select(xs, NotAmong(removed)), NotAmong([id])) == Select(xs, NotAmong(removed + [id]))
  {
    SelectTwice(xs, NotAmong(removed), NotAmong([id]), NotAmong(removed + [id]));
  }

  lemma PruneExact(w: Wording, allowed: set<Key>, s: Store)
    requires Valid(s)
    ensures Select(s.providers, NotAmong(RemovedIds(w, allowed, s.providers))) == Select(s.providers, Stays(w, allowed))
  {
    var ps := s.providers;
    var gone := Select(Query(ps, InFamily(w)), Unlisted(allowed));
    QueryMembers(ps, InFamily(w));
    Selected(Query(ps, InFamily(w)), Unlisted(allowed));
    forall n | n in ps
      ensures NotAmong(IdsOf(gone))(n) == Stays(w, allowed)(n)
    {
      if !Stays(w, allowed)(n) {
        var i :| 0 <= i < |gone| && gone[i] == n;
        assert IdsOf(gone)[i] == n.id;
      }
      if n.id in IdsOf(gone) {
        var i :| 0 <= i < |gone| && gone[i].id == n.id;
        assert gone[i] in gone;
        assert gone[i] == n;
      }
    }
    SelectAgree(ps, NotAmong(IdsOf(gone)), Stays(w, allowed));
  }

  lemma QueryMembers(xs: seq<ProviderNode>, search: ProviderNode -> bool)
    ensures forall n :: n in Query(xs, search) <==> n in xs && search(n)
  {
    Selected(xs, search);
    SortElements(Select(xs, search));
    forall n
      ensures n in Query(xs, search) <==> n in Select(xs, search)
    {
      assert n in Query(xs, search) <==> n in multiset(Query(xs, search));
    }
  }

  lemma EnsureStep(s: Store, wants: seq<Wanted<Provider>>, k: nat)
    requires k < |wants|
    ensures EnsureProviders(s, wants[..k + 1]) ==
            var before := EnsureProviders(s, wants[..k]);
            var step := EnsureProvider(before.store, wants[k]);
            Seeded(step.0, before.changes + [step.1])
  {
    assert wants[..k + 1][..k] == wants[..k];
  }

  lemma EnsureSnoc(s: Store, wants: seq<Wanted<Provider>>, want: Wanted<Provider>)
    ensures EnsureProviders(s, wants + [want]) ==
            var before := EnsureProviders(s, wants);
            var step := EnsureProvider(before.store, want);
            Seeded(step.0, before.changes + [step.1])
  {
    assert (wants + [want])[..|wants|] == wants;
  }

  lemma {:induction false} EnsureAppend(s: Store, a: seq<Wanted<Provider>>, b: seq<Wanted<Provider>>)
    ensures EnsureProviders(s, a + b) ==
            var first := EnsureProviders(s, a);
            var second := EnsureProviders(first.store, b);
            Seeded(second.store, first.changes + second.changes)
    decreases |b|
  {
    hide EnsureProvider;
    if b == [] {
      assert a + b == a;
    } else {
      var n := |b| - 1;
      EnsureAppend(s, a, b[..n]);
      EnsureSnoc(s, a + b[..n], b[n]);
      EnsureSnoc(EnsureProviders(s, a).store, b[..n], b[n]);
      assert b == b[..n] + [b[n]] && a + b == a + b[..n] + [b[n]];
    }
  }

  lemma ReferenceOrder(w: Wording, r: ModelReference)
    ensures var wants, n := ReferenceWanted(w, r), |r.efforts|;
            && |wants| == n + 2 && wants[0] == DirectWanted(w, r, None) && wants[n + 1] == WorkspaceWanted(w, r)
            && forall j :: 0 <= j < n ==> wants[j + 1] == DirectWanted(w, r, Some(r.efforts[j]))
  {
  }

  lemma InventoryStep(w: Wording, inventory: seq<ModelReference>, k: nat)
    requires k < |inventory|
    ensures InventoryWanted(w, inventory[..k + 1]) ==
            InventoryWanted(w, inventory[..k]) + ReferenceWanted(w, inventory[k])
  {
    assert inventory[..k + 1][..k] == inventory[..k];
  }

  lemma SeedStep(w: Wording, s: Store, defs: seq<TaskDefinition>, k: nat)
    requires k < |defs|
    ensures SeedTasks(w, s, defs[..k + 1]) == SeedTask(w, SeedTasks(w, s, defs[..k]), defs[k])
  {
    assert defs[..k + 1][..k] == defs[..k];
  }

  lemma RemovedStep(found: seq<ProviderNode>, k: nat, allowed: set<Key>)
    requires k < |found|
    ensures IdsOf(Select(found[..k + 1], Unlisted(allowed))) ==
            IdsOf(Select(found[..k], Unlisted(allowed))) + if KeyOf(found[k].content) !in allowed then [found[k].id]
                                                           else []
  {
    assert found[..k + 1][..k] == found[..k];
  }

  lemma ProviderLookedUp(ps: seq<ProviderNode>, p: Provider)
    ensures Head(Select(Query(ps, ProviderSearch(p)), SameProvider(p))) == Newest(ps, ProviderHit(p))
  {
    LookupIsNewest(ps, ProviderSearch(p), SameProvider(p), ProviderHit(p));
  }

  lemma MagicLookedUp(w: Wording, ps: seq<ProviderNode>)
    ensures Head(Select(Query(ps, ModelSearch(w.magicModelId)), SameKey(MagicWanted(w).content))) ==
            Newest(ps, MagicHit(w))
  {
    LookupIsNewest(ps, ModelSearch(w.magicModelId), SameKey(MagicWanted(w).content), MagicHit(w));
  }

  lemma DemandLookedUp(w: Wording, ps: seq<ProviderNode>, d: Demand)
    ensures Head(Select(Query(ps, MagicSearch(w)), SameKey(MagicWanted(w).content))) == Newest(ps, MagicLookup(w))
    ensures Head(Select(Query(ps, DirectSearch(w, d)), Serves(d))) == Newest(ps, DirectLookup(w, d))
  {
    LookupIsNewest(ps, MagicSearch(w), SameKey(MagicWanted(w).content), MagicLookup(w));
    LookupIsNewest(ps, DirectSearch(w, d), Serves(d), DirectLookup(w, d));
  }

  lemma TaskLookedUp(ts: seq<TaskNode>, name: string)
    ensures Head(Select(Query(ts, TaskSearch(name)), Named(name))) == Newest(ts, TaskHit(name))
  {
    LookupIsNewest(ts, TaskSearch(name), Named(name), TaskHit(name));
  }

  lemma {:induction false} EnsureProvidersValid(s: Store, wants: seq<Wanted<Provider>>)
    requires Valid(s)
    ensures Valid(EnsureProviders(s, wants).store)
  {
    if wants != [] {
      var k := |wants| - 1;
      EnsureProvidersValid(s, wants[..k]);
      SettleProviderValid(EnsureProviders(s, wants[..k]).store, ProviderHit(wants[k].content), wants[k]);
    }
  }

  /** A missing provider ends the run. */
  lemma {:induction false} MissingStays(w: Wording, s: Store, defs: seq<TaskDefinition>, k: nat)
    requires k <= |defs| && SeedTasks(w, s, defs[..k]).missing.Some?
    ensures SeedTasks(w, s, defs) == SeedTasks(w, s, defs[..k])
    decreases |defs|
  {
    if k < |defs| {
      var n := |defs| - 1;
      assert defs[..n][..k] == defs[..k];
      hide ProviderFor, SettleTask;
      MissingStays(w, s, defs[..n], k);
    } else {
      assert defs[..k] == defs;
    }
  }
}
