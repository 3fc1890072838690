/**
 Publishing filesystem memories (agent-host reframe_memory/filesystem_memories.py and
 filesystem_publication.py): one atomic transaction that validates identity, upserts the record and
 links it to the root, followed by a check of what was stored.
 */
module Publication {
  import opened Ids
  import WhereClause

  type Id = string

  const ROOT_ID := "memory_root:filesystem_memories"

  datatype FilesystemMemory =
    | Directory(title: string, description: string, baseMemoryIds: seq<Id>, sourcePath: string)
    | Checkpoint(title: string, description: string, baseMemoryIds: seq<Id>, backingStore: string, manifestId: string)

  /** The constructors refuse an empty locator. */
  predicate HasLocator(m: FilesystemMemory) {
    if m.Directory? then m.sourcePath != "" else m.backingStore != "" && m.manifestId != ""
  }

  type Memory = m: FilesystemMemory | HasLocator(m) witness Directory("", "", [], "/")

  /** What a record holds: the fields that the code reads, each of which may be missing, and all others. */
  datatype Content = Content(sourceKind: Option<string>, title: Option<string>, description: Option<string>,
                             baseMemoryIds: Option<seq<Id>>, sourcePath: Option<string>,
                             backingStore: Option<string>, manifestId: Option<string>, rest: map<string, string>)

  /** `asdict`. */
  function AsContent(m: Memory): Content {
    match m
    case Directory(title, description, base, path) =>
      Content(Some("directory"), Some(title), Some(description), Some(base), Some(path), None, None, map[])
    case Checkpoint(title, description, base, backing, manifest) =>
      Content(Some("checkpoint"), Some(title), Some(description), Some(base), None, Some(backing), Some(manifest),
              map[])
  }

  predicate Present(s: Option<string>) {
    s.Some? && s.value != ""
  }

  /** `_parse_memory`: a content that does not state its kind is a directory; `None` where it raises. */
  function Parse(c: Content): Option<Memory> {
    var kind := if Present(c.sourceKind) then c.sourceKind.value else "directory";
    var base := if c.baseMemoryIds.Some? then c.baseMemoryIds.value else [];
    if c.title.None? || c.description.None? then None
    else if kind == "directory" then
      if Present(c.sourcePath) then Some(Directory(c.title.value, c.description.value, base, c.sourcePath.value))
      else None
    else if kind == "checkpoint" && Present(c.backingStore) && Present(c.manifestId) then
      Some(Checkpoint(c.title.value, c.description.value, base, c.backingStore.value, c.manifestId.value))
    else None
  }

  /** What is stored is read back. */
  lemma ParseStored(m: Memory)
    ensures Parse(AsContent(m)) == Some(m)
  {
    assert "directory"[0] != "checkpoint"[0];
  }

  datatype Identity =
    | DirectoryIdentity(path: string)
    | CheckpointIdentity(backingStore: string, manifestId: string, baseMemoryIds: seq<Id>)

  /** The surroundings of the code: path canonicalisation and the digest that names records. */
  datatype Env = Env(canonical: string -> string, digest: seq<string> -> string)

  datatype Record = Record(tags: seq<string>, content: Content, identity: Option<Identity>,
                           createdAt: int, updatedAt: int, readAt: Option<int>)

  /** Records, and the multiset of `contains` edges from root to record. */
  datatype Store = Store(records: map<Id, Record>, edges: multiset<(Id, Id)>)

  datatype Outcome = Published(record: Record) | Collision | Unreadable

  /** `_persistent_identity`. */
  function IdentityOf(env: Env, m: Memory): Identity {
    match m
    case Directory(_, _, _, path) => DirectoryIdentity(env.canonical(path))
    case Checkpoint(_, _, base, backing, manifest) => CheckpointIdentity(env.canonical(backing), manifest, base)
  }

  /** `filesystem_directory_memory_id` and `filesystem_checkpoint_memory_id`. */
  function RecordId(env: Env, m: Memory): Id {
    match m
    case Directory(_, _, _, path) =>
      "memory_node:filesystem_directory_" + env.digest(["directory", env.canonical(path)])
    case Checkpoint(_, _, _, backing, manifest) =>
      "memory_node:filesystem_checkpoint_" + env.digest(["checkpoint", env.canonical(backing), manifest])
  }

  /** The query's test of a record from before identities were stored: its own stated kind and locator, as spelled. */
  predicate LegacyMatches(c: Content, m: Memory) {
    if c.sourceKind == Some("directory") then m.Directory? && c.sourcePath == Some(m.sourcePath)
    else if c.sourceKind == Some("checkpoint") then
      && m.Checkpoint? && c.backingStore == Some(m.backingStore) && c.manifestId == Some(m.manifestId)
      && c.baseMemoryIds == Some(m.baseMemoryIds)
    else false
  }

  predicate Conflicts(s: Store, id: Id, m: Memory, identity: Identity) {
    && id in s.records && s.records[id].identity != Some(identity)
    && !(s.records[id].identity.None? && LegacyMatches(s.records[id].content, m))
  }

  function Upserted(s: Store, id: Id, m: Memory, tags: seq<string>, identity: Identity, now: int): Record {
    if id !in s.records then Record(tags, AsContent(m), Some(identity), now, now, None)
    else
      var existing := s.records[id];
      Record(tags, AsContent(m), Some(identity), existing.createdAt,
             if existing.tags != tags || existing.content != AsContent(m) then now else existing.updatedAt,
             existing.readAt)
  }

  /** The publication transaction. */
  function Transaction(s: Store, id: Id, m: Memory, tags: seq<string>, identity: Identity, now: int): Store {
    if Conflicts(s, id, m, identity) then s
    else Store(s.records[id := Upserted(s, id, m, tags, identity, now)], s.edges[(ROOT_ID, id) := 1])
  }

  /** The check after the transaction; the record exists by then. */
  function CheckStored(env: Env, s: Store, id: Id, m: Memory): Outcome
    requires id in s.records
  {
    var published := s.records[id];
    var parsed := Parse(published.content);
    if parsed.None? then Unreadable
    else if IdentityOf(env, parsed.value) != IdentityOf(env, m) then Collision
    else Published(published)
  }

  /** `_publish`. */
  function Publish(env: Env, s: Store, m: Memory, tags: seq<string>, now: int): (Store, Outcome) {
    var id := RecordId(env, m);
    var t := Transaction(s, id, m, WhereClause.NormalizedTags(tags), IdentityOf(env, m), now);
    (t, CheckStored(env, t, id, m))
  }

  function MarkRead(s: Store, id: Id, now: int): Store {
    if id in s.records then s.(records := s.records[id := s.records[id].(readAt := Some(now))]) else s
  }

  /** A stored identity is that of the stored content, and such a record has exactly one root edge. */
  ghost predicate Valid(env: Env, s: Store) {
    forall id :: id in s.records && s.records[id].identity.Some? ==>
      && Parse(s.records[id].content).Some?
      && s.records[id].identity == Some(IdentityOf(env, Parse(s.records[id].content).value))
      && s.edges[(ROOT_ID, id)] == 1
  }

  class FilesystemMemoryStore {
    const env: Env
    var records: map<Id, Record>
    var edges: multiset<(Id, Id)>

    ghost function State(): Store
      reads this
    {
      Store(records, edges)
    }

    constructor (env: Env)
      ensures this.env == env && State() == Store(map[], multiset{}) && Valid(env, State())
    {
      this.env, records, edges := env, map[], multiset{};
    }

    /** The transaction: validate, upsert, then delete and re-create the root edge. */
    method RunTransaction(id: Id, m: Memory, tags: seq<string>, identity: Identity, now: int)
      modifies this
      ensures State() == Transaction(old(State()), id, m, tags, identity, now)
    {
      var legacy := id in records && LegacyMatches(records[id].content, m);
      var conflicts := id in records && records[id].identity != Some(identity) &&
        !(records[id].identity.None? && legacy);
      if !conflicts {
        var record := if id !in records then Record(tags, AsContent(m), Some(identity), now, now, None)
                      else records[id].(tags := tags, content := AsContent(m), identity := Some(identity),
                                        updatedAt := if records[id].tags != tags || records[id].content != AsContent(m)
                                                     then now else records[id].updatedAt);
        records := records[id := record];
        edges := edges[(ROOT_ID, id) := 0];
        edges := edges + multiset{(ROOT_ID, id)};
        assert edges == old(edges)[(ROOT_ID, id) := 1];
      }
    }

    method PublishMemory(m: Memory, tags: seq<string>, now: int) returns (r: Outcome)
      requires Valid(env, State())
      modifies this
      ensures Valid(env, State())
      ensures (State(), r) == Publish(env, old(State()), m, tags, now)
      ensures !r.Published? ==> State() == old(State())
    {
      PublishKeepsValid(env, State(), m, tags, now);
      ErrorsLeaveStore(env, State(), m, tags, now);
      var id := RecordId(env, m);
      RunTransaction(id, m, WhereClause.NormalizedTags(tags), IdentityOf(env, m), now);
      var published := records[id];
      var parsed := Parse(published.content);
      if parsed.None? {
        r := Unreadable;
      } else if IdentityOf(env, parsed.value) != IdentityOf(env, m) {
        r := Collision;
      } else {
        r := Published(published);
      }
    }
  }

  // ---------- one publication ----------

  lemma PublishKeepsValid(env: Env, s: Store, m: Memory, tags: seq<string>, now: int)
    requires Valid(env, s)
    ensures Valid(env, Publish(env, s, m, tags, now).0)
  {
    ParseStored(m);
  }

  /** An error of any kind leaves the store as it was, legacy records included. */
  lemma ErrorsLeaveStore(env: Env, s: Store, m: Memory, tags: seq<string>, now: int)
    ensures var (t, r) := Publish(env, s, m, tags, now); !r.Published? ==> t == s
  {
    ParseStored(m);
  }

  /**
   What any publication comes to, legacy records included: without a conflict it is published; with one the
   outcome is that of the record that stays, published if it already is the same memory under other spelling.
   */
  lemma OutcomeExactly(env: Env, s: Store, m: Memory, tags: seq<string>, now: int)
    ensures var id := RecordId(env, m); var r := Publish(env, s, m, tags, now).1;
            if !Conflicts(s, id, m, IdentityOf(env, m)) then
              r.Published? && r.record.content == AsContent(m) && r.record.identity == Some(IdentityOf(env, m))
            else
              var before := Parse(s.records[id].content);
              && (r == Unreadable <==> before.None?)
              && (r == Collision <==> before.Some? && IdentityOf(env, before.value) != IdentityOf(env, m))
              && (r.Published? ==> r == Published(s.records[id]) && (Valid(env, s) ==> s.records[id].identity.None?))
  {
    ParseStored(m);
  }

  /** For a record with a stored identity a collision is raised exactly on conflict; a new record never collides. */
  lemma CollisionExactly(env: Env, s: Store, m: Memory, tags: seq<string>, now: int)
    requires Valid(env, s)
    requires var id := RecordId(env, m); id in s.records ==> s.records[id].identity.Some?
    ensures var id := RecordId(env, m); var r := Publish(env, s, m, tags, now).1;
            && (r == Collision <==> id in s.records && s.records[id].identity != Some(IdentityOf(env, m)))
            && (r == Collision || r.Published?)
  {
    ParseStored(m);
  }

  /** Publishing the same content and tags again changes nothing, in particular not `updated_at`. */
  lemma RepublishChangesNothing(env: Env, s: Store, m: Memory, tags: seq<string>, now: int, later: int)
    ensures var (t, r) := Publish(env, s, m, tags, now); r.Published? ==> Publish(env, t, m, tags, later) == (t, r)
  {
    var (t, r) := Publish(env, s, m, tags, now);
    var id := RecordId(env, m);
    if r.Published? && !Conflicts(s, id, m, IdentityOf(env, m)) {
      assert t.records[id := t.records[id]] == t.records;
      assert t.edges[(ROOT_ID, id) := 1] == t.edges;
    }
  }

  /** One publication changes the update time of a record only together with its content or tags. */
  lemma UpdatedOnlyOnChange(env: Env, s: Store, m: Memory, tags: seq<string>, now: int, id: Id)
    requires id in s.records
    ensures var a, b := s.records[id], Publish(env, s, m, tags, now).0.records;
            id in b && (b[id].updatedAt != a.updatedAt ==> (b[id].content, b[id].tags) != (a.content, a.tags))
  {
  }

  // ---------- whole runs ----------

  datatype Op = PublishOp(memory: Memory, tags: seq<string>, now: int) | ReadOp(id: Id, now: int)

  function Step(env: Env, s: Store, op: Op): Store {
    match op
    case PublishOp(m, tags, now) => Publish(env, s, m, tags, now).0
    case ReadOp(id, now) => MarkRead(s, id, now)
  }

  function Run(env: Env, s: Store, ops: seq<Op>): Store {
    if ops == [] then s else Step(env, Run(env, s, ops[..|ops| - 1]), ops[|ops| - 1])
  }

  /** From one store to a later one: records stay, creation times stay, identities stay once set. */
  ghost predicate Keeps(a: Store, b: Store) {
    forall id :: id in a.records ==>
      && id in b.records && b.records[id].createdAt == a.records[id].createdAt
      && (a.records[id].identity.Some? ==> b.records[id].identity == a.records[id].identity)
  }

  /** Over every run the store stays valid and keeps what it has. */
  lemma {:induction false} RunKeeps(env: Env, s: Store, ops: seq<Op>)
    requires Valid(env, s)
    ensures Valid(env, Run(env, s, ops)) && Keeps(s, Run(env, s, ops))
  {
    if ops != [] {
      var n := |ops| - 1;
      RunKeeps(env, s, ops[..n]);
      if ops[n].PublishOp? {
        PublishKeepsValid(env, Run(env, s, ops[..n]), ops[n].memory, ops[n].tags, ops[n].now);
      }
    }
  }

  lemma TakesEffect(env: Env, s: Store, m: Memory, tags: seq<string>, now: int)
    requires !Conflicts(s, RecordId(env, m), m, IdentityOf(env, m))
    ensures var id, t := RecordId(env, m), Publish(env, s, m, tags, now).0;
            id in t.records && t.records[id].identity == Some(IdentityOf(env, m))
  {
  }

  lemma SettledForGood(env: Env, s: Store, later: seq<Op>, id: Id, identity: Identity)
    requires Valid(env, s) && id in s.records && s.records[id].identity == Some(identity)
    ensures var end := Run(env, s, later);
            id in end.records && end.records[id].identity == Some(identity) && end.edges[(ROOT_ID, id)] == 1
  {
    RunKeeps(env, s, later);
  }

  /** A publication that meets no conflict settles its record through any later run: its identity and one root edge. */
  lemma PublishedForGood(env: Env, s: Store, m: Memory, tags: seq<string>, now: int, later: seq<Op>)
    requires Valid(env, s) && !Conflicts(s, RecordId(env, m), m, IdentityOf(env, m))
    ensures var id, end := RecordId(env, m), Run(env, Publish(env, s, m, tags, now).0, later);
            id in end.records && end.records[id].identity == Some(IdentityOf(env, m)) && end.edges[(ROOT_ID, id)] == 1
  {
    TakesEffect(env, s, m, tags, now);
    PublishKeepsValid(env, s, m, tags, now);
    SettledForGood(env, Publish(env, s, m, tags, now).0, later, RecordId(env, m), IdentityOf(env, m));
  }
}
