/**
 The writers of the memory graph (agent-host reframe_memory/sessions.py, conversations.py,
 session_memories.py, tasks.py and the memory browser): each relates a node that it has just created, or
 takes a node out. Over every run from an empty database, reads and retrievals included, the graph stays a
 tree, so that retrieving is exact and repeatable.
 */
module RetrievalRuns {
  import opened Ids
  import opened Nodes
  import opened Numbers
  import opened Retrieval
  import opened RetrievalMarks
  import opened RetrievalSnapshot
  import opened RetrievalStability
  import opened RetrievalMonotone
  import opened RetrievalExact
  import opened RetrievalForest
  import WhereClause

  /** The searched lists, the ids under the Conversations root, the nodes, and how many ids were minted. */
  datatype Database = Database(graph: Graph, conversations: set<Id>, store: Store, minted: nat)

  const EMPTY := Database(Graph([], [], map[], map[], map[]), {}, Store(map[], 0), 0)

  datatype Op =
    | CreateTask(tags: seq<string>, content: map<string, string>)
    | CreateSession(tags: seq<string>, content: map<string, string>)
    | CreateConversation(session: Id, tags: seq<string>, content: map<string, string>)
    | AddMessage(conversation: Id, at: nat, tags: seq<string>, content: map<string, string>)
    | CreateMemory(session: Id, tags: seq<string>, content: map<string, string>)
    | CreateOther(tags: seq<string>, content: map<string, string>)
    | UpdateNode(id: Id, tags: seq<string>, content: map<string, string>)
    | DeleteNode(id: Id)
    | ReadNodes(ids: seq<Id>)
    | RetrieveContext(request: Request, current: Option<Id>)

  // ---------- edges ----------

  function Insert(xs: seq<Id>, at: nat, x: Id): seq<Id> {
    var k := Min(at, |xs|);
    xs[..k] + [x] + xs[k..]
  }

  /** `RELATE from -> x`, at the place that its position gives it. */
  function Related(edges: Edges, from: Id, at: nat, x: Id): Edges {
    edges[from := Insert(Targets(edges, from), at, x)]
  }

  function Without(xs: seq<Id>, x: Id): seq<Id> {
    if xs == [] then []
    else
      var k := |xs| - 1;
      if xs[k] == x then Without(xs[..k], x) else Without(xs[..k], x) + [xs[k]]
  }

  /** `DELETE ... WHERE in = x OR out = x`. */
  function Unrelated(edges: Edges, x: Id): Edges {
    map k | k in edges && k != x :: Without(edges[k], x)
  }

  function Pruned(g: Graph, x: Id): Graph {
    Graph(Without(g.tasks, x), Without(g.sessions, x), Unrelated(g.conversations, x), Unrelated(g.messages, x),
          Unrelated(g.memories, x))
  }

  // ---------- one step ----------

  /** `CREATE memory_node`. */
  function Created(mint: nat -> Id, db: Database, tags: seq<string>, content: map<string, string>): Database {
    var id, now := mint(db.minted), db.store.clock;
    var node := MemoryNode(id, WhereClause.NormalizedTags(tags), Timestamps(now, now, None), content);
    db.(store := Store(db.store.nodes[id := node], now + 1), minted := db.minted + 1)
  }

  function Updated(s: Store, id: Id, tags: seq<string>, content: map<string, string>): Store {
    if id !in s.nodes then s
    else
      var n := s.nodes[id];
      Store(s.nodes[id := n.(tags := tags, content := content, stamps := n.stamps.(updatedAt := s.clock))], s.clock + 1)
  }

  function SessionCreated(mint: nat -> Id, db: Database, tags: seq<string>, content: map<string, string>): Database {
    var g := db.graph;
    Created(mint, db, tags, content).(graph := g.(sessions := g.sessions + [mint(db.minted)]))
  }

  /** A session that does not exist raises and changes nothing. */
  function ConversationCreated(mint: nat -> Id, db: Database, s: Id, tags: seq<string>, content: map<string, string>)
    : Database
  {
    var id, g := mint(db.minted), db.graph;
    if s !in g.sessions then db
    else
      var edges := Related(g.conversations, s, |Targets(g.conversations, s)|, id);
      Created(mint, db, tags, content).(graph := g.(conversations := edges), conversations := db.conversations + {id})
  }

  function MemoryCreated(mint: nat -> Id, db: Database, s: Id, tags: seq<string>, content: map<string, string>)
    : Database
  {
    var id, g := mint(db.minted), db.graph;
    if s !in g.sessions then db
    else
      var edges := Related(g.memories, s, |Targets(g.memories, s)|, id);
      Created(mint, db, tags, content).(graph := g.(memories := edges))
  }

  /** `UPDATE ... SET updated_at = time::now()`. */
  function Bumped(s: Store, id: Id): Store {
    if id in s.nodes then Updated(s, id, s.nodes[id].tags, s.nodes[id].content) else s
  }

  /** A conversation that does not exist raises and changes nothing. */
  function MessageAdded(mint: nat -> Id, db: Database, c: Id, at: nat, tags: seq<string>, content: map<string, string>)
    : Database
  {
    var id, g := mint(db.minted), db.graph;
    if c !in db.conversations then db
    else
      var created := Created(mint, db, tags, content);
      created.(graph := g.(messages := Related(g.messages, c, at, id)), store := Bumped(created.store, c))
  }

  function NodeDeleted(db: Database, id: Id): Database {
    if id !in db.store.nodes then db
    else
      db.(graph := Pruned(db.graph, id), conversations := db.conversations - {id},
          store := db.store.(nodes := db.store.nodes - {id}))
  }

  function Step(mint: nat -> Id, db: Database, op: Op): Database {
    match op
    case CreateTask(tags, content) =>
      Created(mint, db, tags, content).(graph := db.graph.(tasks := db.graph.tasks + [mint(db.minted)]))
    case CreateSession(tags, content) => SessionCreated(mint, db, tags, content)
    case CreateConversation(s, tags, content) => ConversationCreated(mint, db, s, tags, content)
    case AddMessage(c, at, tags, content) => MessageAdded(mint, db, c, at, tags, content)
    case CreateMemory(s, tags, content) => MemoryCreated(mint, db, s, tags, content)
    case CreateOther(tags, content) => Created(mint, db, tags, content)
    case UpdateNode(n, tags, content) => db.(store := Updated(db.store, n, WhereClause.NormalizedTags(tags), content))
    case DeleteNode(n) => NodeDeleted(db, n)
    case ReadNodes(ids) => db.(store := MarkRead(db.store, ids))
    case RetrieveContext(request, current) => db.(store := Retrieve(db.graph, db.store, request, current).1)
  }

  function Run(mint: nat -> Id, ops: seq<Op>): Database {
    if ops == [] then EMPTY else Step(mint, Run(mint, ops[..|ops| - 1]), ops[|ops| - 1])
  }

  // ---------- lists and edges ----------

  lemma InsertMembers(xs: seq<Id>, at: nat, x: Id)
    ensures forall y :: y in Insert(xs, at, x) <==> y in xs || y == x
    ensures NoDup(xs) && x !in xs ==> NoDup(Insert(xs, at, x))
  {
    var k := Min(at, |xs|);
    assert xs == xs[..k] + xs[k..];
    InsertAt(xs, k, x);
    if NoDup(xs) && x !in xs {
      var r := Insert(xs, at, x);
      forall i, j | 0 <= i < j < |r|
        ensures r[i] != r[j]
      {
        assert i != k ==> r[i] == xs[if i < k then i else i - 1];
        assert j != k ==> r[j] == xs[if j < k then j else j - 1];
      }
    }
  }

  lemma InsertAt(xs: seq<Id>, k: nat, x: Id)
    requires k <= |xs|
    ensures var r := xs[..k] + [x] + xs[k..];
            && |r| == |xs| + 1 && r[k] == x
            && (forall i :: 0 <= i < k ==> r[i] == xs[i]) && forall i :: k < i < |r| ==> r[i] == xs[i - 1]
  {
  }

  lemma RelatedTargets(edges: Edges, from: Id, at: nat, x: Id)
    ensures forall k, y :: y in Targets(Related(edges, from, at, x), k) <==>
              y in Targets(edges, k) || (k == from && y == x)
  {
    InsertMembers(Targets(edges, from), at, x);
  }

  lemma RelatedSeparate(edges: Edges, from: Id, at: nat, x: Id)
    requires Separate(edges) && forall k :: x !in Targets(edges, k)
    ensures Separate(Related(edges, from, at, x))
  {
    InsertMembers(Targets(edges, from), at, x);
    RelatedTargets(edges, from, at, x);
    forall k
      ensures NoDup(Targets(Related(edges, from, at, x), k))
    {
      assert NoDup(Targets(edges, k)) && NoDup(Targets(edges, from));
    }
  }

  lemma {:induction false} WithoutMembers(xs: seq<Id>, x: Id)
    ensures forall y :: y in Without(xs, x) <==> y in xs && y != x
    ensures NoDup(xs) ==> NoDup(Without(xs, x))
  {
    if xs != [] {
      var k := |xs| - 1;
      assert xs == xs[..k] + [xs[k]];
      WithoutMembers(xs[..k], x);
      assert NoDup(xs) ==> xs[k] !in xs[..k];
    }
  }

  lemma UnrelatedTargets(edges: Edges, x: Id)
    ensures forall k, y :: y in Targets(Unrelated(edges, x), k) ==> y in Targets(edges, k)
    ensures forall k :: NoDup(Targets(edges, k)) ==> NoDup(Targets(Unrelated(edges, x), k))
  {
    forall k
      ensures forall y :: y in Targets(Unrelated(edges, x), k) ==> y in Targets(edges, k)
      ensures NoDup(Targets(edges, k)) ==> NoDup(Targets(Unrelated(edges, x), k))
    {
      WithoutMembers(Targets(edges, k), x);
    }
  }

  lemma UnrelatedSeparate(edges: Edges, x: Id)
    requires Separate(edges)
    ensures Separate(Unrelated(edges, x))
  {
    UnrelatedTargets(edges, x);
  }

  // ---------- one new node in one place ----------

  ghost predicate Mentioned(g: Graph, x: Id) {
    x in g.tasks || Named(g, x) || Spoken(g, x) || Noted(g, x)
  }

  lemma SnocNoDup(xs: seq<Id>, x: Id)
    requires NoDup(xs) && x !in xs
    ensures NoDup(xs + [x])
  {
  }

  lemma AddedTask(g: Graph, x: Id)
    requires Forest(g) && !Mentioned(g, x)
    ensures var h := g.(tasks := g.tasks + [x]);
            Forest(h) && forall y :: Mentioned(h, y) ==> Mentioned(g, y) || y == x
  {
    var h := g.(tasks := g.tasks + [x]);
    hide Separate;
    assert forall y :: (Named(h, y) <==> Named(g, y)) && (Spoken(h, y) <==> Spoken(g, y)) &&
             (Noted(h, y) <==> Noted(g, y));
    assert forall y :: Child(h, y) ==> Child(g, y);
  }

  lemma AddedSession(g: Graph, x: Id)
    requires Forest(g) && !Mentioned(g, x)
    ensures var h := g.(sessions := g.sessions + [x]);
            Forest(h) && forall y :: Mentioned(h, y) ==> Mentioned(g, y) || y == x
  {
    var h := g.(sessions := g.sessions + [x]);
    SnocNoDup(g.sessions, x);
    hide Separate, NoDup;
    assert forall y :: (Named(h, y) <==> Named(g, y) || y == x);
    assert forall y :: (Spoken(h, y) <==> Spoken(g, y)) && (Noted(h, y) <==> Noted(g, y));
    assert forall y :: Child(h, y) ==> Child(g, y);
    assert Child(g, x) ==> Named(g, x);
  }

  lemma AddedConversation(g: Graph, s: Id, at: nat, x: Id)
    requires Forest(g) && !Mentioned(g, x)
    ensures var h := g.(conversations := Related(g.conversations, s, at, x));
            Forest(h) && forall y :: Mentioned(h, y) ==> Mentioned(g, y) || y == x
  {
    var h := g.(conversations := Related(g.conversations, s, at, x));
    assert forall k :: x in Targets(g.conversations, k) ==> Named(g, x);
    RelatedSeparate(g.conversations, s, at, x);
    RelatedTargets(g.conversations, s, at, x);
    hide Separate, NoDup, Related, Targets;
    assert forall y :: Child(h, y) ==> Child(g, y) || y == x;
    assert forall y :: Named(h, y) ==> Named(g, y) || y == x;
    assert forall y :: (Spoken(h, y) <==> Spoken(g, y)) && (Noted(h, y) <==> Noted(g, y));
  }

  lemma AddedMessage(g: Graph, c: Id, at: nat, x: Id)
    requires Forest(g) && !Mentioned(g, x)
    ensures var h := g.(messages := Related(g.messages, c, at, x));
            Forest(h) && forall y :: Mentioned(h, y) ==> Mentioned(g, y) || y == x
  {
    var h := g.(messages := Related(g.messages, c, at, x));
    assert forall k :: x in Targets(g.messages, k) ==> Spoken(g, x);
    RelatedSeparate(g.messages, c, at, x);
    RelatedTargets(g.messages, c, at, x);
    hide Separate, NoDup, Related, Targets;
    assert forall y :: Spoken(h, y) ==> Spoken(g, y) || y == x;
    assert forall y :: (Named(h, y) <==> Named(g, y)) && (Noted(h, y) <==> Noted(g, y)) &&
             (Child(h, y) <==> Child(g, y));
  }

  lemma AddedMemory(g: Graph, s: Id, at: nat, x: Id)
    requires Forest(g) && !Mentioned(g, x)
    ensures var h := g.(memories := Related(g.memories, s, at, x));
            Forest(h) && forall y :: Mentioned(h, y) ==> Mentioned(g, y) || y == x
  {
    var h := g.(memories := Related(g.memories, s, at, x));
    assert forall k :: x in Targets(g.memories, k) ==> Noted(g, x);
    RelatedSeparate(g.memories, s, at, x);
    RelatedTargets(g.memories, s, at, x);
    hide Separate, NoDup, Related, Targets;
    assert forall y :: Noted(h, y) ==> Noted(g, y) || y == x;
    assert forall y :: (Named(h, y) <==> Named(g, y)) && (Spoken(h, y) <==> Spoken(g, y)) &&
             (Child(h, y) <==> Child(g, y));
  }

  lemma PrunedForest(g: Graph, x: Id)
    requires Forest(g)
    ensures Forest(Pruned(g, x)) && forall y :: Mentioned(Pruned(g, x), y) ==> Mentioned(g, y)
  {
    var h := Pruned(g, x);
    WithoutMembers(g.tasks, x);
    WithoutMembers(g.sessions, x);
    UnrelatedSeparate(g.conversations, x);
    UnrelatedSeparate(g.messages, x);
    UnrelatedSeparate(g.memories, x);
    UnrelatedTargets(g.conversations, x);
    UnrelatedTargets(g.messages, x);
    UnrelatedTargets(g.memories, x);
    hide Separate, NoDup, Unrelated, Without, Targets;
    assert forall y :: Child(h, y) ==> Child(g, y);
    assert forall y :: Named(h, y) ==> Named(g, y);
    assert forall y :: Spoken(h, y) ==> Spoken(g, y);
    assert forall y :: Noted(h, y) ==> Noted(g, y);
  }

  // ---------- every run ----------

  ghost predicate Injective(mint: nat -> Id) {
    forall m, n :: mint(m) == mint(n) ==> m == n
  }

  ghost predicate IsMinted(mint: nat -> Id, minted: nat, id: Id) {
    exists n :: 0 <= n < minted && mint(n) == id
  }

  ghost predicate Known(db: Database, id: Id) {
    id in db.store.nodes || id in db.conversations || Mentioned(db.graph, id)
  }

  /** The graph is a forest, nodes are stored under their ids, and every id was minted by the database. */
  ghost predicate Valid(mint: nat -> Id, db: Database) {
    && Forest(db.graph) && WellKeyed(db.store.nodes)
    && forall id :: Known(db, id) ==> IsMinted(mint, db.minted, id)
  }

  lemma FreshlyMinted(mint: nat -> Id, db: Database)
    requires Injective(mint) && Valid(mint, db)
    ensures !Known(db, mint(db.minted)) && IsMinted(mint, db.minted + 1, mint(db.minted))
    ensures forall id :: IsMinted(mint, db.minted, id) ==> IsMinted(mint, db.minted + 1, id)
  {
  }

  /** A step that adds one new node. */
  lemma GrownValid(mint: nat -> Id, db: Database, next: Database)
    requires Injective(mint) && Valid(mint, db) && next.minted == db.minted + 1
    requires Forest(next.graph) && WellKeyed(next.store.nodes)
    requires forall id :: Known(next, id) ==> Known(db, id) || id == mint(db.minted)
    ensures Valid(mint, next)
  {
    FreshlyMinted(mint, db);
  }

  lemma CreatedValid(mint: nat -> Id, db: Database, tags: seq<string>, content: map<string, string>, g: Graph,
                     conversations: set<Id>)
    requires Injective(mint) && Valid(mint, db) && Forest(g) && conversations <= db.conversations + {mint(db.minted)}
    requires forall y :: Mentioned(g, y) ==> Mentioned(db.graph, y) || y == mint(db.minted)
    ensures Valid(mint, Created(mint, db, tags, content).(graph := g, conversations := conversations))
  {
    var next := Created(mint, db, tags, content).(graph := g, conversations := conversations);
    hide Forest, Mentioned, Injective, IsMinted;
    GrownValid(mint, db, next);
  }

  lemma UpdatedKeeps(s: Store, id: Id, tags: seq<string>, content: map<string, string>)
    requires WellKeyed(s.nodes)
    ensures WellKeyed(Updated(s, id, tags, content).nodes) && Updated(s, id, tags, content).nodes.Keys == s.nodes.Keys
  {
  }

  /** Only the store changes, and no node comes or goes. */
  lemma StoreValid(mint: nat -> Id, db: Database, s: Store)
    requires Valid(mint, db) && WellKeyed(s.nodes) && s.nodes.Keys == db.store.nodes.Keys
    ensures Valid(mint, db.(store := s))
  {
    hide Forest, IsMinted, Mentioned;
    assert forall id :: Known(db.(store := s), id) <==> Known(db, id);
  }

  lemma RetrieveKeeps(g: Graph, s: Store, r: Request, current: Option<Id>)
    requires WellKeyed(s.nodes)
    ensures var t := Retrieve(g, s, r, current).1; WellKeyed(t.nodes) && t.nodes.Keys == s.nodes.Keys
  {
    var (result, t) := Retrieve(g, s, r, current);
    RetrieveMarksReturned(g, s, r, current);
    TasksMarked(g, s, r);
    hide TaskCatalog, PastContext, CurrentMemories, IdsOf, ReturnedIds;
    if result.Ok? {
      MarkedKeyed(s, t, ReturnedIds(result.value));
    } else {
      MarkedKeyed(s, t, IdsOf(TaskCatalog(g, s, r).0));
    }
  }

  lemma CreateValid(mint: nat -> Id, db: Database, op: Op)
    requires Injective(mint) && Valid(mint, db)
    requires op.CreateTask? || op.CreateSession? || op.CreateConversation? || op.CreateMemory? || op.CreateOther?
    ensures Valid(mint, Step(mint, db, op))
  {
    var id, g := mint(db.minted), db.graph;
    FreshlyMinted(mint, db);
    assert !Mentioned(g, id);
    hide Forest, Mentioned, Injective, IsMinted, Related, Created, Targets, WellKeyed;
    match op
    case CreateTask(tags, content) =>
      AddedTask(g, id);
      CreatedValid(mint, db, tags, content, g.(tasks := g.tasks + [id]), db.conversations);
    case CreateSession(tags, content) =>
      AddedSession(g, id);
      CreatedValid(mint, db, tags, content, g.(sessions := g.sessions + [id]), db.conversations);
    case CreateConversation(s, tags, content) =>
      if s in g.sessions {
        var at := |Targets(g.conversations, s)|;
        AddedConversation(g, s, at, id);
        CreatedValid(mint, db, tags, content, g.(conversations := Related(g.conversations, s, at, id)),
                     db.conversations + {id});
      }
    case CreateMemory(s, tags, content) =>
      if s in g.sessions {
        var at := |Targets(g.memories, s)|;
        AddedMemory(g, s, at, id);
        CreatedValid(mint, db, tags, content, g.(memories := Related(g.memories, s, at, id)), db.conversations);
      }
    case CreateOther(tags, content) =>
      CreatedValid(mint, db, tags, content, g, db.conversations);
  }

  lemma AddMessageValid(mint: nat -> Id, db: Database, c: Id, at: nat, tags: seq<string>, content: map<string, string>)
    requires Injective(mint) && Valid(mint, db)
    ensures Valid(mint, MessageAdded(mint, db, c, at, tags, content))
  {
    if c in db.conversations {
      var id, g := mint(db.minted), db.graph;
      FreshlyMinted(mint, db);
      var h := g.(messages := Related(g.messages, c, at, id));
      var created := Created(mint, db, tags, content).(graph := h);
      AddedMessage(g, c, at, id);
      CreatedValid(mint, db, tags, content, h, db.conversations);
      BumpedKeeps(created.store, c);
      hide Related, Valid, Injective, IsMinted, Bumped;
      StoreValid(mint, created, Bumped(created.store, c));
    }
  }

  lemma BumpedKeeps(s: Store, id: Id)
    requires WellKeyed(s.nodes)
    ensures WellKeyed(Bumped(s, id).nodes) && Bumped(s, id).nodes.Keys == s.nodes.Keys
  {
  }

  lemma DeleteValid(mint: nat -> Id, db: Database, id: Id)
    requires Valid(mint, db)
    ensures Valid(mint, NodeDeleted(db, id))
  {
    PrunedForest(db.graph, id);
    hide Forest, Mentioned, IsMinted, Pruned;
    assert forall y :: Known(NodeDeleted(db, id), y) ==> Known(db, y);
  }

  lemma StepValid(mint: nat -> Id, db: Database, op: Op)
    requires Injective(mint) && Valid(mint, db)
    ensures Valid(mint, Step(mint, db, op))
  {
    assert WellKeyed(db.store.nodes);
    hide Valid, Injective, WellKeyed, Retrieve, Updated, MarkRead, MessageAdded, NodeDeleted, Created;
    match op
    case AddMessage(c, at, tags, content) => AddMessageValid(mint, db, c, at, tags, content);
    case UpdateNode(n, tags, content) =>
      UpdatedKeeps(db.store, n, WhereClause.NormalizedTags(tags), content);
      StoreValid(mint, db, Updated(db.store, n, WhereClause.NormalizedTags(tags), content));
    case DeleteNode(n) => DeleteValid(mint, db, n);
    case ReadNodes(ids) =>
      MarkReadMarks(db.store, ids);
      MarkedKeyed(db.store, MarkRead(db.store, ids), SetOf(ids));
      StoreValid(mint, db, MarkRead(db.store, ids));
    case RetrieveContext(r, current) =>
      RetrieveKeeps(db.graph, db.store, r, current);
      StoreValid(mint, db, Retrieve(db.graph, db.store, r, current).1);
    case _ => CreateValid(mint, db, op);
  }

  lemma EmptyValid(mint: nat -> Id)
    ensures Valid(mint, EMPTY)
  {
    assert forall x :: !Mentioned(EMPTY.graph, x);
  }

  /** Over every run from an empty database every node hangs in one place and plays one role. */
  lemma {:induction false} RunIsForest(mint: nat -> Id, ops: seq<Op>)
    requires Injective(mint)
    ensures Valid(mint, Run(mint, ops))
  {
    if ops == [] {
      EmptyValid(mint);
    } else {
      RunIsForest(mint, ops[..|ops| - 1]);
      StepValid(mint, Run(mint, ops[..|ops| - 1]), ops[|ops| - 1]);
    }
  }

  /**
   After any run of the writers, with reads and retrievals between: a retrieval whose read cutoffs have passed
   returns exactly what the database selects, and repeated it returns the same nodes in the same order, with
   matches only added.
   */
  lemma RunFaithful(mint: nat -> Id, ops: seq<Op>, r: Request, current: Option<Id>)
    requires Injective(mint) && CutoffsPassed(r, Run(mint, ops).store.clock)
    ensures var db := Run(mint, ops);
            var (x, t) := Retrieve(db.graph, db.store, r, current);
            var y := Retrieve(db.graph, t, r, current).0;
            && Exact(db.graph, db.store, r, current) && Repeats(db.graph, db.store, r, current)
            && (x.Ok? ==> y.Ok? && Grows(x.value, y.value))
  {
    var db := Run(mint, ops);
    RunIsForest(mint, ops);
    ForestIsTree(db.graph, current);
    ForestApart(db.graph, current);
    hide Forest, Tree, Typed, MessagesApart, CurrentApart, Exact, Repeats, Retrieve, Grows, Run;
    RetrieveStable(db.graph, db.store, r, current);
    RetrieveExact(db.graph, db.store, r, current);
    RetrieveRepeats(db.graph, db.store, r, current);
  }

  // ---------- what the writers store ----------

  /** A node under an id never used before, as it was given, created and updated now, and never read. */
  ghost predicate StoresNew(mint: nat -> Id, db: Database, next: Database, tags: seq<string>,
                            content: map<string, string>) {
    var id := mint(db.minted);
    && id !in db.store.nodes && id in next.store.nodes
    && next.store.nodes[id].id == id && next.store.nodes[id].content == content
    && next.store.nodes[id].tags == WhereClause.NormalizedTags(tags)
    && next.store.nodes[id].stamps == Timestamps(db.store.clock, db.store.clock, None)
    && next.store.nodes.Keys == db.store.nodes.Keys + {id}
  }

  /** One list has the id at the place, its others in order, and no other list changes. */
  ghost predicate PutsAt(before: Edges, after: Edges, from: Id, at: nat, id: Id) {
    && at <= |Targets(before, from)| && |Targets(after, from)| == |Targets(before, from)| + 1
    && Targets(after, from)[at] == id
    && Targets(after, from)[..at] == Targets(before, from)[..at]
    && Targets(after, from)[at + 1..] == Targets(before, from)[at..]
    && forall k :: k != from ==> Targets(after, k) == Targets(before, k)
  }

  lemma RelatedPuts(edges: Edges, from: Id, at: nat, x: Id)
    ensures PutsAt(edges, Related(edges, from, at, x), from, Min(at, |Targets(edges, from)|), x)
  {
    var xs, k := Targets(edges, from), Min(at, |Targets(edges, from)|);
    var r := Insert(xs, at, x);
    assert r == (xs[..k] + [x]) + xs[k..] && r[..k] == xs[..k] && r[k + 1..] == xs[k..];
  }

  /** A new session is the last of the sessions. */
  lemma SessionStored(mint: nat -> Id, db: Database, tags: seq<string>, content: map<string, string>)
    requires Injective(mint) && Valid(mint, db)
    ensures var next := SessionCreated(mint, db, tags, content);
            && StoresNew(mint, db, next, tags, content)
            && next.graph == db.graph.(sessions := db.graph.sessions + [mint(db.minted)])
            && forall id :: id in db.store.nodes ==> next.store.nodes[id] == db.store.nodes[id]
  {
    FreshlyMinted(mint, db);
  }

  /** A new conversation is the last of its session's; a session that does not exist changes nothing. */
  lemma ConversationStored(mint: nat -> Id, db: Database, s: Id, tags: seq<string>, content: map<string, string>)
    requires Injective(mint) && Valid(mint, db)
    ensures var next := ConversationCreated(mint, db, s, tags, content);
            if s !in db.graph.sessions then next == db
            else
              && StoresNew(mint, db, next, tags, content)
              && PutsAt(db.graph.conversations, next.graph.conversations, s, |Targets(db.graph.conversations, s)|,
                        mint(db.minted))
              && next.graph == db.graph.(conversations := next.graph.conversations)
              && next.conversations == db.conversations + {mint(db.minted)}
              && forall id :: id in db.store.nodes ==> next.store.nodes[id] == db.store.nodes[id]
  {
    FreshlyMinted(mint, db);
    RelatedPuts(db.graph.conversations, s, |Targets(db.graph.conversations, s)|, mint(db.minted));
    hide Related, PutsAt, Valid, Injective;
  }

  /** A new memory likewise. */
  lemma MemoryStored(mint: nat -> Id, db: Database, s: Id, tags: seq<string>, content: map<string, string>)
    requires Injective(mint) && Valid(mint, db)
    ensures var next := MemoryCreated(mint, db, s, tags, content);
            if s !in db.graph.sessions then next == db
            else
              && StoresNew(mint, db, next, tags, content)
              && PutsAt(db.graph.memories, next.graph.memories, s, |Targets(db.graph.memories, s)|, mint(db.minted))
              && next.graph == db.graph.(memories := next.graph.memories)
              && forall id :: id in db.store.nodes ==> next.store.nodes[id] == db.store.nodes[id]
  {
    FreshlyMinted(mint, db);
    RelatedPuts(db.graph.memories, s, |Targets(db.graph.memories, s)|, mint(db.minted));
    hide Related, PutsAt, Valid, Injective;
  }

  /** A new message stands at its place in the conversation, whose update time moves and nothing else of it. */
  lemma MessageStored(mint: nat -> Id, db: Database, c: Id, at: nat, tags: seq<string>, content: map<string, string>)
    requires Injective(mint) && Valid(mint, db)
    ensures var next := MessageAdded(mint, db, c, at, tags, content);
            if c !in db.conversations then next == db
            else
              && StoresNew(mint, db, next, tags, content)
              && PutsAt(db.graph.messages, next.graph.messages, c, Min(at, |Targets(db.graph.messages, c)|),
                        mint(db.minted))
              && next.graph == db.graph.(messages := next.graph.messages)
              && (forall id :: id in db.store.nodes && id != c ==> next.store.nodes[id] == db.store.nodes[id])
              && (c in db.store.nodes ==>
                  var n := db.store.nodes[c];
                  next.store.nodes[c] == n.(stamps := n.stamps.(updatedAt := db.store.clock + 1)))
  {
    FreshlyMinted(mint, db);
    RelatedPuts(db.graph.messages, c, at, mint(db.minted));
    if c in db.conversations {
      assert c != mint(db.minted) && mint(db.minted) !in db.store.nodes;
      CreatedStores(mint, db, tags, content);
      BumpedStores(Created(mint, db, tags, content).store, c);
      hide Related, PutsAt, Valid, Injective, Created, Bumped;
    }
  }

  lemma CreatedStores(mint: nat -> Id, db: Database, tags: seq<string>, content: map<string, string>)
    requires mint(db.minted) !in db.store.nodes
    ensures var next := Created(mint, db, tags, content);
            && StoresNew(mint, db, next, tags, content) && next.store.clock == db.store.clock + 1
            && next == db.(store := next.store, minted := next.minted)
            && forall id :: id in db.store.nodes ==> next.store.nodes[id] == db.store.nodes[id]
  {
  }

  lemma BumpedStores(s: Store, c: Id)
    ensures var t := Bumped(s, c);
            && t.nodes.Keys == s.nodes.Keys
            && (forall id :: id in s.nodes && id != c ==> t.nodes[id] == s.nodes[id])
            && (c in s.nodes ==> t.nodes[c] == s.nodes[c].(stamps := s.nodes[c].stamps.(updatedAt := s.clock)))
  {
  }

  /** Takes `id` out of every list and leaves the others in them. */
  ghost predicate TakesOut(before: Edges, after: Edges, id: Id) {
    forall k, y :: y in Targets(after, k) <==> y in Targets(before, k) && y != id && k != id
  }

  lemma UnrelatedTakesOut(edges: Edges, id: Id)
    ensures TakesOut(edges, Unrelated(edges, id), id)
  {
    forall k, y
      ensures y in Targets(Unrelated(edges, id), k) <==> y in Targets(edges, k) && y != id && k != id
    {
      WithoutMembers(Targets(edges, k), id);
    }
  }

  /** A deleted node is gone from the nodes and from every list, as is what hung below it; no other node changes. */
  lemma DeletedExactly(db: Database, id: Id)
    requires id in db.store.nodes
    ensures var g, h := db.graph, NodeDeleted(db, id).graph;
            && NodeDeleted(db, id).store.nodes == db.store.nodes - {id}
            && NodeDeleted(db, id).conversations == db.conversations - {id} && !Mentioned(h, id)
            && (forall y :: y in h.tasks <==> y in g.tasks && y != id)
            && (forall y :: y in h.sessions <==> y in g.sessions && y != id)
            && TakesOut(g.conversations, h.conversations, id) && TakesOut(g.messages, h.messages, id)
            && TakesOut(g.memories, h.memories, id)
  {
    var g := db.graph;
    WithoutMembers(g.tasks, id);
    WithoutMembers(g.sessions, id);
    UnrelatedTakesOut(g.conversations, id);
    UnrelatedTakesOut(g.messages, id);
    UnrelatedTakesOut(g.memories, id);
    hide Without, Unrelated, Targets;
  }

  /** An update gives a node its new content and tags and the time, and keeps the rest of it and all others. */
  lemma UpdatedExactly(s: Store, id: Id, tags: seq<string>, content: map<string, string>)
    requires id in s.nodes
    ensures var t, n := Updated(s, id, tags, content), s.nodes[id];
            && t.nodes.Keys == s.nodes.Keys && t.clock == s.clock + 1
            && t.nodes[id] == MemoryNode(n.id, tags, Timestamps(n.stamps.createdAt, s.clock, n.stamps.readAt), content)
            && forall other :: other in s.nodes && other != id ==> t.nodes[other] == s.nodes[other]
  {
  }

  // ---------- the writers ----------

  class MemoryGraph {
    const mint: nat -> Id
    var graph: Graph
    var conversations: set<Id>
    var store: Store
    var minted: nat

    ghost function State(): Database
      reads this
    {
      Database(graph, conversations, store, minted)
    }

    constructor (mint: nat -> Id)
      ensures this.mint == mint && State() == EMPTY
    {
      this.mint, graph, conversations, store, minted := mint, EMPTY.graph, {}, Store(map[], 0), 0;
    }

    /** The shared `CREATE` query. */
    method CreateNode(tags: seq<string>, content: map<string, string>) returns (id: Id)
      modifies this
      ensures id == mint(old(minted)) && State() == Created(mint, old(State()), tags, content)
    {
      id := mint(minted);
      var now := store.clock;
      var node := MemoryNode(id, WhereClause.NormalizedTags(tags), Timestamps(now, now, None), content);
      store := Store(store.nodes[id := node], now + 1);
      minted := minted + 1;
    }

    method CreateSession(tags: seq<string>, content: map<string, string>) returns (id: Id)
      modifies this
      ensures id == mint(old(minted)) && State() == SessionCreated(mint, old(State()), tags, content)
    {
      id := CreateNode(tags, content);
      graph := graph.(sessions := graph.sessions + [id]);
    }

    method CreateConversation(session: Id, tags: seq<string>, content: map<string, string>) returns (r: Outcome<Id>)
      modifies this
      ensures State() == ConversationCreated(mint, old(State()), session, tags, content)
      ensures r == if session in old(graph).sessions then Ok(mint(old(minted))) else ValueError
    {
      hide Insert, Targets;
      if session !in graph.sessions {
        return ValueError;
      }
      var id := CreateNode(tags, content);
      conversations := conversations + {id};
      var at := |Targets(graph.conversations, session)|;
      graph := graph.(conversations := Related(graph.conversations, session, at, id));
      r := Ok(id);
    }

    method AddMessage(conversation: Id, at: nat, tags: seq<string>, content: map<string, string>)
      returns (r: Outcome<Id>)
      modifies this
      ensures State() == MessageAdded(mint, old(State()), conversation, at, tags, content)
      ensures r == if conversation in old(conversations) then Ok(mint(old(minted))) else ValueError
    {
      hide Insert, Targets;
      if conversation !in conversations {
        return ValueError;
      }
      var id := CreateNode(tags, content);
      graph := graph.(messages := Related(graph.messages, conversation, at, id));
      if conversation in store.nodes {
        var n := store.nodes[conversation];
        store := Store(store.nodes[conversation := n.(stamps := n.stamps.(updatedAt := store.clock))], store.clock + 1);
      }
      r := Ok(id);
    }

    method CreateMemory(session: Id, tags: seq<string>, content: map<string, string>) returns (r: Outcome<Id>)
      modifies this
      ensures State() == MemoryCreated(mint, old(State()), session, tags, content)
      ensures r == if session in old(graph).sessions then Ok(mint(old(minted))) else ValueError
    {
      hide Insert, Targets;
      if session !in graph.sessions {
        return ValueError;
      }
      var id := CreateNode(tags, content);
      graph := graph.(memories := Related(graph.memories, session, |Targets(graph.memories, session)|, id));
      r := Ok(id);
    }
  }
}
