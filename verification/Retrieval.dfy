/**
 Graph memory retrieval (agent-host reframe_memory/graph_retrieval.py and retrieval_terms.py): a walk
 over sessions, conversations, messages and session memories that filters by hints and timestamp
 cutoffs and marks what it returns as read.
 */
module Retrieval {
  import opened Ids
  import opened Nodes
  import Text
  import WhereClause

  datatype Outcome<T> = Ok(value: T) | ValueError

  type Id = string
  type Node = MemoryNode<map<string, string>>
  type NodeMap = map<Id, Node>

  // ---------- filters ----------

  datatype Breadth = Breadth(createdAfter: int, updatedAfter: int, readAfter: int)
  datatype Hints = Hints(tags: WhereClause.TagSearch, strings: WhereClause.StringSearch)
  datatype Filter = Filter(hints: Hints, breadth: Breadth)

  /** `TimestampBreadth.matches`; a node that was never read passes the read cutoff. */
  predicate BreadthMatches(b: Breadth, n: Node) {
    && n.stamps.createdAt >= b.createdAfter && n.stamps.updatedAt >= b.updatedAfter
    && (n.stamps.readAt.None? || n.stamps.readAt.value >= b.readAfter)
  }

  /** `_field_values`. */
  function FieldValues(content: map<string, string>, fields: seq<string>): seq<string> {
    if fields == [] then []
    else
      var k := |fields| - 1;
      FieldValues(content, fields[..k]) + (if fields[k] in content then [content[fields[k]]] else [])
  }

  predicate PositiveTag(tags: WhereClause.TagSearch, n: Node) {
    exists t :: t in n.tags && (t in tags.anyOf || t in tags.allOf)
  }

  predicate PositiveString(strings: WhereClause.StringSearch, values: seq<string>) {
    || (exists t, v :: t in strings.contains && v in values && Text.Contains(Text.Lower(v), Text.Lower(t)))
    || exists v :: v in values && v in strings.equals
  }

  /** `GraphSearchHints.matches`. */
  predicate HintsMatch(h: Hints, n: Node, fields: seq<string>) {
    && !(exists t :: t in n.tags && t in h.tags.noneOf)
    && (h.tags.anyOf != [] || h.tags.allOf != [] || h.strings.contains != [] || h.strings.equals != [])
    && (PositiveTag(h.tags, n) || PositiveString(h.strings, FieldValues(n.content, fields)))
  }

  /** `candidate_matches`. */
  predicate Matches(f: Filter, n: Node, fields: seq<string>) {
    BreadthMatches(f.breadth, n) && HintsMatch(f.hints, n, fields)
  }

  /** The loop of `_field_values`. */
  method CollectFieldValues(content: map<string, string>, fields: seq<string>) returns (values: seq<string>)
    ensures values == FieldValues(content, fields)
  {
    values := [];
    for i := 0 to |fields|
      invariant values == FieldValues(content, fields[..i])
    {
      assert fields[..i + 1][..i] == fields[..i];
      if fields[i] in content {
        values := values + [content[fields[i]]];
      }
    }
    assert fields[..|fields|] == fields;
  }

  /** `_matches_positive_string`: any contained term in lower case, else any exact value. */
  method MatchesPositiveString(strings: WhereClause.StringSearch, values: seq<string>) returns (r: bool)
    ensures r == PositiveString(strings, values)
  {
    for i := 0 to |strings.contains|
      invariant forall t, v :: t in strings.contains[..i] && v in values ==>
                  !Text.Contains(Text.Lower(v), Text.Lower(t))
    {
      var term := Text.Lower(strings.contains[i]);
      if exists v :: v in values && Text.Contains(Text.Lower(v), term) {
        return true;
      }
    }
    assert strings.contains[..|strings.contains|] == strings.contains;
    r := exists v :: v in values && v in strings.equals;
  }

  /** `candidate_matches`, with its early exits. */
  method CandidateMatches(f: Filter, n: Node, fields: seq<string>) returns (r: bool)
    ensures r == Matches(f, n, fields)
  {
    if n.stamps.createdAt < f.breadth.createdAfter || n.stamps.updatedAt < f.breadth.updatedAfter {
      return false;
    }
    if n.stamps.readAt.Some? && n.stamps.readAt.value < f.breadth.readAfter {
      return false;
    }
    var tags := f.hints.tags;
    if exists t :: t in n.tags && t in tags.noneOf {
      return false;
    }
    if tags.anyOf == [] && tags.allOf == [] && f.hints.strings.contains == [] && f.hints.strings.equals == [] {
      return false;
    }
    if exists t :: t in n.tags && (t in tags.anyOf || t in tags.allOf) {
      return true;
    }
    var values := CollectFieldValues(n.content, fields);
    r := MatchesPositiveString(f.hints.strings, values);
  }

  const TASK_FIELDS := ["name", "description", "input", "output", "prompt", "provider_id"]
  const NAME_FIELDS := ["name"]
  const MESSAGE_FIELDS := ["role", "content"]
  const MEMORY_FIELDS := ["title", "description"]

  function Matching(f: Filter, nodes: seq<Node>, fields: seq<string>): seq<Node> {
    if nodes == [] then []
    else
      var k := |nodes| - 1;
      if Matches(f, nodes[k], fields) then Matching(f, nodes[..k], fields) + [nodes[k]]
      else Matching(f, nodes[..k], fields)
  }

  function IdList(nodes: seq<Node>): seq<Id> {
    seq(|nodes|, i requires 0 <= i < |nodes| => nodes[i].id)
  }

  // ---------- the graph ----------

  /** Relation edges. The messages of a conversation are listed in position order. */
  datatype Graph = Graph(tasks: seq<Id>, sessions: seq<Id>,
                         conversations: map<Id, seq<Id>>, messages: map<Id, seq<Id>>, memories: map<Id, seq<Id>>)

  function Targets(edges: map<Id, seq<Id>>, from: Id): seq<Id> {
    if from in edges then edges[from] else []
  }

  /** The stored nodes and the database clock, which moves with every update. */
  datatype Store = Store(nodes: NodeMap, clock: int)

  /** The existing nodes of a list of ids. */
  function Lookup(nodes: NodeMap, ids: seq<Id>): seq<Node> {
    if ids == [] then []
    else
      var k := |ids| - 1;
      if ids[k] in nodes then Lookup(nodes, ids[..k]) + [nodes[ids[k]]] else Lookup(nodes, ids[..k])
  }

  function ByRecency(nodes: NodeMap, ids: seq<Id>): seq<Node> {
    SortByRecency(Lookup(nodes, ids))
  }

  function Touch(n: Node, at: int): Node {
    n.(stamps := n.stamps.(readAt := Some(at)))
  }

  /** One `UPDATE ... SET read_at = time::now()` per id; an id without a record is left alone. */
  function MarkEach(s: Store, ids: seq<Id>): Store {
    if ids == [] then s
    else
      var k := |ids| - 1;
      var t := MarkEach(s, ids[..k]);
      Store(if ids[k] in t.nodes then t.nodes[ids[k] := Touch(t.nodes[ids[k]], t.clock)] else t.nodes, t.clock + 1)
  }

  /** `mark_record_ids_read`. */
  function MarkRead(s: Store, ids: seq<Id>): Store {
    MarkEach(s, Dedup(ids))
  }

  // ---------- what a retrieval returns ----------

  datatype RetrievedConversation =
    RetrievedConversation(conversation: Node, matched: bool, messages: seq<Node>, matchedMessageIds: seq<Id>)
  datatype RetrievedSession =
    RetrievedSession(session: Node, matched: bool, conversations: seq<RetrievedConversation>, memories: seq<Node>)
  datatype Retrieved = Retrieved(tasks: seq<Node>, sessions: seq<RetrievedSession>, currentMemories: seq<Node>)

  datatype Request = Request(hints: Hints, taskBreadth: Option<Breadth>, pastBreadth: Option<Breadth>)

  // ---------- the walk, as a function of the store ----------

  function MessageCandidates(g: Graph, s: Store, conversation: Id, f: Filter): (seq<Node>, seq<Id>, Store) {
    var messages := Lookup(s.nodes, Targets(g.messages, conversation));
    var matched := Matching(f, messages, MESSAGE_FIELDS);
    if matched == [] then ([], [], s) else (messages, IdList(matched), MarkRead(s, IdList(messages)))
  }

  function ConversationStep(g: Graph, s: Store, c: Node, f: Filter): (seq<RetrievedConversation>, Store) {
    var matched := Matches(f, c, NAME_FIELDS);
    var (messages, ids, t) := MessageCandidates(g, s, c.id, f);
    if matched || messages != [] then ([RetrievedConversation(c, matched, messages, ids)], MarkRead(t, [c.id]))
    else ([], t)
  }

  function ConversationContexts(g: Graph, s: Store, conversations: seq<Node>,
                                f: Filter): (seq<RetrievedConversation>, Store) {
    if conversations == [] then ([], s)
    else
      var k := |conversations| - 1;
      var (before, t) := ConversationContexts(g, s, conversations[..k], f);
      var (last, u) := ConversationStep(g, t, conversations[k], f);
      (before + last, u)
  }

  lemma ConversationsStep(g: Graph, s: Store, cs: seq<Node>, k: nat, f: Filter)
    requires k < |cs|
    ensures var (before, t) := ConversationContexts(g, s, cs[..k], f);
            var (last, u) := ConversationStep(g, t, cs[k], f);
            ConversationContexts(g, s, cs[..k + 1], f) == (before + last, u)
  {
    assert cs[..k + 1][..k] == cs[..k];
  }

  function MemoryCandidates(g: Graph, s: Store, session: Id, f: Filter): (seq<Node>, Store) {
    var matched := Matching(f, ByRecency(s.nodes, Targets(g.memories, session)), MEMORY_FIELDS);
    (matched, MarkRead(s, IdList(matched)))
  }

  function SessionContext(g: Graph, s: Store, session: Node, f: Filter,
                          includeMemories: bool): (seq<RetrievedSession>, Store) {
    var matched := Matches(f, session, NAME_FIELDS);
    var (conversations, t) := ConversationContexts(g, s, ByRecency(s.nodes, Targets(g.conversations, session.id)), f);
    var (memories, u) := if includeMemories then MemoryCandidates(g, t, session.id, f) else ([], t);
    if !matched && conversations == [] && memories == [] then ([], u)
    else ([RetrievedSession(session, matched, conversations, memories)], MarkRead(u, [session.id]))
  }

  function SessionContexts(g: Graph, s: Store, sessions: seq<Node>, f: Filter,
                           current: Option<Id>): (seq<RetrievedSession>, Store) {
    if sessions == [] then ([], s)
    else
      var k := |sessions| - 1;
      var (before, t) := SessionContexts(g, s, sessions[..k], f, current);
      var (last, u) := SessionContext(g, t, sessions[k], f, Some(sessions[k].id) != current);
      (before + last, u)
  }

  function TaskCatalog(g: Graph, s: Store, r: Request): (seq<Node>, Store) {
    if r.taskBreadth.None? then ([], s)
    else
      var matched := Matching(Filter(r.hints, r.taskBreadth.value), ByRecency(s.nodes, g.tasks), TASK_FIELDS);
      (matched, MarkRead(s, IdList(matched)))
  }

  function PastContext(g: Graph, s: Store, r: Request, current: Option<Id>): (seq<RetrievedSession>, Store) {
    if r.pastBreadth.None? then ([], s)
    else SessionContexts(g, s, ByRecency(s.nodes, g.sessions), Filter(r.hints, r.pastBreadth.value), current)
  }

  /** `mark_records_read`: mark each record in turn and return it as updated. */
  function TouchEach(s: Store, records: seq<Node>): (seq<Node>, Store) {
    if records == [] then ([], s)
    else
      var k := |records| - 1;
      var (before, t) := TouchEach(s, records[..k]);
      var u := MarkEach(t, [records[k].id]);
      (before + [if records[k].id in u.nodes then u.nodes[records[k].id] else records[k]], u)
  }

  /** All memories of the current session, whatever the filter. */
  function CurrentMemories(g: Graph, s: Store, current: Option<Id>): (seq<Node>, Store) {
    if current.None? then ([], s) else TouchEach(s, ByRecency(s.nodes, Targets(g.memories, current.value)))
  }

  function Retrieve(g: Graph, s: Store, r: Request, current: Option<Id>): (Outcome<Retrieved>, Store) {
    var (tasks, t) := TaskCatalog(g, s, r);
    if current.Some? && !IsRecordId(current.value) then (ValueError, t)
    else
      var (sessions, u) := PastContext(g, t, r, current);
      var (memories, v) := CurrentMemories(g, u, current);
      (Ok(Retrieved(tasks, sessions, memories)), v)
  }

  // ---------- the retriever ----------

  class GraphMemoryRetriever {
    const graph: Graph
    const current: Option<Id>
    var store: Store

    constructor (graph: Graph, store: Store, current: Option<Id>)
      ensures this.graph == graph && this.store == store && this.current == current
    {
      this.graph, this.store, this.current := graph, store, current;
    }

    method MarkRecordIdsRead(ids: seq<Id>)
      modifies this
      ensures store == MarkRead(old(store), ids)
    {
      var distinct := Dedup(ids);
      for i := 0 to |distinct|
        invariant store == MarkEach(old(store), distinct[..i])
      {
        assert distinct[..i + 1][..i] == distinct[..i];
        var id := distinct[i];
        if id in store.nodes {
          store := Store(store.nodes[id := Touch(store.nodes[id], store.clock)], store.clock + 1);
        } else {
          store := Store(store.nodes, store.clock + 1);
        }
      }
      assert distinct[..|distinct|] == distinct;
    }

    method FilterMatching(f: Filter, nodes: seq<Node>, fields: seq<string>) returns (matched: seq<Node>)
      ensures matched == Matching(f, nodes, fields)
    {
      matched := [];
      for i := 0 to |nodes|
        invariant matched == Matching(f, nodes[..i], fields)
      {
        assert nodes[..i + 1][..i] == nodes[..i];
        var matches := CandidateMatches(f, nodes[i], fields);
        if matches {
          matched := matched + [nodes[i]];
        }
      }
      assert nodes[..|nodes|] == nodes;
    }

    method MessagesOf(conversation: Id, f: Filter) returns (messages: seq<Node>, ids: seq<Id>)
      modifies this
      ensures (messages, ids, store) == MessageCandidates(graph, old(store), conversation, f)
    {
      messages := Lookup(store.nodes, Targets(graph.messages, conversation));
      var matched := FilterMatching(f, messages, MESSAGE_FIELDS);
      if matched == [] {
        return [], [];
      }
      MarkRecordIdsRead(IdList(messages));
      ids := IdList(matched);
    }

    method ConversationsOf(session: Id, f: Filter) returns (contexts: seq<RetrievedConversation>)
      modifies this
      ensures (contexts, store) ==
              ConversationContexts(graph, old(store),
                                   ByRecency(old(store).nodes, Targets(graph.conversations, session)), f)
    {
      hide Matches, MessageCandidates;
      var conversations := ByRecency(store.nodes, Targets(graph.conversations, session));
      contexts := [];
      for i := 0 to |conversations|
        invariant (contexts, store) == ConversationContexts(graph, old(store), conversations[..i], f)
      {
        ConversationsStep(graph, old(store), conversations, i, f);
        var conversation := conversations[i];
        var matched := CandidateMatches(f, conversation, NAME_FIELDS);
        var messages, ids := MessagesOf(conversation.id, f);
        assert contexts + [] == contexts;
        if matched || messages != [] {
          MarkRecordIdsRead([conversation.id]);
          contexts := contexts + [RetrievedConversation(conversation, matched, messages, ids)];
        }
      }
      assert conversations[..|conversations|] == conversations;
    }

    method MemoriesOf(session: Id, f: Filter) returns (memories: seq<Node>)
      modifies this
      ensures (memories, store) == MemoryCandidates(graph, old(store), session, f)
    {
      memories := FilterMatching(f, ByRecency(store.nodes, Targets(graph.memories, session)), MEMORY_FIELDS);
      MarkRecordIdsRead(IdList(memories));
    }

    method ContextOf(session: Node, f: Filter, includeMemories: bool) returns (context: seq<RetrievedSession>)
      modifies this
      ensures (context, store) == SessionContext(graph, old(store), session, f, includeMemories)
    {
      var matched := CandidateMatches(f, session, NAME_FIELDS);
      var conversations := ConversationsOf(session.id, f);
      var memories := [];
      if includeMemories {
        memories := MemoriesOf(session.id, f);
      }
      if !matched && conversations == [] && memories == [] {
        return [];
      }
      MarkRecordIdsRead([session.id]);
      context := [RetrievedSession(session, matched, conversations, memories)];
    }

    method PastConversationContext(r: Request) returns (retrieved: seq<RetrievedSession>)
      modifies this
      ensures (retrieved, store) == PastContext(graph, old(store), r, current)
    {
      if r.pastBreadth.None? {
        return [];
      }
      var f := Filter(r.hints, r.pastBreadth.value);
      var sessions := ByRecency(store.nodes, graph.sessions);
      retrieved := [];
      for i := 0 to |sessions|
        invariant (retrieved, store) == SessionContexts(graph, old(store), sessions[..i], f, current)
      {
        assert sessions[..i + 1][..i] == sessions[..i];
        var context := ContextOf(sessions[i], f, Some(sessions[i].id) != current);
        retrieved := retrieved + context;
      }
      assert sessions[..|sessions|] == sessions;
    }

    method Catalog(r: Request) returns (tasks: seq<Node>)
      modifies this
      ensures (tasks, store) == TaskCatalog(graph, old(store), r)
    {
      if r.taskBreadth.None? {
        return [];
      }
      tasks := FilterMatching(Filter(r.hints, r.taskBreadth.value), ByRecency(store.nodes, graph.tasks), TASK_FIELDS);
      MarkRecordIdsRead(IdList(tasks));
    }

    method CurrentSessionMemories() returns (memories: seq<Node>)
      modifies this
      ensures (memories, store) == CurrentMemories(graph, old(store), current)
    {
      if current.None? {
        return [];
      }
      var records := ByRecency(store.nodes, Targets(graph.memories, current.value));
      memories := [];
      for i := 0 to |records|
        invariant (memories, store) == TouchEach(old(store), records[..i])
      {
        assert records[..i + 1][..i] == records[..i];
        MarkRecordIdsRead([records[i].id]);
        assert Dedup([records[i].id]) == [records[i].id];
        memories := memories + [if records[i].id in store.nodes then store.nodes[records[i].id] else records[i]];
      }
      assert records[..|records|] == records;
    }

    method RetrieveContext(r: Request) returns (result: Outcome<Retrieved>)
      modifies this
      ensures (result, store) == Retrieve(graph, old(store), r, current)
    {
      var tasks := Catalog(r);
      if current.Some? && !IsRecordId(current.value) {
        return ValueError;
      }
      var sessions := PastConversationContext(r);
      var memories := CurrentSessionMemories();
      return Ok(Retrieved(tasks, sessions, memories));
    }
  }
}
