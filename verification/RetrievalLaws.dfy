/**
 Which nodes a retrieval returns, on tree-shaped graphs: exactly those that match or lie above or
 beside a match; and looser requests return at least as much.
 */
module RetrievalLaws {
  import opened Ids
  import opened Retrieval
  import opened RetrievalMarks
  import opened RetrievalSnapshot

  // ---------- who is returned, said declaratively ----------

  ghost predicate MessageHit(g: Graph, nodes: NodeMap, c: Id, f: Filter) {
    exists m :: m in Targets(g.messages, c) && m in nodes && Matches(f, nodes[m], MESSAGE_FIELDS)
  }

  /** A conversation is selected by its own match or by that of one of its messages. */
  ghost predicate ConversationSelected(g: Graph, nodes: NodeMap, c: Id, f: Filter) {
    c in nodes && (Matches(f, nodes[c], NAME_FIELDS) || MessageHit(g, nodes, c, f))
  }

  ghost predicate MemoryHit(g: Graph, nodes: NodeMap, s: Id, f: Filter) {
    exists m :: m in Targets(g.memories, s) && m in nodes && Matches(f, nodes[m], MEMORY_FIELDS)
  }

  /**
   A session is selected by its own match, by a selected conversation, or by a matching memory unless it is
   current.
   */
  ghost predicate SessionSelected(g: Graph, nodes: NodeMap, s: Id, f: Filter, current: Option<Id>) {
    s in nodes &&
    (|| Matches(f, nodes[s], NAME_FIELDS)
     || (exists c :: c in Targets(g.conversations, s) && ConversationSelected(g, nodes, c, f))
     || (Some(s) != current && MemoryHit(g, nodes, s, f)))
  }

  /** `id` is returned as, or with, conversation `c`. */
  ghost predicate WithConversation(g: Graph, nodes: NodeMap, c: Id, f: Filter, id: Id) {
    || (id == c && ConversationSelected(g, nodes, c, f))
    || (c in nodes && id in Targets(g.messages, c) && id in nodes && MessageHit(g, nodes, c, f))
  }

  ghost predicate WithMemories(g: Graph, nodes: NodeMap, s: Id, f: Filter, id: Id) {
    id in Targets(g.memories, s) && id in nodes && Matches(f, nodes[id], MEMORY_FIELDS)
  }

  /** `id` is returned as, or with, session `s`. */
  ghost predicate WithSession(g: Graph, nodes: NodeMap, s: Id, f: Filter, current: Option<Id>, id: Id) {
    s in nodes &&
    (|| (id == s && SessionSelected(g, nodes, s, f, current))
     || (exists c :: c in Targets(g.conversations, s) && WithConversation(g, nodes, c, f, id))
     || (Some(s) != current && WithMemories(g, nodes, s, f, id)))
  }

  ghost predicate InPast(g: Graph, nodes: NodeMap, f: Filter, current: Option<Id>, id: Id) {
    exists s :: s in g.sessions && WithSession(g, nodes, s, f, current, id)
  }

  // ---------- the filter returns exactly those ----------

  lemma MessagesReturned(g: Graph, nodes: NodeMap, c: Id, f: Filter)
    requires WellKeyed(nodes)
    ensures SnapMessages(g, nodes, c, f).0 != [] <==> MessageHit(g, nodes, c, f)
    ensures forall id :: id in IdsOf(SnapMessages(g, nodes, c, f).0) <==>
              id in Targets(g.messages, c) && id in nodes && MessageHit(g, nodes, c, f)
  {
    var messages := Lookup(nodes, Targets(g.messages, c));
    LookupElements(nodes, Targets(g.messages, c));
    MatchingMembers(f, messages, MESSAGE_FIELDS);
    var matched := Matching(f, messages, MESSAGE_FIELDS);
    if matched != [] {
      assert matched[0] in matched;
    }
    if m :| m in Targets(g.messages, c) && m in nodes && Matches(f, nodes[m], MESSAGE_FIELDS) {
      assert nodes[m] in messages && nodes[m] in matched;
    }
    forall id | id in Targets(g.messages, c) && id in nodes
      ensures id in IdsOf(messages)
    {
      assert nodes[id] in messages;
    }
  }

  lemma ConversationReturned(g: Graph, nodes: NodeMap, c: Node, f: Filter, id: Id)
    requires WellKeyed(nodes) && c.id in nodes && c == nodes[c.id]
    ensures SnapConversation(g, nodes, c, f) != [] <==> ConversationSelected(g, nodes, c.id, f)
    ensures id in ConversationIds(SnapConversation(g, nodes, c, f)) <==> WithConversation(g, nodes, c.id, f, id)
  {
    MessagesReturned(g, nodes, c.id, f);
    var (messages, ids) := SnapMessages(g, nodes, c.id, f);
    OneConversationIds(RetrievedConversation(c, Matches(f, c, NAME_FIELDS), messages, ids));
  }

  ghost predicate Stored(nodes: NodeMap, ns: seq<Node>) {
    forall n :: n in ns ==> n.id in nodes && n == nodes[n.id]
  }

  lemma {:induction false} ConversationsReturned(g: Graph, nodes: NodeMap, cs: seq<Node>, f: Filter, id: Id)
    requires WellKeyed(nodes) && Stored(nodes, cs)
    ensures SnapConversations(g, nodes, cs, f) != [] <==> exists c :: c in cs && ConversationSelected(g, nodes, c.id, f)
    ensures id in ConversationIds(SnapConversations(g, nodes, cs, f)) <==>
            exists c :: c in cs && WithConversation(g, nodes, c.id, f, id)
  {
    if cs != [] {
      var k := |cs| - 1;
      assert cs == cs[..k] + [cs[k]];
      ConversationsReturned(g, nodes, cs[..k], f, id);
      ConversationReturned(g, nodes, cs[k], f, id);
      ConversationIdsAppend(SnapConversations(g, nodes, cs[..k], f), SnapConversation(g, nodes, cs[k], f));
    }
  }

  lemma RecencyByIds(nodes: NodeMap, ids: seq<Id>)
    requires WellKeyed(nodes)
    ensures Stored(nodes, ByRecency(nodes, ids))
    ensures forall n :: n in ByRecency(nodes, ids) ==> n.id in ids
    ensures forall id :: id in ids && id in nodes ==> nodes[id] in ByRecency(nodes, ids) && nodes[id].id == id
  {
    RecencyElements(nodes, ids);
  }

  lemma SessionConversationsReturned(g: Graph, nodes: NodeMap, s: Id, f: Filter, id: Id)
    requires WellKeyed(nodes)
    ensures var cs := SnapConversations(g, nodes, ByRecency(nodes, Targets(g.conversations, s)), f);
            && (cs != [] <==> exists c :: c in Targets(g.conversations, s) && ConversationSelected(g, nodes, c, f))
            && (id in ConversationIds(cs) <==>
                exists c :: c in Targets(g.conversations, s) && WithConversation(g, nodes, c, f, id))
  {
    var ids := Targets(g.conversations, s);
    var list := ByRecency(nodes, ids);
    RecencyByIds(nodes, ids);
    ConversationsReturned(g, nodes, list, f, id);
    if c :| c in ids && ConversationSelected(g, nodes, c, f) {
      assert nodes[c] in list;
    }
    if c :| c in ids && WithConversation(g, nodes, c, f, id) {
      assert nodes[c] in list;
    }
  }

  lemma MemoriesReturned(g: Graph, nodes: NodeMap, s: Id, f: Filter)
    requires WellKeyed(nodes)
    ensures SnapMemories(g, nodes, s, f) != [] <==> MemoryHit(g, nodes, s, f)
    ensures forall id :: id in IdsOf(SnapMemories(g, nodes, s, f)) <==> WithMemories(g, nodes, s, f, id)
  {
    var list := ByRecency(nodes, Targets(g.memories, s));
    RecencyByIds(nodes, Targets(g.memories, s));
    MatchingMembers(f, list, MEMORY_FIELDS);
    var matched := SnapMemories(g, nodes, s, f);
    if matched != [] {
      assert matched[0] in matched;
    }
    if m :| m in Targets(g.memories, s) && m in nodes && Matches(f, nodes[m], MEMORY_FIELDS) {
      assert nodes[m] in matched;
    }
    forall id | WithMemories(g, nodes, s, f, id)
      ensures id in IdsOf(matched)
    {
      assert nodes[id] in matched;
    }
  }

  lemma SessionReturned(g: Graph, nodes: NodeMap, s: Node, f: Filter, current: Option<Id>, id: Id)
    requires WellKeyed(nodes) && s.id in nodes && s == nodes[s.id]
    ensures var context := SnapSession(g, nodes, s, f, Some(s.id) != current);
            && (context != [] <==> SessionSelected(g, nodes, s.id, f, current))
            && (id in SessionIds(context) <==> WithSession(g, nodes, s.id, f, current, id))
  {
    SessionConversationsReturned(g, nodes, s.id, f, id);
    MemoriesReturned(g, nodes, s.id, f);
    var conversations := SnapConversations(g, nodes, ByRecency(nodes, Targets(g.conversations, s.id)), f);
    var memories := if Some(s.id) != current then SnapMemories(g, nodes, s.id, f) else [];
    assert IdsOf([]) == {};
    OneSessionIds(RetrievedSession(s, Matches(f, s, NAME_FIELDS), conversations, memories));
  }

  lemma {:induction false} SessionsReturned(g: Graph, nodes: NodeMap, ss: seq<Node>, f: Filter, current: Option<Id>,
                                            id: Id)
    requires WellKeyed(nodes) && Stored(nodes, ss)
    ensures id in SessionIds(SnapSessions(g, nodes, ss, f, current)) <==>
            exists s :: s in ss && WithSession(g, nodes, s.id, f, current, id)
  {
    if ss != [] {
      var k := |ss| - 1;
      assert ss == ss[..k] + [ss[k]];
      SessionsReturned(g, nodes, ss[..k], f, current, id);
      SessionReturned(g, nodes, ss[k], f, current, id);
      SessionIdsAppend(SnapSessions(g, nodes, ss[..k], f, current),
                       SnapSession(g, nodes, ss[k], f, Some(ss[k].id) != current));
    }
  }

  /** The plain filter returns exactly the nodes described by `InPast`. */
  lemma PastReturned(g: Graph, nodes: NodeMap, r: Request, current: Option<Id>, id: Id)
    requires WellKeyed(nodes) && r.pastBreadth.Some?
    ensures id in SessionIds(SnapPast(g, nodes, r, current)) <==>
            InPast(g, nodes, Filter(r.hints, r.pastBreadth.value), current, id)
  {
    var f := Filter(r.hints, r.pastBreadth.value);
    RecencyByIds(nodes, g.sessions);
    SessionsReturned(g, nodes, ByRecency(nodes, g.sessions), f, current, id);
    if s :| s in g.sessions && WithSession(g, nodes, s, f, current, id) {
      assert nodes[s] in ByRecency(nodes, g.sessions);
    }
  }

  ghost predicate InTasks(g: Graph, nodes: NodeMap, r: Request, id: Id) {
    r.taskBreadth.Some? && id in g.tasks && id in nodes &&
    Matches(Filter(r.hints, r.taskBreadth.value), nodes[id], TASK_FIELDS)
  }

  lemma TasksReturned(g: Graph, nodes: NodeMap, r: Request, id: Id)
    requires WellKeyed(nodes)
    ensures id in IdsOf(SnapTasks(g, nodes, r)) <==> InTasks(g, nodes, r, id)
  {
    if r.taskBreadth.Some? {
      RecencyByIds(nodes, g.tasks);
      MatchingMembers(Filter(r.hints, r.taskBreadth.value), ByRecency(nodes, g.tasks), TASK_FIELDS);
      if InTasks(g, nodes, r, id) {
        assert nodes[id] in SnapTasks(g, nodes, r);
      }
    }
  }

  /**
   On a tree, what a retrieval returns: the matching tasks, and in the past context exactly the
   sessions, conversations, messages and memories that match or have a match below or beside them.
   */
  lemma RetrieveReturns(g: Graph, s: Store, r: Request, current: Option<Id>, id: Id)
    requires WellKeyed(s.nodes) && Tree(g, current)
    ensures var result := Retrieve(g, s, r, current).0;
            result.Ok? ==>
              && (id in IdsOf(result.value.tasks) <==> InTasks(g, s.nodes, r, id))
              && (id in SessionIds(result.value.sessions) <==>
                    r.pastBreadth.Some? && InPast(g, s.nodes, Filter(r.hints, r.pastBreadth.value), current, id))
  {
    RetrieveIsSnapshot(g, s, r, current);
    TasksReturned(g, s.nodes, r, id);
    if r.pastBreadth.Some? {
      PastReturned(g, s.nodes, r, current, id);
    }
  }

  // ---------- monotonicity ----------

  ghost predicate Included(a: seq<string>, b: seq<string>) {
    forall x :: x in a ==> x in b
  }

  /** `b` has at least the positive hints of `a` and excludes at most the tags that `a` excludes. */
  ghost predicate HintsLooser(a: Hints, b: Hints) {
    && (forall t :: t in a.tags.anyOf || t in a.tags.allOf ==> t in b.tags.anyOf || t in b.tags.allOf)
    && Included(b.tags.noneOf, a.tags.noneOf)
    && Included(a.strings.contains, b.strings.contains) && Included(a.strings.equals, b.strings.equals)
  }

  ghost predicate BreadthLooser(a: Breadth, b: Breadth) {
    b.createdAfter <= a.createdAfter && b.updatedAfter <= a.updatedAfter && b.readAfter <= a.readAfter
  }

  ghost predicate OptionLooser(a: Option<Breadth>, b: Option<Breadth>) {
    a.Some? ==> b.Some? && BreadthLooser(a.value, b.value)
  }

  ghost predicate Looser(a: Request, b: Request) {
    HintsLooser(a.hints, b.hints) && OptionLooser(a.taskBreadth, b.taskBreadth) &&
    OptionLooser(a.pastBreadth, b.pastBreadth)
  }

  lemma MatchesLooser(a: Filter, b: Filter, n: Node, fields: seq<string>)
    requires HintsLooser(a.hints, b.hints) && BreadthLooser(a.breadth, b.breadth) && Matches(a, n, fields)
    ensures Matches(b, n, fields)
  {
    var values := FieldValues(n.content, fields);
    assert PositiveTag(a.hints.tags, n) ==> PositiveTag(b.hints.tags, n);
    assert PositiveString(a.hints.strings, values) ==> PositiveString(b.hints.strings, values);
    assert PositiveTag(b.hints.tags, n) ==> b.hints.tags.anyOf != [] || b.hints.tags.allOf != [];
    assert PositiveString(b.hints.strings, values) ==> b.hints.strings.contains != [] || b.hints.strings.equals != [];
  }
}
