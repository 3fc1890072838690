/** On every graph, a retrieval marks as read exactly the nodes that it returns. */
module RetrievalMarks {
  import opened Ids
  import opened Nodes
  import opened Retrieval

  // ---------- the ids of a result ----------

  function IdsOf(nodes: seq<Node>): set<Id> {
    set n | n in nodes :: n.id
  }

  function ConversationIds(cs: seq<RetrievedConversation>): set<Id> {
    if cs == [] then {}
    else
      var k := |cs| - 1;
      ConversationIds(cs[..k]) + {cs[k].conversation.id} + IdsOf(cs[k].messages)
  }

  function SessionIds(ss: seq<RetrievedSession>): set<Id> {
    if ss == [] then {}
    else
      var k := |ss| - 1;
      SessionIds(ss[..k]) + {ss[k].session.id} + ConversationIds(ss[k].conversations) + IdsOf(ss[k].memories)
  }

  function ReturnedIds(r: Retrieved): set<Id> {
    IdsOf(r.tasks) + SessionIds(r.sessions) + IdsOf(r.currentMemories)
  }

  ghost predicate WellKeyed(nodes: NodeMap) {
    forall id :: id in nodes ==> nodes[id].id == id
  }

  // ---------- what marking does to a store ----------

  ghost predicate TouchedWithin(before: Node, after: Node, lo: int, hi: int) {
    && after.stamps.readAt.Some? && lo <= after.stamps.readAt.value < hi
    && after == Touch(before, after.stamps.readAt.value)
  }

  /** From `a` to `b`, exactly the nodes in `ids` have a new `read_at`, taken from the clock in between. */
  ghost predicate Marked(a: Store, b: Store, ids: set<Id>) {
    && a.clock <= b.clock
    && b.nodes.Keys == a.nodes.Keys
    && forall id :: id in a.nodes ==>
         if id in ids then TouchedWithin(a.nodes[id], b.nodes[id], a.clock, b.clock) else b.nodes[id] == a.nodes[id]
  }

  lemma MarkedRefl(a: Store)
    ensures Marked(a, a, {})
  {
  }

  lemma MarkedTrans(a: Store, b: Store, c: Store, s: set<Id>, t: set<Id>)
    requires Marked(a, b, s) && Marked(b, c, t)
    ensures Marked(a, c, s + t)
  {
  }

  function SetOf(ids: seq<Id>): set<Id> {
    set id | id in ids
  }

  /** One update. */
  lemma MarkSingle(s: Store, id: Id)
    ensures Marked(s, MarkEach(s, [id]), {id})
  {
    assert [id][..0] == [];
  }

  lemma MarkEachStep(s: Store, ids: seq<Id>)
    requires ids != []
    ensures MarkEach(s, ids) == MarkEach(MarkEach(s, ids[..|ids| - 1]), [ids[|ids| - 1]])
    ensures SetOf(ids) == SetOf(ids[..|ids| - 1]) + {ids[|ids| - 1]}
  {
    assert [ids[|ids| - 1]][..0] == [];
    assert ids == ids[..|ids| - 1] + [ids[|ids| - 1]];
  }

  lemma {:induction false} MarkEachMarks(s: Store, ids: seq<Id>)
    ensures Marked(s, MarkEach(s, ids), SetOf(ids))
  {
    if ids != [] {
      var k := |ids| - 1;
      MarkEachMarks(s, ids[..k]);
      MarkSingle(MarkEach(s, ids[..k]), ids[k]);
      MarkEachStep(s, ids);
      MarkedTrans(s, MarkEach(s, ids[..k]), MarkEach(s, ids), SetOf(ids[..k]), {ids[k]});
    }
  }

  lemma MarkReadMarks(s: Store, ids: seq<Id>)
    ensures Marked(s, MarkRead(s, ids), SetOf(ids))
  {
    MarkEachMarks(s, Dedup(ids));
    assert SetOf(Dedup(ids)) == SetOf(ids);
  }

  lemma IdListSet(nodes: seq<Node>)
    ensures SetOf(IdList(nodes)) == IdsOf(nodes)
  {
    forall id | id in IdList(nodes)
      ensures id in IdsOf(nodes)
    {
      var i :| 0 <= i < |nodes| && IdList(nodes)[i] == id;
      assert nodes[i] in nodes;
    }
    forall id | id in IdsOf(nodes)
      ensures id in IdList(nodes)
    {
      var n :| n in nodes && n.id == id;
      var i :| 0 <= i < |nodes| && nodes[i] == n;
      assert IdList(nodes)[i] == id;
    }
  }

  lemma MarkNodes(s: Store, nodes: seq<Node>)
    ensures Marked(s, MarkRead(s, IdList(nodes)), IdsOf(nodes))
  {
    MarkReadMarks(s, IdList(nodes));
    IdListSet(nodes);
  }

  lemma MarkOne(s: Store, id: Id)
    ensures Marked(s, MarkRead(s, [id]), {id})
  {
    assert Dedup([id]) == [id];
    MarkSingle(s, id);
  }

  // ---------- each part of the walk ----------

  lemma MessagesMark(g: Graph, s: Store, conversation: Id, f: Filter)
    ensures var (messages, _, t) := MessageCandidates(g, s, conversation, f); Marked(s, t, IdsOf(messages))
  {
    MarkNodes(s, Lookup(s.nodes, Targets(g.messages, conversation)));
  }

  lemma ConversationIdsAppend(before: seq<RetrievedConversation>, last: seq<RetrievedConversation>)
    requires |last| <= 1
    ensures ConversationIds(before + last) == ConversationIds(before) + ConversationIds(last)
  {
    if last == [] {
      assert before + last == before;
    } else {
      assert (before + last)[..|before|] == before && last[..0] == [];
    }
  }

  lemma OneConversationIds(c: RetrievedConversation)
    ensures ConversationIds([c]) == IdsOf(c.messages) + {c.conversation.id}
  {
    assert [c][..0] == [];
  }

  lemma ConversationMarks(g: Graph, s: Store, c: Node, f: Filter)
    ensures var (last, t) := ConversationStep(g, s, c, f); |last| <= 1 && Marked(s, t, ConversationIds(last))
  {
    var (messages, ids, t) := MessageCandidates(g, s, c.id, f);
    var matched := Matches(f, c, NAME_FIELDS);
    MessagesMark(g, s, c.id, f);
    if matched || messages != [] {
      assert Marked(s, MarkRead(t, [c.id]), IdsOf(messages) + {c.id}) by {
        MarkOne(t, c.id);
        MarkedTrans(s, t, MarkRead(t, [c.id]), IdsOf(messages), {c.id});
      }
      OneConversationIds(RetrievedConversation(c, matched, messages, ids));
    } else {
      assert IdsOf(messages) == {};
    }
  }

  lemma {:induction false} ConversationsMark(g: Graph, s: Store, conversations: seq<Node>, f: Filter)
    ensures var (contexts, t) := ConversationContexts(g, s, conversations, f); Marked(s, t, ConversationIds(contexts))
  {
    if conversations != [] {
      var k := |conversations| - 1;
      ConversationsMark(g, s, conversations[..k], f);
      var (before, t) := ConversationContexts(g, s, conversations[..k], f);
      var (last, u) := ConversationStep(g, t, conversations[k], f);
      ConversationMarks(g, t, conversations[k], f);
      MarkedTrans(s, t, u, ConversationIds(before), ConversationIds(last));
      ConversationIdsAppend(before, last);
    }
  }

  lemma MemoriesMark(g: Graph, s: Store, session: Id, f: Filter)
    ensures var (memories, t) := MemoryCandidates(g, s, session, f); Marked(s, t, IdsOf(memories))
  {
    MarkNodes(s, MemoryCandidates(g, s, session, f).0);
  }

  lemma OneSessionIds(s: RetrievedSession)
    ensures SessionIds([s]) == ConversationIds(s.conversations) + IdsOf(s.memories) + {s.session.id}
  {
    assert [s][..0] == [];
  }

  lemma SessionMarks(g: Graph, s: Store, session: Node, f: Filter, includeMemories: bool)
    ensures var (context, t) := SessionContext(g, s, session, f, includeMemories);
            |context| <= 1 && Marked(s, t, SessionIds(context))
  {
    var list := ByRecency(s.nodes, Targets(g.conversations, session.id));
    var (conversations, t) := ConversationContexts(g, s, list, f);
    ConversationsMark(g, s, list, f);
    var (memories, u) := if includeMemories then MemoryCandidates(g, t, session.id, f) else ([], t);
    var ids := ConversationIds(conversations) + IdsOf(memories);
    assert Marked(s, u, ids) by {
      MemoriesMark(g, t, session.id, f);
      MarkedRefl(t);
      assert IdsOf([]) == {};
      MarkedTrans(s, t, u, ConversationIds(conversations), IdsOf(memories));
    }
    var matched := Matches(f, session, NAME_FIELDS);
    if !matched && conversations == [] && memories == [] {
      assert ids == {};
    } else {
      assert Marked(s, MarkRead(u, [session.id]), ids + {session.id}) by {
        MarkOne(u, session.id);
        MarkedTrans(s, u, MarkRead(u, [session.id]), ids, {session.id});
      }
      OneSessionIds(RetrievedSession(session, matched, conversations, memories));
    }
  }

  lemma SessionIdsAppend(before: seq<RetrievedSession>, last: seq<RetrievedSession>)
    requires |last| <= 1
    ensures SessionIds(before + last) == SessionIds(before) + SessionIds(last)
  {
    if last == [] {
      assert before + last == before;
    } else {
      assert (before + last)[..|before|] == before && last[..0] == [];
    }
  }

  lemma {:induction false} SessionsMark(g: Graph, s: Store, sessions: seq<Node>, f: Filter, current: Option<Id>)
    ensures var (contexts, t) := SessionContexts(g, s, sessions, f, current); Marked(s, t, SessionIds(contexts))
  {
    if sessions == [] {
      MarkedRefl(s);
    } else {
      hide SessionContext, Marked;
      var k := |sessions| - 1;
      SessionsMark(g, s, sessions[..k], f, current);
      var (before, t) := SessionContexts(g, s, sessions[..k], f, current);
      var includeMemories := Some(sessions[k].id) != current;
      var (last, u) := SessionContext(g, t, sessions[k], f, includeMemories);
      SessionMarks(g, t, sessions[k], f, includeMemories);
      MarkedTrans(s, t, u, SessionIds(before), SessionIds(last));
      SessionIdsAppend(before, last);
    }
  }

  lemma IdsOfAppend(nodes: seq<Node>, last: Node)
    ensures IdsOf(nodes + [last]) == IdsOf(nodes) + {last.id}
  {
    assert forall n :: n in nodes + [last] <==> n in nodes || n == last;
  }

  lemma {:induction false} TouchEachMarks(s: Store, records: seq<Node>)
    ensures Marked(s, TouchEach(s, records).1, IdsOf(records))
  {
    if records != [] {
      var k := |records| - 1;
      var init, last := records[..k], records[k];
      var t := TouchEach(s, init).1;
      TouchEachMarks(s, init);
      MarkSingle(t, last.id);
      MarkedTrans(s, t, MarkEach(t, [last.id]), IdsOf(init), {last.id});
      assert records == init + [last];
      IdsOfAppend(init, last);
    }
  }

  lemma {:induction false} TouchEachIds(s: Store, records: seq<Node>)
    requires WellKeyed(s.nodes) && forall n :: n in records ==> n.id in s.nodes
    ensures IdList(TouchEach(s, records).0) == IdList(records)
  {
    if records != [] {
      var k := |records| - 1;
      var init, last := records[..k], records[k];
      TouchEachIds(s, init);
      TouchEachMarks(s, records);
      var u := TouchEach(s, records).1;
      assert last in records && last.id in u.nodes && u.nodes[last.id].id == last.id;
      var before := TouchEach(s, init).0;
      assert TouchEach(s, records).0 == before + [u.nodes[last.id]];
      assert IdList(before + [u.nodes[last.id]]) == IdList(before) + [last.id];
      assert IdList(records) == IdList(init) + [last.id];
    }
  }

  // ---------- the whole retrieval ----------

  lemma {:induction false} LookupElements(nodes: NodeMap, ids: seq<Id>)
    ensures forall n :: n in Lookup(nodes, ids) <==> exists id :: id in ids && id in nodes && n == nodes[id]
  {
    if ids != [] {
      var k := |ids| - 1;
      LookupElements(nodes, ids[..k]);
      assert ids == ids[..k] + [ids[k]];
    }
  }

  lemma RecencyElements(nodes: NodeMap, ids: seq<Id>)
    ensures forall n :: n in ByRecency(nodes, ids) <==> exists id :: id in ids && id in nodes && n == nodes[id]
  {
    LookupElements(nodes, ids);
    SortElements(Lookup(nodes, ids));
    assert forall n :: n in ByRecency(nodes, ids) <==> n in multiset(ByRecency(nodes, ids));
    assert forall n :: n in Lookup(nodes, ids) <==> n in multiset(Lookup(nodes, ids));
  }

  lemma MarkedKeyed(a: Store, b: Store, ids: set<Id>)
    requires Marked(a, b, ids) && WellKeyed(a.nodes)
    ensures WellKeyed(b.nodes)
  {
  }

  lemma TasksMarked(g: Graph, s: Store, r: Request)
    ensures var (tasks, t) := TaskCatalog(g, s, r); Marked(s, t, IdsOf(tasks))
  {
    MarkNodes(s, TaskCatalog(g, s, r).0);
    MarkedRefl(s);
    assert IdsOf([]) == {};
  }

  lemma PastMarked(g: Graph, s: Store, r: Request, current: Option<Id>)
    ensures var (sessions, t) := PastContext(g, s, r, current); Marked(s, t, SessionIds(sessions))
  {
    MarkedRefl(s);
    if r.pastBreadth.Some? {
      SessionsMark(g, s, ByRecency(s.nodes, g.sessions), Filter(r.hints, r.pastBreadth.value), current);
    }
  }

  lemma CurrentMarked(g: Graph, s: Store, current: Option<Id>)
    requires WellKeyed(s.nodes)
    ensures var (memories, t) := CurrentMemories(g, s, current); Marked(s, t, IdsOf(memories))
  {
    MarkedRefl(s);
    assert IdsOf([]) == {};
    if current.Some? {
      var records := ByRecency(s.nodes, Targets(g.memories, current.value));
      RecencyElements(s.nodes, Targets(g.memories, current.value));
      TouchEachMarks(s, records);
      TouchEachIds(s, records);
      IdListSet(records);
      IdListSet(CurrentMemories(g, s, current).0);
    }
  }

  /** The marked ids are exactly the returned ids, on every graph and for every request. */
  lemma RetrieveMarksReturned(g: Graph, s: Store, r: Request, current: Option<Id>)
    requires WellKeyed(s.nodes)
    ensures var (result, t) := Retrieve(g, s, r, current); result.Ok? ==> Marked(s, t, ReturnedIds(result.value))
  {
    hide TaskCatalog, PastContext, CurrentMemories, Marked, WellKeyed, IdsOf, SessionIds;
    var (tasks, t) := TaskCatalog(g, s, r);
    TasksMarked(g, s, r);
    MarkedKeyed(s, t, IdsOf(tasks));
    var (sessions, u) := PastContext(g, t, r, current);
    PastMarked(g, t, r, current);
    MarkedKeyed(t, u, SessionIds(sessions));
    MarkedTrans(s, t, u, IdsOf(tasks), SessionIds(sessions));
    var (memories, v) := CurrentMemories(g, u, current);
    CurrentMarked(g, u, current);
    MarkedTrans(s, u, v, IdsOf(tasks) + SessionIds(sessions), IdsOf(memories));
  }
}
