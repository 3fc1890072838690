/**
 On a tree-shaped graph a retrieval, although it marks nodes while it walks, returns what a plain
 filter over the store before the call would select.
 */
module RetrievalSnapshot {
  import opened Ids
  import opened Nodes
  import opened Retrieval
  import opened RetrievalMarks

  // ---------- the plain filter ----------

  function SnapMessages(g: Graph, nodes: NodeMap, conversation: Id, f: Filter): (seq<Node>, seq<Id>) {
    var messages := Lookup(nodes, Targets(g.messages, conversation));
    var matched := Matching(f, messages, MESSAGE_FIELDS);
    if matched == [] then ([], []) else (messages, IdList(matched))
  }

  function SnapConversation(g: Graph, nodes: NodeMap, c: Node, f: Filter): seq<RetrievedConversation> {
    var matched := Matches(f, c, NAME_FIELDS);
    var (messages, ids) := SnapMessages(g, nodes, c.id, f);
    if matched || messages != [] then [RetrievedConversation(c, matched, messages, ids)] else []
  }

  function SnapConversations(g: Graph, nodes: NodeMap, cs: seq<Node>, f: Filter): seq<RetrievedConversation> {
    if cs == [] then []
    else
      var k := |cs| - 1;
      SnapConversations(g, nodes, cs[..k], f) + SnapConversation(g, nodes, cs[k], f)
  }

  function SnapMemories(g: Graph, nodes: NodeMap, session: Id, f: Filter): seq<Node> {
    Matching(f, ByRecency(nodes, Targets(g.memories, session)), MEMORY_FIELDS)
  }

  function SnapSession(g: Graph, nodes: NodeMap, session: Node, f: Filter,
                       includeMemories: bool): seq<RetrievedSession> {
    var matched := Matches(f, session, NAME_FIELDS);
    var conversations := SnapConversations(g, nodes, ByRecency(nodes, Targets(g.conversations, session.id)), f);
    var memories := if includeMemories then SnapMemories(g, nodes, session.id, f) else [];
    if !matched && conversations == [] && memories == [] then []
    else [RetrievedSession(session, matched, conversations, memories)]
  }

  function SnapSessions(g: Graph, nodes: NodeMap, ss: seq<Node>, f: Filter,
                        current: Option<Id>): seq<RetrievedSession> {
    if ss == [] then []
    else
      var k := |ss| - 1;
      SnapSessions(g, nodes, ss[..k], f, current) + SnapSession(g, nodes, ss[k], f, Some(ss[k].id) != current)
  }

  function SnapTasks(g: Graph, nodes: NodeMap, r: Request): seq<Node> {
    if r.taskBreadth.None? then []
    else Matching(Filter(r.hints, r.taskBreadth.value), ByRecency(nodes, g.tasks), TASK_FIELDS)
  }

  function SnapPast(g: Graph, nodes: NodeMap, r: Request, current: Option<Id>): seq<RetrievedSession> {
    if r.pastBreadth.None? then []
    else SnapSessions(g, nodes, ByRecency(nodes, g.sessions), Filter(r.hints, r.pastBreadth.value), current)
  }

  // ---------- tree-shaped graphs ----------

  /** The messages of a list of conversations. */
  function MessagesBelow(g: Graph, conversations: seq<Id>): set<Id> {
    set c, m | c in conversations && m in Targets(g.messages, c) :: m
  }

  /** Everything that hangs below a session. */
  function Region(g: Graph, session: Id): set<Id> {
    var cs := Targets(g.conversations, session);
    SetOf(cs) + MessagesBelow(g, cs) + SetOf(Targets(g.memories, session))
  }

  /** No conversation, message or memory of a session is reached twice. */
  ghost predicate ConversationTree(g: Graph, cs: seq<Id>) {
    && NoDup(cs)
    && (forall c, d :: c in cs && d in cs && c != d ==> SetOf(Targets(g.messages, c)) !! SetOf(Targets(g.messages, d)))
    && forall c, d :: c in cs && d in cs ==> c !in Targets(g.messages, d)
  }

  ghost predicate SessionTree(g: Graph, session: Id) {
    var cs := Targets(g.conversations, session);
    && ConversationTree(g, cs)
    && SetOf(Targets(g.memories, session)) !! SetOf(cs) + MessagesBelow(g, cs)
  }

  /** No node is reached along two ways. */
  ghost predicate Tree(g: Graph, current: Option<Id>) {
    && NoDup(g.sessions)
    && (forall s :: s in g.sessions ==> SessionTree(g, s))
    && (forall s, t :: s in g.sessions && t in g.sessions && s != t ==> Region(g, s) !! Region(g, t))
    && (forall s, t :: s in g.sessions && t in g.sessions ==> s !in Region(g, t))
    && (forall s :: s in g.sessions ==> SetOf(g.tasks) !! Region(g, s) + {s})
    && (current.Some? ==> SetOf(Targets(g.memories, current.value)) !! SetOf(g.tasks) + SetOf(g.sessions))
    && (current.Some? ==> forall s :: s in g.sessions && s != current.value ==>
                            SetOf(Targets(g.memories, current.value)) !! Region(g, s))
  }

  // ---------- agreement of two stores ----------

  ghost predicate Same(a: NodeMap, b: NodeMap, id: Id) {
    (id in a <==> id in b) && (id in a ==> a[id] == b[id])
  }

  ghost predicate Agree(a: NodeMap, b: NodeMap, ids: set<Id>) {
    forall id :: id in ids ==> Same(a, b, id)
  }

  lemma {:induction false} LookupAgree(a: NodeMap, b: NodeMap, ids: seq<Id>)
    requires Agree(a, b, SetOf(ids))
    ensures Lookup(a, ids) == Lookup(b, ids)
  {
    if ids != [] {
      var k := |ids| - 1;
      assert SetOf(ids[..k]) <= SetOf(ids);
      LookupAgree(a, b, ids[..k]);
      assert ids[k] in SetOf(ids);
    }
  }

  /** Marking nodes outside a set of ids leaves agreement on that set. */
  lemma MarkedAgree(s: Store, t: Store, base: NodeMap, marked: set<Id>, ids: set<Id>)
    requires Marked(s, t, marked) && Agree(s.nodes, base, ids) && marked !! ids
    ensures Agree(t.nodes, base, ids)
  {
  }

  // ---------- distinct ids of query results ----------

  ghost predicate DistinctIds(nodes: seq<Node>) {
    forall i, j :: 0 <= i < j < |nodes| ==> nodes[i].id != nodes[j].id
  }

  lemma {:induction false} LookupDistinct(nodes: NodeMap, ids: seq<Id>)
    requires WellKeyed(nodes) && NoDup(ids)
    ensures DistinctIds(Lookup(nodes, ids))
  {
    if ids != [] {
      var k := |ids| - 1;
      LookupDistinct(nodes, ids[..k]);
      LookupElements(nodes, ids[..k]);
      var before := Lookup(nodes, ids[..k]);
      forall i | 0 <= i < |before|
        ensures before[i].id != ids[k]
      {
        assert before[i] in before;
        var id :| id in ids[..k] && id in nodes && before[i] == nodes[id];
        assert ids[k] != id;
      }
    }
  }

  lemma {:induction false} InsertDistinct(sorted: seq<Node>, x: Node)
    requires DistinctIds(sorted) && forall n :: n in sorted ==> n.id != x.id
    ensures DistinctIds(InsertByRecency(sorted, x))
    ensures forall n :: n in InsertByRecency(sorted, x) ==> n in sorted || n == x
  {
    if sorted != [] {
      var k := |sorted| - 1;
      InsertDistinct(sorted[..k], x);
      var before := InsertByRecency(sorted[..k], x);
      forall i | 0 <= i < |before|
        ensures before[i].id != sorted[k].id
      {
        assert before[i] in before;
      }
    }
  }

  lemma {:induction false} SortDistinct(nodes: seq<Node>)
    requires DistinctIds(nodes)
    ensures DistinctIds(SortByRecency(nodes))
    ensures forall n :: n in SortByRecency(nodes) ==> n in nodes
  {
    if nodes != [] {
      var k := |nodes| - 1;
      SortDistinct(nodes[..k]);
      InsertDistinct(SortByRecency(nodes[..k]), nodes[k]);
    }
  }

  lemma RecencyDistinct(nodes: NodeMap, ids: seq<Id>)
    requires WellKeyed(nodes) && NoDup(ids)
    ensures DistinctIds(ByRecency(nodes, ids))
    ensures forall n :: n in ByRecency(nodes, ids) ==> n.id in ids && n.id in nodes && n == nodes[n.id]
  {
    LookupDistinct(nodes, ids);
    SortDistinct(Lookup(nodes, ids));
    RecencyElements(nodes, ids);
  }

  // ---------- the walk equals the filter ----------

  lemma MessagesSnap(g: Graph, s: Store, base: NodeMap, conversation: Id, f: Filter)
    requires Agree(s.nodes, base, SetOf(Targets(g.messages, conversation)))
    ensures MessageCandidates(g, s, conversation, f).0 == SnapMessages(g, base, conversation, f).0
    ensures MessageCandidates(g, s, conversation, f).1 == SnapMessages(g, base, conversation, f).1
  {
    LookupAgree(s.nodes, base, Targets(g.messages, conversation));
  }

  lemma LookupIds(nodes: NodeMap, ids: seq<Id>)
    requires WellKeyed(nodes)
    ensures IdsOf(Lookup(nodes, ids)) <= SetOf(ids)
  {
    LookupElements(nodes, ids);
  }

  /** What one conversation contributes lies within itself and its messages. */
  lemma ConversationSnap(g: Graph, s: Store, base: NodeMap, c: Node, f: Filter)
    requires Agree(s.nodes, base, SetOf(Targets(g.messages, c.id))) && WellKeyed(base)
    ensures ConversationStep(g, s, c, f).0 == SnapConversation(g, base, c, f)
    ensures ConversationIds(SnapConversation(g, base, c, f)) <= {c.id} + SetOf(Targets(g.messages, c.id))
  {
    MessagesSnap(g, s, base, c.id, f);
    LookupIds(base, Targets(g.messages, c.id));
    var (messages, ids) := SnapMessages(g, base, c.id, f);
    OneConversationIds(RetrievedConversation(c, Matches(f, c, NAME_FIELDS), messages, ids));
  }

  /** Conversations with distinct ids whose messages are disjoint from each other and from the conversations. */
  ghost predicate Apart(g: Graph, cs: seq<Node>) {
    && (forall i, j :: 0 <= i < j < |cs| ==>
          SetOf(Targets(g.messages, cs[i].id)) !! SetOf(Targets(g.messages, cs[j].id)))
    && forall i, j :: 0 <= i < |cs| && 0 <= j < |cs| ==> cs[i].id !in Targets(g.messages, cs[j].id)
  }

  function Covered(g: Graph, cs: seq<Node>): set<Id> {
    if cs == [] then {}
    else
      var k := |cs| - 1;
      Covered(g, cs[..k]) + {cs[k].id} + SetOf(Targets(g.messages, cs[k].id))
  }

  lemma {:induction false} CoveredPrefixApart(g: Graph, cs: seq<Node>, k: nat, n: nat)
    requires Apart(g, cs) && n <= k < |cs|
    ensures Covered(g, cs[..n]) !! SetOf(Targets(g.messages, cs[k].id))
  {
    if n > 0 {
      CoveredPrefixApart(g, cs, k, n - 1);
      assert cs[..n][..n - 1] == cs[..n - 1];
      assert cs[n - 1].id !in Targets(g.messages, cs[k].id);
    }
  }

  /** The conversations before the `k`-th leave its messages as they were. */
  lemma EarlierLeaveMessages(g: Graph, s: Store, base: NodeMap, cs: seq<Node>, k: nat, f: Filter)
    requires WellKeyed(base) && Apart(g, cs) && k < |cs|
    requires Agree(s.nodes, base, SetOf(Targets(g.messages, cs[k].id)))
    requires ConversationContexts(g, s, cs[..k], f).0 == SnapConversations(g, base, cs[..k], f)
    requires ConversationIds(SnapConversations(g, base, cs[..k], f)) <= Covered(g, cs[..k])
    ensures Agree(ConversationContexts(g, s, cs[..k], f).1.nodes, base, SetOf(Targets(g.messages, cs[k].id)))
  {
    ConversationsMark(g, s, cs[..k], f);
    CoveredPrefixApart(g, cs, k, k);
    MarkedAgree(s, ConversationContexts(g, s, cs[..k], f).1, base,
                ConversationIds(SnapConversations(g, base, cs[..k], f)), SetOf(Targets(g.messages, cs[k].id)));
  }

  lemma LastConversation(g: Graph, s: Store, base: NodeMap, cs: seq<Node>, f: Filter)
    requires cs != []
    ensures var k := |cs| - 1; var t := ConversationContexts(g, s, cs[..k], f).1;
            && ConversationContexts(g, s, cs, f).0 ==
               ConversationContexts(g, s, cs[..k], f).0 + ConversationStep(g, t, cs[k], f).0
            && SnapConversations(g, base, cs, f) ==
               SnapConversations(g, base, cs[..k], f) + SnapConversation(g, base, cs[k], f)
            && Covered(g, cs) == Covered(g, cs[..k]) + {cs[k].id} + SetOf(Targets(g.messages, cs[k].id))
  {
  }

  lemma {:induction false} ConversationsSnap(g: Graph, s: Store, base: NodeMap, cs: seq<Node>, f: Filter)
    requires WellKeyed(base) && Apart(g, cs)
    requires forall i :: 0 <= i < |cs| ==> Agree(s.nodes, base, SetOf(Targets(g.messages, cs[i].id)))
    ensures ConversationContexts(g, s, cs, f).0 == SnapConversations(g, base, cs, f)
    ensures ConversationIds(SnapConversations(g, base, cs, f)) <= Covered(g, cs)
  {
    if cs != [] {
      var k := |cs| - 1;
      assert Apart(g, cs[..k]);
      LastConversation(g, s, base, cs, f);
      hide *;
      ConversationsSnap(g, s, base, cs[..k], f);
      var t := ConversationContexts(g, s, cs[..k], f).1;
      EarlierLeaveMessages(g, s, base, cs, k, f);
      ConversationSnap(g, t, base, cs[k], f);
      ConversationIdsAppend(SnapConversations(g, base, cs[..k], f), SnapConversation(g, base, cs[k], f));
    }
  }

  lemma TreeApart(g: Graph, nodes: NodeMap, ids: seq<Id>)
    requires WellKeyed(nodes) && ConversationTree(g, ids)
    ensures Apart(g, ByRecency(nodes, ids))
  {
    RecencyDistinct(nodes, ids);
    var cs := ByRecency(nodes, ids);
    forall i | 0 <= i < |cs|
      ensures cs[i].id in ids
    {
      assert cs[i] in cs;
    }
  }

  lemma {:induction false} CoveredInRegion(g: Graph, ids: seq<Id>, cs: seq<Node>)
    requires forall c :: c in cs ==> c.id in ids
    ensures Covered(g, cs) <= SetOf(ids) + MessagesBelow(g, ids)
  {
    if cs != [] {
      var k := |cs| - 1;
      CoveredInRegion(g, ids, cs[..k]);
      assert cs[k] in cs;
    }
  }

  function MatchingIds(f: Filter, nodes: seq<Node>, fields: seq<string>): set<Id> {
    set n | n in nodes && Matches(f, n, fields) :: n.id
  }

  lemma {:induction false} MatchingMembers(f: Filter, nodes: seq<Node>, fields: seq<string>)
    ensures forall n :: n in Matching(f, nodes, fields) <==> n in nodes && Matches(f, n, fields)
    ensures IdsOf(Matching(f, nodes, fields)) == MatchingIds(f, nodes, fields)
  {
    if nodes != [] {
      var k := |nodes| - 1;
      MatchingMembers(f, nodes[..k], fields);
      assert nodes == nodes[..k] + [nodes[k]];
    }
  }

  lemma SnapMemoryIds(g: Graph, nodes: NodeMap, session: Id, f: Filter)
    requires WellKeyed(nodes)
    ensures IdsOf(SnapMemories(g, nodes, session, f)) <= SetOf(Targets(g.memories, session))
  {
    MatchingMembers(f, ByRecency(nodes, Targets(g.memories, session)), MEMORY_FIELDS);
    RecencyElements(nodes, Targets(g.memories, session));
  }

  /** The conversations of one session, and what they leave untouched. */
  lemma SessionConversationsSnap(g: Graph, s: Store, base: NodeMap, session: Id, f: Filter)
    requires WellKeyed(base) && SessionTree(g, session) && Agree(s.nodes, base, Region(g, session))
    ensures var list, snap := ByRecency(s.nodes, Targets(g.conversations, session)),
            ByRecency(base, Targets(g.conversations, session));
            var (conversations, t) := ConversationContexts(g, s, list, f);
            && list == snap
            && conversations == SnapConversations(g, base, snap, f)
            && ConversationIds(conversations) <=
               SetOf(Targets(g.conversations, session)) + MessagesBelow(g, Targets(g.conversations, session))
            && Marked(s, t, ConversationIds(conversations))
            && Agree(t.nodes, base, SetOf(Targets(g.memories, session)))
  {
    var ids := Targets(g.conversations, session);
    assert Agree(s.nodes, base, SetOf(ids));
    LookupAgree(s.nodes, base, ids);
    var list := ByRecency(base, ids);
    TreeApart(g, base, ids);
    RecencyDistinct(base, ids);
    forall i | 0 <= i < |list|
      ensures Agree(s.nodes, base, SetOf(Targets(g.messages, list[i].id)))
    {
      assert list[i] in list;
      assert SetOf(Targets(g.messages, list[i].id)) <= MessagesBelow(g, ids);
    }
    ConversationsSnap(g, s, base, list, f);
    CoveredInRegion(g, ids, list);
    ConversationsMark(g, s, list, f);
    var t := ConversationContexts(g, s, list, f).1;
    MarkedAgree(s, t, base, ConversationIds(SnapConversations(g, base, list, f)), SetOf(Targets(g.memories, session)));
  }

  lemma SessionSnap(g: Graph, s: Store, base: NodeMap, session: Node, f: Filter, includeMemories: bool)
    requires WellKeyed(base) && SessionTree(g, session.id) && Agree(s.nodes, base, Region(g, session.id))
    ensures SessionContext(g, s, session, f, includeMemories).0 == SnapSession(g, base, session, f, includeMemories)
    ensures SessionIds(SnapSession(g, base, session, f, includeMemories)) <= {session.id} + Region(g, session.id)
  {
    SessionConversationsSnap(g, s, base, session.id, f);
    var list := ByRecency(base, Targets(g.conversations, session.id));
    var t := ConversationContexts(g, s, list, f).1;
    LookupAgree(t.nodes, base, Targets(g.memories, session.id));
    SnapMemoryIds(g, base, session.id, f);
    var memories := if includeMemories then SnapMemories(g, base, session.id, f) else [];
    assert IdsOf([]) == {};
    OneSessionIds(RetrievedSession(session, Matches(f, session, NAME_FIELDS), SnapConversations(g, base, list, f),
                                   memories));
  }

  /** Ids below the first `n` sessions of a list, and the sessions themselves. */
  function Reached(g: Graph, ss: seq<Node>): set<Id> {
    if ss == [] then {}
    else
      var k := |ss| - 1;
      Reached(g, ss[..k]) + {ss[k].id} + Region(g, ss[k].id)
  }

  ghost predicate SessionsApart(g: Graph, ss: seq<Node>) {
    && (forall i :: 0 <= i < |ss| ==> SessionTree(g, ss[i].id))
    && (forall i, j :: 0 <= i < j < |ss| ==> Region(g, ss[i].id) !! Region(g, ss[j].id))
    && forall i, j :: 0 <= i < |ss| && 0 <= j < |ss| ==> ss[i].id !in Region(g, ss[j].id)
  }

  lemma {:induction false} ReachedApart(g: Graph, ss: seq<Node>, k: nat, n: nat)
    requires SessionsApart(g, ss) && n <= k < |ss|
    ensures Reached(g, ss[..n]) !! Region(g, ss[k].id)
  {
    if n > 0 {
      ReachedApart(g, ss, k, n - 1);
      assert ss[..n][..n - 1] == ss[..n - 1];
    }
  }

  /** The sessions before the `k`-th leave everything below it as it was. */
  lemma EarlierLeaveRegion(g: Graph, s: Store, base: NodeMap, ss: seq<Node>, k: nat, f: Filter, current: Option<Id>)
    requires WellKeyed(base) && SessionsApart(g, ss) && k < |ss| && Agree(s.nodes, base, Region(g, ss[k].id))
    requires SessionContexts(g, s, ss[..k], f, current).0 == SnapSessions(g, base, ss[..k], f, current)
    requires SessionIds(SnapSessions(g, base, ss[..k], f, current)) <= Reached(g, ss[..k])
    ensures Agree(SessionContexts(g, s, ss[..k], f, current).1.nodes, base, Region(g, ss[k].id))
  {
    SessionsMark(g, s, ss[..k], f, current);
    ReachedApart(g, ss, k, k);
    MarkedAgree(s, SessionContexts(g, s, ss[..k], f, current).1, base,
                SessionIds(SnapSessions(g, base, ss[..k], f, current)), Region(g, ss[k].id));
  }

  lemma {:induction false} SessionsSnap(g: Graph, s: Store, base: NodeMap, ss: seq<Node>, f: Filter,
                                        current: Option<Id>)
    requires WellKeyed(base) && SessionsApart(g, ss)
    requires forall i :: 0 <= i < |ss| ==> Agree(s.nodes, base, Region(g, ss[i].id))
    ensures SessionContexts(g, s, ss, f, current).0 == SnapSessions(g, base, ss, f, current)
    ensures SessionIds(SnapSessions(g, base, ss, f, current)) <= Reached(g, ss)
  {
    if ss != [] {
      var k := |ss| - 1;
      var includeMemories := Some(ss[k].id) != current;
      assert SessionsApart(g, ss[..k]);
      SessionsSnap(g, s, base, ss[..k], f, current);
      var t := SessionContexts(g, s, ss[..k], f, current).1;
      EarlierLeaveRegion(g, s, base, ss, k, f, current);
      SessionSnap(g, t, base, ss[k], f, includeMemories);
      SessionIdsAppend(SnapSessions(g, base, ss[..k], f, current), SnapSession(g, base, ss[k], f, includeMemories));
    }
  }

  lemma TreeSessionsApart(g: Graph, nodes: NodeMap, current: Option<Id>)
    requires WellKeyed(nodes) && Tree(g, current)
    ensures SessionsApart(g, ByRecency(nodes, g.sessions))
  {
    RecencyDistinct(nodes, g.sessions);
    var ss := ByRecency(nodes, g.sessions);
    forall i | 0 <= i < |ss|
      ensures ss[i].id in g.sessions
    {
      assert ss[i] in ss;
    }
  }

  lemma TaskIds(g: Graph, nodes: NodeMap, r: Request)
    requires WellKeyed(nodes)
    ensures IdsOf(SnapTasks(g, nodes, r)) <= SetOf(g.tasks)
  {
    if r.taskBreadth.Some? {
      MatchingMembers(Filter(r.hints, r.taskBreadth.value), ByRecency(nodes, g.tasks), TASK_FIELDS);
      RecencyElements(nodes, g.tasks);
    }
  }

  lemma PastSnap(g: Graph, s: Store, base: NodeMap, r: Request, current: Option<Id>)
    requires WellKeyed(base) && Tree(g, current)
    requires Agree(s.nodes, base, SetOf(g.sessions))
    requires forall i :: i in g.sessions ==> Agree(s.nodes, base, Region(g, i))
    ensures PastContext(g, s, r, current).0 == SnapPast(g, base, r, current)
  {
    if r.pastBreadth.Some? {
      LookupAgree(s.nodes, base, g.sessions);
      var ss := ByRecency(base, g.sessions);
      TreeSessionsApart(g, base, current);
      RecencyDistinct(base, g.sessions);
      forall i | 0 <= i < |ss|
        ensures Agree(s.nodes, base, Region(g, ss[i].id))
      {
        assert ss[i] in ss;
      }
      SessionsSnap(g, s, base, ss, Filter(r.hints, r.pastBreadth.value), current);
    }
  }

  /** On a tree, the walk returns what the plain filter selects from the store before the call. */
  lemma RetrieveIsSnapshot(g: Graph, s: Store, r: Request, current: Option<Id>)
    requires WellKeyed(s.nodes) && Tree(g, current)
    ensures var result := Retrieve(g, s, r, current).0;
            result.Ok? ==>
            result.value.tasks == SnapTasks(g, s.nodes, r) && result.value.sessions == SnapPast(g, s.nodes, r, current)
  {
    var (tasks, t) := TaskCatalog(g, s, r);
    assert Marked(s, t, IdsOf(tasks)) by {
      MarkNodes(s, tasks);
      assert IdsOf([]) == {};
    }
    TaskIds(g, s.nodes, r);
    MarkedAgree(s, t, s.nodes, IdsOf(tasks), SetOf(g.sessions));
    forall i | i in g.sessions
      ensures Agree(t.nodes, s.nodes, Region(g, i))
    {
      MarkedAgree(s, t, s.nodes, IdsOf(tasks), Region(g, i));
    }
    PastSnap(g, t, s.nodes, r, current);
  }
}
