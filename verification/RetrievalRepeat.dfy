/**
 What holds of a retrieval on every graph, shared nodes included, once its read cutoffs have passed: it
 returns every node that the store before the call selects, and repeating it returns at least the same.
 */
module RetrievalRepeat {
  import opened Ids
  import opened Retrieval
  import opened RetrievalMarks
  import opened RetrievalSnapshot
  import opened RetrievalLaws
  import opened RetrievalStability

  // ---------- stores along a run ----------

  /** The second store is reached from the first by marking. */
  ghost predicate Later(s: Store, t: Store) {
    exists ids :: Marked(s, t, ids)
  }

  lemma LaterBy(s: Store, t: Store, ids: set<Id>)
    requires Marked(s, t, ids)
    ensures Later(s, t)
  {
  }

  lemma LaterTrans(s: Store, t: Store, u: Store)
    requires Later(s, t) && Later(t, u)
    ensures Later(s, u)
  {
    var a :| Marked(s, t, a);
    var b :| Marked(t, u, b);
    MarkedTrans(s, t, u, a, b);
  }

  ghost predicate Fresher(f: Filter, a: NodeMap, b: NodeMap) {
    SameNodes(a, b) && WellKeyed(a) && forall id :: id in a ==> FreshlyRead(f, a[id], b[id])
  }

  lemma LaterFresher(f: Filter, s: Store, t: Store)
    requires Later(s, t) && WellKeyed(s.nodes) && f.breadth.readAfter <= s.clock
    ensures Fresher(f, s.nodes, t.nodes) && WellKeyed(t.nodes) && s.clock <= t.clock
  {
    var ids :| Marked(s, t, ids);
  }

  ghost predicate FresherList(f: Filter, xs: seq<Node>, ys: seq<Node>) {
    |xs| == |ys| && forall i :: 0 <= i < |xs| ==> FreshlyRead(f, xs[i], ys[i])
  }

  lemma LookupFresher(f: Filter, a: NodeMap, b: NodeMap, ids: seq<Id>)
    requires Fresher(f, a, b)
    ensures FresherList(f, Lookup(a, ids), Lookup(b, ids)) && SameShape(Lookup(a, ids), Lookup(b, ids))
  {
    LookupShape(a, b, ids);
    forall i | 0 <= i < |Lookup(a, ids)|
      ensures FreshlyRead(f, Lookup(a, ids)[i], Lookup(b, ids)[i])
    {
      LookupPairs(a, b, ids, i);
    }
  }

  lemma RecencyFresher(f: Filter, a: NodeMap, b: NodeMap, ids: seq<Id>)
    requires Fresher(f, a, b)
    ensures FresherList(f, ByRecency(a, ids), ByRecency(b, ids)) && SameShape(ByRecency(a, ids), ByRecency(b, ids))
  {
    RecencyShape(a, b, ids);
    forall i | 0 <= i < |ByRecency(a, ids)|
      ensures FreshlyRead(f, ByRecency(a, ids)[i], ByRecency(b, ids)[i])
    {
      RecencyPairs(a, b, ids, i);
    }
  }

  // ---------- one step, on fresher nodes ----------

  lemma MatchingMore(f: Filter, xs: seq<Node>, ys: seq<Node>, fields: seq<string>)
    requires FresherList(f, xs, ys) && SameShape(xs, ys)
    ensures IdsOf(Matching(f, xs, fields)) <= IdsOf(Matching(f, ys, fields))
    ensures Matching(f, xs, fields) != [] ==> Matching(f, ys, fields) != []
  {
    MatchingGrows(f, xs, ys, fields);
    if Matching(f, xs, fields) != [] {
      var n := Matching(f, xs, fields)[0];
      assert n in Matching(f, xs, fields) && n.id in IdsOf(Matching(f, ys, fields));
      var m :| m in Matching(f, ys, fields) && m.id == n.id;
    }
  }

  lemma SameShapeIds(xs: seq<Node>, ys: seq<Node>)
    requires SameShape(xs, ys)
    ensures IdsOf(xs) == IdsOf(ys)
  {
    ShapeIds(xs, ys);
    IdListSet(xs);
    IdListSet(ys);
  }

  lemma MessagesMore(g: Graph, f: Filter, a: NodeMap, b: NodeMap, c: Id)
    requires Fresher(f, a, b)
    ensures var x, y := SnapMessages(g, a, c, f).0, SnapMessages(g, b, c, f).0;
            IdsOf(x) <= IdsOf(y) && (x != [] ==> y != [])
  {
    var ids := Targets(g.messages, c);
    LookupFresher(f, a, b, ids);
    MatchingMore(f, Lookup(a, ids), Lookup(b, ids), MESSAGE_FIELDS);
    SameShapeIds(Lookup(a, ids), Lookup(b, ids));
  }

  lemma StepIsSnap(g: Graph, s: Store, c: Node, f: Filter)
    ensures ConversationStep(g, s, c, f).0 == SnapConversation(g, s.nodes, c, f)
  {
  }

  /** A conversation judged on fresher nodes returns at least as much. */
  lemma ConversationMore(g: Graph, f: Filter, a: NodeMap, b: NodeMap, x: Node, y: Node)
    requires Fresher(f, a, b) && FreshlyRead(f, x, y)
    ensures var p, q := SnapConversation(g, a, x, f), SnapConversation(g, b, y, f);
            ConversationIds(p) <= ConversationIds(q) && (p != [] ==> q != [])
  {
    MessagesMore(g, f, a, b, x.id);
    var (m, ids) := SnapMessages(g, a, x.id, f);
    var (n, jds) := SnapMessages(g, b, y.id, f);
    if Matches(f, x, NAME_FIELDS) {
      MatchStays(f, x, y, NAME_FIELDS);
    }
    hide Matches, SnapMessages, Fresher;
    OneConversationIds(RetrievedConversation(x, Matches(f, x, NAME_FIELDS), m, ids));
    OneConversationIds(RetrievedConversation(y, Matches(f, y, NAME_FIELDS), n, jds));
  }

  lemma MemoriesMore(g: Graph, f: Filter, a: NodeMap, b: NodeMap, session: Id)
    requires Fresher(f, a, b)
    ensures var x, y := SnapMemories(g, a, session, f), SnapMemories(g, b, session, f);
            IdsOf(x) <= IdsOf(y) && (x != [] ==> y != [])
  {
    var ids := Targets(g.memories, session);
    RecencyFresher(f, a, b, ids);
    MatchingMore(f, ByRecency(a, ids), ByRecency(b, ids), MEMORY_FIELDS);
  }

  // ---------- the walk against an earlier store ----------

  lemma StepLater(g: Graph, t: Store, c: Node, f: Filter)
    ensures Later(t, ConversationStep(g, t, c, f).1) && |ConversationStep(g, t, c, f).0| <= 1
  {
    ConversationMarks(g, t, c, f);
  }

  lemma ContextsLater(g: Graph, t: Store, cs: seq<Node>, f: Filter)
    ensures Later(t, ConversationContexts(g, t, cs, f).1)
  {
    ConversationsMark(g, t, cs, f);
  }

  /** Every conversation that an earlier store selects is returned, with at least its messages. */
  lemma {:induction false} ConversationsSelected(g: Graph, f: Filter, s: Store, t: Store, xs: seq<Node>, ys: seq<Node>)
    requires WellKeyed(s.nodes) && f.breadth.readAfter <= s.clock && Later(s, t) && FresherList(f, xs, ys)
    ensures var p, q := SnapConversations(g, s.nodes, xs, f), ConversationContexts(g, t, ys, f).0;
            ConversationIds(p) <= ConversationIds(q) && (p != [] ==> q != [])
  {
    if xs != [] {
      var k := |xs| - 1;
      assert FreshlyRead(f, xs[k], ys[k]) && FresherList(f, xs[..k], ys[..k]);
      hide Later, FresherList, FreshlyRead, ConversationStep, SnapConversation;
      ConversationsSelected(g, f, s, t, xs[..k], ys[..k]);
      var (q, t1) := ConversationContexts(g, t, ys[..k], f);
      ContextsLater(g, t, ys[..k], f);
      LaterTrans(s, t, t1);
      LaterFresher(f, s, t1);
      StepIsSnap(g, t1, ys[k], f);
      StepLater(g, t1, ys[k], f);
      ConversationMore(g, f, s.nodes, t1.nodes, xs[k], ys[k]);
      SnapSmall(g, s.nodes, xs[k], f);
      ConversationIdsAppend(SnapConversations(g, s.nodes, xs[..k], f), SnapConversation(g, s.nodes, xs[k], f));
      ConversationIdsAppend(q, ConversationStep(g, t1, ys[k], f).0);
    }
  }

  lemma SnapSmall(g: Graph, nodes: NodeMap, c: Node, f: Filter)
    ensures |SnapConversation(g, nodes, c, f)| <= 1
  {
  }

  /** The conversations of a walk are returned again by any later walk over the same list. */
  lemma {:induction false} ConversationsRepeat(g: Graph, f: Filter, s: Store, t: Store, xs: seq<Node>, ys: seq<Node>)
    requires WellKeyed(s.nodes) && f.breadth.readAfter <= s.clock && FresherList(f, xs, ys)
    requires Later(ConversationContexts(g, s, xs, f).1, t)
    ensures var p, q := ConversationContexts(g, s, xs, f).0, ConversationContexts(g, t, ys, f).0;
            ConversationIds(p) <= ConversationIds(q) && (p != [] ==> q != [])
  {
    if xs != [] {
      var k := |xs| - 1;
      assert FreshlyRead(f, xs[k], ys[k]) && FresherList(f, xs[..k], ys[..k]);
      hide Later, FresherList, FreshlyRead, ConversationStep, SnapConversation;
      var (p, s1) := ConversationContexts(g, s, xs[..k], f);
      var (q, t1) := ConversationContexts(g, t, ys[..k], f);
      StepLater(g, s1, xs[k], f);
      LaterTrans(s1, ConversationStep(g, s1, xs[k], f).1, t);
      ConversationsRepeat(g, f, s, t, xs[..k], ys[..k]);
      ContextsLater(g, s, xs[..k], f);
      LaterFresher(f, s, s1);
      ContextsLater(g, t, ys[..k], f);
      LaterTrans(s1, t, t1);
      LaterFresher(f, s1, t1);
      StepIsSnap(g, s1, xs[k], f);
      StepIsSnap(g, t1, ys[k], f);
      StepLater(g, t1, ys[k], f);
      ConversationMore(g, f, s1.nodes, t1.nodes, xs[k], ys[k]);
      ConversationIdsAppend(p, ConversationStep(g, s1, xs[k], f).0);
      ConversationIdsAppend(q, ConversationStep(g, t1, ys[k], f).0);
    }
  }

  // ---------- sessions ----------

  /** The stores that a session's walk passes through. */
  lemma SessionStores(g: Graph, s: Store, x: Node, f: Filter, includeMemories: bool)
    ensures var t := ConversationContexts(g, s, ByRecency(s.nodes, Targets(g.conversations, x.id)), f).1;
            var u := if includeMemories then MemoryCandidates(g, t, x.id, f).1 else t;
            var v := SessionContext(g, s, x, f, includeMemories).1;
            Later(s, t) && Later(t, u) && Later(u, v) && Later(t, v) && Later(s, v)
  {
    hide Matches, ConversationContexts, MemoryCandidates, ByRecency, MarkRead, Later, Marked;
    var list := ByRecency(s.nodes, Targets(g.conversations, x.id));
    var (p, t) := ConversationContexts(g, s, list, f);
    var (m, u) := if includeMemories then MemoryCandidates(g, t, x.id, f) else ([], t);
    ContextsLater(g, s, list, f);
    MemoriesMark(g, t, x.id, f);
    MarkedRefl(t);
    LaterBy(t, u, if includeMemories then IdsOf(m) else {});
    MarkOne(u, x.id);
    MarkedRefl(u);
    var v := SessionContext(g, s, x, f, includeMemories).1;
    LaterBy(u, v, if v == u then {} else {x.id});
    LaterTrans(t, u, SessionContext(g, s, x, f, includeMemories).1);
    LaterTrans(s, t, SessionContext(g, s, x, f, includeMemories).1);
  }

  lemma SessionMore(f: Filter, x: Node, y: Node, p: seq<RetrievedConversation>, q: seq<RetrievedConversation>,
                    m: seq<Node>, n: seq<Node>)
    requires FreshlyRead(f, x, y) && ConversationIds(p) <= ConversationIds(q) && IdsOf(m) <= IdsOf(n)
    requires (p != [] ==> q != []) && (m != [] ==> n != [])
    ensures var a := if !Matches(f, x, NAME_FIELDS) && p == [] && m == [] then []
                     else [RetrievedSession(x, Matches(f, x, NAME_FIELDS), p, m)];
            var b := if !Matches(f, y, NAME_FIELDS) && q == [] && n == [] then []
                     else [RetrievedSession(y, Matches(f, y, NAME_FIELDS), q, n)];
            SessionIds(a) <= SessionIds(b)
  {
    if Matches(f, x, NAME_FIELDS) {
      MatchStays(f, x, y, NAME_FIELDS);
    }
    hide Matches;
    OneSessionIds(RetrievedSession(x, Matches(f, x, NAME_FIELDS), p, m));
    OneSessionIds(RetrievedSession(y, Matches(f, y, NAME_FIELDS), q, n));
  }

  lemma MemoryPart(g: Graph, f: Filter, a: NodeMap, b: NodeMap, session: Id, includeMemories: bool)
    requires Fresher(f, a, b)
    ensures var m := if includeMemories then SnapMemories(g, a, session, f) else [];
            var n := if includeMemories then SnapMemories(g, b, session, f) else [];
            IdsOf(m) <= IdsOf(n) && (m != [] ==> n != [])
  {
    MemoriesMore(g, f, a, b, session);
    assert IdsOf([]) == {};
  }

  lemma SessionSelectedReturned(g: Graph, f: Filter, s: Store, t: Store, x: Node, y: Node, includeMemories: bool)
    requires WellKeyed(s.nodes) && f.breadth.readAfter <= s.clock && Later(s, t) && FreshlyRead(f, x, y)
    ensures SessionIds(SnapSession(g, s.nodes, x, f, includeMemories)) <=
            SessionIds(SessionContext(g, t, y, f, includeMemories).0)
  {
    hide Later, Fresher, Matches, ConversationContexts;
    LaterFresher(f, s, t);
    var ids := Targets(g.conversations, x.id);
    var xs, ys := ByRecency(s.nodes, ids), ByRecency(t.nodes, ids);
    RecencyFresher(f, s.nodes, t.nodes, ids);
    ConversationsSelected(g, f, s, t, xs, ys);
    var (q, t1) := ConversationContexts(g, t, ys, f);
    SessionStores(g, t, y, f, includeMemories);
    LaterTrans(s, t, t1);
    LaterFresher(f, s, t1);
    MemoryPart(g, f, s.nodes, t1.nodes, x.id, includeMemories);
    SessionMore(f, x, y, SnapConversations(g, s.nodes, xs, f), q,
                if includeMemories then SnapMemories(g, s.nodes, x.id, f) else [],
                if includeMemories then SnapMemories(g, t1.nodes, x.id, f) else []);
  }

  lemma SessionRepeat(g: Graph, f: Filter, s: Store, t: Store, x: Node, y: Node, includeMemories: bool)
    requires WellKeyed(s.nodes) && f.breadth.readAfter <= s.clock && FreshlyRead(f, x, y)
    requires Later(SessionContext(g, s, x, f, includeMemories).1, t)
    ensures SessionIds(SessionContext(g, s, x, f, includeMemories).0) <=
            SessionIds(SessionContext(g, t, y, f, includeMemories).0)
  {
    hide Later, Fresher, Matches, ConversationContexts;
    var ids := Targets(g.conversations, x.id);
    var xs, ys := ByRecency(s.nodes, ids), ByRecency(t.nodes, ids);
    var (p, s1) := ConversationContexts(g, s, xs, f);
    var (q, t1) := ConversationContexts(g, t, ys, f);
    SessionStores(g, s, x, f, includeMemories);
    SessionStores(g, t, y, f, includeMemories);
    LaterTrans(s1, SessionContext(g, s, x, f, includeMemories).1, t);
    LaterTrans(s, s1, t);
    LaterFresher(f, s, t);
    LaterFresher(f, s, s1);
    RecencyFresher(f, s.nodes, t.nodes, ids);
    ConversationsRepeat(g, f, s, t, xs, ys);
    LaterTrans(s1, t, t1);
    LaterFresher(f, s1, t1);
    MemoryPart(g, f, s1.nodes, t1.nodes, x.id, includeMemories);
    SessionMore(f, x, y, p, q,
                if includeMemories then SnapMemories(g, s1.nodes, x.id, f) else [],
                if includeMemories then SnapMemories(g, t1.nodes, x.id, f) else []);
  }

  lemma SessionsLater(g: Graph, t: Store, ss: seq<Node>, f: Filter, current: Option<Id>)
    ensures Later(t, SessionContexts(g, t, ss, f, current).1)
  {
    SessionsMark(g, t, ss, f, current);
  }

  lemma SessionSmall(g: Graph, s: Store, x: Node, f: Filter, includeMemories: bool)
    ensures |SessionContext(g, s, x, f, includeMemories).0| <= 1 &&
            |SnapSession(g, s.nodes, x, f, includeMemories)| <= 1
  {
  }

  lemma {:induction false} SessionsSelected(g: Graph, f: Filter, s: Store, t: Store, xs: seq<Node>, ys: seq<Node>,
                                            current: Option<Id>)
    requires WellKeyed(s.nodes) && f.breadth.readAfter <= s.clock && Later(s, t) && FresherList(f, xs, ys)
    ensures SessionIds(SnapSessions(g, s.nodes, xs, f, current)) <= SessionIds(SessionContexts(g, t, ys, f, current).0)
  {
    if xs != [] {
      var k := |xs| - 1;
      assert FreshlyRead(f, xs[k], ys[k]) && FresherList(f, xs[..k], ys[..k]);
      hide Later, FresherList, FreshlyRead, SessionContext, SnapSession;
      SessionsSelected(g, f, s, t, xs[..k], ys[..k], current);
      var (q, t1) := SessionContexts(g, t, ys[..k], f, current);
      var includeMemories := Some(xs[k].id) != current;
      SessionsLater(g, t, ys[..k], f, current);
      LaterTrans(s, t, t1);
      SameId(f, xs[k], ys[k]);
      SessionSelectedReturned(g, f, s, t1, xs[k], ys[k], includeMemories);
      SessionSmall(g, s, xs[k], f, includeMemories);
      SessionSmall(g, t1, ys[k], f, includeMemories);
      SessionIdsAppend(SnapSessions(g, s.nodes, xs[..k], f, current),
                       SnapSession(g, s.nodes, xs[k], f, includeMemories));
      SessionIdsAppend(q, SessionContext(g, t1, ys[k], f, includeMemories).0);
    }
  }

  lemma SameId(f: Filter, x: Node, y: Node)
    requires FreshlyRead(f, x, y)
    ensures x.id == y.id
  {
  }

  lemma SessionsStep(g: Graph, s: Store, ss: seq<Node>, f: Filter, current: Option<Id>)
    requires ss != []
    ensures var k := |ss| - 1;
            var (p, t) := SessionContexts(g, s, ss[..k], f, current);
            var (last, u) := SessionContext(g, t, ss[k], f, Some(ss[k].id) != current);
            SessionContexts(g, s, ss, f, current) == (p + last, u)
  {
  }

  lemma {:induction false} SessionsRepeat(g: Graph, f: Filter, s: Store, t: Store, xs: seq<Node>, ys: seq<Node>,
                                          current: Option<Id>)
    requires WellKeyed(s.nodes) && f.breadth.readAfter <= s.clock && FresherList(f, xs, ys)
    requires Later(SessionContexts(g, s, xs, f, current).1, t)
    ensures SessionIds(SessionContexts(g, s, xs, f, current).0) <= SessionIds(SessionContexts(g, t, ys, f, current).0)
  {
    if xs != [] {
      var k := |xs| - 1;
      assert FreshlyRead(f, xs[k], ys[k]) && FresherList(f, xs[..k], ys[..k]);
      SessionsStep(g, s, xs, f, current);
      SessionsStep(g, t, ys, f, current);
      hide Later, FresherList, FreshlyRead, SessionContext, SessionContexts;
      var (p, s1) := SessionContexts(g, s, xs[..k], f, current);
      var (q, t1) := SessionContexts(g, t, ys[..k], f, current);
      var includeMemories := Some(xs[k].id) != current;
      SessionStores(g, s1, xs[k], f, includeMemories);
      LaterTrans(s1, SessionContext(g, s1, xs[k], f, includeMemories).1, t);
      SessionsRepeat(g, f, s, t, xs[..k], ys[..k], current);
      SessionsLater(g, s, xs[..k], f, current);
      LaterFresher(f, s, s1);
      SessionsLater(g, t, ys[..k], f, current);
      LaterTrans(SessionContext(g, s1, xs[k], f, includeMemories).1, t, t1);
      SameId(f, xs[k], ys[k]);
      SessionRepeat(g, f, s1, t1, xs[k], ys[k], includeMemories);
      SessionSmall(g, s1, xs[k], f, includeMemories);
      SessionSmall(g, t1, ys[k], f, includeMemories);
      SessionIdsAppend(p, SessionContext(g, s1, xs[k], f, includeMemories).0);
      SessionIdsAppend(q, SessionContext(g, t1, ys[k], f, includeMemories).0);
    }
  }

  // ---------- the whole retrieval ----------

  lemma TasksLater(g: Graph, s: Store, r: Request)
    ensures Later(s, TaskCatalog(g, s, r).1)
  {
    MarkNodes(s, TaskCatalog(g, s, r).0);
    MarkedRefl(s);
  }

  /**
   On every graph, with no read cutoff after the clock, a retrieval returns every node that the store
   before the call selects.
   */
  lemma SelectedIsReturned(g: Graph, s: Store, r: Request, current: Option<Id>, id: Id)
    requires WellKeyed(s.nodes) && CutoffsPassed(r, s.clock)
    ensures var result := Retrieve(g, s, r, current).0;
            result.Ok? ==>
              && (id in IdsOf(result.value.tasks) <==> InTasks(g, s.nodes, r, id))
              && (r.pastBreadth.Some? && InPast(g, s.nodes, Filter(r.hints, r.pastBreadth.value), current, id) ==>
                    id in SessionIds(result.value.sessions))
  {
    TasksReturned(g, s.nodes, r, id);
    if r.pastBreadth.Some? {
      var f := Filter(r.hints, r.pastBreadth.value);
      var t := TaskCatalog(g, s, r).1;
      TasksLater(g, s, r);
      LaterFresher(f, s, t);
      RecencyFresher(f, s.nodes, t.nodes, g.sessions);
      SessionsSelected(g, f, s, t, ByRecency(s.nodes, g.sessions), ByRecency(t.nodes, g.sessions), current);
      PastReturned(g, s.nodes, r, current, id);
    }
  }

  lemma TasksRepeat(g: Graph, s: Store, t: Store, r: Request)
    requires WellKeyed(s.nodes) && CutoffsPassed(r, s.clock) && Later(s, t)
    ensures IdsOf(TaskCatalog(g, s, r).0) <= IdsOf(TaskCatalog(g, t, r).0)
  {
    if r.taskBreadth.Some? {
      var f := Filter(r.hints, r.taskBreadth.value);
      LaterFresher(f, s, t);
      RecencyFresher(f, s.nodes, t.nodes, g.tasks);
      MatchingMore(f, ByRecency(s.nodes, g.tasks), ByRecency(t.nodes, g.tasks), TASK_FIELDS);
    }
  }

  lemma CurrentLater(g: Graph, u: Store, current: Option<Id>)
    ensures Later(u, CurrentMemories(g, u, current).1)
  {
    MarkedRefl(u);
    if current.Some? {
      TouchEachMarks(u, ByRecency(u.nodes, Targets(g.memories, current.value)));
    }
  }

  lemma PastRepeat(g: Graph, s: Store, r: Request, current: Option<Id>)
    requires WellKeyed(s.nodes) && CutoffsPassed(r, s.clock)
    ensures var s1 := TaskCatalog(g, s, r).1;
            var (x, u) := PastContext(g, s1, r, current);
            var v := CurrentMemories(g, u, current).1;
            Later(s, v) && SessionIds(x) <= SessionIds(PastContext(g, TaskCatalog(g, v, r).1, r, current).0)
  {
    hide Later;
    var s1 := TaskCatalog(g, s, r).1;
    var u := PastContext(g, s1, r, current).1;
    var v := CurrentMemories(g, u, current).1;
    var t := TaskCatalog(g, v, r).1;
    TasksLater(g, s, r);
    TasksLater(g, v, r);
    CurrentLater(g, u, current);
    LaterTrans(u, v, t);
    if r.pastBreadth.None? {
      LaterTrans(s, s1, v);
    } else {
      var f := Filter(r.hints, r.pastBreadth.value);
      LaterFresher(f, s, s1);
      SessionsLater(g, s1, ByRecency(s1.nodes, g.sessions), f, current);
      LaterTrans(s1, u, v);
      LaterTrans(s, s1, v);
      LaterTrans(s1, v, t);
      LaterFresher(f, s1, t);
      RecencyFresher(f, s1.nodes, t.nodes, g.sessions);
      SessionsRepeat(g, f, s1, t, ByRecency(s1.nodes, g.sessions), ByRecency(t.nodes, g.sessions), current);
    }
  }

  /**
   On every graph, with no read cutoff after the clock, repeating a retrieval on the store it left
   behind returns at least the same nodes.
   */
  lemma RepeatReturnsMore(g: Graph, s: Store, r: Request, current: Option<Id>)
    requires WellKeyed(s.nodes) && CutoffsPassed(r, s.clock)
    ensures var (x, t) := Retrieve(g, s, r, current); var y := Retrieve(g, t, r, current).0;
            x.Ok? ==> y.Ok? && ReturnedIds(x.value) <= ReturnedIds(y.value)
  {
    var (x, t) := Retrieve(g, s, r, current);
    if x.Ok? {
      PastRepeat(g, s, r, current);
      TasksRepeat(g, s, t, r);
      CurrentStable(g, s, r, current);
      SameShapeIds(x.value.currentMemories, Retrieve(g, t, r, current).0.value.currentMemories);
    }
  }
}
