/**
 Retrieval is stable under its own side effect: repeating it on the store it left behind returns the
 same nodes in the same order, and only more of them count as matched.
 */
module RetrievalStability {
  import opened Ids
  import opened Nodes
  import opened Retrieval
  import opened RetrievalMarks
  import opened RetrievalSnapshot
  import opened RetrievalLaws

  // ---------- nodes that differ only in when they were read ----------

  ghost predicate SameButRead(x: Node, y: Node) {
    y == x.(stamps := x.stamps.(readAt := y.stamps.readAt))
  }

  ghost predicate SameShape(xs: seq<Node>, ys: seq<Node>) {
    |xs| == |ys| && forall i :: 0 <= i < |xs| ==> SameButRead(xs[i], ys[i])
  }

  ghost predicate SameNodes(a: NodeMap, b: NodeMap) {
    a.Keys == b.Keys && forall id :: id in a ==> SameButRead(a[id], b[id])
  }

  lemma {:induction false} LookupShape(a: NodeMap, b: NodeMap, ids: seq<Id>)
    requires SameNodes(a, b)
    ensures SameShape(Lookup(a, ids), Lookup(b, ids))
  {
    if ids != [] {
      LookupShape(a, b, ids[..|ids| - 1]);
    }
  }

  lemma {:induction false} InsertShape(xs: seq<Node>, ys: seq<Node>, x: Node, y: Node)
    requires SameShape(xs, ys) && SameButRead(x, y)
    ensures SameShape(InsertByRecency(xs, x), InsertByRecency(ys, y))
  {
    if xs != [] {
      var k := |xs| - 1;
      InsertShape(xs[..k], ys[..k], x, y);
    }
  }

  lemma {:induction false} SortShape(xs: seq<Node>, ys: seq<Node>)
    requires SameShape(xs, ys)
    ensures SameShape(SortByRecency(xs), SortByRecency(ys))
  {
    if xs != [] {
      var k := |xs| - 1;
      SortShape(xs[..k], ys[..k]);
      InsertShape(SortByRecency(xs[..k]), SortByRecency(ys[..k]), xs[k], ys[k]);
    }
  }

  lemma RecencyShape(a: NodeMap, b: NodeMap, ids: seq<Id>)
    requires SameNodes(a, b)
    ensures SameShape(ByRecency(a, ids), ByRecency(b, ids))
  {
    LookupShape(a, b, ids);
    SortShape(Lookup(a, ids), Lookup(b, ids));
  }

  lemma ShapeIds(xs: seq<Node>, ys: seq<Node>)
    requires SameShape(xs, ys)
    ensures IdList(xs) == IdList(ys)
  {
  }

  // ---------- matching after a read ----------

  /** `y` is `x`, or `x` read at a time that passes the filter's read cutoff. */
  ghost predicate FreshlyRead(f: Filter, x: Node, y: Node) {
    SameButRead(x, y) && (y == x || (y.stamps.readAt.Some? && y.stamps.readAt.value >= f.breadth.readAfter))
  }

  lemma MatchStays(f: Filter, x: Node, y: Node, fields: seq<string>)
    requires FreshlyRead(f, x, y) && Matches(f, x, fields)
    ensures Matches(f, y, fields)
  {
  }

  lemma {:induction false} MatchingShape(f: Filter, xs: seq<Node>, ys: seq<Node>, fields: seq<string>)
    requires SameShape(xs, ys)
    requires forall i :: 0 <= i < |xs| ==> (Matches(f, xs[i], fields) <==> Matches(f, ys[i], fields))
    ensures SameShape(Matching(f, xs, fields), Matching(f, ys, fields))
  {
    if xs != [] {
      var k := |xs| - 1;
      MatchingShape(f, xs[..k], ys[..k], fields);
    }
  }

  lemma {:induction false} MatchingGrows(f: Filter, xs: seq<Node>, ys: seq<Node>, fields: seq<string>)
    requires SameShape(xs, ys)
    requires forall i :: 0 <= i < |xs| ==> FreshlyRead(f, xs[i], ys[i])
    ensures IdsOf(Matching(f, xs, fields)) <= IdsOf(Matching(f, ys, fields))
  {
    if xs != [] {
      var k := |xs| - 1;
      MatchingGrows(f, xs[..k], ys[..k], fields);
      if Matches(f, xs[k], fields) {
        MatchStays(f, xs[k], ys[k], fields);
        IdsOfAppend(Matching(f, xs[..k], fields), xs[k]);
      }
      if Matches(f, ys[k], fields) {
        IdsOfAppend(Matching(f, ys[..k], fields), ys[k]);
      }
    }
  }

  // ---------- results that only grow ----------

  ghost predicate ConversationGrows(a: RetrievedConversation, b: RetrievedConversation) {
    && SameButRead(a.conversation, b.conversation) && (a.matched ==> b.matched)
    && SameShape(a.messages, b.messages) && SetOf(a.matchedMessageIds) <= SetOf(b.matchedMessageIds)
  }

  ghost predicate ConversationsGrow(a: seq<RetrievedConversation>, b: seq<RetrievedConversation>) {
    |a| == |b| && forall i :: 0 <= i < |a| ==> ConversationGrows(a[i], b[i])
  }

  ghost predicate SessionGrows(a: RetrievedSession, b: RetrievedSession) {
    && SameButRead(a.session, b.session) && (a.matched ==> b.matched)
    && ConversationsGrow(a.conversations, b.conversations) && SameShape(a.memories, b.memories)
  }

  ghost predicate SessionsGrow(a: seq<RetrievedSession>, b: seq<RetrievedSession>) {
    |a| == |b| && forall i :: 0 <= i < |a| ==> SessionGrows(a[i], b[i])
  }

  /** Same nodes in the same order; matched flags and matched message ids may only be added. */
  ghost predicate Grows(a: Retrieved, b: Retrieved) {
    SameShape(a.tasks, b.tasks) && SessionsGrow(a.sessions, b.sessions) &&
    SameShape(a.currentMemories, b.currentMemories)
  }

  // ---------- one conversation, one session ----------

  /** Between two stores, what the filter selects of conversation `c` was freshly read and the rest is untouched. */
  ghost predicate SettledConversation(g: Graph, a: NodeMap, b: NodeMap, c: Id, f: Filter)
    requires a.Keys == b.Keys
  {
    && (c in a ==> if ConversationSelected(g, a, c, f) then FreshlyRead(f, a[c], b[c]) else b[c] == a[c])
    && forall m :: m in Targets(g.messages, c) && m in a && c in a ==>
         if MessageHit(g, a, c, f) then FreshlyRead(f, a[m], b[m]) else b[m] == a[m]
  }

  ghost predicate SettledSession(g: Graph, a: NodeMap, b: NodeMap, s: Id, f: Filter, current: Option<Id>)
    requires a.Keys == b.Keys
  {
    && (s in a ==> if SessionSelected(g, a, s, f, current) then FreshlyRead(f, a[s], b[s]) else b[s] == a[s])
    && (forall c :: c in Targets(g.conversations, s) && s in a ==> SettledConversation(g, a, b, c, f))
    && forall m :: m in Targets(g.memories, s) && m in a && s in a && Some(s) != current ==>
         if Matches(f, a[m], MEMORY_FIELDS) then FreshlyRead(f, a[m], b[m]) else b[m] == a[m]
  }

  lemma LookupPairs(a: NodeMap, b: NodeMap, ids: seq<Id>, i: nat)
    requires SameNodes(a, b) && WellKeyed(a) && i < |Lookup(a, ids)|
    ensures |Lookup(b, ids)| == |Lookup(a, ids)|
    ensures var x, y := Lookup(a, ids)[i], Lookup(b, ids)[i]; x.id in ids && x.id in a && x == a[x.id] && y == b[x.id]
  {
    LookupShape(a, b, ids);
    LookupElements(a, ids);
    LookupElements(b, ids);
    assert Lookup(a, ids)[i] in Lookup(a, ids) && Lookup(b, ids)[i] in Lookup(b, ids);
  }

  lemma RecencyPairs(a: NodeMap, b: NodeMap, ids: seq<Id>, i: nat)
    requires SameNodes(a, b) && WellKeyed(a) && i < |ByRecency(a, ids)|
    ensures |ByRecency(b, ids)| == |ByRecency(a, ids)|
    ensures var x, y := ByRecency(a, ids)[i], ByRecency(b, ids)[i];
            x.id in ids && x.id in a && x == a[x.id] && y == b[x.id]
  {
    RecencyShape(a, b, ids);
    RecencyElements(a, ids);
    RecencyElements(b, ids);
    assert ByRecency(a, ids)[i] in ByRecency(a, ids) && ByRecency(b, ids)[i] in ByRecency(b, ids);
  }

  lemma MessagesGrow(g: Graph, a: NodeMap, b: NodeMap, c: Id, f: Filter)
    requires SameNodes(a, b) && WellKeyed(a) && c in a && SettledConversation(g, a, b, c, f)
    ensures var (m, ids) := SnapMessages(g, a, c, f); var (n, jds) := SnapMessages(g, b, c, f);
            SameShape(m, n) && SetOf(ids) <= SetOf(jds)
  {
    var targets := Targets(g.messages, c);
    var xs, ys := Lookup(a, targets), Lookup(b, targets);
    LookupShape(a, b, targets);
    MessagesReturned(g, a, c, f);
    forall i | 0 <= i < |xs|
      ensures if MessageHit(g, a, c, f) then FreshlyRead(f, xs[i], ys[i]) else ys[i] == xs[i]
    {
      LookupPairs(a, b, targets, i);
    }
    var p, q := Matching(f, xs, MESSAGE_FIELDS), Matching(f, ys, MESSAGE_FIELDS);
    if MessageHit(g, a, c, f) {
      MatchingGrows(f, xs, ys, MESSAGE_FIELDS);
      assert p[0] in p && p[0].id in IdsOf(p);
      IdListSet(p);
      IdListSet(q);
    } else {
      assert xs == ys;
    }
  }

  lemma ConversationGrowth(g: Graph, a: NodeMap, b: NodeMap, c: Id, f: Filter)
    requires SameNodes(a, b) && WellKeyed(a) && c in a && SettledConversation(g, a, b, c, f)
    ensures ConversationsGrow(SnapConversation(g, a, a[c], f), SnapConversation(g, b, b[c], f))
  {
    MessagesGrow(g, a, b, c, f);
    MessagesReturned(g, a, c, f);
    if Matches(f, a[c], NAME_FIELDS) {
      MatchStays(f, a[c], b[c], NAME_FIELDS);
    }
  }

  lemma {:induction false} ConversationsGrowth(g: Graph, a: NodeMap, b: NodeMap, xs: seq<Node>, ys: seq<Node>,
                                               f: Filter)
    requires SameNodes(a, b) && WellKeyed(a) && |xs| == |ys|
    requires forall i :: 0 <= i < |xs| ==> xs[i].id in a && xs[i] == a[xs[i].id] && ys[i] == b[xs[i].id]
    requires forall i :: 0 <= i < |xs| ==> SettledConversation(g, a, b, xs[i].id, f)
    ensures ConversationsGrow(SnapConversations(g, a, xs, f), SnapConversations(g, b, ys, f))
  {
    if xs != [] {
      var k := |xs| - 1;
      ConversationsGrowth(g, a, b, xs[..k], ys[..k], f);
      ConversationGrowth(g, a, b, xs[k].id, f);
    }
  }

  lemma SessionConversationsGrowth(g: Graph, a: NodeMap, b: NodeMap, s: Id, f: Filter, current: Option<Id>)
    requires SameNodes(a, b) && WellKeyed(a) && s in a && SettledSession(g, a, b, s, f, current)
    ensures var ids := Targets(g.conversations, s);
            ConversationsGrow(SnapConversations(g, a, ByRecency(a, ids), f),
                              SnapConversations(g, b, ByRecency(b, ids), f))
  {
    var ids := Targets(g.conversations, s);
    var xs, ys := ByRecency(a, ids), ByRecency(b, ids);
    RecencyShape(a, b, ids);
    forall i | 0 <= i < |xs|
      ensures xs[i].id in a && xs[i] == a[xs[i].id] && ys[i] == b[xs[i].id] && SettledConversation(g, a, b, xs[i].id, f)
    {
      RecencyPairs(a, b, ids, i);
    }
    ConversationsGrowth(g, a, b, xs, ys, f);
  }

  lemma MemoriesSame(g: Graph, a: NodeMap, b: NodeMap, s: Id, f: Filter, current: Option<Id>)
    requires SameNodes(a, b) && WellKeyed(a) && s in a && SettledSession(g, a, b, s, f, current) && Some(s) != current
    ensures SameShape(SnapMemories(g, a, s, f), SnapMemories(g, b, s, f))
  {
    var ids := Targets(g.memories, s);
    var xs, ys := ByRecency(a, ids), ByRecency(b, ids);
    RecencyShape(a, b, ids);
    forall i | 0 <= i < |xs|
      ensures Matches(f, xs[i], MEMORY_FIELDS) <==> Matches(f, ys[i], MEMORY_FIELDS)
    {
      RecencyPairs(a, b, ids, i);
      if Matches(f, xs[i], MEMORY_FIELDS) {
        MatchStays(f, xs[i], ys[i], MEMORY_FIELDS);
      }
    }
    MatchingShape(f, xs, ys, MEMORY_FIELDS);
  }

  lemma SessionGrowth(g: Graph, a: NodeMap, b: NodeMap, s: Id, f: Filter, current: Option<Id>)
    requires SameNodes(a, b) && WellKeyed(a) && s in a && SettledSession(g, a, b, s, f, current)
    ensures SessionsGrow(SnapSession(g, a, a[s], f, Some(s) != current), SnapSession(g, b, b[s], f, Some(s) != current))
  {
    SessionConversationsGrowth(g, a, b, s, f, current);
    if Some(s) != current {
      MemoriesSame(g, a, b, s, f, current);
    }
    if Matches(f, a[s], NAME_FIELDS) {
      MatchStays(f, a[s], b[s], NAME_FIELDS);
    }
    SessionReturned(g, a, a[s], f, current, s);
  }

  lemma {:induction false} SessionsGrowth(g: Graph, a: NodeMap, b: NodeMap, xs: seq<Node>, ys: seq<Node>, f: Filter,
                                          current: Option<Id>)
    requires SameNodes(a, b) && WellKeyed(a) && |xs| == |ys|
    requires forall i :: 0 <= i < |xs| ==> xs[i].id in a && xs[i] == a[xs[i].id] && ys[i] == b[xs[i].id]
    requires forall i :: 0 <= i < |xs| ==> SettledSession(g, a, b, xs[i].id, f, current)
    ensures SessionsGrow(SnapSessions(g, a, xs, f, current), SnapSessions(g, b, ys, f, current))
  {
    if xs != [] {
      var k := |xs| - 1;
      SessionsGrowth(g, a, b, xs[..k], ys[..k], f, current);
      SessionGrowth(g, a, b, xs[k].id, f, current);
    }
  }

  // ---------- which ids of a tree the first retrieval marked ----------

  /** What a session's own part of the walk evaluates. */
  function Evaluated(g: Graph, s: Id, current: Option<Id>): set<Id> {
    var cs := Targets(g.conversations, s);
    {s} + SetOf(cs) + MessagesBelow(g, cs) + (if Some(s) != current then SetOf(Targets(g.memories, s)) else {})
  }

  lemma WithSessionInRegion(g: Graph, nodes: NodeMap, s: Id, f: Filter, current: Option<Id>, id: Id)
    requires WithSession(g, nodes, s, f, current, id)
    ensures id == s || id in Region(g, s)
  {
  }

  /** On a tree a node can only be returned with the session it hangs below. */
  lemma PastLocal(g: Graph, nodes: NodeMap, s: Id, f: Filter, current: Option<Id>, id: Id)
    requires Tree(g, current) && s in g.sessions && (id == s || id in Region(g, s))
    ensures InPast(g, nodes, f, current, id) <==> WithSession(g, nodes, s, f, current, id)
  {
    if t :| t in g.sessions && WithSession(g, nodes, t, f, current, id) {
      WithSessionInRegion(g, nodes, t, f, current, id);
      if t != s {
        assert Region(g, s) !! Region(g, t);
        assert s !in Region(g, t) && t !in Region(g, s);
      }
    }
  }

  lemma ConversationLocal(g: Graph, nodes: NodeMap, s: Id, c: Id, f: Filter, current: Option<Id>, id: Id)
    requires Tree(g, current) && s in g.sessions && s in nodes && c in Targets(g.conversations, s)
    requires id == c || id in Targets(g.messages, c)
    ensures WithSession(g, nodes, s, f, current, id) <==> WithConversation(g, nodes, c, f, id)
  {
    var cs := Targets(g.conversations, s);
    assert SessionTree(g, s) && s !in Region(g, s);
    assert id in SetOf(cs) + MessagesBelow(g, cs) && id in Region(g, s);
    assert id != s && id !in SetOf(Targets(g.memories, s)) && !WithMemories(g, nodes, s, f, id);
    if d :| d in cs && WithConversation(g, nodes, d, f, id) {
      if d != c {
        ApartConversations(g, cs, c, d, id);
      }
    }
  }

  lemma ApartConversations(g: Graph, cs: seq<Id>, c: Id, d: Id, id: Id)
    requires ConversationTree(g, cs) && c in cs && d in cs && c != d && (id == c || id in Targets(g.messages, c))
    ensures id != d && id !in Targets(g.messages, d)
  {
    assert SetOf(Targets(g.messages, c)) !! SetOf(Targets(g.messages, d));
    assert id in Targets(g.messages, c) ==> id in SetOf(Targets(g.messages, c));
    assert id in Targets(g.messages, d) ==> id in SetOf(Targets(g.messages, d));
  }

  /** The ids that the past part of a retrieval returns and no other part can return. */
  lemma MarkedLocal(g: Graph, st: Store, r: Request, current: Option<Id>, s: Id, id: Id)
    requires WellKeyed(st.nodes) && Tree(g, current) && r.pastBreadth.Some? && s in g.sessions &&
             id in Evaluated(g, s, current)
    requires Retrieve(g, st, r, current).0.Ok?
    ensures id in ReturnedIds(Retrieve(g, st, r, current).0.value) <==>
            WithSession(g, st.nodes, s, Filter(r.hints, r.pastBreadth.value), current, id)
  {
    var result := Retrieve(g, st, r, current).0.value;
    RetrieveReturns(g, st, r, current, id);
    PastLocal(g, st.nodes, s, Filter(r.hints, r.pastBreadth.value), current, id);
    CurrentIds(g, st, r, current);
    assert id !in g.tasks by {
      assert SetOf(g.tasks) !! Region(g, s) + {s};
    }
    if current.Some? {
      assert id !in Targets(g.memories, current.value) by {
        NotCurrentMemory(g, s, current, id);
      }
    }
  }

  lemma NotCurrentMemory(g: Graph, s: Id, current: Option<Id>, id: Id)
    requires Tree(g, current) && s in g.sessions && id in Evaluated(g, s, current) && current.Some?
    ensures id !in SetOf(Targets(g.memories, current.value))
  {
    var cs := Targets(g.conversations, s);
    if s == current.value {
      assert SessionTree(g, s);
    } else {
      assert SetOf(Targets(g.memories, current.value)) !! Region(g, s);
    }
  }

  /** The current-session memories returned lie among the current session's memory edges. */
  lemma CurrentIds(g: Graph, st: Store, r: Request, current: Option<Id>)
    requires WellKeyed(st.nodes) && Retrieve(g, st, r, current).0.Ok?
    ensures var result := Retrieve(g, st, r, current).0.value;
            IdsOf(result.currentMemories) <= if current.Some? then SetOf(Targets(g.memories, current.value)) else {}
  {
    var t := TaskCatalog(g, st, r).1;
    var u := PastContext(g, t, r, current).1;
    assert IdsOf([]) == {};
    if current.Some? {
      StoreBeforeCurrent(g, st, r, current);
      CurrentShape(g, u, current);
      var records := ByRecency(u.nodes, Targets(g.memories, current.value));
      RecencyByIds(u.nodes, Targets(g.memories, current.value));
      var memories := CurrentMemories(g, u, current).0;
      IdListSet(records);
      IdListSet(memories);
      ShapeIds(records, memories);
    }
  }

  lemma StoreBeforeCurrent(g: Graph, st: Store, r: Request, current: Option<Id>)
    requires WellKeyed(st.nodes)
    ensures var t := TaskCatalog(g, st, r).1; var u := PastContext(g, t, r, current).1;
            SameNodes(st.nodes, u.nodes) && WellKeyed(u.nodes)
  {
    var (tasks, t) := TaskCatalog(g, st, r);
    MarkNodes(st, tasks);
    var (sessions, u) := PastContext(g, t, r, current);
    if r.pastBreadth.Some? {
      SessionsMark(g, t, ByRecency(t.nodes, g.sessions), Filter(r.hints, r.pastBreadth.value), current);
    }
  }

  lemma {:induction false} TouchEachShape(s: Store, records: seq<Node>)
    requires WellKeyed(s.nodes) && Stored(s.nodes, records)
    ensures SameShape(records, TouchEach(s, records).0)
  {
    if records != [] {
      var k := |records| - 1;
      TouchEachShape(s, records[..k]);
      TouchEachMarks(s, records);
      assert records[k] in records;
    }
  }

  lemma CurrentShape(g: Graph, u: Store, current: Option<Id>)
    requires WellKeyed(u.nodes) && current.Some?
    ensures SameShape(ByRecency(u.nodes, Targets(g.memories, current.value)), CurrentMemories(g, u, current).0)
  {
    RecencyByIds(u.nodes, Targets(g.memories, current.value));
    TouchEachShape(u, ByRecency(u.nodes, Targets(g.memories, current.value)));
  }

  // ---------- main result ----------

  /** The cutoffs do not lie in the future of the database clock. */
  ghost predicate CutoffsPassed(r: Request, clock: int) {
    (r.taskBreadth.Some? ==> r.taskBreadth.value.readAfter <= clock) &&
    (r.pastBreadth.Some? ==> r.pastBreadth.value.readAfter <= clock)
  }

  lemma AfterFirst(g: Graph, s: Store, r: Request, current: Option<Id>)
    requires WellKeyed(s.nodes) && Retrieve(g, s, r, current).0.Ok?
    ensures var t := Retrieve(g, s, r, current).1;
            Marked(s, t, ReturnedIds(Retrieve(g, s, r, current).0.value)) && SameNodes(s.nodes, t.nodes) &&
            WellKeyed(t.nodes)
  {
    RetrieveMarksReturned(g, s, r, current);
  }

  lemma SessionSettled(g: Graph, s: Store, r: Request, current: Option<Id>, i: Id)
    requires WellKeyed(s.nodes) && Tree(g, current) && CutoffsPassed(r, s.clock) && r.pastBreadth.Some? &&
             i in g.sessions
    requires Retrieve(g, s, r, current).0.Ok?
    requires SameNodes(s.nodes, Retrieve(g, s, r, current).1.nodes)
    ensures SettledSession(g, s.nodes, Retrieve(g, s, r, current).1.nodes, i, Filter(r.hints, r.pastBreadth.value),
                           current)
  {
    var (result, t) := Retrieve(g, s, r, current);
    var f := Filter(r.hints, r.pastBreadth.value);
    AfterFirst(g, s, r, current);
    forall id | id in Evaluated(g, i, current) && id in s.nodes
      ensures if WithSession(g, s.nodes, i, f, current, id) then FreshlyRead(f, s.nodes[id], t.nodes[id])
              else t.nodes[id] == s.nodes[id]
    {
      MarkedLocal(g, s, r, current, i, id);
    }
    if i in s.nodes {
      SettledFromEvaluated(g, s.nodes, t.nodes, f, current, i);
    }
  }

  lemma SettledFromEvaluated(g: Graph, a: NodeMap, b: NodeMap, f: Filter, current: Option<Id>, i: Id)
    requires Tree(g, current) && i in g.sessions && i in a && a.Keys == b.Keys
    requires forall id :: id in Evaluated(g, i, current) && id in a ==>
               if WithSession(g, a, i, f, current, id) then FreshlyRead(f, a[id], b[id]) else b[id] == a[id]
    ensures SettledSession(g, a, b, i, f, current)
  {
    var cs := Targets(g.conversations, i);
    assert SessionTree(g, i) && i !in Region(g, i);
    forall c | c in cs
      ensures SettledConversation(g, a, b, c, f)
    {
      ConversationLocal(g, a, i, c, f, current, c);
      assert SessionTree(g, i) && c !in Targets(g.messages, c);
      forall m | m in Targets(g.messages, c) && m in a && c in a
        ensures if MessageHit(g, a, c, f) then FreshlyRead(f, a[m], b[m]) else b[m] == a[m]
      {
        ConversationLocal(g, a, i, c, f, current, m);
        assert m in MessagesBelow(g, cs);
      }
    }
    forall m | m in Targets(g.memories, i) && m in a && Some(i) != current
      ensures if Matches(f, a[m], MEMORY_FIELDS) then FreshlyRead(f, a[m], b[m]) else b[m] == a[m]
    {
      MemoryLocal(g, a, i, f, current, m);
    }
  }

  lemma MemoryLocal(g: Graph, a: NodeMap, i: Id, f: Filter, current: Option<Id>, m: Id)
    requires Tree(g, current) && i in g.sessions && i in a && m in Targets(g.memories, i) && m in a &&
             Some(i) != current
    ensures WithSession(g, a, i, f, current, m) <==> Matches(f, a[m], MEMORY_FIELDS)
  {
    var cs := Targets(g.conversations, i);
    assert SessionTree(g, i) && i !in Region(g, i);
    assert m in SetOf(Targets(g.memories, i));
    assert m !in SetOf(cs) + MessagesBelow(g, cs);
  }

  lemma PastStable(g: Graph, s: Store, r: Request, current: Option<Id>)
    requires WellKeyed(s.nodes) && Tree(g, current) && CutoffsPassed(r, s.clock) && Retrieve(g, s, r, current).0.Ok?
    ensures SessionsGrow(SnapPast(g, s.nodes, r, current), SnapPast(g, Retrieve(g, s, r, current).1.nodes, r, current))
  {
    if r.pastBreadth.Some? {
      var a, b := s.nodes, Retrieve(g, s, r, current).1.nodes;
      AfterFirst(g, s, r, current);
      var xs, ys := ByRecency(a, g.sessions), ByRecency(b, g.sessions);
      RecencyShape(a, b, g.sessions);
      forall i | 0 <= i < |xs|
        ensures xs[i].id in a && xs[i] == a[xs[i].id] && ys[i] == b[xs[i].id]
        ensures SettledSession(g, a, b, xs[i].id, Filter(r.hints, r.pastBreadth.value), current)
      {
        RecencyPairs(a, b, g.sessions, i);
        SessionSettled(g, s, r, current, xs[i].id);
      }
      SessionsGrowth(g, a, b, xs, ys, Filter(r.hints, r.pastBreadth.value), current);
    }
  }

  lemma TaskLocal(g: Graph, s: Store, r: Request, current: Option<Id>, id: Id)
    requires WellKeyed(s.nodes) && Tree(g, current) && id in g.tasks && Retrieve(g, s, r, current).0.Ok?
    ensures id in ReturnedIds(Retrieve(g, s, r, current).0.value) <==> InTasks(g, s.nodes, r, id)
  {
    RetrieveReturns(g, s, r, current, id);
    CurrentIds(g, s, r, current);
    assert id in SetOf(g.tasks);
    if r.pastBreadth.Some? {
      var f := Filter(r.hints, r.pastBreadth.value);
      if t :| t in g.sessions && WithSession(g, s.nodes, t, f, current, id) {
        WithSessionInRegion(g, s.nodes, t, f, current, id);
      }
    }
  }

  lemma TasksStable(g: Graph, s: Store, r: Request, current: Option<Id>)
    requires WellKeyed(s.nodes) && Tree(g, current) && CutoffsPassed(r, s.clock) && Retrieve(g, s, r, current).0.Ok?
    ensures SameShape(SnapTasks(g, s.nodes, r), SnapTasks(g, Retrieve(g, s, r, current).1.nodes, r))
  {
    if r.taskBreadth.Some? {
      var a, b := s.nodes, Retrieve(g, s, r, current).1.nodes;
      var f := Filter(r.hints, r.taskBreadth.value);
      AfterFirst(g, s, r, current);
      var xs, ys := ByRecency(a, g.tasks), ByRecency(b, g.tasks);
      RecencyShape(a, b, g.tasks);
      forall i | 0 <= i < |xs|
        ensures Matches(f, xs[i], TASK_FIELDS) <==> Matches(f, ys[i], TASK_FIELDS)
      {
        RecencyPairs(a, b, g.tasks, i);
        TaskLocal(g, s, r, current, xs[i].id);
        if Matches(f, xs[i], TASK_FIELDS) {
          MatchStays(f, xs[i], ys[i], TASK_FIELDS);
        }
      }
      MatchingShape(f, xs, ys, TASK_FIELDS);
    }
  }

  lemma CurrentStable(g: Graph, s: Store, r: Request, current: Option<Id>)
    requires WellKeyed(s.nodes) && Retrieve(g, s, r, current).0.Ok?
    ensures var (x, t) := Retrieve(g, s, r, current); var y := Retrieve(g, t, r, current).0;
            y.Ok? && SameShape(x.value.currentMemories, y.value.currentMemories)
  {
    var t := Retrieve(g, s, r, current).1;
    AfterFirst(g, s, r, current);
    if current.Some? {
      var u := PastContext(g, TaskCatalog(g, s, r).1, r, current).1;
      var v := PastContext(g, TaskCatalog(g, t, r).1, r, current).1;
      StoreBeforeCurrent(g, s, r, current);
      StoreBeforeCurrent(g, t, r, current);
      CurrentShape(g, u, current);
      CurrentShape(g, v, current);
      RecencyShape(s.nodes, u.nodes, Targets(g.memories, current.value));
      RecencyShape(s.nodes, v.nodes, Targets(g.memories, current.value));
    }
  }

  /**
   Repeating a retrieval on the store it left behind: on a tree, with no read cutoff after the clock,
   the second one returns the same nodes in the same order, and matches are only added.
   */
  lemma RetrieveStable(g: Graph, s: Store, r: Request, current: Option<Id>)
    requires WellKeyed(s.nodes) && Tree(g, current) && CutoffsPassed(r, s.clock)
    ensures var (x, t) := Retrieve(g, s, r, current); var y := Retrieve(g, t, r, current).0;
            x.Ok? ==> y.Ok? && Grows(x.value, y.value)
  {
    var (x, t) := Retrieve(g, s, r, current);
    if x.Ok? {
      AfterFirst(g, s, r, current);
      RetrieveIsSnapshot(g, s, r, current);
      RetrieveIsSnapshot(g, t, r, current);
      PastStable(g, s, r, current);
      TasksStable(g, s, r, current);
      CurrentStable(g, s, r, current);
    }
  }
}
