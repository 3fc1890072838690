/**
 Retrievals on graphs with shared nodes: if conversations that share a message share all of them, a call
 returns exactly what the store before it selects, although it reads nodes that it searches again; if
 moreover no memory of the current session belongs to another one, repeating it returns the same.
 */
module RetrievalExact {
  import opened Ids
  import opened Retrieval
  import opened RetrievalMarks
  import opened RetrievalSnapshot
  import opened RetrievalLaws
  import opened RetrievalStability
  import opened RetrievalMonotone
  import opened RetrievalRepeat

  // ---------- the condition ----------

  /** A conversation of some listed session. */
  ghost predicate InSession(g: Graph, c: Id) {
    exists x :: x in g.sessions && c in Targets(g.conversations, x)
  }

  /** Every node plays one role, as the types of the records have it. */
  ghost predicate Typed(g: Graph) {
    OneRole(g) && forall x :: x in g.sessions ==> !InSession(g, x)
  }

  /** Conversations that share a message have the same messages. */
  ghost predicate MessagesApart(g: Graph) {
    forall c, e, m, h ::
      InSession(g, c) && InSession(g, e) && m in Targets(g.messages, c) && m in Targets(g.messages, e) &&
      h in Targets(g.messages, e) ==>
        h in Targets(g.messages, c)
  }

  /** A memory of a listed session other than the current one. */
  ghost predicate Remembered(g: Graph, current: Option<Id>, m: Id) {
    exists x :: x in g.sessions && Some(x) != current && m in Targets(g.memories, x)
  }

  /** No memory of the current session belongs to another one. */
  ghost predicate CurrentApart(g: Graph, current: Option<Id>) {
    current.Some? ==> forall m :: m in Targets(g.memories, current.value) ==> !Remembered(g, current, m)
  }

  // ---------- marks that select nothing new ----------

  /** The past context does not search the node. */
  ghost predicate Unsearched(g: Graph, current: Option<Id>, i: Id) {
    i !in g.sessions && !InSession(g, i) && !Spoken(g, i) && !Remembered(g, current, i)
  }

  /** Each of the nodes is selected or not searched at all. */
  ghost predicate Harmless(g: Graph, f: Filter, current: Option<Id>, nodes: NodeMap, ids: set<Id>) {
    forall i :: i in ids ==> InPast(g, nodes, f, current, i) || Unsearched(g, current, i)
  }

  /** From `s` on, only nodes that `s` selects have been read, or nodes that are not searched. */
  ghost predicate Settling(g: Graph, f: Filter, current: Option<Id>, s: Store, t: Store) {
    exists ids :: Marked(s, t, ids) && Harmless(g, f, current, s.nodes, ids)
  }

  lemma SettlingMarked(g: Graph, f: Filter, current: Option<Id>, s: Store, t: Store, u: Store, ids: set<Id>)
    requires Settling(g, f, current, s, t) && Marked(t, u, ids) && Harmless(g, f, current, s.nodes, ids)
    ensures Settling(g, f, current, s, u)
  {
    hide InPast, Unsearched;
    var before :| Marked(s, t, before) && Harmless(g, f, current, s.nodes, before);
    MarkedTrans(s, t, u, before, ids);
    assert Marked(s, u, before + ids);
  }

  lemma SettlingRefl(g: Graph, f: Filter, current: Option<Id>, s: Store)
    ensures Settling(g, f, current, s, s)
  {
    MarkedRefl(s);
  }

  lemma SettlingLater(g: Graph, f: Filter, current: Option<Id>, s: Store, t: Store)
    requires Settling(g, f, current, s, t)
    ensures Later(s, t) && SameNodes(s.nodes, t.nodes) && (WellKeyed(s.nodes) ==> WellKeyed(t.nodes))
  {
    var ids :| Marked(s, t, ids);
  }

  lemma Untouched(g: Graph, f: Filter, current: Option<Id>, s: Store, t: Store, i: Id)
    requires Settling(g, f, current, s, t) && i in s.nodes && !Unsearched(g, current, i)
    ensures i in t.nodes && (t.nodes[i] == s.nodes[i] || InPast(g, s.nodes, f, current, i))
  {
    hide InPast, Unsearched;
    var ids :| Marked(s, t, ids) && Harmless(g, f, current, s.nodes, ids);
  }

  // ---------- a selected node is selected in its role ----------

  lemma MessageRole(g: Graph, m: Id)
    requires Typed(g) && Spoken(g, m)
    ensures m !in g.sessions && m !in g.tasks && (forall x :: m !in Targets(g.conversations, x))
    ensures forall x :: m !in Targets(g.memories, x)
  {
    assert forall x :: m in Targets(g.conversations, x) ==> Named(g, m);
    assert forall x :: m in Targets(g.memories, x) ==> Noted(g, m);
  }

  lemma MemoryRole(g: Graph, m: Id)
    requires Typed(g) && Noted(g, m)
    ensures m !in g.sessions && m !in g.tasks && (forall x :: m !in Targets(g.conversations, x))
    ensures forall c :: m !in Targets(g.messages, c)
  {
    assert forall x :: m in Targets(g.conversations, x) ==> Named(g, m);
    assert forall c :: m in Targets(g.messages, c) ==> Spoken(g, m);
  }

  lemma NamedRole(g: Graph, x: Id)
    requires Typed(g) && Named(g, x)
    ensures x !in g.tasks && (forall c :: x !in Targets(g.messages, c)) && forall s :: x !in Targets(g.memories, s)
    ensures x in g.sessions ==> forall s :: s in g.sessions ==> x !in Targets(g.conversations, s)
  {
    assert forall c :: x in Targets(g.messages, c) ==> Spoken(g, x);
    assert forall s :: x in Targets(g.memories, s) ==> Noted(g, x);
    assert forall s :: s in g.sessions && x in Targets(g.conversations, s) ==> InSession(g, x);
  }

  lemma PastMessage(g: Graph, nodes: NodeMap, f: Filter, current: Option<Id>, m: Id)
    requires Typed(g) && InPast(g, nodes, f, current, m) && Spoken(g, m)
    ensures exists e :: InSession(g, e) && m in Targets(g.messages, e) && MessageHit(g, nodes, e, f)
  {
    MessageRole(g, m);
    hide Matches, SessionSelected, ConversationSelected, MessageHit, Typed;
    var x :| x in g.sessions && WithSession(g, nodes, x, f, current, m);
    var e :| e in Targets(g.conversations, x) && WithConversation(g, nodes, e, f, m);
    assert InSession(g, e);
  }

  lemma PastConversation(g: Graph, nodes: NodeMap, f: Filter, current: Option<Id>, c: Id)
    requires Typed(g) && InPast(g, nodes, f, current, c) && InSession(g, c)
    ensures ConversationSelected(g, nodes, c, f)
  {
    assert Named(g, c) && c !in g.sessions;
    NamedRole(g, c);
    hide Matches, SessionSelected, ConversationSelected, MessageHit, Typed;
    var x :| x in g.sessions && WithSession(g, nodes, x, f, current, c);
    var e :| e in Targets(g.conversations, x) && WithConversation(g, nodes, e, f, c);
  }

  lemma PastSession(g: Graph, nodes: NodeMap, f: Filter, current: Option<Id>, s: Id)
    requires Typed(g) && InPast(g, nodes, f, current, s) && s in g.sessions
    ensures SessionSelected(g, nodes, s, f, current)
  {
    assert Named(g, s);
    NamedRole(g, s);
    hide Matches, SessionSelected, ConversationSelected, MessageHit, Typed;
  }

  lemma PastMemory(g: Graph, nodes: NodeMap, f: Filter, current: Option<Id>, m: Id)
    requires Typed(g) && InPast(g, nodes, f, current, m) && Noted(g, m)
    ensures m in nodes && Matches(f, nodes[m], MEMORY_FIELDS)
  {
    MemoryRole(g, m);
    hide Matches, SessionSelected, ConversationSelected, MessageHit, Typed;
  }

  // ---------- what is selected later was selected before ----------

  lemma MessageHitBefore(g: Graph, f: Filter, current: Option<Id>, s: Store, t: Store, c: Id)
    requires Typed(g) && MessagesApart(g) && Settling(g, f, current, s, t) && InSession(g, c)
    requires MessageHit(g, t.nodes, c, f)
    ensures MessageHit(g, s.nodes, c, f)
  {
    SettlingLater(g, f, current, s, t);
    hide Matches, InPast, Settling;
    var m :| m in Targets(g.messages, c) && m in t.nodes && Matches(f, t.nodes[m], MESSAGE_FIELDS);
    assert Spoken(g, m);
    Untouched(g, f, current, s, t, m);
    if t.nodes[m] != s.nodes[m] {
      PastMessage(g, s.nodes, f, current, m);
      var e :| InSession(g, e) && m in Targets(g.messages, e) && MessageHit(g, s.nodes, e, f);
      var h :| h in Targets(g.messages, e) && h in s.nodes && Matches(f, s.nodes[h], MESSAGE_FIELDS);
      assert h in Targets(g.messages, c);
    }
  }

  lemma ConversationSelectedBefore(g: Graph, f: Filter, current: Option<Id>, s: Store, t: Store, c: Id)
    requires Typed(g) && MessagesApart(g) && Settling(g, f, current, s, t) && InSession(g, c)
    requires ConversationSelected(g, t.nodes, c, f)
    ensures ConversationSelected(g, s.nodes, c, f)
  {
    SettlingLater(g, f, current, s, t);
    Untouched(g, f, current, s, t, c);
    if MessageHit(g, t.nodes, c, f) {
      MessageHitBefore(g, f, current, s, t, c);
    } else if t.nodes[c] != s.nodes[c] {
      PastConversation(g, s.nodes, f, current, c);
    }
  }

  lemma MemoryMatchesBefore(g: Graph, f: Filter, current: Option<Id>, s: Store, t: Store, m: Id)
    requires Typed(g) && Settling(g, f, current, s, t) && Remembered(g, current, m)
    requires m in t.nodes && Matches(f, t.nodes[m], MEMORY_FIELDS)
    ensures m in s.nodes && Matches(f, s.nodes[m], MEMORY_FIELDS)
  {
    SettlingLater(g, f, current, s, t);
    hide Matches, InPast, Settling;
    Untouched(g, f, current, s, t, m);
    assert Noted(g, m);
    if t.nodes[m] != s.nodes[m] {
      PastMemory(g, s.nodes, f, current, m);
    }
  }

  lemma SessionSelectedBefore(g: Graph, f: Filter, current: Option<Id>, s: Store, t: Store, x: Id)
    requires Typed(g) && MessagesApart(g) && Settling(g, f, current, s, t) && x in g.sessions
    requires SessionSelected(g, t.nodes, x, f, current)
    ensures SessionSelected(g, s.nodes, x, f, current)
  {
    SettlingLater(g, f, current, s, t);
    hide Matches, InPast, Settling, ConversationSelected, OneRole, MessagesApart;
    Untouched(g, f, current, s, t, x);
    if c :| c in Targets(g.conversations, x) && ConversationSelected(g, t.nodes, c, f) {
      assert InSession(g, c);
      ConversationSelectedBefore(g, f, current, s, t, c);
    } else if Some(x) != current && MemoryHit(g, t.nodes, x, f) {
      var m :| m in Targets(g.memories, x) && m in t.nodes && Matches(f, t.nodes[m], MEMORY_FIELDS);
      assert Remembered(g, current, m);
      MemoryMatchesBefore(g, f, current, s, t, m);
    } else if t.nodes[x] != s.nodes[x] {
      PastSession(g, s.nodes, f, current, x);
    }
  }

  lemma WithConversationBefore(g: Graph, f: Filter, current: Option<Id>, s: Store, t: Store, c: Id, id: Id)
    requires Typed(g) && MessagesApart(g) && Settling(g, f, current, s, t) && InSession(g, c)
    requires WithConversation(g, t.nodes, c, f, id)
    ensures WithConversation(g, s.nodes, c, f, id)
  {
    SettlingLater(g, f, current, s, t);
    hide Matches, Settling, ConversationSelected, MessageHit, Typed, MessagesApart, InSession, WellKeyed;
    if id == c && ConversationSelected(g, t.nodes, c, f) {
      ConversationSelectedBefore(g, f, current, s, t, c);
    } else {
      MessageHitBefore(g, f, current, s, t, c);
    }
  }

  /** Reading selected nodes selects nothing new. */
  lemma NothingNew(g: Graph, f: Filter, current: Option<Id>, s: Store, t: Store, id: Id)
    requires Typed(g) && MessagesApart(g) && Settling(g, f, current, s, t) && InPast(g, t.nodes, f, current, id)
    ensures InPast(g, s.nodes, f, current, id)
  {
    SettlingLater(g, f, current, s, t);
    hide Matches, Settling, SessionSelected, WithConversation, MemoryHit, Typed, MessagesApart, WellKeyed;
    var x :| x in g.sessions && WithSession(g, t.nodes, x, f, current, id);
    if id == x && SessionSelected(g, t.nodes, x, f, current) {
      SessionSelectedBefore(g, f, current, s, t, x);
    } else if c :| c in Targets(g.conversations, x) && WithConversation(g, t.nodes, c, f, id) {
      assert InSession(g, c);
      WithConversationBefore(g, f, current, s, t, c, id);
    } else {
      assert Remembered(g, current, id);
      MemoryMatchesBefore(g, f, current, s, t, id);
    }
    assert WithSession(g, s.nodes, x, f, current, id);
  }

  // ---------- the walk ----------

  /** Nodes loaded earlier, whose stored versions may have been read since. */
  ghost predicate Outdated(f: Filter, xs: seq<Node>, nodes: NodeMap) {
    forall x :: x in xs ==> x.id in nodes && FreshlyRead(f, x, nodes[x.id])
  }

  lemma OutdatedLater(f: Filter, xs: seq<Node>, t: Store, u: Store)
    requires Outdated(f, xs, t.nodes) && Later(t, u) && f.breadth.readAfter <= t.clock
    ensures Outdated(f, xs, u.nodes)
  {
    var ids :| Marked(t, u, ids);
    forall x | x in xs
      ensures x.id in u.nodes && FreshlyRead(f, x, u.nodes[x.id])
    {
      assert x.id in t.nodes;
    }
  }

  lemma JustLoaded(f: Filter, nodes: NodeMap, ids: seq<Id>)
    requires WellKeyed(nodes)
    ensures Outdated(f, ByRecency(nodes, ids), nodes)
    ensures forall x :: x in ByRecency(nodes, ids) ==> x.id in ids
  {
    RecencyByIds(nodes, ids);
  }

  lemma FresherRefl(f: Filter, nodes: NodeMap)
    requires WellKeyed(nodes)
    ensures Fresher(f, nodes, nodes)
  {
  }

  /** A step over a conversation loaded earlier returns no more than one over its present version. */
  lemma StepWithinNow(g: Graph, t: Store, f: Filter, c: Node)
    requires WellKeyed(t.nodes) && c.id in t.nodes && FreshlyRead(f, c, t.nodes[c.id])
    ensures var p, q := ConversationStep(g, t, c, f).0, SnapConversation(g, t.nodes, t.nodes[c.id], f);
            ConversationIds(p) <= ConversationIds(q) && (p != [] ==> q != [])
  {
    FresherRefl(f, t.nodes);
    hide Fresher, ConversationStep, SnapConversation, ConversationIds, FreshlyRead, WellKeyed;
    StepIsSnap(g, t, c, f);
    ConversationMore(g, f, t.nodes, t.nodes, c, t.nodes[c.id]);
  }

  /** A step over a conversation returns only what the store before the step selects. */
  lemma StepReturnsSelected(g: Graph, t: Store, f: Filter, c: Node)
    requires WellKeyed(t.nodes) && c.id in t.nodes && FreshlyRead(f, c, t.nodes[c.id])
    ensures var p := ConversationStep(g, t, c, f).0;
            && (forall id :: id in ConversationIds(p) ==> WithConversation(g, t.nodes, c.id, f, id))
            && (p != [] ==> ConversationSelected(g, t.nodes, c.id, f))
  {
    var now := t.nodes[c.id];
    assert now.id == c.id;
    hide WithConversation, ConversationStep, SnapConversation, ConversationSelected, ConversationIds, WellKeyed,
         FreshlyRead;
    StepWithinNow(g, t, f, c);
    ConversationReturned(g, t.nodes, now, f, c.id);
    forall id | id in ConversationIds(ConversationStep(g, t, c, f).0)
      ensures WithConversation(g, t.nodes, c.id, f, id)
    {
      ConversationReturned(g, t.nodes, now, f, id);
    }
  }

  /** The step's conversation in the past context of the store at the start. */
  lemma StepSelected(g: Graph, f: Filter, current: Option<Id>, s: Store, t: Store, x: Id, c: Node)
    requires Typed(g) && MessagesApart(g) && Settling(g, f, current, s, t) && WellKeyed(s.nodes)
    requires x in g.sessions && x in t.nodes && c.id in Targets(g.conversations, x)
    requires c.id in t.nodes && FreshlyRead(f, c, t.nodes[c.id])
    ensures var (p, u) := ConversationStep(g, t, c, f);
            && (forall id :: id in ConversationIds(p) ==> InPast(g, s.nodes, f, current, id))
            && (p != [] ==> SessionSelected(g, s.nodes, x, f, current)) && Settling(g, f, current, s, u) && Later(t, u)
  {
    SettlingLater(g, f, current, s, t);
    StepReturnsSelected(g, t, f, c);
    ConversationMarks(g, t, c, f);
    var (p, u) := ConversationStep(g, t, c, f);
    assert Later(t, u);
    hide Matches, Settling, ConversationSelected, ConversationStep, ConversationIds, WithConversation, Typed,
         MessagesApart;
    forall id | id in ConversationIds(p)
      ensures InPast(g, s.nodes, f, current, id)
    {
      assert WithSession(g, t.nodes, x, f, current, id);
      NothingNew(g, f, current, s, t, id);
    }
    SettlingMarked(g, f, current, s, t, u, ConversationIds(p));
    if p != [] {
      assert InSession(g, c.id);
      ConversationSelectedBefore(g, f, current, s, t, c.id);
    }
  }

  lemma {:induction false} ContextsSelected(g: Graph, f: Filter, current: Option<Id>, s: Store, t: Store, x: Id,
                                            cs: seq<Node>)
    requires Typed(g) && MessagesApart(g) && Settling(g, f, current, s, t) && WellKeyed(s.nodes)
    requires x in g.sessions && x in t.nodes && f.breadth.readAfter <= t.clock
    requires Outdated(f, cs, t.nodes) && forall c :: c in cs ==> c.id in Targets(g.conversations, x)
    ensures var (p, u) := ConversationContexts(g, t, cs, f);
            && (forall id :: id in ConversationIds(p) ==> InPast(g, s.nodes, f, current, id))
            && (p != [] ==> SessionSelected(g, s.nodes, x, f, current)) && Settling(g, f, current, s, u) && Later(t, u)
  {
    if cs == [] {
      MarkedRefl(t);
    } else {
      var k := |cs| - 1;
      assert cs[k] in cs;
      var (p, u) := ConversationContexts(g, t, cs[..k], f);
      ContextsSelected(g, f, current, s, t, x, cs[..k]);
      OutdatedLater(f, cs, t, u);
      var (last, v) := ConversationStep(g, u, cs[k], f);
      assert x in u.nodes && cs[k].id in u.nodes && FreshlyRead(f, cs[k], u.nodes[cs[k].id]);
      hide Matches, Settling, ConversationStep, Typed, MessagesApart, InPast, SessionSelected, Outdated, FreshlyRead,
           Later;
      StepSelected(g, f, current, s, u, x, cs[k]);
      LaterTrans(t, u, v);
      ConversationMarks(g, u, cs[k], f);
      ConversationIdsAppend(p, last);
    }
  }

  /** The memories of a session, met at any point of the walk. */
  lemma MemoriesSelected(g: Graph, f: Filter, current: Option<Id>, s: Store, t: Store, x: Id)
    requires Typed(g) && MessagesApart(g) && Settling(g, f, current, s, t) && WellKeyed(s.nodes)
    requires x in g.sessions && x in t.nodes && Some(x) != current
    ensures var (m, u) := MemoryCandidates(g, t, x, f);
            && (forall id :: id in IdsOf(m) ==> InPast(g, s.nodes, f, current, id))
            && (m != [] ==> SessionSelected(g, s.nodes, x, f, current)) && Settling(g, f, current, s, u)
  {
    SettlingLater(g, f, current, s, t);
    MemoriesReturned(g, t.nodes, x, f);
    MemoriesMark(g, t, x, f);
    var (m, u) := MemoryCandidates(g, t, x, f);
    assert m == SnapMemories(g, t.nodes, x, f);
    hide Matches, Settling, MemoryCandidates, SnapMemories, WithMemories, MemoryHit, Typed, MessagesApart;
    forall id | id in IdsOf(m)
      ensures InPast(g, s.nodes, f, current, id)
    {
      assert WithSession(g, t.nodes, x, f, current, id);
      NothingNew(g, f, current, s, t, id);
    }
    SettlingMarked(g, f, current, s, t, u, IdsOf(m));
    if m != [] {
      SessionSelectedBefore(g, f, current, s, t, x);
    }
  }

  lemma SessionNameSelected(g: Graph, f: Filter, current: Option<Id>, s: Store, t: Store, x: Node)
    requires Typed(g) && MessagesApart(g) && Settling(g, f, current, s, t)
    requires x.id in g.sessions && x.id in t.nodes && FreshlyRead(f, x, t.nodes[x.id])
    ensures Matches(f, x, NAME_FIELDS) ==> SessionSelected(g, s.nodes, x.id, f, current)
  {
    if Matches(f, x, NAME_FIELDS) {
      MatchStays(f, x, t.nodes[x.id], NAME_FIELDS);
      hide Matches, Settling;
      SessionSelectedBefore(g, f, current, s, t, x.id);
    }
  }

  /** A session's step: nothing, or its parts with the session itself marked at the end. */
  lemma SessionParts(g: Graph, t: Store, x: Node, f: Filter, includeMemories: bool)
    ensures var (p, t1) := ConversationContexts(g, t, ByRecency(t.nodes, Targets(g.conversations, x.id)), f);
            var (m, t2) := if includeMemories then MemoryCandidates(g, t1, x.id, f) else ([], t1);
            var (last, u) := SessionContext(g, t, x, f, includeMemories);
            if !Matches(f, x, NAME_FIELDS) && p == [] && m == [] then SessionIds(last) == {} && u == t2
            else SessionIds(last) == ConversationIds(p) + IdsOf(m) + {x.id} && Marked(t2, u, {x.id})
  {
    hide Matches, ConversationContexts, MemoryCandidates, ByRecency;
    var (p, t1) := ConversationContexts(g, t, ByRecency(t.nodes, Targets(g.conversations, x.id)), f);
    var (m, t2) := if includeMemories then MemoryCandidates(g, t1, x.id, f) else ([], t1);
    MarkOne(t2, x.id);
    OneSessionIds(RetrievedSession(x, Matches(f, x, NAME_FIELDS), p, m));
  }

  /** The parts of a session's step. */
  lemma PartsSelected(g: Graph, f: Filter, current: Option<Id>, s: Store, t: Store, x: Node)
    requires Typed(g) && MessagesApart(g) && Settling(g, f, current, s, t) && WellKeyed(s.nodes)
    requires f.breadth.readAfter <= t.clock
    requires x.id in g.sessions && x.id in t.nodes && FreshlyRead(f, x, t.nodes[x.id])
    ensures var (p, t1) := ConversationContexts(g, t, ByRecency(t.nodes, Targets(g.conversations, x.id)), f);
            var (m, t2) := if Some(x.id) != current then MemoryCandidates(g, t1, x.id, f) else ([], t1);
            && (forall id :: id in ConversationIds(p) + IdsOf(m) ==> InPast(g, s.nodes, f, current, id))
            && (Matches(f, x, NAME_FIELDS) || p != [] || m != [] ==> SessionSelected(g, s.nodes, x.id, f, current))
            && Settling(g, f, current, s, t2)
  {
    SettlingLater(g, f, current, s, t);
    var ids := Targets(g.conversations, x.id);
    JustLoaded(f, t.nodes, ids);
    SessionNameSelected(g, f, current, s, t, x);
    var t1 := ConversationContexts(g, t, ByRecency(t.nodes, ids), f).1;
    hide *;
    ContextsSelected(g, f, current, s, t, x.id, ByRecency(t.nodes, ids));
    SettlingLater(g, f, current, s, t1);
    if Some(x.id) != current {
      SameKeys(s, t, t1, x.id);
      MemoriesSelected(g, f, current, s, t1, x.id);
    }
    NoIds();
  }

  lemma SameKeys(s: Store, t: Store, t1: Store, x: Id)
    requires SameNodes(s.nodes, t.nodes) && SameNodes(s.nodes, t1.nodes) && x in t.nodes
    ensures x in t1.nodes
  {
  }

  lemma NoIds()
    ensures IdsOf([]) == {}
  {
  }

  lemma SessionStep(g: Graph, f: Filter, current: Option<Id>, s: Store, t: Store, x: Node)
    requires Typed(g) && MessagesApart(g) && Settling(g, f, current, s, t) && WellKeyed(s.nodes)
    requires f.breadth.readAfter <= t.clock
    requires x.id in g.sessions && x.id in t.nodes && FreshlyRead(f, x, t.nodes[x.id])
    ensures var (p, u) := SessionContext(g, t, x, f, Some(x.id) != current);
            && (forall id :: id in SessionIds(p) ==> InPast(g, s.nodes, f, current, id))
            && Settling(g, f, current, s, u) && Later(t, u)
  {
    var includeMemories := Some(x.id) != current;
    var (p, t1) := ConversationContexts(g, t, ByRecency(t.nodes, Targets(g.conversations, x.id)), f);
    var (m, t2) := if includeMemories then MemoryCandidates(g, t1, x.id, f) else ([], t1);
    var (last, u) := SessionContext(g, t, x, f, includeMemories);
    SessionMarks(g, t, x, f, includeMemories);
    assert Later(t, u);
    hide *;
    PartsSelected(g, f, current, s, t, x);
    SessionParts(g, t, x, f, includeMemories);
    if Matches(f, x, NAME_FIELDS) || p != [] || m != [] {
      SelectedInPast(g, s.nodes, f, current, x.id);
      OneHarmless(g, f, current, s.nodes, x.id);
      SettlingMarked(g, f, current, s, t2, u, {x.id});
    }
  }

  lemma OneHarmless(g: Graph, f: Filter, current: Option<Id>, nodes: NodeMap, x: Id)
    requires InPast(g, nodes, f, current, x)
    ensures Harmless(g, f, current, nodes, {x})
  {
  }

  lemma SelectedInPast(g: Graph, nodes: NodeMap, f: Filter, current: Option<Id>, x: Id)
    requires x in g.sessions && SessionSelected(g, nodes, x, f, current)
    ensures InPast(g, nodes, f, current, x)
  {
    assert WithSession(g, nodes, x, f, current, x);
  }

  lemma {:induction false} SessionsOnlySelected(g: Graph, f: Filter, current: Option<Id>, s: Store, t: Store,
                                                xs: seq<Node>)
    requires Typed(g) && MessagesApart(g) && Settling(g, f, current, s, t) && WellKeyed(s.nodes)
    requires f.breadth.readAfter <= t.clock && Outdated(f, xs, t.nodes) && forall x :: x in xs ==> x.id in g.sessions
    ensures var (p, u) := SessionContexts(g, t, xs, f, current);
            && (forall id :: id in SessionIds(p) ==> InPast(g, s.nodes, f, current, id))
            && Settling(g, f, current, s, u) && Later(t, u)
  {
    if xs == [] {
      MarkedRefl(t);
    } else {
      var k := |xs| - 1;
      assert xs[k] in xs;
      var (p, u) := SessionContexts(g, t, xs[..k], f, current);
      SessionsOnlySelected(g, f, current, s, t, xs[..k]);
      OutdatedLater(f, xs, t, u);
      var includeMemories := Some(xs[k].id) != current;
      var (last, v) := SessionContext(g, u, xs[k], f, includeMemories);
      assert xs[k].id in u.nodes && FreshlyRead(f, xs[k], u.nodes[xs[k].id]) && t.clock <= u.clock;
      hide Matches, Settling, SessionContext, Typed, MessagesApart, InPast, Outdated, FreshlyRead, Later;
      SessionStep(g, f, current, s, u, xs[k]);
      LaterTrans(t, u, v);
      SessionMarks(g, u, xs[k], f, includeMemories);
      SessionIdsAppend(p, last);
    }
  }

  // ---------- the whole retrieval ----------

  lemma TasksUnsearched(g: Graph, s: Store, r: Request, f: Filter, current: Option<Id>)
    requires Typed(g) && WellKeyed(s.nodes)
    ensures Settling(g, f, current, s, TaskCatalog(g, s, r).1)
  {
    var (tasks, t) := TaskCatalog(g, s, r);
    MarkNodes(s, tasks);
    SettlingRefl(g, f, current, s);
    forall i | i in IdsOf(tasks)
      ensures Unsearched(g, current, i)
    {
      TasksReturned(g, s.nodes, r, i);
      assert i in g.tasks && !Named(g, i) && !Spoken(g, i) && !Noted(g, i);
    }
    SettlingMarked(g, f, current, s, s, t, IdsOf(tasks));
  }

  /** The sessions of a retrieval hold only what the store before it selects, and the walk reads nothing else. */
  lemma PastOnlySelected(g: Graph, s: Store, r: Request, current: Option<Id>)
    requires Typed(g) && MessagesApart(g) && WellKeyed(s.nodes) && CutoffsPassed(r, s.clock) && r.pastBreadth.Some?
    ensures var f := Filter(r.hints, r.pastBreadth.value);
            var (p, u) := PastContext(g, TaskCatalog(g, s, r).1, r, current);
            (forall id :: id in SessionIds(p) ==> InPast(g, s.nodes, f, current, id)) && Settling(g, f, current, s, u)
  {
    var f := Filter(r.hints, r.pastBreadth.value);
    var t := TaskCatalog(g, s, r).1;
    TasksUnsearched(g, s, r, f, current);
    SettlingLater(g, f, current, s, t);
    LaterFresher(f, s, t);
    JustLoaded(f, t.nodes, g.sessions);
    hide TaskCatalog, Typed, MessagesApart, InPast, Settling;
    SessionsOnlySelected(g, f, current, s, t, ByRecency(t.nodes, g.sessions));
  }

  /** Exactly the matching tasks, and in the past context exactly what the store before the call selects. */
  ghost predicate Exact(g: Graph, s: Store, r: Request, current: Option<Id>) {
    var result := Retrieve(g, s, r, current).0;
    result.Ok? ==>
      && (forall id :: id in IdsOf(result.value.tasks) <==> InTasks(g, s.nodes, r, id))
      && forall id :: id in SessionIds(result.value.sessions) <==>
           r.pastBreadth.Some? && InPast(g, s.nodes, Filter(r.hints, r.pastBreadth.value), current, id)
  }

  /**
   On a graph with shared nodes as well, if conversations that share a message share all of them, a
   retrieval returns exactly what the store before it selects.
   */
  lemma RetrieveExact(g: Graph, s: Store, r: Request, current: Option<Id>)
    requires Typed(g) && MessagesApart(g) && WellKeyed(s.nodes) && CutoffsPassed(r, s.clock)
    ensures Exact(g, s, r, current)
  {
    if r.pastBreadth.Some? {
      PastOnlySelected(g, s, r, current);
    }
    assert SessionIds([]) == {};
    hide Typed, MessagesApart, InPast, CutoffsPassed, WellKeyed, TaskCatalog, PastContext, CurrentMemories;
    forall id {
      SelectedIsReturned(g, s, r, current, id);
    }
  }

  // ---------- repeating it ----------

  /** The repeated call returns the same tasks, and the same nodes of the past context. */
  ghost predicate Repeats(g: Graph, s: Store, r: Request, current: Option<Id>) {
    var (x, t) := Retrieve(g, s, r, current);
    var y := Retrieve(g, t, r, current).0;
    x.Ok? ==>
      && y.Ok? && IdsOf(y.value.tasks) == IdsOf(x.value.tasks)
      && SessionIds(y.value.sessions) == SessionIds(x.value.sessions)
  }

  /** The nodes of the current session's memories, which every call marks. */
  lemma CurrentMarks(g: Graph, u: Store, current: Option<Id>)
    requires WellKeyed(u.nodes)
    ensures Marked(u, CurrentMemories(g, u, current).1, IdsOf(CurrentMemories(g, u, current).0))
    ensures forall i :: i in IdsOf(CurrentMemories(g, u, current).0) <==>
              current.Some? && i in u.nodes && i in Targets(g.memories, current.value)
  {
    if current.None? {
      MarkedRefl(u);
      assert IdsOf([]) == {};
    } else {
      var list := ByRecency(u.nodes, Targets(g.memories, current.value));
      RecencyByIds(u.nodes, Targets(g.memories, current.value));
      TouchEachMarks(u, list);
      TouchEachIds(u, list);
      IdListSet(list);
      IdListSet(TouchEach(u, list).0);
      forall i | i in u.nodes && i in Targets(g.memories, current.value)
        ensures i in IdsOf(list)
      {
        assert u.nodes[i] in list;
      }
    }
  }

  /** A whole call reads only what is selected or not searched. */
  lemma CallSettles(g: Graph, s: Store, r: Request, current: Option<Id>)
    requires Typed(g) && MessagesApart(g) && CurrentApart(g, current) && WellKeyed(s.nodes)
    requires CutoffsPassed(r, s.clock) && r.pastBreadth.Some? && Retrieve(g, s, r, current).0.Ok?
    ensures Settling(g, Filter(r.hints, r.pastBreadth.value), current, s, Retrieve(g, s, r, current).1)
  {
    var f := Filter(r.hints, r.pastBreadth.value);
    var u := PastContext(g, TaskCatalog(g, s, r).1, r, current).1;
    PastOnlySelected(g, s, r, current);
    SettlingLater(g, f, current, s, u);
    CurrentMarks(g, u, current);
    var (memories, v) := CurrentMemories(g, u, current);
    forall i | i in IdsOf(memories)
      ensures Unsearched(g, current, i)
    {
      assert Noted(g, i);
      MemoryRole(g, i);
    }
    SettlingMarked(g, f, current, s, u, v, IdsOf(memories));
  }

  lemma TaskRole(g: Graph, nodes: NodeMap, f: Filter, current: Option<Id>, i: Id)
    requires Typed(g) && i in g.tasks
    ensures !InPast(g, nodes, f, current, i) && !Noted(g, i)
  {
    assert !Named(g, i) && !Spoken(g, i) && !Noted(g, i);
    hide Matches, SessionSelected, ConversationSelected, MessageHit;
    if x :| x in g.sessions && WithSession(g, nodes, x, f, current, i) {
      assert i in Targets(g.memories, x) ==> Noted(g, i);
      assert forall e :: e in Targets(g.conversations, x) && WithConversation(g, nodes, e, f, i) ==>
                           Named(g, e) && (i == e || Spoken(g, i));
    }
  }

  /** A task is read only as one. */
  lemma TaskMatchedBefore(g: Graph, s: Store, r: Request, current: Option<Id>, id: Id)
    requires Typed(g) && MessagesApart(g) && WellKeyed(s.nodes) && CutoffsPassed(r, s.clock)
    requires var (x, t) := Retrieve(g, s, r, current); x.Ok? && InTasks(g, t.nodes, r, id)
    ensures InTasks(g, s.nodes, r, id)
  {
    var (x, t) := Retrieve(g, s, r, current);
    RetrieveMarksReturned(g, s, r, current);
    RetrieveExact(g, s, r, current);
    CurrentIds(g, s, r, current);
    hide MessagesApart, CutoffsPassed, Retrieve, Typed, Matches, InPast, SessionIds;
    if r.pastBreadth.Some? {
      TaskRole(g, s.nodes, Filter(r.hints, r.pastBreadth.value), current, id);
    }
    NotCurrent(g, current, id);
  }

  lemma TasksRepeatExactly(g: Graph, s: Store, r: Request, current: Option<Id>)
    requires Typed(g) && MessagesApart(g) && WellKeyed(s.nodes) && CutoffsPassed(r, s.clock)
    requires Retrieve(g, s, r, current).0.Ok?
    ensures var (x, t) := Retrieve(g, s, r, current);
            IdsOf(TaskCatalog(g, t, r).0) == IdsOf(x.value.tasks)
  {
    var (x, t) := Retrieve(g, s, r, current);
    AfterFirst(g, s, r, current);
    assert Later(s, t);
    TasksRepeat(g, s, t, r);
    assert x.value.tasks == TaskCatalog(g, s, r).0;
    hide MessagesApart, CutoffsPassed, Retrieve, TaskCatalog, Typed, InTasks, Later, Marked, SameNodes;
    forall id | id in IdsOf(TaskCatalog(g, t, r).0)
      ensures id in IdsOf(x.value.tasks)
    {
      TasksReturned(g, s.nodes, r, id);
      TasksReturned(g, t.nodes, r, id);
      TasksAreSnap(g, s, r);
      TasksAreSnap(g, t, r);
      TaskMatchedBefore(g, s, r, current, id);
    }
  }

  lemma TasksAreSnap(g: Graph, s: Store, r: Request)
    ensures TaskCatalog(g, s, r).0 == SnapTasks(g, s.nodes, r)
  {
  }

  lemma NotCurrent(g: Graph, current: Option<Id>, i: Id)
    requires Typed(g) && i in g.tasks
    ensures current.Some? ==> i !in SetOf(Targets(g.memories, current.value))
  {
    assert !Noted(g, i);
  }

  lemma PastRepeatsExactly(g: Graph, s: Store, r: Request, current: Option<Id>)
    requires Typed(g) && MessagesApart(g) && CurrentApart(g, current) && WellKeyed(s.nodes) && CutoffsPassed(r, s.clock)
    requires r.pastBreadth.Some? && Retrieve(g, s, r, current).0.Ok?
    ensures var (x, t) := Retrieve(g, s, r, current); var y := Retrieve(g, t, r, current).0;
            y.Ok? ==> SessionIds(y.value.sessions) <= SessionIds(x.value.sessions)
  {
    var f := Filter(r.hints, r.pastBreadth.value);
    var t := Retrieve(g, s, r, current).1;
    AfterFirst(g, s, r, current);
    CallSettles(g, s, r, current);
    assert CutoffsPassed(r, t.clock);
    RetrieveExact(g, s, r, current);
    RetrieveExact(g, t, r, current);
    hide Typed, MessagesApart, CurrentApart, InPast, Settling, Retrieve, Marked, SameNodes, WellKeyed, CutoffsPassed;
    forall id | InPast(g, t.nodes, f, current, id)
      ensures InPast(g, s.nodes, f, current, id)
    {
      NothingNew(g, f, current, s, t, id);
    }
  }

  /** If moreover no memory of the current session belongs to another one, the repeated call returns the same. */
  lemma RetrieveRepeats(g: Graph, s: Store, r: Request, current: Option<Id>)
    requires Typed(g) && MessagesApart(g) && CurrentApart(g, current) && WellKeyed(s.nodes) && CutoffsPassed(r, s.clock)
    ensures Repeats(g, s, r, current)
  {
    var (x, t) := Retrieve(g, s, r, current);
    if x.Ok? {
      PastRepeat(g, s, r, current);
      hide Typed, MessagesApart, CurrentApart, TaskCatalog, PastContext, CurrentMemories, WellKeyed, CutoffsPassed,
           Later;
      TasksRepeatExactly(g, s, r, current);
      if r.pastBreadth.Some? {
        PastRepeatsExactly(g, s, r, current);
      } else {
        NoPast(g, s, r, current);
        NoPast(g, t, r, current);
      }
    }
  }

  lemma NoPast(g: Graph, s: Store, r: Request, current: Option<Id>)
    requires r.pastBreadth.None?
    ensures var x := Retrieve(g, s, r, current).0; x.Ok? ==> x.value.sessions == []
  {
  }
}
