/**
 On which graphs every retrieval returns exactly what the store before it selects and the same again when
 repeated. Shared nodes that break it are made to do so by a store and a request, on any graph.
 */
module RetrievalShared {
  import opened Ids
  import opened Nodes
  import opened Retrieval
  import opened RetrievalMarks
  import opened RetrievalLaws
  import opened RetrievalStability
  import opened RetrievalMonotone
  import opened RetrievalRepeat
  import opened RetrievalExact
  import WhereClause

  // ---------- why the condition is needed ----------

  /** For this store and request, a call is exact and repeatable unless a read cutoff lies in the future. */
  ghost predicate Faithful(g: Graph, s: Store, r: Request, current: Option<Id>) {
    WellKeyed(s.nodes) && CutoffsPassed(r, s.clock) ==> Exact(g, s, r, current) && Repeats(g, s, r, current)
  }

  const MARK := "t"

  /** A store of nodes without content, some tagged; `seen` was read before the cutoff, the others never. */
  function Witness(stored: set<Id>, tagged: set<Id>, seen: Id): Store {
    Store(map i | i in stored ::
            MemoryNode(i, if i in tagged then [MARK] else [],
                       Timestamps(0, 0, if i == seen then Some(0) else None), map[]),
          1)
  }

  const TAGGED := Filter(Hints(WhereClause.TagSearch([MARK], [], []), WhereClause.StringSearch([], [])),
                         Breadth(0, 0, 1))

  const ASKED := Request(TAGGED.hints, None, Some(TAGGED.breadth))

  /** At the start every tagged node but `seen` matches; `seen` matches once it is read. */
  lemma WitnessMatches(stored: set<Id>, tagged: set<Id>, seen: Id, i: Id, fields: seq<string>)
    requires i in stored
    ensures var nodes := Witness(stored, tagged, seen).nodes;
            && i in nodes && (Matches(TAGGED, nodes[i], fields) <==> i in tagged && i != seen)
            && (i in tagged ==> forall at :: at >= 1 ==> Matches(TAGGED, Touch(nodes[i], at), fields))
  {
    assert MARK in [MARK];
  }

  lemma CurrentOk(g: Graph, s: Store, r: Request, current: Option<Id>)
    requires current.Some? ==> IsRecordId(current.value)
    ensures Retrieve(g, s, r, current).0.Ok?
  {
    hide TaskCatalog, PastContext, CurrentMemories;
  }

  /**
   If the store after a call selects a node that the start does not select, the call is not exact or not
   repeatable.
   */
  lemma ReadBreaks(g: Graph, s: Store, current: Option<Id>, id: Id)
    requires WellKeyed(s.nodes) && s.clock == 1 && (current.Some? ==> IsRecordId(current.value))
    requires !InPast(g, s.nodes, TAGGED, current, id)
    requires InPast(g, Retrieve(g, s, ASKED, current).1.nodes, TAGGED, current, id)
    ensures !Faithful(g, s, ASKED, current)
  {
    var (x, t) := Retrieve(g, s, ASKED, current);
    CurrentOk(g, s, ASKED, current);
    CurrentOk(g, t, ASKED, current);
    AfterFirst(g, s, ASKED, current);
    assert s.clock <= t.clock;
    assert Filter(ASKED.hints, ASKED.pastBreadth.value) == TAGGED;
    hide InPast, Retrieve;
    SelectedIsReturned(g, t, ASKED, current, id);
  }

  /** A message that two conversations share and a second one that they do not. */
  lemma SharedMessageBreaks(g: Graph, current: Option<Id>, c: Id, e: Id, m: Id, h: Id) returns (s: Store)
    requires Typed(g) && (current.Some? ==> IsRecordId(current.value)) && InSession(g, c) && InSession(g, e)
    requires m in Targets(g.messages, c) && m in Targets(g.messages, e)
    requires h in Targets(g.messages, e) && h !in Targets(g.messages, c)
    ensures !Faithful(g, s, ASKED, current)
  {
    var x :| x in g.sessions && c in Targets(g.conversations, x);
    var y :| y in g.sessions && e in Targets(g.conversations, y);
    s := Witness({x, y, c, e, m, h}, {m, h}, m);
    MessageStart(g, current, x, c, m, h, s, {x, y, c, e, m, h});
    MessageRead(g, current, y, e, m, h, s, {x, y, c, e, m, h});
    var t := Retrieve(g, s, ASKED, current).1;
    MessageSelects(g, current, x, c, m, t);
    ReadBreaks(g, s, current, c);
  }

  /** At the start `c` is not selected. */
  lemma MessageStart(g: Graph, current: Option<Id>, x: Id, c: Id, m: Id, h: Id, s: Store, stored: set<Id>)
    requires Typed(g) && InSession(g, c) && s == Witness(stored, {m, h}, m) && Spoken(g, h) && Spoken(g, m)
    requires c in stored && h !in Targets(g.messages, c)
    ensures WellKeyed(s.nodes) && !InPast(g, s.nodes, TAGGED, current, c)
  {
    if InPast(g, s.nodes, TAGGED, current, c) {
      PastConversation(g, s.nodes, TAGGED, current, c);
      MessageRole(g, m);
      MessageRole(g, h);
      WitnessMatches(stored, {m, h}, m, c, NAME_FIELDS);
      hide Matches, Typed, InPast;
      var i :| i in Targets(g.messages, c) && i in s.nodes && Matches(TAGGED, s.nodes[i], MESSAGE_FIELDS);
      WitnessMatches(stored, {m, h}, m, i, MESSAGE_FIELDS);
    }
  }

  /** The first call returns and reads `m` with `e`, after which `m` matches. */
  lemma MessageRead(g: Graph, current: Option<Id>, y: Id, e: Id, m: Id, h: Id, s: Store, stored: set<Id>)
    requires (current.Some? ==> IsRecordId(current.value)) && s == Witness(stored, {m, h}, m) && h != m
    requires y in g.sessions && e in Targets(g.conversations, y)
    requires m in Targets(g.messages, e) && h in Targets(g.messages, e) && {y, e, m, h} <= stored
    ensures var t := Retrieve(g, s, ASKED, current).1;
            t.nodes.Keys == stored && m in t.nodes && Matches(TAGGED, t.nodes[m], MESSAGE_FIELDS)
  {
    WitnessMatches(stored, {m, h}, m, h, MESSAGE_FIELDS);
    WitnessMatches(stored, {m, h}, m, m, MESSAGE_FIELDS);
    hide Matches;
    assert MessageHit(g, s.nodes, e, TAGGED);
    assert WithConversation(g, s.nodes, e, TAGGED, m);
    assert WithSession(g, s.nodes, y, TAGGED, current, m);
    assert InPast(g, s.nodes, TAGGED, current, m);
    FirstReads(g, s, current, m);
  }

  /** A node that the start selects has been read after the first call. */
  lemma FirstReads(g: Graph, s: Store, current: Option<Id>, m: Id)
    requires WellKeyed(s.nodes) && s.clock == 1 && (current.Some? ==> IsRecordId(current.value))
    requires InPast(g, s.nodes, TAGGED, current, m) && m in s.nodes
    ensures var t := Retrieve(g, s, ASKED, current).1;
            && t.nodes.Keys == s.nodes.Keys && t.nodes[m].stamps.readAt.Some? && t.nodes[m].stamps.readAt.value >= 1
            && t.nodes[m] == Touch(s.nodes[m], t.nodes[m].stamps.readAt.value)
  {
    CurrentOk(g, s, ASKED, current);
    AfterFirst(g, s, ASKED, current);
    assert Filter(ASKED.hints, ASKED.pastBreadth.value) == TAGGED;
    hide InPast, Retrieve;
    SelectedIsReturned(g, s, ASKED, current, m);
  }

  lemma MessageSelects(g: Graph, current: Option<Id>, x: Id, c: Id, m: Id, t: Store)
    requires x in g.sessions && c in Targets(g.conversations, x) && m in Targets(g.messages, c)
    requires x in t.nodes && c in t.nodes && m in t.nodes && Matches(TAGGED, t.nodes[m], MESSAGE_FIELDS)
    ensures InPast(g, t.nodes, TAGGED, current, c)
  {
    hide Matches;
    assert MessageHit(g, t.nodes, c, TAGGED);
    assert WithConversation(g, t.nodes, c, TAGGED, c);
    assert WithSession(g, t.nodes, x, TAGGED, current, c);
  }

  /** A memory of the current session, which every call reads, that also belongs to another one. */
  lemma SharedMemoryBreaks(g: Graph, current: Option<Id>, m: Id) returns (s: Store)
    requires Typed(g) && current.Some? && IsRecordId(current.value)
    requires m in Targets(g.memories, current.value) && Remembered(g, current, m)
    ensures !Faithful(g, s, ASKED, current)
  {
    var x :| x in g.sessions && Some(x) != current && m in Targets(g.memories, x);
    s := Witness({x, m}, {m}, m);
    var t := Retrieve(g, s, ASKED, current).1;
    assert Noted(g, m);
    WitnessMatches({x, m}, {m}, m, m, MEMORY_FIELDS);
    if InPast(g, s.nodes, TAGGED, current, m) {
      PastMemory(g, s.nodes, TAGGED, current, m);
    }
    CurrentRead(g, s, current, m);
    assert Matches(TAGGED, t.nodes[m], MEMORY_FIELDS);
    hide Matches;
    assert WithSession(g, t.nodes, x, TAGGED, current, m);
    assert InPast(g, t.nodes, TAGGED, current, m);
    ReadBreaks(g, s, current, m);
  }

  lemma CurrentRead(g: Graph, s: Store, current: Option<Id>, m: Id)
    requires WellKeyed(s.nodes) && s.clock == 1 && current.Some? && IsRecordId(current.value)
    requires m in Targets(g.memories, current.value) && m in s.nodes
    ensures var t := Retrieve(g, s, ASKED, current).1;
            && t.nodes.Keys == s.nodes.Keys && t.nodes[m].stamps.readAt.Some? && t.nodes[m].stamps.readAt.value >= 1
            && t.nodes[m] == Touch(s.nodes[m], t.nodes[m].stamps.readAt.value)
  {
    var u := PastContext(g, TaskCatalog(g, s, ASKED).1, ASKED, current).1;
    StoreBeforeCurrent(g, s, ASKED, current);
    CurrentMarks(g, u, current);
    CurrentOk(g, s, ASKED, current);
    AfterFirst(g, s, ASKED, current);
    assert m in IdsOf(CurrentMemories(g, u, current).0);
  }

  // ---------- the exact condition ----------

  /**
   For every store and request a retrieval returns exactly what the store before it selects, and the same
   again when repeated, if and only if conversations that share a message share all of them and no memory
   of the current session belongs to another one.
   */
  lemma RetrieveFaithfulIff(g: Graph, current: Option<Id>)
    requires Typed(g) && (current.Some? ==> IsRecordId(current.value))
    ensures (forall s, r :: Faithful(g, s, r, current)) <==> MessagesApart(g) && CurrentApart(g, current)
  {
    hide Typed, Exact, Repeats, InSession, WellKeyed, CutoffsPassed, Remembered;
    if MessagesApart(g) && CurrentApart(g, current) {
      forall s, r
        ensures Faithful(g, s, r, current)
      {
        if WellKeyed(s.nodes) && CutoffsPassed(r, s.clock) {
          RetrieveExact(g, s, r, current);
          RetrieveRepeats(g, s, r, current);
        }
      }
    } else if !MessagesApart(g) {
      var c, e, m, h :| InSession(g, c) && InSession(g, e) && m in Targets(g.messages, c) &&
                        m in Targets(g.messages, e) &&
                        h in Targets(g.messages, e) && h !in Targets(g.messages, c);
      var s := SharedMessageBreaks(g, current, c, e, m, h);
    } else {
      var m :| m in Targets(g.memories, current.value) && Remembered(g, current, m);
      var s := SharedMemoryBreaks(g, current, m);
    }
  }

  /** The smallest graph that breaks it: a session with two conversations, one of which has one message more. */
  lemma SmallestExample(x: Id, c: Id, e: Id, m: Id, h: Id) returns (s: Store)
    requires NoDup([x, c, e, m, h])
    ensures var g := Graph([], [x], map[x := [c, e]], map[c := [m], e := [m, h]], map[]);
            Typed(g) && !Faithful(g, s, ASKED, None)
  {
    var ids, g := [x, c, e, m, h], Graph([], [x], map[x := [c, e]], map[c := [m], e := [m, h]], map[]);
    assert ids[0] == x && ids[1] == c && ids[2] == e && ids[3] == m && ids[4] == h;
    assert forall i :: Named(g, i) ==> i == x || i == c || i == e;
    assert forall i :: Spoken(g, i) ==> i == m || i == h;
    assert forall i :: !Noted(g, i);
    assert g.sessions[0] == x && Targets(g.conversations, x)[0] == c && Targets(g.conversations, x)[1] == e;
    assert x in g.sessions && c in Targets(g.conversations, x) && e in Targets(g.conversations, x);
    assert InSession(g, c) && InSession(g, e) && forall i :: InSession(g, i) ==> i == c || i == e;
    s := SharedMessageBreaks(g, None, c, e, m, h);
  }
}
