/**
 Which nodes of the past context a retrieval returns, in terms of the nodes' own tags, times and texts: on
 every graph all that hang with a wanted node, and nothing else where no message is shared unevenly.
 */
module RetrievalWanted {
  import opened Ids
  import opened Retrieval
  import opened RetrievalMarks
  import opened RetrievalLaws
  import opened RetrievalStability
  import opened RetrievalRepeat
  import opened RetrievalExact
  import opened RetrievalMeaning

  /** What is asked of the past context, and of which session the memories are current. */
  datatype Ask = Ask(hints: Hints, breadth: Breadth, current: Option<Id>)

  ghost predicate IsWanted(a: Ask, nodes: NodeMap, id: Id, fields: set<string>) {
    id in nodes && Wanted(a.hints, a.breadth, nodes[id], fields)
  }

  ghost predicate HasWantedMessage(g: Graph, nodes: NodeMap, a: Ask, c: Id) {
    exists m :: m in Targets(g.messages, c) && IsWanted(a, nodes, m, MESSAGE_NAMES)
  }

  /** A conversation is taken for its own name or for a message. */
  ghost predicate TakenConversation(g: Graph, nodes: NodeMap, a: Ask, c: Id) {
    c in nodes && (IsWanted(a, nodes, c, NAME) || HasWantedMessage(g, nodes, a, c))
  }

  ghost predicate WantedMemory(g: Graph, nodes: NodeMap, a: Ask, x: Id, m: Id) {
    Some(x) != a.current && m in Targets(g.memories, x) && IsWanted(a, nodes, m, MEMORY_NAMES)
  }

  /** A session is taken for its own name, for a conversation, or, unless it is current, for a memory. */
  ghost predicate TakenSession(g: Graph, nodes: NodeMap, a: Ask, x: Id) {
    || IsWanted(a, nodes, x, NAME)
    || (exists c :: c in Targets(g.conversations, x) && TakenConversation(g, nodes, a, c))
    || exists m :: WantedMemory(g, nodes, a, x, m)
  }

  /** The node comes with conversation `c`: it is taken itself, or one of its messages is wanted. */
  ghost predicate ComesWith(g: Graph, nodes: NodeMap, a: Ask, c: Id, id: Id) {
    || (id == c && TakenConversation(g, nodes, a, c))
    || (c in nodes && id in nodes && id in Targets(g.messages, c) && HasWantedMessage(g, nodes, a, c))
  }

  /** The node is or comes with a listed session. */
  ghost predicate Comes(g: Graph, nodes: NodeMap, a: Ask, x: Id, id: Id) {
    x in g.sessions && x in nodes &&
    (|| (id == x && TakenSession(g, nodes, a, x))
     || (exists c :: c in Targets(g.conversations, x) && ComesWith(g, nodes, a, c, id))
     || WantedMemory(g, nodes, a, x, id))
  }

  function FilterOf(a: Ask): Filter {
    Filter(a.hints, a.breadth)
  }

  lemma Decided(a: Ask, nodes: NodeMap, id: Id)
    requires id in nodes
    ensures Matches(FilterOf(a), nodes[id], NAME_FIELDS) <==> IsWanted(a, nodes, id, NAME)
    ensures Matches(FilterOf(a), nodes[id], MESSAGE_FIELDS) <==> IsWanted(a, nodes, id, MESSAGE_NAMES)
    ensures Matches(FilterOf(a), nodes[id], MEMORY_FIELDS) <==> IsWanted(a, nodes, id, MEMORY_NAMES)
  {
    FieldNames();
    hide Matches, Wanted, NAME, MESSAGE_NAMES, MEMORY_NAMES, NAME_FIELDS, MESSAGE_FIELDS, MEMORY_FIELDS;
    MatchesMeans(FilterOf(a), nodes[id], NAME_FIELDS, NAME);
    MatchesMeans(FilterOf(a), nodes[id], MESSAGE_FIELDS, MESSAGE_NAMES);
    MatchesMeans(FilterOf(a), nodes[id], MEMORY_FIELDS, MEMORY_NAMES);
  }

  lemma ConversationMeans(g: Graph, nodes: NodeMap, a: Ask, c: Id)
    ensures MessageHit(g, nodes, c, FilterOf(a)) <==> HasWantedMessage(g, nodes, a, c)
    ensures ConversationSelected(g, nodes, c, FilterOf(a)) <==> TakenConversation(g, nodes, a, c)
  {
    hide Matches, Wanted, NAME, MESSAGE_NAMES, MEMORY_NAMES, NAME_FIELDS, MESSAGE_FIELDS, MEMORY_FIELDS, IsWanted;
    forall m | m in nodes
      ensures Matches(FilterOf(a), nodes[m], NAME_FIELDS) <==> IsWanted(a, nodes, m, NAME)
      ensures Matches(FilterOf(a), nodes[m], MESSAGE_FIELDS) <==> IsWanted(a, nodes, m, MESSAGE_NAMES)
    {
      Decided(a, nodes, m);
    }
    forall m
      ensures IsWanted(a, nodes, m, NAME) || IsWanted(a, nodes, m, MESSAGE_NAMES) ==> m in nodes
    {
      WantedStored(a, nodes, m);
    }
  }

  lemma WantedStored(a: Ask, nodes: NodeMap, id: Id)
    ensures forall fields :: IsWanted(a, nodes, id, fields) ==> id in nodes
  {
  }

  lemma MemoryMeans(g: Graph, nodes: NodeMap, a: Ask, x: Id, id: Id)
    ensures Some(x) != a.current && WithMemories(g, nodes, x, FilterOf(a), id) <==> WantedMemory(g, nodes, a, x, id)
  {
    hide Matches, Wanted, NAME, MESSAGE_NAMES, MEMORY_NAMES, NAME_FIELDS, MESSAGE_FIELDS, MEMORY_FIELDS, IsWanted;
    WantedStored(a, nodes, id);
    if id in nodes {
      Decided(a, nodes, id);
    }
  }

  lemma SessionMeans(g: Graph, nodes: NodeMap, a: Ask, x: Id)
    requires x in nodes
    ensures SessionSelected(g, nodes, x, FilterOf(a), a.current) <==> TakenSession(g, nodes, a, x)
  {
    Decided(a, nodes, x);
    hide Matches, Wanted, NAME, MESSAGE_NAMES, MEMORY_NAMES, NAME_FIELDS, MESSAGE_FIELDS, MEMORY_FIELDS, IsWanted,
         ConversationSelected, TakenConversation, WantedMemory;
    forall c
      ensures ConversationSelected(g, nodes, c, FilterOf(a)) <==> TakenConversation(g, nodes, a, c)
    {
      ConversationMeans(g, nodes, a, c);
    }
    forall m
      ensures Some(x) != a.current && WithMemories(g, nodes, x, FilterOf(a), m) <==> WantedMemory(g, nodes, a, x, m)
    {
      MemoryMeans(g, nodes, a, x, m);
    }
    HitIsMemory(g, nodes, x, FilterOf(a));
  }

  lemma HitIsMemory(g: Graph, nodes: NodeMap, x: Id, f: Filter)
    ensures MemoryHit(g, nodes, x, f) <==> exists m :: WithMemories(g, nodes, x, f, m)
  {
    hide Matches;
    if m :| m in Targets(g.memories, x) && m in nodes && Matches(f, nodes[m], MEMORY_FIELDS) {
      assert WithMemories(g, nodes, x, f, m);
    }
  }

  lemma WithMeans(g: Graph, nodes: NodeMap, a: Ask, c: Id, id: Id)
    ensures WithConversation(g, nodes, c, FilterOf(a), id) <==> ComesWith(g, nodes, a, c, id)
  {
    ConversationMeans(g, nodes, a, c);
    hide Matches, Wanted, ConversationSelected, TakenConversation, MessageHit, HasWantedMessage;
  }

  lemma PastMeans(g: Graph, nodes: NodeMap, a: Ask, id: Id)
    ensures InPast(g, nodes, FilterOf(a), a.current, id) <==> exists x :: Comes(g, nodes, a, x, id)
  {
    forall x | x in nodes
      ensures WithSession(g, nodes, x, FilterOf(a), a.current, id) && x in g.sessions <==> Comes(g, nodes, a, x, id)
    {
      SessionMeans(g, nodes, a, x);
      MemoryMeans(g, nodes, a, x, id);
      hide SessionSelected, TakenSession, WithConversation, ComesWith, WithMemories, WantedMemory;
      forall c
        ensures WithConversation(g, nodes, c, FilterOf(a), id) <==> ComesWith(g, nodes, a, c, id)
      {
        WithMeans(g, nodes, a, c, id);
      }
    }
    hide SessionSelected, TakenSession, WithConversation, ComesWith, WithMemories, WantedMemory;
  }

  // ---------- main results ----------

  /** On every graph, with no read cutoff in the future, everything that comes with a wanted node is returned. */
  lemma WantedIsReturned(g: Graph, s: Store, r: Request, current: Option<Id>, x: Id, id: Id)
    requires WellKeyed(s.nodes) && CutoffsPassed(r, s.clock) && r.pastBreadth.Some?
    requires Comes(g, s.nodes, Ask(r.hints, r.pastBreadth.value, current), x, id)
    ensures var result := Retrieve(g, s, r, current).0; result.Ok? ==> id in SessionIds(result.value.sessions)
  {
    var a := Ask(r.hints, r.pastBreadth.value, current);
    assert FilterOf(a) == Filter(r.hints, r.pastBreadth.value);
    hide Comes, InPast, Retrieve, CutoffsPassed;
    PastMeans(g, s.nodes, a, id);
    SelectedIsReturned(g, s, r, current, id);
  }

  /** And nothing else, if conversations that share a message share all of them. */
  lemma ReturnedExactly(g: Graph, s: Store, r: Request, current: Option<Id>, id: Id)
    requires Typed(g) && MessagesApart(g) && WellKeyed(s.nodes) && CutoffsPassed(r, s.clock) && r.pastBreadth.Some?
    ensures var result := Retrieve(g, s, r, current).0;
            result.Ok? ==>
              (id in SessionIds(result.value.sessions) <==>
               exists x :: Comes(g, s.nodes, Ask(r.hints, r.pastBreadth.value, current), x, id))
  {
    var a := Ask(r.hints, r.pastBreadth.value, current);
    assert FilterOf(a) == Filter(r.hints, r.pastBreadth.value);
    RetrieveExact(g, s, r, current);
    hide Comes, InPast, Retrieve, CutoffsPassed, Typed, MessagesApart;
    PastMeans(g, s.nodes, a, id);
  }
}
