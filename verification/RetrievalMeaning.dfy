/**
 What a retrieval's result means for the one who asked: which nodes and flags it holds, in terms of the tags,
 times and texts of the nodes themselves.
 */
module RetrievalMeaning {
  import opened Ids
  import opened Nodes
  import opened Retrieval
  import opened RetrievalMarks
  import opened RetrievalSnapshot
  import opened RetrievalLaws
  import opened RetrievalExact
  import Text

  // ---------- texts ----------

  /** The same character, or the same ASCII letter in the other case. */
  predicate SameLetter(a: char, b: char) {
    || a == b
    || ('A' <= a <= 'Z' && b as int == a as int + 32)
    || ('A' <= b <= 'Z' && a as int == b as int + 32)
  }

  ghost predicate LettersAt(text: string, term: string, i: int) {
    0 <= i <= |text| - |term| && forall j :: 0 <= j < |term| ==> SameLetter(text[i + j], term[j])
  }

  /** The text contains the term, in any case. */
  ghost predicate ContainsInAnyCase(text: string, term: string) {
    exists i :: LettersAt(text, term, i)
  }

  lemma LowerMeans(a: char, b: char)
    ensures Text.LowerChar(a) == Text.LowerChar(b) <==> SameLetter(a, b)
  {
  }

  lemma OccursInAnyCase(text: string, term: string, i: int)
    ensures Text.OccursAt(Text.Lower(text), Text.Lower(term), i) <==> LettersAt(text, term, i)
  {
    var low, t := Text.Lower(text), Text.Lower(term);
    if 0 <= i <= |text| - |term| {
      forall j | 0 <= j < |term|
        ensures low[i + j] == t[j] <==> SameLetter(text[i + j], term[j])
      {
        LowerMeans(text[i + j], term[j]);
      }
      assert low[i..i + |t|] == t <==> forall j :: 0 <= j < |t| ==> low[i + j] == t[j];
    }
  }

  lemma ContainsMeans(text: string, term: string)
    ensures Text.Contains(Text.Lower(text), Text.Lower(term)) <==> ContainsInAnyCase(text, term)
  {
    var low, t := Text.Lower(text), Text.Lower(term);
    var at := Text.Find(low, t, 0);
    if at >= 0 {
      OccursInAnyCase(text, term, at);
    }
    if i :| LettersAt(text, term, i) {
      OccursInAnyCase(text, term, i);
    }
  }

  // ---------- nodes ----------

  /** The node passes the times: created and updated no earlier, and never read or read no earlier. */
  ghost predicate InTime(b: Breadth, n: Node) {
    && b.createdAfter <= n.stamps.createdAt && b.updatedAfter <= n.stamps.updatedAt
    && (n.stamps.readAt == None || b.readAfter <= n.stamps.readAt.value)
  }

  /** A field of the node equals an equality term, or contains a containment term in any case. */
  ghost predicate FieldFound(h: Hints, n: Node, field: string) {
    field in n.content &&
    (n.content[field] in h.strings.equals ||
     exists t :: t in h.strings.contains && ContainsInAnyCase(n.content[field], t))
  }

  /** The node carries no excluded tag, passes the times, and has a wanted tag or a wanted text in one of the fields. */
  ghost predicate Wanted(h: Hints, b: Breadth, n: Node, fields: set<string>) {
    && (forall t :: t in n.tags ==> t !in h.tags.noneOf)
    && InTime(b, n)
    && (|| (exists t :: t in n.tags && (t in h.tags.anyOf || t in h.tags.allOf))
        || exists field :: field in fields && FieldFound(h, n, field))
  }

  lemma {:induction false} FieldValuesMean(content: map<string, string>, fields: seq<string>)
    ensures forall v :: v in FieldValues(content, fields) <==>
              exists f :: f in fields && f in content && content[f] == v
  {
    if fields != [] {
      var k := |fields| - 1;
      assert fields == fields[..k] + [fields[k]];
      FieldValuesMean(content, fields[..k]);
    }
  }

  lemma PositiveStringMeans(h: Hints, n: Node, fields: seq<string>)
    ensures PositiveString(h.strings, FieldValues(n.content, fields)) <==>
            exists field :: field in fields && FieldFound(h, n, field)
  {
    FieldValuesMean(n.content, fields);
    var values := FieldValues(n.content, fields);
    forall t, v
      ensures Text.Contains(Text.Lower(v), Text.Lower(t)) <==> ContainsInAnyCase(v, t)
    {
      ContainsMeans(v, t);
    }
    hide ContainsInAnyCase, FieldValues;
    if PositiveString(h.strings, values) {
      var v :| v in values && (v in h.strings.equals || exists t :: t in h.strings.contains && ContainsInAnyCase(v, t));
      var f :| f in fields && f in n.content && n.content[f] == v;
      assert FieldFound(h, n, f);
    }
    if field :| field in fields && FieldFound(h, n, field) {
      assert n.content[field] in values;
    }
  }

  lemma MatchesMeans(f: Filter, n: Node, fields: seq<string>, names: set<string>)
    requires forall x :: x in fields <==> x in names
    ensures Matches(f, n, fields) <==> Wanted(f.hints, f.breadth, n, names)
  {
    PositiveStringMeans(f.hints, n, fields);
    hide PositiveString, FieldValues, FieldFound;
    var h := f.hints;
    assert (exists field :: field in fields && FieldFound(h, n, field)) <==>
           exists field :: field in names && FieldFound(h, n, field);
    if exists field :: field in names && FieldFound(h, n, field) {
      FoundNeedsHint(h, n, names);
    }
  }

  lemma FoundNeedsHint(h: Hints, n: Node, names: set<string>)
    requires exists field :: field in names && FieldFound(h, n, field)
    ensures h.strings.contains != [] || h.strings.equals != []
  {
  }

  // ---------- the result ----------

  const NAME := {"name"}
  const TASK_NAMES := {"name", "description", "input", "output", "prompt", "provider_id"}
  const MESSAGE_NAMES := {"role", "content"}
  const MEMORY_NAMES := {"title", "description"}

  lemma FieldNames()
    ensures forall x :: x in NAME_FIELDS <==> x in NAME
    ensures forall x :: x in TASK_FIELDS <==> x in TASK_NAMES
    ensures forall x :: x in MESSAGE_FIELDS <==> x in MESSAGE_NAMES
    ensures forall x :: x in MEMORY_FIELDS <==> x in MEMORY_NAMES
  {
  }

  lemma NameMeans(f: Filter, n: Node)
    ensures Matches(f, n, NAME_FIELDS) <==> Wanted(f.hints, f.breadth, n, NAME)
  {
    FieldNames();
    hide *;
    MatchesMeans(f, n, NAME_FIELDS, NAME);
  }

  /** Last updated first, and among equals last created first. */
  ghost predicate NewestFirst(a: Node, b: Node) {
    || a.stamps.updatedAt > b.stamps.updatedAt
    || (a.stamps.updatedAt == b.stamps.updatedAt && a.stamps.createdAt >= b.stamps.createdAt)
  }

  ghost predicate InOrder(ns: seq<Node>) {
    forall i, j :: 0 <= i < j < |ns| ==> NewestFirst(ns[i], ns[j])
  }

  /**
   A returned conversation: its flag says whether it is wanted by its name, the listed ids are those of its
   messages that are wanted by role or content, and there is one or the other.
   */
  ghost predicate ConversationAnswers(g: Graph, h: Hints, b: Breadth, c: RetrievedConversation) {
    && (c.matched <==> Wanted(h, b, c.conversation, NAME))
    && (forall id :: id in c.matchedMessageIds <==>
          exists m :: m in c.messages && m.id == id && Wanted(h, b, m, MESSAGE_NAMES))
    && (c.matchedMessageIds == [] ==> c.messages == [] && c.matched)
    && forall m :: m in c.messages ==> m.id in Targets(g.messages, c.conversation.id)
  }

  /** A returned session: its flag likewise, its conversations and memories, and at least one of the three. */
  ghost predicate SessionAnswers(g: Graph, h: Hints, b: Breadth, current: Option<Id>, x: RetrievedSession) {
    && (x.matched <==> Wanted(h, b, x.session, NAME))
    && (x.matched || x.conversations != [] || x.memories != [])
    && (forall c :: c in x.conversations ==>
          c.conversation.id in Targets(g.conversations, x.session.id) && ConversationAnswers(g, h, b, c))
    && (forall i, j :: 0 <= i < j < |x.conversations| ==>
          NewestFirst(x.conversations[i].conversation, x.conversations[j].conversation))
    && (forall m :: m in x.memories ==>
          m.id in Targets(g.memories, x.session.id) && Wanted(h, b, m, MEMORY_NAMES))
    && InOrder(x.memories) && (x.memories != [] ==> Some(x.session.id) != current)
  }

  lemma {:induction false} MatchingInOrder(f: Filter, ns: seq<Node>, fields: seq<string>)
    requires RecencySorted(ns)
    ensures InOrder(Matching(f, ns, fields))
    ensures forall n :: n in Matching(f, ns, fields) ==> n in ns
  {
    if ns != [] {
      var k := |ns| - 1;
      assert ns == ns[..k] + [ns[k]];
      MatchingInOrder(f, ns[..k], fields);
      var before := Matching(f, ns[..k], fields);
      forall i | 0 <= i < |before|
        ensures NewestFirst(before[i], ns[k])
      {
        assert before[i] in before;
        var j :| 0 <= j < k && ns[j] == before[i];
        assert MayPrecede(ns[j], ns[k]);
      }
    }
  }

  lemma ByRecencyInOrder(nodes: NodeMap, ids: seq<Id>)
    requires WellKeyed(nodes)
    ensures RecencySorted(ByRecency(nodes, ids)) && forall n :: n in ByRecency(nodes, ids) ==> n.id in ids
  {
    SortSorted(Lookup(nodes, ids));
    RecencyByIds(nodes, ids);
  }

  lemma MatchingWanted(f: Filter, ns: seq<Node>, fields: seq<string>, names: set<string>)
    requires forall x :: x in fields <==> x in names
    ensures forall n :: n in Matching(f, ns, fields) <==> n in ns && Wanted(f.hints, f.breadth, n, names)
  {
    MatchingMembers(f, ns, fields);
    hide Matches, Wanted;
    forall n
      ensures Matches(f, n, fields) <==> Wanted(f.hints, f.breadth, n, names)
    {
      MatchesMeans(f, n, fields, names);
    }
  }

  lemma ListedIds(ns: seq<Node>, id: Id)
    ensures id in IdList(ns) <==> exists n :: n in ns && n.id == id
  {
    if id in IdList(ns) {
      var i :| 0 <= i < |ns| && IdList(ns)[i] == id;
      assert ns[i] in ns;
    }
    if n :| n in ns && n.id == id {
      var i :| 0 <= i < |ns| && ns[i] == n;
      assert IdList(ns)[i] == id;
    }
  }

  lemma CandidatesAnswer(g: Graph, s: Store, conversation: Id, f: Filter)
    requires WellKeyed(s.nodes)
    ensures var (messages, ids, _) := MessageCandidates(g, s, conversation, f);
            && (forall id :: id in ids <==>
                  exists m :: m in messages && m.id == id && Wanted(f.hints, f.breadth, m, MESSAGE_NAMES))
            && (ids == [] <==> messages == [])
            && forall m :: m in messages ==> m.id in Targets(g.messages, conversation)
  {
    var messages := Lookup(s.nodes, Targets(g.messages, conversation));
    var matching := Matching(f, messages, MESSAGE_FIELDS);
    FieldNames();
    MatchingWanted(f, messages, MESSAGE_FIELDS, MESSAGE_NAMES);
    LookupElements(s.nodes, Targets(g.messages, conversation));
    hide Matches, Wanted, Lookup, Matching, MarkRead, MESSAGE_NAMES, MESSAGE_FIELDS;
    forall id
      ensures id in IdList(matching) <==> exists m :: m in matching && m.id == id
    {
      ListedIds(matching, id);
    }
    assert matching != [] ==> matching[0] in messages;
  }

  lemma StepAnswers(g: Graph, s: Store, c: Node, f: Filter)
    requires WellKeyed(s.nodes)
    ensures forall p :: p in ConversationStep(g, s, c, f).0 ==>
              p.conversation == c && ConversationAnswers(g, f.hints, f.breadth, p)
  {
    hide *;
    NameMeans(f, c);
    var candidates := MessageCandidates(g, s, c.id, f);
    CandidatesAnswer(g, s, c.id, f);
    StepIs(g, s, c, f);
    var matched := Matches(f, c, NAME_FIELDS);
    var step := ConversationStep(g, s, c, f).0;
    if matched || candidates.0 != [] {
      ConversationEntry(g, f, c, matched, candidates.0, candidates.1);
      var entry := RetrievedConversation(c, matched, candidates.0, candidates.1);
      assert step == [entry];
      assert forall p :: p in step ==> p == entry;
    } else {
      assert step == [];
    }
  }

  lemma ConversationEntry(g: Graph, f: Filter, c: Node, matched: bool, messages: seq<Node>, ids: seq<Id>)
    requires (matched <==> Wanted(f.hints, f.breadth, c, NAME)) && (matched || messages != [])
    requires forall id :: id in ids <==>
               exists m :: m in messages && m.id == id && Wanted(f.hints, f.breadth, m, MESSAGE_NAMES)
    requires (ids == [] <==> messages == []) && forall m :: m in messages ==> m.id in Targets(g.messages, c.id)
    ensures ConversationAnswers(g, f.hints, f.breadth, RetrievedConversation(c, matched, messages, ids))
  {
    hide Wanted;
  }

  lemma StepIs(g: Graph, s: Store, c: Node, f: Filter)
    ensures var (messages, ids, _) := MessageCandidates(g, s, c.id, f);
            var matched := Matches(f, c, NAME_FIELDS);
            ConversationStep(g, s, c, f).0 ==
            if matched || messages != [] then [RetrievedConversation(c, matched, messages, ids)] else []
  {
  }

  lemma {:induction false} ContextsAnswer(g: Graph, s: Store, cs: seq<Node>, f: Filter)
    requires WellKeyed(s.nodes) && RecencySorted(cs)
    ensures var ps := ConversationContexts(g, s, cs, f).0;
            && (forall p :: p in ps ==> p.conversation in cs && ConversationAnswers(g, f.hints, f.breadth, p))
            && forall i, j :: 0 <= i < j < |ps| ==> NewestFirst(ps[i].conversation, ps[j].conversation)
  {
    if cs != [] {
      var k := |cs| - 1;
      assert cs == cs[..k] + [cs[k]];
      var (before, t) := ConversationContexts(g, s, cs[..k], f);
      var last := ConversationStep(g, t, cs[k], f).0;
      EarlierFirst(cs);
      ConversationsMark(g, s, cs[..k], f);
      MarkedKeyed(s, t, ConversationIds(before));
      hide RecencySorted, ConversationStep, ConversationAnswers, NewestFirst, Marked, WellKeyed;
      ContextsAnswer(g, s, cs[..k], f);
      StepAnswers(g, t, cs[k], f);
      StepSmall(g, t, cs[k], f);
      forall i, j | 0 <= i < j < |before + last|
        ensures NewestFirst((before + last)[i].conversation, (before + last)[j].conversation)
      {
        if j == |before| {
          assert before[i] in before && last[0] in last;
        }
      }
    }
  }

  lemma StepSmall(g: Graph, s: Store, c: Node, f: Filter)
    ensures |ConversationStep(g, s, c, f).0| <= 1
  {
  }

  lemma EarlierFirst(ns: seq<Node>)
    requires RecencySorted(ns) && ns != []
    ensures var k := |ns| - 1; RecencySorted(ns[..k]) && forall n :: n in ns[..k] ==> NewestFirst(n, ns[k])
  {
    var k := |ns| - 1;
    forall n | n in ns[..k]
      ensures NewestFirst(n, ns[k])
    {
      var i :| 0 <= i < k && ns[i] == n;
      assert MayPrecede(ns[i], ns[k]);
    }
  }

  lemma SessionEntry(g: Graph, f: Filter, current: Option<Id>, x: Node, matched: bool,
                     conversations: seq<RetrievedConversation>, memories: seq<Node>)
    requires (matched <==> Wanted(f.hints, f.breadth, x, NAME)) && (matched || conversations != [] || memories != [])
    requires forall c :: c in conversations ==>
               c.conversation.id in Targets(g.conversations, x.id) && ConversationAnswers(g, f.hints, f.breadth, c)
    requires forall i, j :: 0 <= i < j < |conversations| ==>
               NewestFirst(conversations[i].conversation, conversations[j].conversation)
    requires InOrder(memories) && (memories != [] ==> Some(x.id) != current)
    requires forall m :: m in memories ==>
               m.id in Targets(g.memories, x.id) && Wanted(f.hints, f.breadth, m, MEMORY_NAMES)
    ensures SessionAnswers(g, f.hints, f.breadth, current, RetrievedSession(x, matched, conversations, memories))
  {
    hide Wanted, ConversationAnswers, NewestFirst, InOrder;
  }

  lemma SessionIs(g: Graph, s: Store, x: Node, f: Filter, includeMemories: bool)
    ensures var (conversations, t) :=
              ConversationContexts(g, s, ByRecency(s.nodes, Targets(g.conversations, x.id)), f);
            var memories := if includeMemories then MemoryCandidates(g, t, x.id, f).0 else [];
            var matched := Matches(f, x, NAME_FIELDS);
            SessionContext(g, s, x, f, includeMemories).0 ==
            if !matched && conversations == [] && memories == [] then []
            else [RetrievedSession(x, matched, conversations, memories)]
  {
    hide Matches, ConversationContexts, MemoryCandidates, ByRecency, MarkRead;
  }

  lemma NothingInOrder()
    ensures InOrder([])
  {
  }

  /** The parts of a session's step. */
  lemma PartsAnswer(g: Graph, s: Store, x: Node, f: Filter)
    requires WellKeyed(s.nodes)
    ensures var (conversations, t) :=
              ConversationContexts(g, s, ByRecency(s.nodes, Targets(g.conversations, x.id)), f);
            && WellKeyed(t.nodes)
            && (forall c :: c in conversations ==>
                  c.conversation.id in Targets(g.conversations, x.id) && ConversationAnswers(g, f.hints, f.breadth, c))
            && forall i, j :: 0 <= i < j < |conversations| ==>
                 NewestFirst(conversations[i].conversation, conversations[j].conversation)
  {
    hide *;
    var list := ByRecency(s.nodes, Targets(g.conversations, x.id));
    ByRecencyInOrder(s.nodes, Targets(g.conversations, x.id));
    ContextsAnswer(g, s, list, f);
    var contexts := ConversationContexts(g, s, list, f);
    ConversationsMark(g, s, list, f);
    MarkedKeyed(s, contexts.1, ConversationIds(contexts.0));
  }

  lemma SessionStepAnswers(g: Graph, s: Store, x: Node, f: Filter, current: Option<Id>)
    requires WellKeyed(s.nodes)
    ensures forall p :: p in SessionContext(g, s, x, f, Some(x.id) != current).0 ==>
              p.session == x && SessionAnswers(g, f.hints, f.breadth, current, p)
  {
    hide *;
    var contexts := ConversationContexts(g, s, ByRecency(s.nodes, Targets(g.conversations, x.id)), f);
    PartsAnswer(g, s, x, f);
    NameMeans(f, x);
    MemoriesAnswer(g, contexts.1, x.id, f);
    NothingInOrder();
    SessionIs(g, s, x, f, Some(x.id) != current);
    var ms := if Some(x.id) != current then MemoryCandidates(g, contexts.1, x.id, f).0 else [];
    var matched := Matches(f, x, NAME_FIELDS);
    var step := SessionContext(g, s, x, f, Some(x.id) != current).0;
    if matched || contexts.0 != [] || ms != [] {
      SessionEntry(g, f, current, x, matched, contexts.0, ms);
      assert step == [RetrievedSession(x, matched, contexts.0, ms)];
    } else {
      assert step == [];
    }
  }

  lemma MemoriesAnswer(g: Graph, s: Store, session: Id, f: Filter)
    requires WellKeyed(s.nodes)
    ensures var ms := MemoryCandidates(g, s, session, f).0;
            InOrder(ms) && forall m :: m in ms ==>
              m.id in Targets(g.memories, session) && Wanted(f.hints, f.breadth, m, MEMORY_NAMES)
  {
    var list := ByRecency(s.nodes, Targets(g.memories, session));
    ByRecencyInOrder(s.nodes, Targets(g.memories, session));
    MatchingInOrder(f, list, MEMORY_FIELDS);
    FieldNames();
    MatchingWanted(f, list, MEMORY_FIELDS, MEMORY_NAMES);
  }

  lemma {:induction false} SessionsAnswer(g: Graph, s: Store, xs: seq<Node>, f: Filter, current: Option<Id>)
    requires WellKeyed(s.nodes) && RecencySorted(xs)
    ensures var ps := SessionContexts(g, s, xs, f, current).0;
            && (forall p :: p in ps ==> p.session in xs && SessionAnswers(g, f.hints, f.breadth, current, p))
            && forall i, j :: 0 <= i < j < |ps| ==> NewestFirst(ps[i].session, ps[j].session)
  {
    if xs != [] {
      var k := |xs| - 1;
      assert xs == xs[..k] + [xs[k]];
      var (before, t) := SessionContexts(g, s, xs[..k], f, current);
      var last := SessionContext(g, t, xs[k], f, Some(xs[k].id) != current).0;
      EarlierFirst(xs);
      SessionsMark(g, s, xs[..k], f, current);
      MarkedKeyed(s, t, SessionIds(before));
      hide RecencySorted, SessionContext, SessionAnswers, NewestFirst, Marked, WellKeyed;
      SessionsAnswer(g, s, xs[..k], f, current);
      SessionStepAnswers(g, t, xs[k], f, current);
      SessionMarks(g, t, xs[k], f, Some(xs[k].id) != current);
      forall i, j | 0 <= i < j < |before + last|
        ensures NewestFirst((before + last)[i].session, (before + last)[j].session)
      {
        if j == |before| {
          assert before[i] in before && last[0] in last;
        }
      }
    }
  }

  /** The tasks: all that are wanted, the most recent first. */
  lemma TasksAnswer(g: Graph, s: Store, r: Request)
    requires WellKeyed(s.nodes)
    ensures var tasks := TaskCatalog(g, s, r).0;
            && InOrder(tasks)
            && forall n :: n in tasks <==>
                 r.taskBreadth.Some? && n.id in g.tasks && n.id in s.nodes && n == s.nodes[n.id] &&
                 Wanted(r.hints, r.taskBreadth.value, n, TASK_NAMES)
  {
    if r.taskBreadth.Some? {
      var f := Filter(r.hints, r.taskBreadth.value);
      var list := ByRecency(s.nodes, g.tasks);
      ByRecencyInOrder(s.nodes, g.tasks);
      RecencyByIds(s.nodes, g.tasks);
      MatchingInOrder(f, list, TASK_FIELDS);
      FieldNames();
      MatchingWanted(f, list, TASK_FIELDS, TASK_NAMES);
    }
  }

  /** The sessions of a result, with all that hangs below them. */
  ghost predicate PastAnswers(g: Graph, r: Request, current: Option<Id>, sessions: seq<RetrievedSession>) {
    if r.pastBreadth.None? then sessions == []
    else
      && (forall x :: x in sessions ==>
            x.session.id in g.sessions && SessionAnswers(g, r.hints, r.pastBreadth.value, current, x))
      && forall i, j :: 0 <= i < j < |sessions| ==> NewestFirst(sessions[i].session, sessions[j].session)
  }

  /**
   Every result, on every graph: nothing in it is there, or flagged, without being wanted; the lists are in
   order; the tasks are all that are wanted, and the memories of the current session are all that it has.
   */
  lemma ResultAnswers(g: Graph, s: Store, r: Request, current: Option<Id>)
    requires WellKeyed(s.nodes)
    ensures var result := Retrieve(g, s, r, current).0;
            result.Ok? ==>
              && InOrder(result.value.tasks)
              && (forall n :: n in result.value.tasks <==>
                    r.taskBreadth.Some? && n.id in g.tasks && n.id in s.nodes && n == s.nodes[n.id] &&
                    Wanted(r.hints, r.taskBreadth.value, n, TASK_NAMES))
              && PastAnswers(g, r, current, result.value.sessions)
              && (forall id :: id in IdsOf(result.value.currentMemories) <==>
                    current.Some? && id in s.nodes && id in Targets(g.memories, current.value))
  {
    var (tasks, t) := TaskCatalog(g, s, r);
    TasksAnswer(g, s, r);
    TasksMarked(g, s, r);
    MarkedKeyed(s, t, IdsOf(tasks));
    PastAnswer(g, t, r, current);
    var (sessions, u) := PastContext(g, t, r, current);
    PastMarked(g, t, r, current);
    MarkedKeyed(t, u, SessionIds(sessions));
    MarkedKeys(s, t, IdsOf(tasks));
    MarkedKeys(t, u, SessionIds(sessions));
    hide TaskCatalog, PastContext, CurrentMemories, Marked, WellKeyed, PastAnswers, InOrder, Wanted, SessionIds, IdsOf,
         TASK_NAMES;
    CurrentMarks(g, u, current);
  }

  lemma MarkedKeys(a: Store, b: Store, ids: set<Id>)
    requires Marked(a, b, ids)
    ensures a.nodes.Keys == b.nodes.Keys
  {
  }

  lemma PastAnswer(g: Graph, s: Store, r: Request, current: Option<Id>)
    requires WellKeyed(s.nodes)
    ensures PastAnswers(g, r, current, PastContext(g, s, r, current).0)
  {
    if r.pastBreadth.Some? {
      ByRecencyInOrder(s.nodes, g.sessions);
      hide SessionAnswers, WellKeyed, RecencySorted, ByRecency, NewestFirst;
      SessionsAnswer(g, s, ByRecency(s.nodes, g.sessions), Filter(r.hints, r.pastBreadth.value), current);
    }
  }
}
