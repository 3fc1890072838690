/** Reading back a task history returns exactly what was dispatched, in order. */
module TaskHistoryLog {
  import opened Ids
  import opened TaskHistory
  import Text

  // ---------- well-formed databases and growth ----------

  ghost predicate WellFormed(db: Database) {
    && (forall id :: id in db.nodes <==> id < db.next)
    && (forall e :: e in db.links ==> e.from < db.next && e.to < db.next)
    && (forall e :: e in db.actions ==> e.from < db.next && e.to < db.next)
    && (forall e :: e in db.history ==> e.from < db.next && e.to < db.next)
  }

  /** `b` has everything of `a`, the same history and action edges, and links only from newer records. */
  ghost predicate Grown(a: Database, b: Database) {
    && a.next <= b.next && a.history == b.history && a.actions == b.actions
    && (forall id :: id in a.nodes ==> id in b.nodes && b.nodes[id] == a.nodes[id])
    && a.links <= b.links
    && forall i :: |a.links| <= i < |b.links| ==> b.links[i].from >= a.next
  }

  lemma GrownTrans(a: Database, b: Database, c: Database)
    requires Grown(a, b) && Grown(b, c)
    ensures Grown(a, c)
  {
  }

  lemma CreateGrows(db: Database, content: Content)
    requires WellFormed(db)
    ensures WellFormed(Create(db, content)) && Grown(db, Create(db, content))
  {
  }

  lemma SayGrows(d: Dispatcher, db: Database, role: string, text: string)
    requires WellFormed(db)
    ensures WellFormed(Say(d, db, role, text).0) && Grown(db, Say(d, db, role, text).0)
  {
  }

  lemma NotSupportedGrows(d: Dispatcher, db: Database, name: string, payload: Payload, reason: string)
    requires WellFormed(db)
    ensures var next := NotSupported(d, db, name, payload, reason).0; WellFormed(next) && Grown(db, next)
  {
    var shown := if name == "" then "<empty>" else name;
    SayGrows(d, db, "agent", "Action not supported: " + shown + reason + " payload=" + d.preview(payload));
  }

  lemma SpeakGrows(d: Dispatcher, db: Database, name: string, role: string, payload: Payload, keys: seq<string>)
    requires WellFormed(db)
    ensures var next := Speak(d, db, name, role, payload, keys).0; WellFormed(next) && Grown(db, next)
  {
    SayGrows(d, db, role, PayloadText(payload, keys));
    SayGrows(d, db, "agent", "Malformed action payload: " + name + " payload=" + d.preview(payload));
  }

  lemma RememberGrows(db: Database, name: string, payload: Payload, defaultTitle: string)
    requires WellFormed(db)
    ensures var next := Remember(db, name, payload, defaultTitle).0; WellFormed(next) && Grown(db, next)
  {
    var (title, description) := MemoryPayload(payload, defaultTitle);
    CreateGrows(db, MemoryNote(title, description));
  }

  lemma PerformGrows(d: Dispatcher, db: Database, primitive: Primitive, name: string, payload: Payload)
    requires WellFormed(db)
    ensures var next := Perform(d, db, primitive, name, payload).0; WellFormed(next) && Grown(db, next)
  {
    match primitive {
      case Other => NotSupportedGrows(d, db, name, payload, "");
      case AgentReply => SpeakGrows(d, db, name, "agent", payload, ["text", "message", "reply"]);
      case AgentThought => SpeakGrows(d, db, name, "agent_thought", payload, ["text", "thought", "message"]);
      case ConversationModeOff =>
      case SessionMemory =>
        if d.session.None? {
          NotSupportedGrows(d, db, name, payload, " reason=missing session_id");
        } else {
          RememberGrows(db, name, payload, "Session memory");
        }
      case UserPreference => RememberGrows(db, name, payload, "User preference");
    }
  }

  /** A performer that leaves the task history alone. */
  ghost predicate HistoryNeutral(perform: Performer) {
    forall db, call :: WellFormed(db) ==> WellFormed(perform(db, call).0) && Grown(db, perform(db, call).0)
  }

  /** No primitive touches the task history. */
  lemma PrimitivesNeutral(d: Dispatcher)
    ensures HistoryNeutral(PerformerOf(d))
  {
    forall db, call | WellFormed(db)
      ensures WellFormed(PerformerOf(d)(db, call).0) && Grown(db, PerformerOf(d)(db, call).0)
    {
      var name := Text.Strip(call.name);
      PerformGrows(d, db, PrimitiveNamed(name), name, call.payload);
    }
  }

  // ---------- actions read back ----------

  lemma {:induction false} FirstLinkGrown(links: seq<Edge>, more: seq<Edge>, from: Id)
    requires links <= more && forall i :: |links| <= i < |more| ==> more[i].from != from
    ensures FirstLink(links, from) == FirstLink(more, from)
    decreases |more|
  {
    if more != [] {
      if links == [] {
        FirstLinkGrown([], more[1..], from);
      } else {
        FirstLinkGrown(links[1..], more[1..], from);
      }
    }
  }

  lemma {:induction false} FirstLinkInside(links: seq<Edge>, from: Id, bound: Id)
    requires forall e :: e in links ==> e.to < bound
    ensures FirstLink(links, from).Some? ==> FirstLink(links, from).value < bound
  {
    if links != [] {
      assert links[0] in links;
      FirstLinkInside(links[1..], from, bound);
    }
  }

  lemma ActionOfGrown(a: Database, b: Database, id: Id)
    requires WellFormed(a) && Grown(a, b) && id < a.next
    ensures ActionOf(b, id) == ActionOf(a, id)
  {
    FirstLinkGrown(a.links, b.links, id);
    FirstLinkInside(a.links, id, a.next);
  }

  lemma RecordActionReads(db: Database, name: string, input: Payload, output: Output)
    requires WellFormed(db)
    ensures var (next, id) := RecordAction(db, name, input, output);
            && WellFormed(next) && Grown(db, next) && db.next <= id < next.next
            && ActionOf(next, id) == [ActionRecord(name, input, output)]
  {
    var (next, id) := RecordAction(db, name, input, output);
    NoLink(db.links, id);
    LastLink(db.links, Edge(id, db.next, 0));
  }

  lemma {:induction false} NoLink(links: seq<Edge>, from: Id)
    requires forall e :: e in links ==> e.from < from
    ensures FirstLink(links, from) == None
  {
    if links != [] {
      assert links[0] in links;
      NoLink(links[1..], from);
    }
  }

  lemma {:induction false} LastLink(links: seq<Edge>, e: Edge)
    requires FirstLink(links, e.from) == None
    ensures FirstLink(links + [e], e.from) == Some(e.to)
  {
    if links != [] {
      assert (links + [e])[1..] == links[1..] + [e];
      LastLink(links[1..], e);
    }
  }

  /** The action records that a dispatch should leave behind. */
  function ActionsOf(calls: seq<Call>, records: seq<DispatchRecord>): (r: seq<ActionRecord>)
    requires |calls| == |records|
    ensures |r| == |calls|
  {
    seq(|calls|, i requires 0 <= i < |calls| =>
        ActionRecord(records[i].name, InputOf(calls[i].payload), records[i].output))
  }

  /** Session actions that read back as the expected actions. */
  ghost predicate ReadBack(db: Database, ids: seq<Id>, expected: seq<ActionRecord>) {
    |ids| == |expected| && forall i :: 0 <= i < |ids| ==> ids[i] < db.next && ActionOf(db, ids[i]) == [expected[i]]
  }

  lemma ReadBackGrown(a: Database, b: Database, ids: seq<Id>, expected: seq<ActionRecord>)
    requires WellFormed(a) && Grown(a, b) && ReadBack(a, ids, expected)
    ensures ReadBack(b, ids, expected)
  {
    forall i | 0 <= i < |ids|
      ensures ActionOf(b, ids[i]) == [expected[i]]
    {
      ActionOfGrown(a, b, ids[i]);
    }
  }

  /** One return item: performed, then recorded. */
  lemma CallReads(perform: Performer, db: Database, call: Call)
    requires WellFormed(db) && HistoryNeutral(perform)
    ensures var (called, record) := perform(db, call);
            var (next, id) := RecordAction(called, record.name, InputOf(call.payload), record.output);
            && WellFormed(next) && Grown(db, next)
            && ReadBack(next, [id], [ActionRecord(record.name, InputOf(call.payload), record.output)])
  {
    var (called, record) := perform(db, call);
    RecordActionReads(called, record.name, InputOf(call.payload), record.output);
    GrownTrans(db, called, RecordAction(called, record.name, InputOf(call.payload), record.output).0);
  }

  lemma ReadBackAppend(db: Database, ids: seq<Id>, expected: seq<ActionRecord>, id: Id, last: ActionRecord)
    requires ReadBack(db, ids, expected) && ReadBack(db, [id], [last])
    ensures ReadBack(db, ids + [id], expected + [last])
  {
    assert [id][0] == id && [last][0] == last;
  }

  /** One more return item after items that read back. */
  lemma CallAfterCalls(perform: Performer, db: Database, before: Database, call: Call, ids: seq<Id>,
                       done: seq<ActionRecord>)
    requires WellFormed(before) && HistoryNeutral(perform) && Grown(db, before) && ReadBack(before, ids, done)
    ensures var (called, record) := perform(before, call);
            var (next, id) := RecordAction(called, record.name, InputOf(call.payload), record.output);
            && WellFormed(next) && Grown(db, next)
            && ReadBack(next, ids + [id], done + [ActionRecord(record.name, InputOf(call.payload), record.output)])
  {
    var (called, record) := perform(before, call);
    var (next, id) := RecordAction(called, record.name, InputOf(call.payload), record.output);
    CallReads(perform, before, call);
    GrownTrans(db, before, next);
    ReadBackGrown(before, next, ids, done);
    ReadBackAppend(next, ids, done, id, ActionRecord(record.name, InputOf(call.payload), record.output));
  }

  lemma ActionsSnoc(calls: seq<Call>, n: nat, records: seq<DispatchRecord>, record: DispatchRecord)
    requires n + 1 == |calls| && |records| == n
    ensures ActionsOf(calls, records + [record]) ==
            ActionsOf(calls[..n], records) + [ActionRecord(record.name, InputOf(calls[n].payload), record.output)]
  {
  }

  lemma {:induction false} DispatchCallsRead(perform: Performer, db: Database, history: Id, calls: seq<Call>)
    requires WellFormed(db) && HistoryNeutral(perform)
    ensures var (next, records, ids) := DispatchCalls(perform, db, Some(history), calls);
            && WellFormed(next) && Grown(db, next) && |records| == |calls|
            && ReadBack(next, ids, ActionsOf(calls, records))
  {
    if calls == [] {
      return;
    }
    hide WellFormed, Grown, ReadBack, RecordAction, HistoryNeutral, ActionsOf;
    var n := |calls| - 1;
    DispatchCallsRead(perform, db, history, calls[..n]);
    var (before, records, ids) := DispatchCalls(perform, db, Some(history), calls[..n]);
    CallAfterCalls(perform, db, before, calls[n], ids, ActionsOf(calls[..n], records));
    ActionsSnoc(calls, n, records, perform(before, calls[n]).1);
  }

  // ---------- ordered edges ----------

  /** Edges listed with positions 0, 1, 2, ... */
  ghost predicate Numbered(edges: seq<Edge>) {
    forall i :: 0 <= i < |edges| ==> edges[i].position == i
  }

  lemma {:induction false} SortNumbered(edges: seq<Edge>)
    requires Numbered(edges)
    ensures SortByPosition(edges) == edges
  {
    if edges != [] {
      SortNumbered(edges[..|edges| - 1]);
    }
  }

  lemma {:induction false} EdgesElsewhere(edges: seq<Edge>, from: Id)
    requires forall e :: e in edges ==> e.from != from
    ensures EdgesFrom(edges, from) == []
  {
    if edges != [] {
      assert edges[|edges| - 1] in edges;
      EdgesElsewhere(edges[..|edges| - 1], from);
    }
  }

  /** Relating a node's actions numbers them in order and leaves other nodes alone. */
  lemma {:induction false} RelateEdges(actions: seq<Edge>, node: Id, ids: seq<Id>, other: Id)
    requires forall e :: e in actions ==> e.from != node
    ensures EdgesFrom(Relate(actions, node, ids), node) ==
            seq(|ids|, i requires 0 <= i < |ids| => Edge(node, ids[i], i))
    ensures other != node ==> EdgesFrom(Relate(actions, node, ids), other) == EdgesFrom(actions, other)
  {
    if ids == [] {
      EdgesElsewhere(actions, node);
    } else {
      var n := |ids| - 1;
      RelateEdges(actions, node, ids[..n], other);
      var before, last := Relate(actions, node, ids[..n]), Edge(node, ids[n], n);
      assert (before + [last])[..|before|] == before;
      assert seq(|ids|, i requires 0 <= i < |ids| => Edge(node, ids[i], i)) ==
             seq(n, i requires 0 <= i < n => Edge(node, ids[i], i)) + [last];
    }
  }

  lemma {:induction false} ActionsAlongEdges(db: Database, edges: seq<Edge>, expected: seq<ActionRecord>)
    requires |edges| == |expected|
    requires forall i :: 0 <= i < |edges| ==> ActionOf(db, edges[i].to) == [expected[i]]
    ensures ActionsAlong(db, edges) == expected
  {
    if edges != [] {
      var n := |edges| - 1;
      ActionsAlongEdges(db, edges[..n], expected[..n]);
      assert expected == expected[..n] + [expected[n]];
    }
  }

  lemma {:induction false} ActionsAlongSame(a: Database, b: Database, edges: seq<Edge>)
    requires forall e :: e in edges ==> ActionOf(b, e.to) == ActionOf(a, e.to)
    ensures ActionsAlong(b, edges) == ActionsAlong(a, edges)
  {
    if edges != [] {
      var n := |edges| - 1;
      assert edges[n] in edges;
      ActionsAlongSame(a, b, edges[..n]);
    }
  }

  lemma {:induction false} RecordsAlongSame(a: Database, b: Database, edges: seq<Edge>)
    requires forall e :: e in edges ==> RecordOf(b, e.to) == RecordOf(a, e.to)
    ensures RecordsAlong(b, edges) == RecordsAlong(a, edges)
  {
    if edges != [] {
      var n := |edges| - 1;
      assert edges[n] in edges;
      RecordsAlongSame(a, b, edges[..n]);
    }
  }

  lemma {:induction false} SortedEdges(edges: seq<Edge>, from: Id)
    ensures forall e :: e in SortByPosition(EdgesFrom(edges, from)) ==> e in edges
  {
    EdgesFromInside(edges, from);
    SortInside(EdgesFrom(edges, from));
  }

  lemma {:induction false} EdgesFromInside(edges: seq<Edge>, from: Id)
    ensures forall e :: e in EdgesFrom(edges, from) ==> e in edges
  {
    if edges != [] {
      EdgesFromInside(edges[..|edges| - 1], from);
    }
  }

  lemma {:induction false} InsertInside(sorted: seq<Edge>, x: Edge)
    ensures forall e :: e in InsertByPosition(sorted, x) ==> e in sorted || e == x
  {
    if sorted != [] {
      InsertInside(sorted[..|sorted| - 1], x);
    }
  }

  lemma {:induction false} SortInside(edges: seq<Edge>)
    ensures forall e :: e in SortByPosition(edges) ==> e in edges
  {
    if edges != [] {
      var n := |edges| - 1;
      SortInside(edges[..n]);
      InsertInside(SortByPosition(edges[..n]), edges[n]);
    }
  }

  // ---------- appending one node ----------

  /** A node that existed before reads the same after growth and an append. */
  lemma OldRecordSame(a: Database, b: Database, c: Database, history: Id, session: string, conversation: string,
                      ids: seq<Id>, node: Id)
    requires WellFormed(a) && WellFormed(b) && Grown(a, b) && node < a.next
    requires c == AppendNode(b, history, session, conversation, ids).0
    ensures RecordOf(c, node) == RecordOf(a, node)
  {
    assert forall e :: e in b.actions ==> e.from != b.next;
    RelateEdges(b.actions, b.next, ids, node);
    var edges := SortByPosition(EdgesFrom(a.actions, node));
    SortedEdges(a.actions, node);
    forall e | e in edges
      ensures ActionOf(c, e.to) == ActionOf(a, e.to)
    {
      ActionOfGrown(a, b, e.to);
      AppendKeepsAction(b, history, session, conversation, ids, e.to);
    }
    ActionsAlongSame(a, c, edges);
  }

  lemma AppendKeepsAction(b: Database, history: Id, session: string, conversation: string, ids: seq<Id>, id: Id)
    requires WellFormed(b) && id < b.next
    ensures ActionOf(AppendNode(b, history, session, conversation, ids).0, id) == ActionOf(b, id)
  {
    FirstLinkInside(b.links, id, b.next);
  }

  lemma NewRecord(b: Database, history: Id, session: string, conversation: string, ids: seq<Id>,
                  expected: seq<ActionRecord>)
    requires WellFormed(b) && ReadBack(b, ids, expected)
    ensures var (c, node) := AppendNode(b, history, session, conversation, ids);
            RecordOf(c, node) == [HistoryRecord(session, conversation, expected)]
  {
    var (c, node) := AppendNode(b, history, session, conversation, ids);
    assert forall e :: e in b.actions ==> e.from != node;
    RelateEdges(b.actions, node, ids, node);
    var edges := seq(|ids|, i requires 0 <= i < |ids| => Edge(node, ids[i], i));
    SortNumbered(edges);
    forall i | 0 <= i < |edges|
      ensures ActionOf(c, edges[i].to) == [expected[i]]
    {
      AppendKeepsAction(b, history, session, conversation, ids, ids[i]);
    }
    ActionsAlongEdges(c, edges, expected);
  }

  lemma NextIsCount(edges: seq<Edge>, from: Id)
    requires Numbered(EdgesFrom(edges, from))
    ensures NextPosition(edges, from) == |EdgesFrom(edges, from)|
  {
    SortNumbered(EdgesFrom(edges, from));
  }

  lemma AppendHistoryEdge(history: seq<Edge>, from: Id, e: Edge)
    requires Numbered(EdgesFrom(history, from)) && e.from == from && e.position == NextPosition(history, from)
    ensures EdgesFrom(history + [e], from) == EdgesFrom(history, from) + [e] && Numbered(EdgesFrom(history + [e], from))
  {
    assert (history + [e])[..|history|] == history;
    NextIsCount(history, from);
  }

  // ---------- one dispatch ----------

  ghost predicate Ready(db: Database, history: Id) {
    WellFormed(db) && history < db.next && Numbered(EdgesFrom(db.history, history))
  }

  lemma RelateEndpoints(actions: seq<Edge>, node: Id, ids: seq<Id>, bound: Id)
    requires node < bound && (forall e :: e in actions ==> e.from < bound && e.to < bound)
    requires forall i :: 0 <= i < |ids| ==> ids[i] < bound
    ensures forall e :: e in Relate(actions, node, ids) ==> e.from < bound && e.to < bound
  {
    if ids != [] {
      RelateEndpoints(actions, node, ids[..|ids| - 1], bound);
    }
  }

  lemma AppendReady(b: Database, history: Id, session: string, conversation: string, ids: seq<Id>)
    requires Ready(b, history) && forall i :: 0 <= i < |ids| ==> ids[i] < b.next
    ensures var (c, node) := AppendNode(b, history, session, conversation, ids);
            && Ready(c, history)
            && EdgesFrom(c.history, history) ==
               EdgesFrom(b.history, history) + [Edge(history, node, NextPosition(b.history, history))]
  {
    RelateEndpoints(b.actions, b.next, ids, b.next + 1);
    AppendHistoryEdge(b.history, history, Edge(history, b.next, NextPosition(b.history, history)));
  }

  lemma RecordsSplit(db: Database, history: Id, edges: seq<Edge>, last: Edge)
    requires EdgesFrom(db.history, history) == edges + [last] && Numbered(edges + [last])
    ensures Records(db, history) == RecordsAlong(db, edges) + RecordOf(db, last.to)
  {
    SortNumbered(edges + [last]);
    assert (edges + [last])[..|edges|] == edges;
  }

  /** Appending a node after some growth adds its record at the end and changes no earlier one. */
  lemma AppendReads(a: Database, b: Database, history: Id, session: string, conversation: string, ids: seq<Id>,
                    expected: seq<ActionRecord>)
    requires Ready(a, history) && WellFormed(b) && Grown(a, b) && ReadBack(b, ids, expected)
    ensures var c := AppendNode(b, history, session, conversation, ids).0;
            Ready(c, history) &&
            Records(c, history) == Records(a, history) + [HistoryRecord(session, conversation, expected)]
  {
    var (c, node) := AppendNode(b, history, session, conversation, ids);
    AppendReady(b, history, session, conversation, ids);
    var edges := EdgesFrom(a.history, history);
    RecordsSplit(c, history, edges, Edge(history, node, NextPosition(b.history, history)));
    NewRecord(b, history, session, conversation, ids, expected);
    assert RecordsAlong(c, edges) == RecordsAlong(a, edges) by {
      EdgesFromInside(a.history, history);
      forall e | e in edges
        ensures RecordOf(c, e.to) == RecordOf(a, e.to)
      {
        OldRecordSame(a, b, c, history, session, conversation, ids, e.to);
      }
      RecordsAlongSame(a, c, edges);
    }
    SortNumbered(edges);
  }

  /** One dispatch appends one history record: its return items, in order, with dispatched name and output. */
  lemma DispatchAppends(d: Dispatcher, perform: Performer, db: Database, history: Id, calls: seq<Call>)
    requires d.session.Some? && d.conversation.Some? && Ready(db, history) && HistoryNeutral(perform)
    ensures var (next, kept, records) := Dispatch(d, perform, db, Some(history), calls);
            && kept == Some(history) && |records| == |calls| && Ready(next, history)
            && Records(next, history) ==
               Records(db, history) + [HistoryRecord(d.session.value, d.conversation.value, ActionsOf(calls, records))]
  {
    DispatchCallsRead(perform, db, history, calls);
    var (called, records, ids) := DispatchCalls(perform, db, Some(history), calls);
    AppendReads(db, called, history, d.session.value, d.conversation.value, ids, ActionsOf(calls, records));
  }

  // ---------- whole runs ----------

  /** A sequence of dispatches; the records that each one returned. */
  function DispatchAll(d: Dispatcher, perform: Performer, db: Database, kept: Option<Id>, batches: seq<seq<Call>>)
    : (Database, Option<Id>, seq<seq<DispatchRecord>>)
  {
    if batches == [] then (db, kept, [])
    else
      var n := |batches| - 1;
      var (before, k, results) := DispatchAll(d, perform, db, kept, batches[..n]);
      var (next, k', records) := Dispatch(d, perform, before, k, batches[n]);
      (next, k', results + [records])
  }

  ghost predicate Parallel(batches: seq<seq<Call>>, results: seq<seq<DispatchRecord>>) {
    |batches| == |results| && forall i :: 0 <= i < |batches| ==> |batches[i]| == |results[i]|
  }

  /** What the log should read: one record per dispatch. */
  ghost function Log(session: string, conversation: string, batches: seq<seq<Call>>,
                     results: seq<seq<DispatchRecord>>): seq<HistoryRecord>
    requires Parallel(batches, results)
  {
    seq(|batches|, i requires 0 <= i < |batches| =>
        HistoryRecord(session, conversation, ActionsOf(batches[i], results[i])))
  }

  lemma Rejoin(a: seq<HistoryRecord>, b: seq<HistoryRecord>, last: HistoryRecord)
    ensures (a + b) + [last] == a + (b + [last])
  {
  }

  lemma LastDispatch(d: Dispatcher, perform: Performer, db: Database, kept: Option<Id>, batches: seq<seq<Call>>)
    requires batches != []
    ensures var n := |batches| - 1;
            var (before, k, results) := DispatchAll(d, perform, db, kept, batches[..n]);
            var (next, k', records) := Dispatch(d, perform, before, k, batches[n]);
            DispatchAll(d, perform, db, kept, batches) == (next, k', results + [records])
  {
  }

  lemma {:induction false} LogReadsBack(d: Dispatcher, perform: Performer, db: Database, history: Id,
                                        batches: seq<seq<Call>>)
    requires d.session.Some? && d.conversation.Some? && Ready(db, history) && HistoryNeutral(perform)
    ensures var (end, kept, results) := DispatchAll(d, perform, db, Some(history), batches);
            && kept == Some(history) && Ready(end, history) && Parallel(batches, results)
            && Records(end, history) ==
               Records(db, history) + Log(d.session.value, d.conversation.value, batches, results)
  {
    if batches == [] {
      assert Records(db, history) + [] == Records(db, history);
    } else {
      LastDispatch(d, perform, db, Some(history), batches);
      hide *;
      var n := |batches| - 1;
      LogReadsBack(d, perform, db, history, batches[..n]);
      var (before, kept, results) := DispatchAll(d, perform, db, Some(history), batches[..n]);
      var (next, _, records) := Dispatch(d, perform, before, Some(history), batches[n]);
      DispatchAppends(d, perform, before, history, batches[n]);
      LogAppend(d.session.value, d.conversation.value, batches, results, records);
      Rejoin(Records(db, history), Log(d.session.value, d.conversation.value, batches[..n], results),
             HistoryRecord(d.session.value, d.conversation.value, ActionsOf(batches[n], records)));
    }
  }

  lemma LogAppend(session: string, conversation: string, batches: seq<seq<Call>>, results: seq<seq<DispatchRecord>>,
                  records: seq<DispatchRecord>)
    requires batches != []
    requires var n := |batches| - 1; Parallel(batches[..n], results) && |batches[n]| == |records|
    ensures Parallel(batches, results + [records])
    ensures var n := |batches| - 1;
            Log(session, conversation, batches, results + [records]) ==
            Log(session, conversation, batches[..n], results) +
            [HistoryRecord(session, conversation, ActionsOf(batches[n], records))]
  {
    var n := |batches| - 1;
    assert forall i :: 0 <= i < n ==> batches[..n][i] == batches[i];
  }

  lemma {:induction false} FirstDispatchCreates(d: Dispatcher, perform: Performer, db: Database,
                                                batches: seq<seq<Call>>)
    requires d.session.Some? && d.conversation.Some? && batches != []
    ensures DispatchAll(d, perform, db, None, batches) ==
            DispatchAll(d, perform, Create(db, History), Some(db.next), batches)
  {
    var n := |batches| - 1;
    if n > 0 {
      FirstDispatchCreates(d, perform, db, batches[..n]);
    }
  }

  lemma FreshLog(d: Dispatcher, perform: Performer, db: Database, batches: seq<seq<Call>>)
    requires d.session.Some? && d.conversation.Some? && WellFormed(db) && batches != [] && HistoryNeutral(perform)
    ensures var (end, kept, results) := DispatchAll(d, perform, db, None, batches);
            && kept == Some(db.next) && Parallel(batches, results)
            && Records(end, db.next) == Log(d.session.value, d.conversation.value, batches, results)
  {
    var created := Create(db, History);
    CreateGrows(db, History);
    EdgesElsewhere(db.history, db.next);
    FirstDispatchCreates(d, perform, db, batches);
    LogReadsBack(d, perform, created, db.next, batches);
    var results := DispatchAll(d, perform, created, Some(db.next), batches).2;
    assert [] + Log(d.session.value, d.conversation.value, batches, results) ==
           Log(d.session.value, d.conversation.value, batches, results);
  }

  /**
   Any sequence of dispatches under one history reads back after what was there before: one record per
   dispatch, in order, with one action per return item in return order; a dispatcher that has no
   history yet creates one, which reads exactly the dispatches.
   */
  lemma DispatchesReadBack(d: Dispatcher, db: Database, kept: Option<Id>, batches: seq<seq<Call>>)
    requires d.session.Some? && d.conversation.Some? && WellFormed(db) && batches != []
    requires kept.Some? ==> Ready(db, kept.value)
    ensures var (end, after, results) := DispatchAll(d, PerformerOf(d), db, kept, batches);
            && after == Some(if kept.Some? then kept.value else db.next) && Parallel(batches, results)
            && Records(end, after.value) ==
               (if kept.Some? then Records(db, kept.value) else []) +
               Log(d.session.value, d.conversation.value, batches, results)
  {
    PrimitivesNeutral(d);
    if kept.Some? {
      LogReadsBack(d, PerformerOf(d), db, kept.value, batches);
    } else {
      FreshLog(d, PerformerOf(d), db, batches);
      var results := DispatchAll(d, PerformerOf(d), db, kept, batches).2;
      var log := Log(d.session.value, d.conversation.value, batches, results);
      assert [] + log == log;
    }
  }
}
