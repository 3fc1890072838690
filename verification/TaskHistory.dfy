/**
 The task-history log (agent-host reframe_memory/task_history.py) and the dispatcher that writes it
 (agent-host task_execution/primitives.py).
 */
module TaskHistory {
  import opened Ids
  import Text

  /** Record ids are drawn from a counter, so a created record is always new. */
  type Id = nat

  datatype Payload = Absent | Plain(text: string) | Fields(values: map<string, string>)

  datatype Output =
    | Unsupported(detail: string, message: Option<Id>)
    | Malformed(detail: string, message: Option<Id>)
    | Said(text: string, message: Option<Id>)
    | ModeOff
    | Remembered(memory: Id, title: string, description: string)

  datatype Content =
    | History
    | HistoryNode(session: string, conversation: string)
    | Action(name: string, input: Payload, output: Output)
    | SessionAction
    | Message(role: string, text: string)
    | MemoryNote(title: string, description: string)

  datatype Edge = Edge(from: Id, to: Id, position: nat)

  /** Records, the position-numbered `history`, `actions` and `has_message` edges, and the `action` links. */
  datatype Database = Database(next: Id, nodes: map<Id, Content>,
                               history: seq<Edge>, actions: seq<Edge>, links: seq<Edge>, messages: seq<Edge>)

  function Create(db: Database, content: Content): Database {
    db.(next := db.next + 1, nodes := db.nodes[db.next := content])
  }

  // ---------- ordered reads ----------

  function EdgesFrom(edges: seq<Edge>, from: Id): seq<Edge> {
    if edges == [] then []
    else
      var n := |edges| - 1;
      if edges[n].from == from then EdgesFrom(edges[..n], from) + [edges[n]] else EdgesFrom(edges[..n], from)
  }

  function InsertByPosition(sorted: seq<Edge>, e: Edge): seq<Edge> {
    if sorted == [] then [e]
    else
      var n := |sorted| - 1;
      if sorted[n].position <= e.position then sorted + [e] else InsertByPosition(sorted[..n], e) + [sorted[n]]
  }

  /** `ORDER BY position ASC`. */
  function SortByPosition(edges: seq<Edge>): seq<Edge> {
    if edges == [] then [] else InsertByPosition(SortByPosition(edges[..|edges| - 1]), edges[|edges| - 1])
  }

  /** `_next_position`: one more than the highest position in use. */
  function NextPosition(edges: seq<Edge>, from: Id): nat {
    var sorted := SortByPosition(EdgesFrom(edges, from));
    if sorted == [] then 0 else sorted[|sorted| - 1].position + 1
  }

  /** `SELECT out FROM action WHERE in = ... LIMIT 1`. */
  function FirstLink(links: seq<Edge>, from: Id): Option<Id> {
    if links == [] then None else if links[0].from == from then Some(links[0].to) else FirstLink(links[1..], from)
  }

  datatype ActionRecord = ActionRecord(name: string, input: Payload, output: Output)
  datatype HistoryRecord = HistoryRecord(session: string, conversation: string, actions: seq<ActionRecord>)

  /** `_action_for_session_action`. */
  function ActionOf(db: Database, sessionAction: Id): seq<ActionRecord> {
    var link := FirstLink(db.links, sessionAction);
    if link.Some? && link.value in db.nodes && db.nodes[link.value].Action?
    then var a := db.nodes[link.value]; [ActionRecord(a.name, a.input, a.output)]
    else []
  }

  function ActionsAlong(db: Database, edges: seq<Edge>): seq<ActionRecord> {
    if edges == [] then [] else ActionsAlong(db, edges[..|edges| - 1]) + ActionOf(db, edges[|edges| - 1].to)
  }

  /** `actions_for_node`. */
  function ActionsForNode(db: Database, node: Id): seq<ActionRecord> {
    ActionsAlong(db, SortByPosition(EdgesFrom(db.actions, node)))
  }

  function RecordOf(db: Database, node: Id): seq<HistoryRecord> {
    if node in db.nodes && db.nodes[node].HistoryNode?
    then [HistoryRecord(db.nodes[node].session, db.nodes[node].conversation, ActionsForNode(db, node))]
    else []
  }

  function RecordsAlong(db: Database, edges: seq<Edge>): seq<HistoryRecord> {
    if edges == [] then [] else RecordsAlong(db, edges[..|edges| - 1]) + RecordOf(db, edges[|edges| - 1].to)
  }

  /** `records`. */
  function Records(db: Database, history: Id): seq<HistoryRecord> {
    RecordsAlong(db, SortByPosition(EdgesFrom(db.history, history)))
  }

  // ---------- writes ----------

  /** `record_action`: an action node, a session-action node, and the link between them. */
  function RecordAction(db: Database, name: string, input: Payload, output: Output): (Database, Id) {
    var a := Create(db, Action(name, input, output));
    var s := Create(a, SessionAction);
    (s.(links := s.links + [Edge(a.next, db.next, 0)]), a.next)
  }

  function Relate(actions: seq<Edge>, node: Id, ids: seq<Id>): seq<Edge> {
    if ids == [] then actions
    else
      var n := |ids| - 1;
      Relate(actions, node, ids[..n]) + [Edge(node, ids[n], n)]
  }

  /** `append_node`. */
  function AppendNode(db: Database, history: Id, session: string, conversation: string, ids: seq<Id>): (Database, Id) {
    var created := Create(db, HistoryNode(session, conversation));
    var related := created.(actions := Relate(created.actions, db.next, ids));
    (related.(history := related.history + [Edge(history, db.next, NextPosition(related.history, history))]), db.next)
  }

  // ---------- dispatch ----------

  /** Who is dispatching, and how a payload is shown in an error text. */
  datatype Dispatcher = Dispatcher(session: Option<string>, conversation: Option<string>, conversationNode: Id,
                                   preview: Payload -> string)

  datatype Call = Call(name: string, payload: Payload)
  datatype DispatchRecord = DispatchRecord(name: string, status: string, detail: string, output: Output)

  datatype Primitive = AgentThought | AgentReply | ConversationModeOff | SessionMemory | UserPreference | Other

  /** The supported primitives by name; every other name, listed as unsupported or not, is refused alike. */
  function PrimitiveNamed(name: string): Primitive {
    if name == "agent_thought" then AgentThought
    else if name == "agent_reply" then AgentReply
    else if name == "conversation_mode_off" then ConversationModeOff
    else if name == "session_memory" then SessionMemory
    else if name == "user_preference" then UserPreference
    else Other
  }

  function FirstText(values: map<string, string>, keys: seq<string>): string {
    if keys == [] then ""
    else if keys[0] in values && Text.Strip(values[keys[0]]) != "" then Text.Strip(values[keys[0]])
    else FirstText(values, keys[1..])
  }

  function PayloadText(p: Payload, keys: seq<string>): string {
    match p
    case Absent => ""
    case Plain(text) => Text.Strip(text)
    case Fields(values) => FirstText(values, keys)
  }

  /** `memory_payload`: a title and a description. */
  function MemoryPayload(p: Payload, defaultTitle: string): (string, string) {
    match p
    case Fields(values) =>
      var found := FirstText(values, ["title", "name", "summary"]);
      var title := if found == "" then defaultTitle else found;
      var description := FirstText(values, ["description", "text", "memory", "value"]);
      (title, if description == "" then title else description)
    case Absent => (defaultTitle, defaultTitle)
    case Plain(raw) =>
      var text := Text.Strip(raw);
      if text == "" then (defaultTitle, defaultTitle) else (Text.Strip(if |text| <= 80 then text else text[..80]), text)
  }

  /** Adds a message to the dispatcher's conversation, if it has one. */
  function Say(d: Dispatcher, db: Database, role: string, text: string): (Database, Option<Id>) {
    if d.conversation.None? then (db, None)
    else
      var created := Create(db, Message(role, text));
      (created.(messages := created.messages +
                [Edge(d.conversationNode, db.next, NextPosition(db.messages, d.conversationNode))]),
       Some(db.next))
  }

  function NotSupported(d: Dispatcher, db: Database, name: string, payload: Payload,
                        reason: string): (Database, DispatchRecord) {
    var shown := if name == "" then "<empty>" else name;
    var detail := "Action not supported: " + shown + reason + " payload=" + d.preview(payload);
    var (next, message) := Say(d, db, "agent", detail);
    (next, DispatchRecord(shown, "unsupported", detail, Unsupported(detail, message)))
  }

  function MalformedCall(d: Dispatcher, db: Database, name: string, payload: Payload): (Database, DispatchRecord) {
    var detail := "Malformed action payload: " + name + " payload=" + d.preview(payload);
    var (next, message) := Say(d, db, "agent", detail);
    (next, DispatchRecord(name, "malformed", detail, Malformed(detail, message)))
  }

  function Speak(d: Dispatcher, db: Database, name: string, role: string, payload: Payload,
                 keys: seq<string>): (Database, DispatchRecord) {
    var text := PayloadText(payload, keys);
    if text == "" then MalformedCall(d, db, name, payload)
    else
      var (next, message) := Say(d, db, role, text);
      (next, DispatchRecord(name, "ok", text, Said(text, message)))
  }

  function Remember(db: Database, name: string, payload: Payload, defaultTitle: string): (Database, DispatchRecord) {
    var (title, description) := MemoryPayload(payload, defaultTitle);
    (Create(db, MemoryNote(title, description)),
     DispatchRecord(name, "ok", title, Remembered(db.next, title, description)))
  }

  function Perform(d: Dispatcher, db: Database, primitive: Primitive, name: string,
                   payload: Payload): (Database, DispatchRecord) {
    match primitive
    case Other => NotSupported(d, db, name, payload, "")
    case AgentReply => Speak(d, db, name, "agent", payload, ["text", "message", "reply"])
    case AgentThought => Speak(d, db, name, "agent_thought", payload, ["text", "thought", "message"])
    case ConversationModeOff => (db, DispatchRecord(name, "ok", "continuous conversation off", ModeOff))
    case SessionMemory =>
      if d.session.None? then NotSupported(d, db, name, payload, " reason=missing session_id")
      else Remember(db, name, payload, "Session memory")
    case UserPreference => Remember(db, name, payload, "User preference")
  }

  /** `_dispatch_call`. */
  function DispatchCall(d: Dispatcher, db: Database, call: Call): (Database, DispatchRecord) {
    var name := Text.Strip(call.name);
    Perform(d, db, PrimitiveNamed(name), name, call.payload)
  }

  /** What carries out one return item: `DispatchCall` for some dispatcher. */
  type Performer = (Database, Call) -> (Database, DispatchRecord)

  function PerformerOf(d: Dispatcher): Performer {
    (db, call) => DispatchCall(d, db, call)
  }

  /** `call.payload or {}`. */
  function InputOf(p: Payload): Payload {
    if p == Absent || p == Plain("") then Fields(map[]) else p
  }

  /**
   The dispatch loop over the return items: records in order, and one session action for each when a history
   is kept.
   */
  function DispatchCalls(perform: Performer, db: Database, history: Option<Id>,
                         calls: seq<Call>): (Database, seq<DispatchRecord>, seq<Id>) {
    if calls == [] then (db, [], [])
    else
      var n := |calls| - 1;
      var (before, records, ids) := DispatchCalls(perform, db, history, calls[..n]);
      var (called, record) := perform(before, calls[n]);
      if history.None? then (called, records + [record], ids)
      else
        var (recorded, id) := RecordAction(called, record.name, InputOf(calls[n].payload), record.output);
        (recorded, records + [record], ids + [id])
  }

  /** `_ensure_task_history`. */
  function EnsureHistory(d: Dispatcher, db: Database, history: Option<Id>): (Database, Option<Id>) {
    if d.session.None? || d.conversation.None? then (db, None)
    else if history.Some? then (db, history)
    else (Create(db, History), Some(db.next))
  }

  /** `dispatch`; `kept` is the dispatcher's `task_history_id` before and after the call. */
  function Dispatch(d: Dispatcher, perform: Performer, db: Database, kept: Option<Id>,
                    calls: seq<Call>): (Database, Option<Id>, seq<DispatchRecord>) {
    var (ensured, history) := EnsureHistory(d, db, kept);
    var after := if history.Some? then history else kept;
    var (called, records, ids) := DispatchCalls(perform, ensured, after, calls);
    if history.None? then (called, after, records)
    else (AppendNode(called, history.value, d.session.value, d.conversation.value, ids).0, after, records)
  }

  // ---------- the objects of the source ----------

  /** `PrimitiveDispatcher` over the store it writes to. */
  class PrimitiveDispatcher {
    const who: Dispatcher
    var db: Database
    var taskHistoryId: Option<Id>

    constructor (who: Dispatcher, db: Database, taskHistoryId: Option<Id>)
      ensures this.who == who && this.db == db && this.taskHistoryId == taskHistoryId
    {
      this.who, this.db, this.taskHistoryId := who, db, taskHistoryId;
    }

    method AppendHistoryNode(history: Id, session: string, conversation: string, ids: seq<Id>) returns (node: Id)
      modifies this`db
      ensures (db, node) == AppendNode(old(db), history, session, conversation, ids)
    {
      node := db.next;
      db := Create(db, HistoryNode(session, conversation));
      ghost var created := db;
      for position := 0 to |ids|
        invariant db == created.(actions := Relate(created.actions, node, ids[..position]))
      {
        assert ids[..position + 1][..position] == ids[..position];
        db := db.(actions := db.actions + [Edge(node, ids[position], position)]);
      }
      assert ids[..|ids|] == ids;
      var position := NextPosition(db.history, history);
      db := db.(history := db.history + [Edge(history, node, position)]);
    }

    method DispatchResult(calls: seq<Call>) returns (records: seq<DispatchRecord>)
      modifies this
      ensures (db, taskHistoryId, records) == Dispatch(who, PerformerOf(who), old(db), old(taskHistoryId), calls)
    {
      var (ensured, history) := EnsureHistory(who, db, taskHistoryId);
      db := ensured;
      if history.Some? {
        taskHistoryId := history;
      }
      records := [];
      var ids := [];
      for i := 0 to |calls|
        invariant (db, records, ids) == DispatchCalls(PerformerOf(who), ensured, taskHistoryId, calls[..i])
        invariant taskHistoryId == if history.Some? then history else old(taskHistoryId)
      {
        assert calls[..i + 1][..i] == calls[..i];
        var (called, record) := DispatchCall(who, db, calls[i]);
        db := called;
        records := records + [record];
        if taskHistoryId.Some? {
          var (recorded, id) := RecordAction(db, record.name, InputOf(calls[i].payload), record.output);
          db := recorded;
          ids := ids + [id];
        }
      }
      assert calls[..|calls|] == calls;
      if history.Some? {
        var _ := AppendHistoryNode(history.value, who.session.value, who.conversation.value, ids);
      }
    }

    method HistoryRecords(history: Id) returns (records: seq<HistoryRecord>)
      ensures records == Records(db, history)
    {
      var relations := SortByPosition(EdgesFrom(db.history, history));
      records := [];
      for i := 0 to |relations|
        invariant records == RecordsAlong(db, relations[..i])
      {
        assert relations[..i + 1][..i] == relations[..i];
        records := records + RecordOf(db, relations[i].to);
      }
      assert relations[..|relations|] == relations;
    }
  }
}
