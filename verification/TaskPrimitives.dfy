/**
 What each primitive of a task result does (agent-host task_execution/primitives.py and
 primitive_payloads.py): the text it finds in its payload, the message or memory it leaves, and its record.
 */
module TaskPrimitives {
  import opened Ids
  import opened TaskHistory
  import Text

  // ---------- texts of a payload ----------

  ghost predicate Blank(values: map<string, string>, key: string) {
    key in values ==> Text.Strip(values[key]) == ""
  }

  /** `text` is the first value under the keys that is not blank, without surrounding whitespace. */
  ghost predicate FirstOf(values: map<string, string>, keys: seq<string>, text: string) {
    if text == "" then forall k :: k in keys ==> Blank(values, k)
    else exists i :: 0 <= i < |keys| && keys[i] in values && Text.Strip(values[keys[i]]) == text &&
                     forall j :: 0 <= j < i ==> Blank(values, keys[j])
  }

  lemma {:induction false} FirstTextMeans(values: map<string, string>, keys: seq<string>)
    ensures FirstOf(values, keys, FirstText(values, keys))
  {
    if keys != [] && Blank(values, keys[0]) {
      var text := FirstText(values, keys[1..]);
      FirstTextMeans(values, keys[1..]);
      hide Text.Strip;
      if text != "" {
        var i :| 0 <= i < |keys[1..]| && keys[1..][i] in values && Text.Strip(values[keys[1..][i]]) == text &&
                 forall j :: 0 <= j < i ==> Blank(values, keys[1..][j]);
        assert keys[i + 1] == keys[1..][i];
        assert forall j :: 0 < j < i + 1 ==> keys[j] == keys[1..][j - 1];
      } else {
        assert forall k :: k in keys ==> k == keys[0] || k in keys[1..];
      }
    }
  }

  /** The text of a payload: a plain one stripped, of fields the first that is not blank, else nothing. */
  ghost predicate TextOf(p: Payload, keys: seq<string>, text: string) {
    match p
    case Absent => text == ""
    case Plain(raw) => text == Text.Strip(raw)
    case Fields(values) => FirstOf(values, keys, text)
  }

  lemma PayloadMeans(p: Payload, keys: seq<string>)
    ensures TextOf(p, keys, PayloadText(p, keys))
  {
    if p.Fields? {
      FirstTextMeans(p.values, keys);
    }
  }

  /** A memory's title and description, with their fallbacks. */
  ghost predicate MemoryOf(p: Payload, fallback: string, title: string, description: string) {
    match p
    case Absent => title == fallback && description == fallback
    case Plain(raw) =>
      var text := Text.Strip(raw);
      if text == "" then title == fallback && description == fallback
      else description == text && title == Text.Strip(text[..if |text| < 80 then |text| else 80])
    case Fields(values) =>
      && (|| (title != "" && FirstOf(values, ["title", "name", "summary"], title))
          || (title == fallback && FirstOf(values, ["title", "name", "summary"], "")))
      && (|| (description != "" && FirstOf(values, ["description", "text", "memory", "value"], description))
          || (description == title && FirstOf(values, ["description", "text", "memory", "value"], "")))
  }

  lemma MemoryMeans(p: Payload, fallback: string)
    ensures MemoryOf(p, fallback, MemoryPayload(p, fallback).0, MemoryPayload(p, fallback).1)
  {
    if p.Fields? {
      FirstTextMeans(p.values, ["title", "name", "summary"]);
      FirstTextMeans(p.values, ["description", "text", "memory", "value"]);
      hide FirstOf, FirstText;
    } else if p.Plain? {
      var text := Text.Strip(p.text);
      assert text[..|text|] == text;
    }
  }

  // ---------- what is left in the database ----------

  /**
   A new message of that role and text, last in the conversation, and nothing else; or nothing without a
   conversation.
   */
  ghost predicate LeavesMessage(d: Dispatcher, db: Database, next: Database, role: string, text: string,
                                message: Option<Id>) {
    if d.conversation.None? then next == db && message == None
    else
      && message == Some(db.next) && next.next == db.next + 1
      && next.nodes == db.nodes[db.next := Message(role, text)]
      && (exists at :: next.messages == db.messages + [Edge(d.conversationNode, db.next, at)] &&
                       forall e :: e in db.messages && e.from == d.conversationNode ==> e.position < at)
      && next.history == db.history && next.actions == db.actions && next.links == db.links
  }

  /** A new memory note of that title and description, and nothing else. */
  ghost predicate LeavesMemory(db: Database, next: Database, title: string, description: string) {
    next == Database(db.next + 1, db.nodes[db.next := MemoryNote(title, description)], db.history, db.actions, db.links,
                     db.messages)
  }

  lemma {:induction false} NextIsLast(edges: seq<Edge>, from: Id)
    ensures forall e :: e in edges && e.from == from ==> e.position < NextPosition(edges, from)
  {
    var mine := EdgesFrom(edges, from);
    EdgesOf(edges, from);
    SortedLast(mine);
    SortedMembers(mine);
  }

  lemma {:induction false} EdgesOf(edges: seq<Edge>, from: Id)
    ensures forall e :: e in EdgesFrom(edges, from) <==> e in edges && e.from == from
  {
    if edges != [] {
      var n := |edges| - 1;
      assert edges == edges[..n] + [edges[n]];
      EdgesOf(edges[..n], from);
    }
  }

  lemma {:induction false} InsertMembers(sorted: seq<Edge>, e: Edge)
    ensures forall x :: x in InsertByPosition(sorted, e) <==> x in sorted || x == e
  {
    if sorted != [] {
      var n := |sorted| - 1;
      assert sorted == sorted[..n] + [sorted[n]];
      InsertMembers(sorted[..n], e);
    }
  }

  lemma {:induction false} SortedMembers(edges: seq<Edge>)
    ensures forall x :: x in SortByPosition(edges) <==> x in edges
  {
    if edges != [] {
      var n := |edges| - 1;
      assert edges == edges[..n] + [edges[n]];
      SortedMembers(edges[..n]);
      InsertMembers(SortByPosition(edges[..n]), edges[n]);
    }
  }

  ghost predicate LastIsGreatest(sorted: seq<Edge>) {
    sorted != [] ==> forall e :: e in sorted ==> e.position <= sorted[|sorted| - 1].position
  }

  lemma InsertLast(sorted: seq<Edge>, e: Edge)
    requires LastIsGreatest(sorted)
    ensures LastIsGreatest(InsertByPosition(sorted, e))
  {
    InsertMembers(sorted, e);
  }

  lemma {:induction false} SortedLast(edges: seq<Edge>)
    ensures LastIsGreatest(SortByPosition(edges))
  {
    if edges != [] {
      SortedLast(edges[..|edges| - 1]);
      InsertLast(SortByPosition(edges[..|edges| - 1]), edges[|edges| - 1]);
    }
  }

  lemma SayLeaves(d: Dispatcher, db: Database, role: string, text: string)
    ensures var (next, message) := Say(d, db, role, text); LeavesMessage(d, db, next, role, text, message)
  {
    NextIsLast(db.messages, d.conversationNode);
  }

  // ---------- the primitives ----------

  /** The call is refused aloud: its record and the agent's message carry the same detail. */
  ghost predicate Refuses(d: Dispatcher, db: Database, next: Database, r: DispatchRecord, status: string) {
    && r.status == status && (status == "unsupported" || status == "malformed")
    && exists message :: LeavesMessage(d, db, next, "agent", r.detail, message) &&
                         r.output == if status == "unsupported" then Unsupported(r.detail, message)
                                     else Malformed(r.detail, message)
  }

  /** The text is left as a message of the role, and the record repeats it. */
  ghost predicate Says(d: Dispatcher, db: Database, next: Database, r: DispatchRecord, role: string, text: string) {
    && r.status == "ok" && r.detail == text
    && exists message :: LeavesMessage(d, db, next, role, text, message) && r.output == Said(text, message)
  }

  ghost predicate Remembers(db: Database, next: Database, r: DispatchRecord, title: string, description: string) {
    && r.status == "ok" && r.detail == title && r.output == Remembered(db.next, title, description)
    && LeavesMemory(db, next, title, description)
  }

  /** A reply or thought: the first text of the payload under the keys, or a refusal if there is none. */
  ghost predicate SaysFirst(d: Dispatcher, db: Database, next: Database, r: DispatchRecord, p: Payload, role: string,
                            keys: seq<string>) {
    exists text :: TextOf(p, keys, text) &&
                   if text == "" then Refuses(d, db, next, r, "malformed") else Says(d, db, next, r, role, text)
  }

  ghost predicate RemembersPayload(db: Database, next: Database, r: DispatchRecord, p: Payload, fallback: string) {
    exists title, description :: MemoryOf(p, fallback, title, description) && Remembers(db, next, r, title, description)
  }

  /** What the call of each name does. */
  ghost predicate Does(d: Dispatcher, db: Database, next: Database, r: DispatchRecord, name: string, p: Payload) {
    if name == "agent_reply" then SaysFirst(d, db, next, r, p, "agent", ["text", "message", "reply"])
    else if name == "agent_thought" then SaysFirst(d, db, next, r, p, "agent_thought", ["text", "thought", "message"])
    else if name == "conversation_mode_off" then next == db && r.status == "ok" && r.output == ModeOff
    else if name == "session_memory" && d.session.Some? then RemembersPayload(db, next, r, p, "Session memory")
    else if name == "user_preference" then RemembersPayload(db, next, r, p, "User preference")
    else Refuses(d, db, next, r, "unsupported")
  }

  lemma SpeakDoes(d: Dispatcher, db: Database, name: string, role: string, p: Payload, keys: seq<string>)
    ensures var (next, r) := Speak(d, db, name, role, p, keys); SaysFirst(d, db, next, r, p, role, keys)
  {
    var text := PayloadText(p, keys);
    PayloadMeans(p, keys);
    SayLeaves(d, db, role, text);
    SayLeaves(d, db, "agent", MalformedCall(d, db, name, p).1.detail);
    hide TextOf, PayloadText, LeavesMessage, Say;
    assert if text == "" then Refuses(d, db, Speak(d, db, name, role, p, keys).0, Speak(d, db, name, role, p, keys).1,
                                      "malformed")
           else Says(d, db, Speak(d, db, name, role, p, keys).0, Speak(d, db, name, role, p, keys).1, role, text);
  }

  lemma RefusalDoes(d: Dispatcher, db: Database, name: string, p: Payload, reason: string)
    ensures var (next, r) := NotSupported(d, db, name, p, reason); Refuses(d, db, next, r, "unsupported")
  {
    SayLeaves(d, db, "agent", NotSupported(d, db, name, p, reason).1.detail);
    hide LeavesMessage, Say;
  }

  lemma RememberDoes(db: Database, name: string, p: Payload, fallback: string)
    ensures var (next, r) := Remember(db, name, p, fallback); RemembersPayload(db, next, r, p, fallback)
  {
    MemoryMeans(p, fallback);
    var memory := MemoryPayload(p, fallback);
    hide MemoryOf, MemoryPayload;
    var (next, r) := Remember(db, name, p, fallback);
    assert Remembers(db, next, r, memory.0, memory.1);
  }

  /** Every call does what its stripped name says, and its record bears that name. */
  lemma CallDoes(d: Dispatcher, db: Database, call: Call)
    ensures var (next, r) := DispatchCall(d, db, call); var name := Text.Strip(call.name);
            Does(d, db, next, r, name, call.payload) && r.name == if name == "" then "<empty>" else name
  {
    var name, p := Text.Strip(call.name), call.payload;
    NamesKept(d, db, name, p);
    hide SaysFirst, RemembersPayload, Refuses, Speak, Remember, NotSupported, Text.Strip;
    match PrimitiveNamed(name)
    case AgentReply => SpeakDoes(d, db, name, "agent", p, ["text", "message", "reply"]);
    case AgentThought => SpeakDoes(d, db, name, "agent_thought", p, ["text", "thought", "message"]);
    case SessionMemory =>
      RefusalDoes(d, db, name, p, " reason=missing session_id");
      RememberDoes(db, name, p, "Session memory");
    case UserPreference => RememberDoes(db, name, p, "User preference");
    case _ => RefusalDoes(d, db, name, p, "");
  }

  lemma NamesKept(d: Dispatcher, db: Database, name: string, p: Payload)
    ensures forall role, keys :: Speak(d, db, name, role, p, keys).1.name == name
    ensures forall fallback :: Remember(db, name, p, fallback).1.name == name
    ensures forall reason :: NotSupported(d, db, name, p, reason).1.name == if name == "" then "<empty>" else name
  {
  }
}
