/**
 Loosening a request never removes a node from the result, although the looser run marks more nodes as
 read on its way: the two runs are followed in step, on every graph whose nodes each play one role.
 */
module RetrievalMonotone {
  import opened Ids
  import opened Retrieval
  import opened RetrievalMarks
  import opened RetrievalSnapshot
  import opened RetrievalLaws
  import opened RetrievalStability

  // ---------- roles ----------

  /** A session or conversation, searched by name. */
  ghost predicate Named(g: Graph, x: Id) {
    x in g.sessions || exists s :: x in Targets(g.conversations, s)
  }

  ghost predicate Spoken(g: Graph, x: Id) {
    exists c :: x in Targets(g.messages, c)
  }

  ghost predicate Noted(g: Graph, x: Id) {
    exists s :: x in Targets(g.memories, s)
  }

  /** No node is a message in one place and a memory, a task, or a session or conversation in another. */
  ghost predicate OneRole(g: Graph) {
    forall x :: && !(Named(g, x) && Spoken(g, x)) && !(Named(g, x) && Noted(g, x)) && !(Spoken(g, x) && Noted(g, x))
                && (x in g.tasks ==> !Named(g, x) && !Spoken(g, x) && !Noted(g, x))
  }

  /** The node matches in the role that it plays in the past context. */
  ghost predicate Hit(g: Graph, f: Filter, x: Id, n: Node) {
    || (Named(g, x) && Matches(f, n, NAME_FIELDS))
    || (Spoken(g, x) && Matches(f, n, MESSAGE_FIELDS))
    || (Noted(g, x) && Matches(f, n, MEMORY_FIELDS))
  }

  // ---------- two runs in step ----------

  ghost predicate ReadNoLater(a: Node, b: Node) {
    a.stamps.readAt == b.stamps.readAt ||
    (a.stamps.readAt.Some? && b.stamps.readAt.Some? && a.stamps.readAt.value <= b.stamps.readAt.value)
  }

  /** The looser run has the node with a read mark no earlier, unless the stricter run could not use it anyway. */
  ghost predicate Lag(g: Graph, f: Filter, x: Id, a: Node, b: Node) {
    SameButRead(a, b) && (ReadNoLater(a, b) || !Hit(g, f, x, a))
  }

  /** The stores of the stricter and the looser run at the same point of the walk. */
  ghost predicate InStep(g: Graph, f: Filter, s: Store, t: Store) {
    && s.clock <= t.clock && WellKeyed(s.nodes) && WellKeyed(t.nodes) && SameNodes(s.nodes, t.nodes)
    && forall x :: x in s.nodes ==> Lag(g, f, x, s.nodes[x], t.nodes[x])
  }

  ghost predicate FilterLooser(a: Filter, b: Filter) {
    HintsLooser(a.hints, b.hints) && BreadthLooser(a.breadth, b.breadth)
  }

  lemma MatchCarries(a: Filter, b: Filter, x: Node, y: Node, fields: seq<string>)
    requires FilterLooser(a, b) && SameButRead(x, y) && ReadNoLater(x, y) && Matches(a, x, fields)
    ensures Matches(b, y, fields)
  {
    MatchesLooser(a, b, x, fields);
  }

  // ---------- marking in step ----------

  /** Marking the node in the looser run alone does no harm. */
  ghost predicate Safe(g: Graph, f: Filter, x: Id, a: Node, clock: int) {
    !Hit(g, f, x, a) || (a.stamps.readAt.Some? && a.stamps.readAt.value <= clock)
  }

  function Pick(ids: seq<Id>, chosen: set<Id>): seq<Id> {
    if ids == [] then []
    else
      var k := |ids| - 1;
      if ids[k] in chosen then Pick(ids[..k], chosen) + [ids[k]] else Pick(ids[..k], chosen)
  }

  lemma {:induction false} PickMembers(ids: seq<Id>, chosen: set<Id>)
    ensures forall x :: x in Pick(ids, chosen) <==> x in ids && x in chosen
  {
    if ids != [] {
      var k := |ids| - 1;
      assert ids == ids[..k] + [ids[k]];
      PickMembers(ids[..k], chosen);
    }
  }

  lemma MarkOneInStep(g: Graph, f: Filter, s: Store, t: Store, x: Id, inA: bool, inB: bool)
    requires InStep(g, f, s, t) && (inA ==> inB)
    requires x in s.nodes && inB && !inA ==> Safe(g, f, x, s.nodes[x], t.clock)
    ensures InStep(g, f, if inA then MarkEach(s, [x]) else s, if inB then MarkEach(t, [x]) else t)
  {
    MarkOnly(s, x);
    MarkOnly(t, x);
    hide MarkEach, Hit;
  }

  lemma MarkOnly(s: Store, x: Id)
    ensures MarkEach(s, [x]) ==
            Store(if x in s.nodes then s.nodes[x := Touch(s.nodes[x], s.clock)] else s.nodes, s.clock + 1)
  {
    assert [x][..0] == [];
  }

  /** The stricter run marks some of the ids, the looser one at least those. */
  lemma {:induction false} MarkInStep(g: Graph, f: Filter, s: Store, t: Store, ids: seq<Id>, inA: set<Id>, inB: set<Id>)
    requires InStep(g, f, s, t) && NoDup(ids) && inA <= inB
    requires forall x :: x in ids && x in s.nodes && x in inB && x !in inA ==> Safe(g, f, x, s.nodes[x], t.clock)
    ensures InStep(g, f, MarkEach(s, Pick(ids, inA)), MarkEach(t, Pick(ids, inB)))
  {
    if ids != [] {
      var k := |ids| - 1;
      var init, x := ids[..k], ids[k];
      MarkInStep(g, f, s, t, init, inA, inB);
      var s1, t1 := MarkEach(s, Pick(init, inA)), MarkEach(t, Pick(init, inB));
      MarkEachMarks(s, Pick(init, inA));
      MarkEachMarks(t, Pick(init, inB));
      PickMembers(init, inA);
      assert x !in init;
      MarkOneInStep(g, f, s1, t1, x, x in inA, x in inB);
      MarkPicked(s, ids, inA);
      MarkPicked(t, ids, inB);
    }
  }

  lemma MarkPicked(s: Store, ids: seq<Id>, chosen: set<Id>)
    requires ids != []
    ensures var k := |ids| - 1; var before := MarkEach(s, Pick(ids[..k], chosen));
            MarkEach(s, Pick(ids, chosen)) == if ids[k] in chosen then MarkEach(before, [ids[k]]) else before
  {
    var k := |ids| - 1;
    if ids[k] in chosen {
      MarkEachStep(s, Pick(ids, chosen));
    }
  }

  lemma {:induction false} PickAll(ids: seq<Id>, chosen: set<Id>)
    requires forall x :: x in ids ==> x in chosen
    ensures Pick(ids, chosen) == ids
  {
    if ids != [] {
      var k := |ids| - 1;
      assert ids == ids[..k] + [ids[k]];
      PickAll(ids[..k], chosen);
    }
  }

  lemma {:induction false} PickNone(ids: seq<Id>)
    ensures Pick(ids, {}) == []
  {
    if ids != [] {
      PickNone(ids[..|ids| - 1]);
    }
  }

  /** The whole list, or none of it. */
  lemma MarkAllInStep(g: Graph, f: Filter, s: Store, t: Store, ids: seq<Id>, inA: bool, inB: bool)
    requires InStep(g, f, s, t) && (inA ==> inB)
    requires inB && !inA ==> forall x :: x in ids && x in s.nodes ==> Safe(g, f, x, s.nodes[x], t.clock)
    ensures InStep(g, f, if inA then MarkRead(s, ids) else s, if inB then MarkRead(t, ids) else t)
  {
    var distinct := Dedup(ids);
    var all := SetOf(distinct);
    forall x | x in distinct
      ensures x in ids
    {
      var i :| 0 <= i < |distinct| && distinct[i] == x;
    }
    PickAll(distinct, all);
    PickNone(distinct);
    MarkInStep(g, f, s, t, distinct, if inA then all else {}, if inB then all else {});
  }

  // ---------- marking what matches, in step ----------

  lemma {:induction false} MatchingPicked(f: Filter, nodes: seq<Node>, fields: seq<string>, chosen: set<Id>)
    requires forall n :: n in nodes ==> (n.id in chosen <==> Matches(f, n, fields))
    ensures IdList(Matching(f, nodes, fields)) == Pick(IdList(nodes), chosen)
  {
    if nodes != [] {
      var k := |nodes| - 1;
      assert nodes == nodes[..k] + [nodes[k]];
      MatchingPicked(f, nodes[..k], fields, chosen);
      IdListSnoc(nodes[..k], nodes[k]);
      IdListSnoc(Matching(f, nodes[..k], fields), nodes[k]);
      assert IdList(nodes)[..k] == IdList(nodes[..k]);
    }
  }

  lemma IdListSnoc(nodes: seq<Node>, n: Node)
    ensures IdList(nodes + [n]) == IdList(nodes) + [n.id]
  {
  }

  lemma {:induction false} DedupPick(ids: seq<Id>, chosen: set<Id>)
    ensures Dedup(Pick(ids, chosen)) == Pick(Dedup(ids), chosen)
  {
    if ids != [] {
      var k := |ids| - 1;
      var init, x := ids[..k], ids[k];
      DedupPick(init, chosen);
      PickMembers(Dedup(init), chosen);
      PickSnoc(Dedup(init), x, chosen);
      if x in chosen {
        DedupSnoc(Pick(init, chosen), x);
      }
    }
  }

  lemma PickSnoc(ids: seq<Id>, x: Id, chosen: set<Id>)
    ensures Pick(ids + [x], chosen) == if x in chosen then Pick(ids, chosen) + [x] else Pick(ids, chosen)
  {
    assert (ids + [x])[..|ids|] == ids;
  }

  lemma DedupSnoc(ids: seq<Id>, x: Id)
    ensures Dedup(ids + [x]) == if x in Dedup(ids) then Dedup(ids) else Dedup(ids) + [x]
  {
    assert (ids + [x])[..|ids|] == ids;
  }

  /** Marking the matching nodes of a keyed list is marking a choice of its distinct ids. */
  lemma MarkMatching(s: Store, f: Filter, nodes: seq<Node>, fields: seq<string>)
    requires Stored(s.nodes, nodes) && WellKeyed(s.nodes)
    ensures MarkRead(s, IdList(Matching(f, nodes, fields))) ==
            MarkEach(s, Pick(Dedup(IdList(nodes)), MatchingIds(f, nodes, fields)))
  {
    var chosen := MatchingIds(f, nodes, fields);
    forall n | n in nodes
      ensures n.id in chosen <==> Matches(f, n, fields)
    {
      if n.id in chosen {
        var m :| m in nodes && Matches(f, m, fields) && m.id == n.id;
        assert m == n;
      }
    }
    MatchingPicked(f, nodes, fields, chosen);
    DedupPick(IdList(nodes), chosen);
  }

  // ---------- each part of the walk ----------

  /**
   Lists that the two runs load at the same point: same ids, and every match of the stricter run is one of the
   looser.
   */
  ghost predicate Loaded(g: Graph, s: Store, t: Store, xs: seq<Node>, ys: seq<Node>) {
    SameShape(xs, ys) && Stored(s.nodes, xs) && Stored(t.nodes, ys)
  }

  lemma MatchesCarry(g: Graph, a: Filter, b: Filter, s: Store, t: Store, xs: seq<Node>, ys: seq<Node>,
                     fields: seq<string>)
    requires InStep(g, a, s, t) && FilterLooser(a, b) && Loaded(g, s, t, xs, ys)
    requires forall n :: n in xs && Matches(a, n, fields) ==> Hit(g, a, n.id, n)
    ensures MatchingIds(a, xs, fields) <= MatchingIds(b, ys, fields)
    ensures IdsOf(Matching(a, xs, fields)) <= IdsOf(Matching(b, ys, fields))
    ensures Matching(a, xs, fields) != [] ==> Matching(b, ys, fields) != []
  {
    hide Matches, Hit, ReadNoLater, FilterLooser, InStep, Loaded, Matching;
    forall id | id in MatchingIds(a, xs, fields)
      ensures id in MatchingIds(b, ys, fields)
    {
      var n :| n in xs && Matches(a, n, fields) && n.id == id;
      var m := Counterpart(g, a, b, s, t, xs, ys, n, fields);
    }
    MatchingMembers(a, xs, fields);
    MatchingMembers(b, ys, fields);
    if Matching(a, xs, fields) != [] {
      var n := Matching(a, xs, fields)[0];
      assert n in Matching(a, xs, fields) && n.id in IdsOf(Matching(a, xs, fields));
      var m :| m in Matching(b, ys, fields) && m.id == n.id;
    }
  }

  /** The looser run's copy of a node that matches in the stricter one matches too. */
  lemma Counterpart(g: Graph, a: Filter, b: Filter, s: Store, t: Store, xs: seq<Node>, ys: seq<Node>, n: Node,
                    fields: seq<string>)
    returns (m: Node)
    requires InStep(g, a, s, t) && FilterLooser(a, b) && Loaded(g, s, t, xs, ys)
    requires n in xs && Matches(a, n, fields) && Hit(g, a, n.id, n)
    ensures m in ys && m.id == n.id && Matches(b, m, fields)
  {
    hide Matches, Hit, ReadNoLater, FilterLooser;
    var i :| 0 <= i < |xs| && xs[i] == n;
    m := ys[i];
    assert m in ys;
    MatchCarries(a, b, n, m, fields);
  }

  lemma LookupLoaded(g: Graph, f: Filter, s: Store, t: Store, ids: seq<Id>)
    requires InStep(g, f, s, t)
    ensures Loaded(g, s, t, Lookup(s.nodes, ids), Lookup(t.nodes, ids))
    ensures forall n :: n in Lookup(s.nodes, ids) ==> n.id in ids
  {
    LookupShape(s.nodes, t.nodes, ids);
    LookupElements(s.nodes, ids);
    LookupElements(t.nodes, ids);
  }

  lemma RecencyLoaded(g: Graph, f: Filter, s: Store, t: Store, ids: seq<Id>)
    requires InStep(g, f, s, t)
    ensures Loaded(g, s, t, ByRecency(s.nodes, ids), ByRecency(t.nodes, ids))
    ensures forall n :: n in ByRecency(s.nodes, ids) ==> n.id in ids
  {
    RecencyShape(s.nodes, t.nodes, ids);
    RecencyElements(s.nodes, ids);
    RecencyElements(t.nodes, ids);
  }

  lemma IdInList(nodes: seq<Node>, x: Id) returns (n: Node)
    requires x in IdList(nodes)
    ensures n in nodes && n.id == x
  {
    var i :| 0 <= i < |nodes| && IdList(nodes)[i] == x;
    n := nodes[i];
  }

  lemma MessagesInStep(g: Graph, a: Filter, b: Filter, s: Store, t: Store, c: Id)
    requires OneRole(g) && InStep(g, a, s, t) && FilterLooser(a, b)
    ensures var (x, _, s1) := MessageCandidates(g, s, c, a); var (y, _, t1) := MessageCandidates(g, t, c, b);
            && InStep(g, a, s1, t1) && IdsOf(x) <= IdsOf(y) && (x != [] ==> y != []) && (x == [] ==> s1 == s)
  {
    var ids := Targets(g.messages, c);
    var xs, ys := Lookup(s.nodes, ids), Lookup(t.nodes, ids);
    LookupLoaded(g, a, s, t, ids);
    assert forall n :: n in xs ==> Spoken(g, n.id);
    MatchesCarry(g, a, b, s, t, xs, ys, MESSAGE_FIELDS);
    ShapeIds(xs, ys);
    IdListSet(xs);
    IdListSet(ys);
    var inA, inB := Matching(a, xs, MESSAGE_FIELDS) != [], Matching(b, ys, MESSAGE_FIELDS) != [];
    MatchingMembers(a, xs, MESSAGE_FIELDS);
    if inB && !inA {
      forall x | x in IdList(xs)
        ensures x in s.nodes && Safe(g, a, x, s.nodes[x], t.clock)
      {
        var n := IdInList(xs, x);
        assert n !in Matching(a, xs, MESSAGE_FIELDS);
      }
    }
    MarkAllInStep(g, a, s, t, IdList(xs), inA, inB);
  }

  lemma Keyed(g: Graph, f: Filter, s: Store, t: Store)
    requires InStep(g, f, s, t)
    ensures WellKeyed(s.nodes) && WellKeyed(t.nodes)
  {
  }

  lemma MemoriesInStep(g: Graph, a: Filter, b: Filter, s: Store, t: Store, session: Id)
    requires OneRole(g) && InStep(g, a, s, t) && FilterLooser(a, b)
    ensures var (x, s1) := MemoryCandidates(g, s, session, a); var (y, t1) := MemoryCandidates(g, t, session, b);
            InStep(g, a, s1, t1) && IdsOf(x) <= IdsOf(y) && (x != [] ==> y != [])
  {
    hide Matches, FilterLooser, Dedup, MarkEach, InStep;
    var ids := Targets(g.memories, session);
    var xs, ys := ByRecency(s.nodes, ids), ByRecency(t.nodes, ids);
    RecencyLoaded(g, a, s, t, ids);
    assert forall n :: n in xs ==> Noted(g, n.id);
    MatchesCarry(g, a, b, s, t, xs, ys, MEMORY_FIELDS);
    ShapeIds(xs, ys);
    Keyed(g, a, s, t);
    MarkMatching(s, a, xs, MEMORY_FIELDS);
    MarkMatching(t, b, ys, MEMORY_FIELDS);
    forall x | x in Dedup(IdList(xs)) && x !in MatchingIds(a, xs, MEMORY_FIELDS)
      ensures x in s.nodes && Safe(g, a, x, s.nodes[x], t.clock)
    {
      var i :| 0 <= i < |Dedup(IdList(xs))| && Dedup(IdList(xs))[i] == x;
      var n := IdInList(xs, x);
      assert !Matches(a, n, MEMORY_FIELDS);
    }
    MarkInStep(g, a, s, t, Dedup(IdList(xs)), MatchingIds(a, xs, MEMORY_FIELDS), MatchingIds(b, ys, MEMORY_FIELDS));
  }

  /** `now` is the loaded node, or has been read since. */
  ghost predicate Since(loaded: Node, now: Node, clock: int) {
    now == loaded || (now.stamps.readAt.Some? && now.stamps.readAt.value < clock)
  }

  /**
   Marking a session or conversation, loaded earlier, that the looser run returns and the stricter one perhaps
   not.
   */
  lemma MarkNamedInStep(g: Graph, a: Filter, s: Store, t: Store, loaded: Node, inA: bool, inB: bool)
    requires OneRole(g) && InStep(g, a, s, t) && Named(g, loaded.id) && loaded.id in s.nodes
    requires Since(loaded, s.nodes[loaded.id], s.clock) && (inA ==> inB)
    requires inB && !inA ==> !Matches(a, loaded, NAME_FIELDS)
    ensures InStep(g, a, if inA then MarkRead(s, [loaded.id]) else s, if inB then MarkRead(t, [loaded.id]) else t)
  {
    MarkAllInStep(g, a, s, t, [loaded.id], inA, inB);
  }

  lemma ConversationInStep(g: Graph, a: Filter, b: Filter, s: Store, t: Store, x: Node, y: Node)
    requires OneRole(g) && InStep(g, a, s, t) && FilterLooser(a, b) && SameButRead(x, y) && Named(g, x.id) &&
             x.id in s.nodes
    requires Matches(a, x, NAME_FIELDS) ==> Matches(b, y, NAME_FIELDS)
    requires Since(x, s.nodes[x.id], s.clock)
    ensures var (p, s1) := ConversationStep(g, s, x, a); var (q, t1) := ConversationStep(g, t, y, b);
            InStep(g, a, s1, t1) && ConversationIds(p) <= ConversationIds(q) && (p != [] ==> q != [])
  {
    hide Matches, FilterLooser, InStep, Hit, MessageCandidates, Named, OneRole;
    MessagesInStep(g, a, b, s, t, x.id);
    var (m, ids, s1) := MessageCandidates(g, s, x.id, a);
    var (n, jds, t1) := MessageCandidates(g, t, y.id, b);
    var inA, inB := Matches(a, x, NAME_FIELDS) || m != [], Matches(b, y, NAME_FIELDS) || n != [];
    MessagesMark(g, s, x.id, a);
    MarkNamedInStep(g, a, s1, t1, x, inA, inB);
    OneConversationIds(RetrievedConversation(x, Matches(a, x, NAME_FIELDS), m, ids));
    OneConversationIds(RetrievedConversation(y, Matches(b, y, NAME_FIELDS), n, jds));
  }

  lemma SinceMarked(s: Store, later: Store, ids: set<Id>, n: Node)
    requires Marked(s, later, ids) && n.id in s.nodes && Since(n, s.nodes[n.id], s.clock)
    ensures n.id in later.nodes && Since(n, later.nodes[n.id], later.clock)
  {
  }

  lemma LoadedPrefix(g: Graph, s: Store, t: Store, xs: seq<Node>, ys: seq<Node>)
    requires Loaded(g, s, t, xs, ys) && xs != []
    ensures var k := |xs| - 1; |ys| == |xs| && Loaded(g, s, t, xs[..k], ys[..k]) && forall n :: n in xs[..k] ==> n in xs
  {
    var k := |xs| - 1;
    assert (forall n :: n in xs[..k] ==> n in xs) && (forall n :: n in ys[..k] ==> n in ys);
  }

  /** The last of two loaded lists of sessions or conversations. */
  lemma LastCarries(g: Graph, a: Filter, b: Filter, s: Store, t: Store, xs: seq<Node>, ys: seq<Node>)
    requires InStep(g, a, s, t) && FilterLooser(a, b) && Loaded(g, s, t, xs, ys) && xs != []
    requires forall n :: n in xs ==> Named(g, n.id)
    ensures |ys| == |xs|
    ensures var x, y := xs[|xs| - 1], ys[|xs| - 1];
            && SameButRead(x, y) && Named(g, x.id) && x.id in s.nodes && Since(x, s.nodes[x.id], s.clock)
            && (Matches(a, x, NAME_FIELDS) ==> Matches(b, y, NAME_FIELDS))
  {
    var x, y := xs[|xs| - 1], ys[|xs| - 1];
    assert x in xs && y in ys;
    if Matches(a, x, NAME_FIELDS) {
      MatchCarries(a, b, x, y, NAME_FIELDS);
    }
  }

  lemma {:induction false} ConversationsInStep(g: Graph, a: Filter, b: Filter, s: Store, t: Store, xs: seq<Node>,
                                               ys: seq<Node>)
    requires OneRole(g) && InStep(g, a, s, t) && FilterLooser(a, b) && Loaded(g, s, t, xs, ys)
    requires forall n :: n in xs ==> Named(g, n.id)
    ensures var (p, s1) := ConversationContexts(g, s, xs, a); var (q, t1) := ConversationContexts(g, t, ys, b);
            InStep(g, a, s1, t1) && ConversationIds(p) <= ConversationIds(q) && (p != [] ==> q != [])
  {
    if xs != [] {
      var k := |xs| - 1;
      LoadedPrefix(g, s, t, xs, ys);
      LastCarries(g, a, b, s, t, xs, ys);
      hide Matches, FilterLooser, InStep, Hit, Named, OneRole, Loaded, ConversationStep, Marked, Since, SameShape;
      ConversationsInStep(g, a, b, s, t, xs[..k], ys[..k]);
      var (p, s1) := ConversationContexts(g, s, xs[..k], a);
      var (q, t1) := ConversationContexts(g, t, ys[..k], b);
      ConversationsMark(g, s, xs[..k], a);
      SinceMarked(s, s1, ConversationIds(p), xs[k]);
      ConversationInStep(g, a, b, s1, t1, xs[k], ys[k]);
      ConversationMarks(g, s1, xs[k], a);
      ConversationMarks(g, t1, ys[k], b);
      ConversationIdsAppend(p, ConversationStep(g, s1, xs[k], a).0);
      ConversationIdsAppend(q, ConversationStep(g, t1, ys[k], b).0);
    }
  }

  lemma SessionInStep(g: Graph, a: Filter, b: Filter, s: Store, t: Store, x: Node, y: Node, includeMemories: bool)
    requires OneRole(g) && InStep(g, a, s, t) && FilterLooser(a, b) && SameButRead(x, y) && Named(g, x.id) &&
             x.id in s.nodes
    requires Matches(a, x, NAME_FIELDS) ==> Matches(b, y, NAME_FIELDS)
    requires Since(x, s.nodes[x.id], s.clock)
    ensures var (p, s1) := SessionContext(g, s, x, a, includeMemories);
            var (q, t1) := SessionContext(g, t, y, b, includeMemories);
            InStep(g, a, s1, t1) && SessionIds(p) <= SessionIds(q)
  {
    hide Matches, FilterLooser, InStep, Hit, Loaded, Marked, Since, SameShape, MemoryCandidates, ConversationContexts;
    var ids := Targets(g.conversations, x.id);
    var xs, ys := ByRecency(s.nodes, ids), ByRecency(t.nodes, ids);
    RecencyLoaded(g, a, s, t, ids);
    assert forall n :: n in xs ==> Named(g, n.id);
    ConversationsInStep(g, a, b, s, t, xs, ys);
    var (p, s1) := ConversationContexts(g, s, xs, a);
    var (q, t1) := ConversationContexts(g, t, ys, b);
    ConversationsMark(g, s, xs, a);
    SinceMarked(s, s1, ConversationIds(p), x);
    var (m, s2) := if includeMemories then MemoryCandidates(g, s1, x.id, a) else ([], s1);
    var (n, t2) := if includeMemories then MemoryCandidates(g, t1, y.id, b) else ([], t1);
    if includeMemories {
      MemoriesInStep(g, a, b, s1, t1, x.id);
      MemoriesMark(g, s1, x.id, a);
      SinceMarked(s1, s2, IdsOf(m), x);
    }
    var inA := Matches(a, x, NAME_FIELDS) || p != [] || m != [];
    var inB := Matches(b, y, NAME_FIELDS) || q != [] || n != [];
    MarkNamedInStep(g, a, s2, t2, x, inA, inB);
    OneSessionIds(RetrievedSession(x, Matches(a, x, NAME_FIELDS), p, m));
    OneSessionIds(RetrievedSession(y, Matches(b, y, NAME_FIELDS), q, n));
  }

  lemma {:induction false} SessionsInStep(g: Graph, a: Filter, b: Filter, s: Store, t: Store, xs: seq<Node>,
                                          ys: seq<Node>, current: Option<Id>)
    requires OneRole(g) && InStep(g, a, s, t) && FilterLooser(a, b) && Loaded(g, s, t, xs, ys)
    requires forall n :: n in xs ==> Named(g, n.id)
    ensures var (p, s1) := SessionContexts(g, s, xs, a, current); var (q, t1) := SessionContexts(g, t, ys, b, current);
            InStep(g, a, s1, t1) && SessionIds(p) <= SessionIds(q)
  {
    if xs != [] {
      var k := |xs| - 1;
      LoadedPrefix(g, s, t, xs, ys);
      LastCarries(g, a, b, s, t, xs, ys);
      hide Matches, FilterLooser, InStep, Hit, Named, OneRole, Loaded, SessionContext, Marked, Since, SameShape;
      SessionsInStep(g, a, b, s, t, xs[..k], ys[..k], current);
      var (p, s1) := SessionContexts(g, s, xs[..k], a, current);
      var (q, t1) := SessionContexts(g, t, ys[..k], b, current);
      var includeMemories := Some(xs[k].id) != current;
      SessionsMark(g, s, xs[..k], a, current);
      SinceMarked(s, s1, SessionIds(p), xs[k]);
      SessionInStep(g, a, b, s1, t1, xs[k], ys[k], includeMemories);
      SessionMarks(g, s1, xs[k], a, includeMemories);
      SessionMarks(g, t1, ys[k], b, includeMemories);
      SessionIdsAppend(p, SessionContext(g, s1, xs[k], a, includeMemories).0);
      SessionIdsAppend(q, SessionContext(g, t1, ys[k], b, includeMemories).0);
    }
  }

  // ---------- the whole retrieval ----------

  ghost predicate NoRole(g: Graph, x: Id) {
    !Named(g, x) && !Spoken(g, x) && !Noted(g, x)
  }

  /** Tasks play no role in the past context, so the marks of the task catalog keep the runs in step for it. */
  lemma TasksInStep(g: Graph, s: Store, a: Request, b: Request, f: Filter)
    requires WellKeyed(s.nodes) && OneRole(g) && Looser(a, b)
    ensures var (x, s1) := TaskCatalog(g, s, a); var (y, t1) := TaskCatalog(g, s, b);
            InStep(g, f, s1, t1) && IdsOf(x) <= IdsOf(y)
  {
    var nodes := ByRecency(s.nodes, g.tasks);
    RecencyByIds(s.nodes, g.tasks);
    var ids := Dedup(IdList(nodes));
    forall x | x in ids
      ensures NoRole(g, x)
    {
      var i :| 0 <= i < |ids| && ids[i] == x;
      var n := IdInList(nodes, x);
    }
    var inA, inB: set<Id> := {}, {};
    if a.taskBreadth.Some? {
      var fa := Filter(a.hints, a.taskBreadth.value);
      inA := MatchingIds(fa, nodes, TASK_FIELDS);
      MarkMatching(s, fa, nodes, TASK_FIELDS);
      MatchingMembers(fa, nodes, TASK_FIELDS);
    }
    if b.taskBreadth.Some? {
      var fb := Filter(b.hints, b.taskBreadth.value);
      inB := MatchingIds(fb, nodes, TASK_FIELDS);
      MarkMatching(s, fb, nodes, TASK_FIELDS);
      MatchingMembers(fb, nodes, TASK_FIELDS);
    }
    if a.taskBreadth.Some? {
      forall n | n in nodes && Matches(Filter(a.hints, a.taskBreadth.value), n, TASK_FIELDS)
        ensures Matches(Filter(b.hints, b.taskBreadth.value), n, TASK_FIELDS)
      {
        MatchesLooser(Filter(a.hints, a.taskBreadth.value), Filter(b.hints, b.taskBreadth.value), n, TASK_FIELDS);
      }
    }
    PickNone(ids);
    MarkInStep(g, f, s, s, ids, inA, inB);
  }

  /**
   Moving a cutoff earlier, adding a positive hint, dropping an excluded tag or asking for another domain
   never removes a node from the result, on any graph whose nodes each play one role.
   */
  lemma RetrieveMonotone(g: Graph, s: Store, a: Request, b: Request, current: Option<Id>)
    requires WellKeyed(s.nodes) && OneRole(g) && Looser(a, b)
    ensures var x, y := Retrieve(g, s, a, current).0, Retrieve(g, s, b, current).0;
            && (x.Ok? <==> y.Ok?)
            && (x.Ok? ==>
                IdsOf(x.value.tasks) <= IdsOf(y.value.tasks) &&
                SessionIds(x.value.sessions) <= SessionIds(y.value.sessions))
  {
    if a.pastBreadth.None? {
      TasksInStep(g, s, a, b, Filter(a.hints, Breadth(0, 0, 0)));
    } else {
      var fa, fb := Filter(a.hints, a.pastBreadth.value), Filter(b.hints, b.pastBreadth.value);
      TasksInStep(g, s, a, b, fa);
      var s1, t1 := TaskCatalog(g, s, a).1, TaskCatalog(g, s, b).1;
      RecencyLoaded(g, fa, s1, t1, g.sessions);
      SessionsInStep(g, fa, fb, s1, t1, ByRecency(s1.nodes, g.sessions), ByRecency(t1.nodes, g.sessions), current);
    }
  }
}
