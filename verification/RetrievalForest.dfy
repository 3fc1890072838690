/**
 Graphs in which every node hangs in one place and plays one role: they are trees in the sense of the
 retrieval laws, whichever session is current, so on them retrieving is exact and repeatable.
 */
module RetrievalForest {
  import opened Ids
  import opened Retrieval
  import opened RetrievalMarks
  import opened RetrievalSnapshot
  import opened RetrievalMonotone
  import opened RetrievalExact

  type Edges = map<Id, seq<Id>>

  // ---------- forests ----------

  /** No list repeats a node, and no two lists share one. */
  ghost predicate Separate(edges: Edges) {
    && (forall k :: NoDup(Targets(edges, k)))
    && forall j, k, x :: x in Targets(edges, j) && x in Targets(edges, k) ==> j == k
  }

  ghost predicate Child(g: Graph, x: Id) {
    exists k :: x in Targets(g.conversations, k)
  }

  /** Every node hangs in one place, in one role. */
  ghost predicate Forest(g: Graph) {
    && NoDup(g.sessions) && Separate(g.conversations) && Separate(g.messages) && Separate(g.memories)
    && OneRole(g) && forall s :: s in g.sessions ==> !Child(g, s)
  }

  lemma ForestTyped(g: Graph)
    requires Forest(g)
    ensures Typed(g)
  {
    forall x | x in g.sessions
      ensures !InSession(g, x)
    {
      assert InSession(g, x) ==> Child(g, x);
    }
  }

  /** What a node below a session is. */
  lemma RegionRoles(g: Graph, s: Id, x: Id)
    requires Forest(g) && x in Region(g, s)
    ensures x !in g.tasks && x !in g.sessions
    ensures || x in Targets(g.conversations, s)
            || (exists c :: c in Targets(g.conversations, s) && x in Targets(g.messages, c))
            || x in Targets(g.memories, s)
  {
    assert x in Targets(g.conversations, s) ==> Child(g, x) && Named(g, x);
    assert x in Targets(g.memories, s) ==> Noted(g, x);
    assert forall c :: x in Targets(g.messages, c) ==> Spoken(g, x);
    assert x in g.sessions ==> Named(g, x);
  }

  lemma RegionsApart(g: Graph, s: Id, t: Id, x: Id)
    requires Forest(g) && x in Region(g, s) && x in Region(g, t)
    ensures s == t
  {
    RegionRoles(g, s, x);
    RegionRoles(g, t, x);
    hide Region;
    if x in Targets(g.conversations, s) || x in Targets(g.conversations, t) {
      assert Named(g, x);
      assert forall c :: x in Targets(g.messages, c) ==> Spoken(g, x);
      assert forall k :: x in Targets(g.memories, k) ==> Noted(g, x);
    } else if x in Targets(g.memories, s) || x in Targets(g.memories, t) {
      assert Noted(g, x);
      assert forall c :: x in Targets(g.messages, c) ==> Spoken(g, x);
    } else {
      var c :| c in Targets(g.conversations, s) && x in Targets(g.messages, c);
      var d :| d in Targets(g.conversations, t) && x in Targets(g.messages, d);
      assert c == d;
    }
  }

  lemma ForestSessionTree(g: Graph, s: Id)
    requires Forest(g)
    ensures SessionTree(g, s)
  {
    var cs := Targets(g.conversations, s);
    forall c, d | c in cs && d in cs && c != d
      ensures SetOf(Targets(g.messages, c)) !! SetOf(Targets(g.messages, d))
    {
    }
    forall c, d | c in cs && d in cs
      ensures c !in Targets(g.messages, d)
    {
      assert Named(g, c) && (c in Targets(g.messages, d) ==> Spoken(g, c));
    }
    forall m | m in Targets(g.memories, s)
      ensures m !in cs && m !in MessagesBelow(g, cs)
    {
      assert Noted(g, m) && (m in cs ==> Named(g, m));
      assert forall c :: m in Targets(g.messages, c) ==> Spoken(g, m);
    }
  }

  lemma ForestCurrent(g: Graph, current: Id)
    requires Forest(g)
    ensures SetOf(Targets(g.memories, current)) !! SetOf(g.tasks) + SetOf(g.sessions)
    ensures forall s :: s != current ==> SetOf(Targets(g.memories, current)) !! Region(g, s)
  {
    forall m | m in Targets(g.memories, current)
      ensures m !in g.tasks && m !in g.sessions && forall s :: s != current ==> m !in Region(g, s)
    {
      assert Noted(g, m) && (m in g.sessions ==> Named(g, m));
      forall s | m in Region(g, s)
        ensures s == current
      {
        assert m in Region(g, current);
        RegionsApart(g, s, current, m);
      }
    }
  }

  /** A forest is a tree, whichever session is current. */
  lemma ForestIsTree(g: Graph, current: Option<Id>)
    requires Forest(g)
    ensures Tree(g, current)
  {
    forall s | s in g.sessions
      ensures SessionTree(g, s) && SetOf(g.tasks) !! Region(g, s) + {s}
    {
      ForestSessionTree(g, s);
      assert Named(g, s);
      forall x | x in Region(g, s)
        ensures x !in g.tasks
      {
        RegionRoles(g, s, x);
      }
    }
    forall s, t | s in g.sessions && t in g.sessions
      ensures s !in Region(g, t) && (s != t ==> Region(g, s) !! Region(g, t))
    {
      if s in Region(g, t) {
        RegionRoles(g, t, s);
      }
      forall x | x in Region(g, s) && x in Region(g, t)
        ensures s == t
      {
        RegionsApart(g, s, t, x);
      }
    }
    if current.Some? {
      ForestCurrent(g, current.value);
    }
  }

  /** In a forest no message or memory is shared at all. */
  lemma ForestApart(g: Graph, current: Option<Id>)
    requires Forest(g)
    ensures Typed(g) && MessagesApart(g) && CurrentApart(g, current)
  {
    ForestTyped(g);
    if current.Some? {
      forall m | m in Targets(g.memories, current.value)
        ensures !Remembered(g, current, m)
      {
      }
    }
  }
}
