/**
 The step that all seeding shares (agent-host reframe_agent_host/memory_seed): look a record up as the
 most recent match of a search, then create it, bring it up to date, or leave it alone.
 */
module SeedTable {
  import opened Ids
  import opened Nodes

  // ---------- lookups ----------

  /** The nodes that pass, in order. */
  function Select<T>(xs: seq<MemoryNode<T>>, hit: MemoryNode<T> -> bool): seq<MemoryNode<T>>
  {
    if xs == [] then []
    else
      var k := |xs| - 1;
      if hit(xs[k]) then Select(xs[..k], hit) + [xs[k]] else Select(xs[..k], hit)
  }

  lemma {:induction false} Selected<T(!new)>(xs: seq<MemoryNode<T>>, hit: MemoryNode<T> -> bool)
    ensures forall n :: n in Select(xs, hit) <==> n in xs && hit(n)
  {
    if xs != [] {
      var k := |xs| - 1;
      assert xs == xs[..k] + [xs[k]];
      Selected(xs[..k], hit);
    }
  }

  function Head<T>(xs: seq<MemoryNode<T>>): Option<MemoryNode<T>> {
    if xs == [] then None else Some(xs[0])
  }

  /** The most recent node that passes; the store order breaks ties. */
  function Newest<T>(xs: seq<MemoryNode<T>>, hit: MemoryNode<T> -> bool): Option<MemoryNode<T>> {
    Head(SortByRecency(Select(xs, hit)))
  }

  /** A list query: the matches of a search, most recent first. */
  function Query<T>(xs: seq<MemoryNode<T>>, search: MemoryNode<T> -> bool): seq<MemoryNode<T>> {
    SortByRecency(Select(xs, search))
  }

  lemma {:induction false} SelectPrefix<T>(xs: seq<MemoryNode<T>>, k: nat, hit: MemoryNode<T> -> bool)
    requires k <= |xs|
    ensures Select(xs[..k], hit) <= Select(xs, hit)
  {
    if k < |xs| {
      var n := |xs| - 1;
      assert xs[..n][..k] == xs[..k];
      SelectPrefix(xs[..n], k, hit);
    } else {
      assert xs[..k] == xs;
    }
  }

  /** The loop of every lookup: the first query result that also matches exactly. */
  method FirstExact<T>(found: seq<MemoryNode<T>>, exact: MemoryNode<T> -> bool) returns (r: Option<MemoryNode<T>>)
    ensures r == Head(Select(found, exact))
  {
    for i := 0 to |found|
      invariant Select(found[..i], exact) == []
    {
      assert found[..i + 1][..i] == found[..i];
      if exact(found[i]) {
        SelectPrefix(found, i + 1, exact);
        return Some(found[i]);
      }
    }
    assert found[..|found|] == found;
    return None;
  }

  predicate Both<T>(search: MemoryNode<T> -> bool, exact: MemoryNode<T> -> bool, hit: MemoryNode<T> -> bool,
                    n: MemoryNode<T>) {
    hit(n) <==> search(n) && exact(n)
  }

  lemma {:induction false} SelectTwice<T(!new)>(xs: seq<MemoryNode<T>>, search: MemoryNode<T> -> bool,
                                          exact: MemoryNode<T> -> bool, hit: MemoryNode<T> -> bool)
    requires forall n {:trigger Both(search, exact, hit, n)} :: Both(search, exact, hit, n)
    ensures Select(Select(xs, search), exact) == Select(xs, hit)
  {
    if xs != [] {
      var k := |xs| - 1;
      SelectTwice(xs[..k], search, exact, hit);
      assert Both(search, exact, hit, xs[k]);
      SelectSnoc(Select(xs[..k], search), xs[k], exact);
    }
  }

  lemma SelectSnoc<T(!new)>(xs: seq<MemoryNode<T>>, x: MemoryNode<T>, hit: MemoryNode<T> -> bool)
    ensures Select(xs + [x], hit) == if hit(x) then Select(xs, hit) + [x] else Select(xs, hit)
  {
    assert (xs + [x])[..|xs|] == xs;
  }

  /** Inserting commutes with selecting, on sorted nodes. */
  lemma {:induction false} InsertSelect<T(!new)>(sorted: seq<MemoryNode<T>>, x: MemoryNode<T>,
                                                 hit: MemoryNode<T> -> bool)
    requires RecencySorted(sorted)
    ensures Select(InsertByRecency(sorted, x), hit) ==
            if hit(x) then InsertByRecency(Select(sorted, hit), x) else Select(sorted, hit)
  {
    if sorted == [] {
      SelectSnoc([], x, hit);
    } else {
      var n := |sorted| - 1;
      var last := sorted[n];
      if MayPrecede(last, x) {
        SelectSnoc(sorted, x, hit);
        Selected(sorted, hit);
        InsertAfterAll(Select(sorted, hit), x);
      } else {
        InsertSelect(sorted[..n], x, hit);
        SelectSnoc(InsertByRecency(sorted[..n], x), last, hit);
        InsertBefore(Select(sorted[..n], hit), last, x);
      }
    }
  }

  lemma InsertAfterAll<T(!new)>(sorted: seq<MemoryNode<T>>, x: MemoryNode<T>)
    requires forall y :: y in sorted ==> MayPrecede(y, x)
    ensures InsertByRecency(sorted, x) == sorted + [x]
  {
  }

  lemma InsertBefore<T(!new)>(sorted: seq<MemoryNode<T>>, last: MemoryNode<T>, x: MemoryNode<T>)
    requires !MayPrecede(last, x)
    ensures InsertByRecency(sorted + [last], x) == InsertByRecency(sorted, x) + [last]
  {
    assert (sorted + [last])[..|sorted|] == sorted;
  }

  /** Sorting commutes with selecting: the sort is stable. */
  lemma {:induction false} SortSelect<T(!new)>(xs: seq<MemoryNode<T>>, hit: MemoryNode<T> -> bool)
    ensures Select(SortByRecency(xs), hit) == SortByRecency(Select(xs, hit))
  {
    if xs != [] {
      var k := |xs| - 1;
      SortSelect(xs[..k], hit);
      SortSorted(xs[..k]);
      InsertSelect(SortByRecency(xs[..k]), xs[k], hit);
      if hit(xs[k]) {
        SortSnoc(Select(xs[..k], hit), xs[k]);
      }
    }
  }

  lemma SortSnoc<T(!new)>(xs: seq<MemoryNode<T>>, x: MemoryNode<T>)
    ensures SortByRecency(xs + [x]) == InsertByRecency(SortByRecency(xs), x)
  {
    assert (xs + [x])[..|xs|] == xs;
  }

  /** Searching, sorting and scanning for an exact match finds the most recent node that is both. */
  lemma LookupIsNewest<T(!new)>(xs: seq<MemoryNode<T>>, search: MemoryNode<T> -> bool,
                          exact: MemoryNode<T> -> bool, hit: MemoryNode<T> -> bool)
    requires forall n {:trigger Both(search, exact, hit, n)} :: Both(search, exact, hit, n)
    ensures Head(Select(Query(xs, search), exact)) == Newest(xs, hit)
  {
    SortSelect(Select(xs, search), exact);
    SelectTwice(xs, search, exact, hit);
  }

  /** What a lookup returns: a match at least as recent as every other, and nothing only when there is no match. */
  lemma NewestExact<T(!new)>(xs: seq<MemoryNode<T>>, hit: MemoryNode<T> -> bool)
    ensures Newest(xs, hit).None? <==> forall n :: n in xs ==> !hit(n)
    ensures Newest(xs, hit).Some? ==>
              var best := Newest(xs, hit).value;
              best in xs && hit(best) && forall n :: n in xs && hit(n) ==> MayPrecede(best, n)
  {
    var hits := Select(xs, hit);
    var sorted := SortByRecency(hits);
    SortElements(hits);
    SortSorted(hits);
    Selected(xs, hit);
    forall n
      ensures n in sorted <==> n in hits
    {
      assert n in sorted <==> n in multiset(sorted);
      assert n in hits <==> n in multiset(hits);
    }
    if sorted != [] {
      var best := sorted[0];
      assert best in sorted;
      forall n | n in hits
        ensures MayPrecede(best, n)
      {
        assert n in sorted;
      }
    }
  }

  // ---------- one seeding step ----------

  datatype Wanted<T> = Wanted(content: T, tags: seq<string>)
  datatype Change = Created(id: string) | Updated(id: string) | Existing(id: string)
  datatype Settlement<T> = Settlement(nodes: seq<MemoryNode<T>>, change: Change)

  /** `UPDATE id SET ...`. */
  function Replace<T>(xs: seq<MemoryNode<T>>, id: string, node: MemoryNode<T>): (r: seq<MemoryNode<T>>)
    ensures |r| == |xs|
  {
    seq(|xs|, i requires 0 <= i < |xs| => if xs[i].id == id then node else xs[i])
  }

  function Born<T>(stored: Wanted<T>, clock: int, id: string): MemoryNode<T> {
    MemoryNode(id, stored.tags, Timestamps(clock, clock, None), stored.content)
  }

  function Renewed<T>(n: MemoryNode<T>, stored: Wanted<T>, clock: int): MemoryNode<T> {
    n.(tags := stored.tags, content := stored.content, stamps := n.stamps.(updatedAt := clock))
  }

  predicate UpToDate<T(==)>(n: MemoryNode<T>, want: Wanted<T>) {
    n.content == want.content && n.tags == want.tags
  }

  /** Create, update or keep; `stored` is what the store holds once `want` has been written. */
  function Settle<T(==)>(xs: seq<MemoryNode<T>>, found: Option<MemoryNode<T>>, want: Wanted<T>, stored: Wanted<T>,
                         clock: int, id: string): Settlement<T> {
    if found.None? then Settlement(xs + [Born(stored, clock, id)], Created(id))
    else if UpToDate(found.value, want) then Settlement(xs, Existing(found.value.id))
    else Settlement(Replace(xs, found.value.id, Renewed(found.value, stored, clock)), Updated(found.value.id))
  }

  /**
   What one step does to the table: a new record at the end with all times now and never read; or one record
   renewed under its id, with its creation and read times kept; or nothing. The report says which.
   */
  lemma SettleExactly<T(!new)>(xs: seq<MemoryNode<T>>, hit: MemoryNode<T> -> bool, want: Wanted<T>, stored: Wanted<T>,
                               clock: int, id: string)
    requires forall i, j :: 0 <= i < j < |xs| ==> xs[i].id != xs[j].id
    ensures var r := Settle(xs, Newest(xs, hit), want, stored, clock, id);
            match r.change
            case Created(new') =>
              && new' == id && (forall n :: n in xs ==> !hit(n)) && |r.nodes| == |xs| + 1 && r.nodes[..|xs|] == xs
              && r.nodes[|xs|] == MemoryNode(id, stored.tags, Timestamps(clock, clock, None), stored.content)
            case Existing(old') =>
              && r.nodes == xs
              && exists n :: n in xs && hit(n) && n.id == old' && n.content == want.content && n.tags == want.tags
            case Updated(old') =>
              && (exists n :: n in xs && hit(n) && n.id == old' && (n.content != want.content || n.tags != want.tags))
              && |r.nodes| == |xs|
              && forall i :: 0 <= i < |xs| ==>
                   if xs[i].id != old' then r.nodes[i] == xs[i]
                   else
                     && r.nodes[i].id == old' && r.nodes[i].content == stored.content && r.nodes[i].tags == stored.tags
                     && r.nodes[i].stamps.createdAt == xs[i].stamps.createdAt
                     && r.nodes[i].stamps.readAt == xs[i].stamps.readAt && r.nodes[i].stamps.updatedAt == clock
  {
    NewestExact(xs, hit);
    var found := Newest(xs, hit);
    if found.Some? {
      assert forall i :: 0 <= i < |xs| && xs[i].id == found.value.id ==> xs[i] == found.value;
    }
  }

  /** The lookup of a wanted record returns it, up to date. */
  ghost predicate Settled<T>(xs: seq<MemoryNode<T>>, hit: MemoryNode<T> -> bool, want: Wanted<T>) {
    Newest(xs, hit).Some? && UpToDate(Newest(xs, hit).value, want)
  }

  /** Distinct ids, and every update in the past. */
  ghost predicate Sound<T>(xs: seq<MemoryNode<T>>, clock: int) {
    && (forall i, j :: 0 <= i < j < |xs| ==> xs[i].id != xs[j].id)
    && forall n :: n in xs ==> n.stamps.updatedAt < clock
  }

  ghost predicate FreshId<T>(xs: seq<MemoryNode<T>>, id: string) {
    forall n :: n in xs ==> n.id != id
  }

  /** A node more recent than every other match is the one that lookups return. */
  lemma NewestIs<T(!new)>(xs: seq<MemoryNode<T>>, hit: MemoryNode<T> -> bool, x: MemoryNode<T>)
    requires x in xs && hit(x)
    requires forall n :: n in xs && hit(n) && n != x ==> n.stamps.updatedAt < x.stamps.updatedAt
    ensures Newest(xs, hit) == Some(x)
  {
    NewestExact(xs, hit);
  }

  lemma ReplaceAt<T(!new)>(xs: seq<MemoryNode<T>>, k: nat, x: MemoryNode<T>)
    requires k < |xs| && (forall i, j :: 0 <= i < j < |xs| ==> xs[i].id != xs[j].id)
    ensures Replace(xs, xs[k].id, x) == xs[k := x]
  {
  }

  /** After the step the wanted record is settled, provided that writing it stores exactly what was wanted. */
  lemma SettleSettles<T(!new)>(xs: seq<MemoryNode<T>>, hit: MemoryNode<T> -> bool, want: Wanted<T>, clock: int,
                               id: string)
    requires Sound(xs, clock) && FreshId(xs, id)
    requires forall n {:trigger hit(n)} :: UpToDate(n, want) ==> hit(n)
    ensures Settled(Settle(xs, Newest(xs, hit), want, want, clock, id).nodes, hit, want)
  {
    var found := Newest(xs, hit);
    var r := Settle(xs, found, want, want, clock, id).nodes;
    NewestExact(xs, hit);
    if found.None? {
      var x := Born(want, clock, id);
      assert r[|xs|] == x;
      NewestIs(r, hit, x);
    } else if !UpToDate(found.value, want) {
      var k :| 0 <= k < |xs| && xs[k] == found.value;
      var x := Renewed(found.value, want, clock);
      ReplaceAt(xs, k, x);
      assert r[k] == x;
      NewestIs(r, hit, x);
    }
  }

  /** A settled record is kept, and only a settled record is kept. */
  lemma SettledKept<T(!new)>(xs: seq<MemoryNode<T>>, hit: MemoryNode<T> -> bool, want: Wanted<T>, stored: Wanted<T>,
                             clock: int, id: string)
    ensures Settled(xs, hit, want) <==> Settle(xs, Newest(xs, hit), want, stored, clock, id).change.Existing?
    ensures Settled(xs, hit, want) ==> Settle(xs, Newest(xs, hit), want, stored, clock, id).nodes == xs
  {
  }

  /** When writing changes what was wanted, the record never settles: the next step finds it out of date again. */
  lemma UnstorableNeverSettles<T(!new)>(xs: seq<MemoryNode<T>>, hit: MemoryNode<T> -> bool, want: Wanted<T>,
                                        stored: Wanted<T>, clock: int, id: string)
    requires Sound(xs, clock) && FreshId(xs, id) && want != stored && !Settled(xs, hit, want)
    requires forall n {:trigger hit(n)} :: UpToDate(n, stored) ==> hit(n)
    ensures !Settled(Settle(xs, Newest(xs, hit), want, stored, clock, id).nodes, hit, want)
  {
    var found := Newest(xs, hit);
    var r := Settle(xs, found, want, stored, clock, id).nodes;
    NewestExact(xs, hit);
    if found.None? {
      var x := Born(stored, clock, id);
      assert r[|xs|] == x;
      NewestIs(r, hit, x);
    } else {
      var k :| 0 <= k < |xs| && xs[k] == found.value;
      var x := Renewed(found.value, stored, clock);
      ReplaceAt(xs, k, x);
      assert r[k] == x;
      NewestIs(r, hit, x);
    }
  }

  lemma {:induction false} SelectUpdate<T(!new)>(xs: seq<MemoryNode<T>>, k: nat, x: MemoryNode<T>,
                                                 other: MemoryNode<T> -> bool)
    requires k < |xs| && !other(xs[k]) && !other(x)
    ensures Select(xs[k := x], other) == Select(xs, other)
  {
    var n := |xs| - 1;
    if k == n {
      assert xs[k := x][..n] == xs[..n];
    } else {
      assert xs[k := x][..n] == xs[..n][k := x];
      SelectUpdate(xs[..n], k, x, other);
    }
  }

  /** The step leaves every lookup alone that shares no match with it. */
  lemma SettleFrame<T(!new)>(xs: seq<MemoryNode<T>>, hit: MemoryNode<T> -> bool, want: Wanted<T>, stored: Wanted<T>,
                       clock: int, id: string, other: MemoryNode<T> -> bool)
    requires Sound(xs, clock)
    requires forall n {:trigger hit(n)} :: hit(n) ==> !other(n)
    requires forall n {:trigger other(n)} :: UpToDate(n, stored) ==> !other(n)
    ensures Select(Settle(xs, Newest(xs, hit), want, stored, clock, id).nodes, other) == Select(xs, other)
  {
    var found := Newest(xs, hit);
    NewestExact(xs, hit);
    if found.None? {
      SelectSnoc(xs, Born(stored, clock, id), other);
    } else if !UpToDate(found.value, want) {
      var k :| 0 <= k < |xs| && xs[k] == found.value;
      var x := Renewed(found.value, stored, clock);
      ReplaceAt(xs, k, x);
      assert UpToDate(x, stored);
      SelectUpdate(xs, k, x, other);
    }
  }

  lemma SettleSound<T(!new)>(xs: seq<MemoryNode<T>>, hit: MemoryNode<T> -> bool, want: Wanted<T>, stored: Wanted<T>,
                             clock: int, id: string)
    requires Sound(xs, clock) && FreshId(xs, id)
    ensures Sound(Settle(xs, Newest(xs, hit), want, stored, clock, id).nodes, clock + 1)
    ensures forall n :: n in Settle(xs, Newest(xs, hit), want, stored, clock, id).nodes ==>
              n.id == id || exists m :: m in xs && m.id == n.id
  {
    var found := Newest(xs, hit);
    NewestExact(xs, hit);
    if found.Some? && !UpToDate(found.value, want) {
      var k :| 0 <= k < |xs| && xs[k] == found.value;
      ReplaceAt(xs, k, Renewed(found.value, stored, clock));
    }
  }

  /** Dropping nodes that no match is among changes no lookup. */
  lemma {:induction false} SelectKeeps<T(!new)>(xs: seq<MemoryNode<T>>, keep: MemoryNode<T> -> bool,
                                                hit: MemoryNode<T> -> bool)
    requires forall n {:trigger hit(n)} :: hit(n) ==> keep(n)
    ensures Select(Select(xs, keep), hit) == Select(xs, hit)
  {
    forall n
      ensures Both(keep, hit, hit, n)
    {
      assert hit(n) ==> keep(n);
    }
    SelectTwice(xs, keep, hit, hit);
  }
}
