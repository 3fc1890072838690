/** Memory nodes, their timestamps, and the recency order of every list query. */
module Nodes {
  import opened Ids

  datatype Timestamps = Timestamps(createdAt: int, updatedAt: int, readAt: Option<int>)

  datatype MemoryNode<T> = MemoryNode(id: string, tags: seq<string>, stamps: Timestamps, content: T)

  /** `ORDER BY updated_at DESC, created_at DESC`: `a` may come before `b`. */
  predicate MayPrecede<T>(a: MemoryNode<T>, b: MemoryNode<T>) {
    a.stamps.updatedAt > b.stamps.updatedAt ||
    (a.stamps.updatedAt == b.stamps.updatedAt && a.stamps.createdAt >= b.stamps.createdAt)
  }

  function InsertByRecency<T>(sorted: seq<MemoryNode<T>>, x: MemoryNode<T>): (r: seq<MemoryNode<T>>)
    ensures |r| == |sorted| + 1
  {
    if sorted == [] then [x]
    else
      var n := |sorted| - 1;
      if MayPrecede(sorted[n], x) then sorted + [x] else InsertByRecency(sorted[..n], x) + [sorted[n]]
  }

  /** The stable sort by recency. */
  function SortByRecency<T>(xs: seq<MemoryNode<T>>): (r: seq<MemoryNode<T>>)
    ensures |r| == |xs|
  {
    if xs == [] then []
    else
      var n := |xs| - 1;
      InsertByRecency(SortByRecency(xs[..n]), xs[n])
  }

  lemma {:induction false} InsertElements<T>(sorted: seq<MemoryNode<T>>, x: MemoryNode<T>)
    ensures multiset(InsertByRecency(sorted, x)) == multiset(sorted) + multiset{x}
  {
    if sorted != [] {
      var n := |sorted| - 1;
      assert sorted == sorted[..n] + [sorted[n]];
      InsertElements(sorted[..n], x);
    }
  }

  /** Sorting keeps the elements. */
  lemma {:induction false} SortElements<T>(xs: seq<MemoryNode<T>>)
    ensures multiset(SortByRecency(xs)) == multiset(xs)
  {
    if xs != [] {
      var n := |xs| - 1;
      assert xs == xs[..n] + [xs[n]];
      SortElements(xs[..n]);
      InsertElements(SortByRecency(xs[..n]), xs[n]);
    }
  }

  ghost predicate RecencySorted<T>(xs: seq<MemoryNode<T>>) {
    forall i, j :: 0 <= i < j < |xs| ==> MayPrecede(xs[i], xs[j])
  }

  lemma {:induction false} InsertSorted<T>(sorted: seq<MemoryNode<T>>, x: MemoryNode<T>)
    requires RecencySorted(sorted)
    ensures RecencySorted(InsertByRecency(sorted, x))
    ensures forall y :: y in InsertByRecency(sorted, x) ==> y in sorted || y == x
  {
    if sorted != [] {
      var n := |sorted| - 1;
      InsertSorted(sorted[..n], x);
      if !MayPrecede(sorted[n], x) {
        var before := InsertByRecency(sorted[..n], x);
        forall i | 0 <= i < |before|
          ensures MayPrecede(before[i], sorted[n])
        {
          assert before[i] in before;
        }
      } else {
        assert forall i :: 0 <= i < n ==> MayPrecede(sorted[i], sorted[n]);
      }
    }
  }

  /** Sorting sorts. */
  lemma {:induction false} SortSorted<T>(xs: seq<MemoryNode<T>>)
    ensures RecencySorted(SortByRecency(xs))
  {
    if xs != [] {
      var n := |xs| - 1;
      SortSorted(xs[..n]);
      InsertSorted(SortByRecency(xs[..n]), xs[n]);
    }
  }
}
