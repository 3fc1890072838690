/** Chunked audio as one flat sequence of samples. */
module Samples {
  type Frame = seq<real>

  /** The samples of a list of chunks, end to end. */
  function Flat(chunks: seq<Frame>): Frame {
    if chunks == [] then [] else chunks[0] + Flat(chunks[1..])
  }

  lemma {:induction false} FlatAppend(chunks: seq<Frame>, last: Frame)
    ensures Flat(chunks + [last]) == Flat(chunks) + last
  {
    if chunks != [] {
      assert (chunks + [last])[1..] == chunks[1..] + [last];
      FlatAppend(chunks[1..], last);
    } else {
      assert [last][1..] == [];
    }
  }

  /** The last `n` samples, or all of them. */
  function LastN(s: Frame, n: nat): (r: Frame)
    ensures |r| == if |s| <= n then |s| else n
  {
    if |s| <= n then s else s[|s| - n..]
  }

  function FirstN(s: Frame, n: nat): (r: Frame)
    ensures |r| == if |s| <= n then |s| else n
  {
    if |s| <= n then s else s[..n]
  }

  function DropN(s: Frame, n: nat): Frame {
    if |s| <= n then [] else s[n..]
  }

  function Zeros(n: nat): (r: Frame)
    ensures |r| == n && forall i :: 0 <= i < n ==> r[i] == 0.0
  {
    seq(n, i => 0.0)
  }

  lemma DropStep(a: Frame, b: Frame, n: nat)
    ensures DropN(a + b, n) == if n >= |a| then DropN(b, n - |a|) else a[n..] + b
  {
    if n >= |a| && |a + b| > n {
      assert (a + b)[n..] == b[n - |a|..];
    }
  }

  lemma FirstStep(a: Frame, b: Frame, n: nat)
    ensures FirstN(a + b, n) == if |a| > n then a[..n] else a + FirstN(b, n - |a|)
  {
  }

  /** Keeping the last `n` of a window that already keeps the last `n` loses nothing. */
  lemma LastNAppend(s: Frame, t: Frame, n: nat)
    ensures LastN(LastN(s, n) + t, n) == LastN(s + t, n)
  {
    if |s| > n {
      var w := LastN(s, n);
      assert forall i :: 0 <= i < n ==> w[i] == s[|s| - n + i];
    }
  }

  lemma LastNLastN(s: Frame, n: nat, m: nat)
    ensures LastN(LastN(s, n), m) == LastN(s, if n < m then n else m)
  {
    if |s| > n && n > m {
      assert s[|s| - n..][n - m..] == s[|s| - m..];
    }
  }
}
