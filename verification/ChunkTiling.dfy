/**
 The chunks tile the cleaned text: laid end to end, with at most one space of the text
 dropped between neighbours, they give the whole text back, and a word is cut in two only
 where a window holds no usable space.
 */
module ChunkTiling {
  import opened Text
  import opened Chunking

  /** What is left of the text after a chunk, less the one space that separates it from the next. */
  function DropGap(u: string): string {
    if u != "" && u[0] == ' ' then u[1..] else u
  }

  /** A full-width cut with no space from the lower bound on. */
  ghost predicate HardCut(c: string, maxChars: nat, floor: nat) {
    |c| == maxChars && forall i :: LowerBound(floor, maxChars) <= i < |c| ==> c[i] != ' '
  }

  /** A chunk `c` followed by `u` ends at a word boundary, or is a forced full-width cut. */
  ghost predicate Boundary(c: string, u: string, maxChars: nat, floor: nat) {
    u == "" || u[0] == ' ' || HardCut(c, maxChars, floor)
  }

  ghost predicate Tiles(t: string, cs: seq<string>, maxChars: nat, floor: nat)
    decreases |cs|
  {
    if cs == [] then t == ""
    else
      var c := cs[0];
      0 < |c| <= maxChars && c <= t && Boundary(c, t[|c|..], maxChars, floor) &&
      Tiles(DropGap(t[|c|..]), cs[1..], maxChars, floor)
  }

  // ---------- one cut of a clean text ----------

  lemma OccurrenceChar(s: string, p: string, i: int, j: nat)
    requires OccursAt(s, p, i) && j < |p|
    ensures s[i + j] == p[j]
  {
    assert s[i..i + |p|][j] == s[i + j];
  }

  lemma NoLaterSpace(window: string, lo: nat)
    requires RFind(window, " ") < lo
    ensures forall i :: lo <= i < |window| ==> window[i] != ' '
  {
    forall i | lo <= i < |window|
      ensures window[i] != ' '
    {
      assert !OccursAt(window, " ", i);
      assert window[i..i + 1] == [window[i]];
    }
  }

  lemma StripPrefix(t: string, end: nat)
    requires IsClean(t) && 1 <= end < |t|
    ensures Strip(t[..end]) == if IsSpace(t[end - 1]) then t[..end - 1] else t[..end]
    ensures IsSpace(t[end - 1]) ==> end >= 2
  {
    assert CleanAt(t, 0) && CleanAt(t, end - 1);
    var p := t[..end];
    assert p[0] == t[0] && SpaceRun(p) == 0 && p[0..] == p;
    if IsSpace(t[end - 1]) {
      assert t[end - 2] == p[end - 2];
      assert !IsSpace(p[end - 2]);
      assert RightEdge(p[..end - 1]) == end - 1;
      assert RightEdge(p) == end - 1;
    }
  }

  lemma StripSuffix(t: string, end: nat)
    requires IsClean(t) && end < |t|
    ensures Strip(t[end..]) == DropGap(t[end..]) != ""
    ensures IsClean(DropGap(t[end..]))
  {
    assert CleanAt(t, end) && CleanAt(t, |t| - 1);
    var u := t[end..];
    assert u[|u| - 1] == t[|t| - 1];
    if IsSpace(t[end]) {
      assert u[1] == t[end + 1];
      assert SpaceRun(u[1..]) == 0;
      assert SpaceRun(u) == 1;
      assert u[1..] == t[end + 1..];
      CleanSuffix(t, end + 1);
      StripFixed(u[1..]);
    } else {
      CleanSuffix(t, end);
      StripFixed(u);
    }
  }

  /** Cutting a clean text and stripping both parts loses at most the one space at the cut. */
  lemma CutAt(t: string, end: nat)
    requires IsClean(t) && 1 <= end < |t|
    ensures var c, r := Strip(t[..end]), Strip(t[end..]);
            && 0 < |c| <= end && c <= t && r == DropGap(t[|c|..]) && IsClean(r) && r != ""
            && (t[|c|] == ' ' || (|c| == end && !IsSpace(t[end - 1]) && !IsSpace(t[end])))
  {
    assert CleanAt(t, 0) && CleanAt(t, end - 1) && CleanAt(t, end);
    StripPrefix(t, end);
    StripSuffix(t, end);
    if IsSpace(t[end - 1]) {
      assert t[end - 1..][1..] == t[end..];
    }
  }

  lemma SplitIndexBoundary(t: string, maxChars: nat)
    requires 1 <= maxChars < |t| && IsClean(t)
    ensures var end := SplitIndex(t, maxChars); t[end] == ' ' || HardCut(t[..end], maxChars, SPLIT_FLOOR)
  {
    var window := t[..maxChars + 1];
    var lo := LowerBound(SPLIT_FLOOR, maxChars);
    var comma, dash, space := RFind(window, ", "), RFind(window, " - "), RFind(window, " ");
    if comma >= lo {
      OccurrenceChar(window, ", ", comma, 1);
    } else if dash >= lo {
      OccurrenceChar(window, " - ", dash, 0);
    } else if space >= lo {
      OccurrenceChar(window, " ", space, 0);
    } else {
      NoLaterSpace(window, lo);
    }
  }

  lemma SeparatorIsSpace(window: string, separators: seq<string>, lo: nat)
    requires forall p :: p in separators ==> p != "" && p[0] == ' '
    requires SeparatorBreak(window, separators, lo) >= 0
    ensures var r := SeparatorBreak(window, separators, lo); lo <= r < |window| && window[r] == ' '
  {
    var r := SeparatorBreak(window, separators, lo);
    var p :| p in separators && OccursAt(window, p, r);
    OccurrenceChar(window, p, r, 0);
  }

  lemma SeparatorsStartWithSpace()
    ensures forall p :: p in FIRST_SEPARATORS ==> p != "" && p[0] == ' '
  {
  }

  lemma FirstSplitIndexBoundary(t: string, maxChars: nat)
    requires 1 <= maxChars < |t| && IsClean(t)
    ensures var end := FirstSplitIndex(t, maxChars);
            t[end] == ' ' || t[end - 1] == ' ' || HardCut(t[..end], maxChars, FIRST_FLOOR)
  {
    var window := t[..maxChars + 1];
    var lo := LowerBound(FIRST_FLOOR, maxChars);
    var punctuation := PunctuationBreak(window, 0, lo, maxChars);
    if punctuation >= 0 {
      assert CleanAt(t, punctuation - 1);
    } else {
      var separator, space := SeparatorBreak(window, FIRST_SEPARATORS, lo), RFind(window, " ");
      if separator >= 0 {
        SeparatorsStartWithSpace();
        SeparatorIsSpace(window, FIRST_SEPARATORS, lo);
      } else if space >= lo {
        OccurrenceChar(window, " ", space, 0);
      } else {
        NoLaterSpace(window, lo);
      }
    }
  }

  // ---------- pieces, sentences, packing ----------

  lemma {:induction false} SplitTiles(t: string, maxChars: nat)
    requires 1 <= maxChars && IsClean(t)
    ensures Tiles(t, SplitStripped(t, maxChars), maxChars, SPLIT_FLOOR)
    decreases |t|
  {
    if |t| > maxChars {
      var end := SplitIndex(t, maxChars);
      CutAt(t, end);
      SplitIndexBoundary(t, maxChars);
      var c, r := Strip(t[..end]), Strip(t[end..]);
      SplitTiles(r, maxChars);
      assert SplitStripped(t, maxChars)[1..] == SplitStripped(r, maxChars);
    } else if t != "" {
      assert t[|t|..] == "";
    }
  }

  lemma TilesCons(c: string, u: string, rest: seq<string>, maxChars: nat, floor: nat)
    requires 0 < |c| <= maxChars && Boundary(c, u, maxChars, floor) && Tiles(DropGap(u), rest, maxChars, floor)
    ensures Tiles(c + u, [c] + rest, maxChars, floor)
  {
    assert (c + u)[|c|..] == u && ([c] + rest)[1..] == rest;
  }

  lemma AppendGap(u: string, z: string)
    requires u != ""
    ensures DropGap(u + z) == DropGap(u) + z
  {
    if u[0] == ' ' {
      assert (u + z)[1..] == u[1..] + z;
    }
  }

  lemma AppendRest(a: string, c: string, z: string)
    requires c <= a
    ensures a + z == c + (a[|c|..] + z)
  {
    assert a == c + a[|c|..];
  }

  /** What is left after a chunk still ends in a word, if the text does. */
  lemma GapEnd(a: string, c: string)
    requires c < a && a[|a| - 1] != ' '
    ensures var v := DropGap(a[|c|..]); v != "" && v[|v| - 1] == a[|a| - 1]
  {
    var u := a[|c|..];
    assert u[|u| - 1] == a[|a| - 1];
  }

  lemma TilesEmpty(cs: seq<string>, maxChars: nat, floor: nat)
    requires Tiles("", cs, maxChars, floor)
    ensures cs == []
  {
  }

  lemma TilesAppendLast(c: string, z: string, qs: seq<string>, maxChars: nat, floor: nat)
    requires 0 < |c| <= maxChars && z != "" && z[0] == ' ' && Tiles(z[1..], qs, maxChars, floor)
    ensures Tiles(c + z, [c] + qs, maxChars, floor)
  {
    TilesCons(c, z, qs, maxChars, floor);
  }

  lemma TilesAppendStep(c: string, u: string, rest: seq<string>, z: string, maxChars: nat, floor: nat)
    requires 0 < |c| <= maxChars && u != "" && Boundary(c, u, maxChars, floor)
    requires Tiles(DropGap(u) + z, rest, maxChars, floor)
    ensures Tiles(c + (u + z), [c] + rest, maxChars, floor)
  {
    AppendGap(u, z);
    TilesCons(c, u + z, rest, maxChars, floor);
  }

  /** A tiling continued by a space and another tiling is a tiling. */
  lemma {:induction false} TilesAppend(a: string, ps: seq<string>, z: string, qs: seq<string>, maxChars: nat,
                                       floor: nat)
    requires Tiles(a, ps, maxChars, floor)
    requires z != "" && z[0] == ' ' && Tiles(z[1..], qs, maxChars, floor)
    requires a != "" && a[|a| - 1] != ' '
    ensures Tiles(a + z, ps + qs, maxChars, floor)
    decreases |ps|
  {
    var c, rest := ps[0], ps[1..];
    var u := a[|c|..];
    AppendRest(a, c, z);
    if u == "" {
      TilesEmpty(rest, maxChars, floor);
      TilesAppendLast(c, z, qs, maxChars, floor);
      assert u + z == z && ps == [c];
    } else {
      GapEnd(a, c);
      TilesAppend(DropGap(u), rest, z, qs, maxChars, floor);
      TilesAppendStep(c, u, rest + qs, z, maxChars, floor);
      Reassociate(ps, qs);
    }
  }

  lemma Reassociate(ps: seq<string>, qs: seq<string>)
    requires ps != []
    ensures [ps[0]] + (ps[1..] + qs) == ps + qs
  {
  }

  lemma CleanTake(t: string, end: nat)
    requires IsClean(t) && 0 < end <= |t| && !IsSpace(t[end - 1])
    ensures IsClean(t[..end]) && Stripped(t[..end])
  {
    assert CleanAt(t, 0);
    var a := t[..end];
    forall i | 0 <= i < |a|
      ensures CleanAt(a, i)
    {
      assert CleanAt(t, i);
    }
  }

  lemma OneSpace(t: string, end: nat)
    requires end + 1 < |t| && IsSpace(t[end]) && !IsSpace(t[end + 1])
    ensures SpaceRun(t[end..]) == 1
  {
    var u := t[end..];
    assert u[0] == t[end] && u[1] == t[end + 1];
  }

  /** A sentence break of a clean text: both sides are clean and one space lies between them. */
  lemma SentenceBreak(t: string)
    requires IsClean(t) && SentenceEnd(t, 0) < |t|
    ensures var end := SentenceEnd(t, 0);
            && SpaceRun(t[end..]) == 1 && t[end] == ' ' && end > 0 && !IsSpace(t[end - 1])
            && IsClean(t[..end]) && Stripped(t[..end]) && IsClean(t[end + 1..])
  {
    var end := SentenceEnd(t, 0);
    assert CleanAt(t, end);
    OneSpace(t, end);
    CleanSuffix(t, end + 1);
    CleanTake(t, end);
  }

  lemma LastSentence(t: string, maxChars: nat)
    requires 1 <= maxChars && SentenceEnd(t, 0) == |t|
    ensures PiecesOf(Sentences(t), maxChars) == SplitStripped(Strip(t), maxChars)
  {
    assert Sentences(t) == [t] && PiecesOf([t], maxChars) == SplitStripped(Strip(t), maxChars) + PiecesOf([], maxChars);
  }

  lemma FirstSentence(t: string, maxChars: nat)
    requires 1 <= maxChars && IsClean(t) && SentenceEnd(t, 0) < |t|
    ensures var end := SentenceEnd(t, 0);
            PiecesOf(Sentences(t), maxChars) ==
            SplitStripped(Strip(t[..end]), maxChars) + PiecesOf(Sentences(t[end + 1..]), maxChars)
  {
    var end := SentenceEnd(t, 0);
    SentenceBreak(t);
    var rest := Sentences(t[end + 1..]);
    assert Sentences(t) == [t[..end]] + rest;
    assert ([t[..end]] + rest)[1..] == rest;
  }

  lemma {:induction false} SentencesTile(t: string, maxChars: nat)
    requires 1 <= maxChars && IsClean(t)
    ensures Tiles(t, PiecesOf(Sentences(t), maxChars), maxChars, SPLIT_FLOOR)
    decreases |t|
  {
    var end := SentenceEnd(t, 0);
    if end == |t| {
      assert t != "" ==> CleanAt(t, 0) && CleanAt(t, |t| - 1);
      StripFixed(t);
      SplitTiles(t, maxChars);
      LastSentence(t, maxChars);
    } else {
      SentenceBreak(t);
      FirstSentence(t, maxChars);
      StripFixed(t[..end]);
      SplitTiles(t[..end], maxChars);
      SentencesTile(t[end + 1..], maxChars);
      JoinSentences(t, end, SplitStripped(t[..end], maxChars), PiecesOf(Sentences(t[end + 1..]), maxChars), maxChars);
    }
  }

  lemma JoinSentences(t: string, end: nat, ps: seq<string>, qs: seq<string>, maxChars: nat)
    requires 0 < end < |t| && t[end] == ' ' && t[end - 1] != ' '
    requires Tiles(t[..end], ps, maxChars, SPLIT_FLOOR) && Tiles(t[end + 1..], qs, maxChars, SPLIT_FLOOR)
    ensures Tiles(t, ps + qs, maxChars, SPLIT_FLOOR)
  {
    SplitAtSpace(t, end);
    TilesAppend(t[..end], ps, t[end..], qs, maxChars, SPLIT_FLOOR);
  }

  lemma SplitAtSpace(t: string, end: nat)
    requires end < |t|
    ensures t[..end] + t[end..] == t && t[end..][1..] == t[end + 1..]
  {
  }

  /** Joining a piece to the current chunk is sound when the text has a space between them. */
  lemma JoinStep(t: string, current: string, p: string)
    requires current < t && t[|current|] == ' '
    requires p <= DropGap(t[|current|..])
    ensures var joined := current + " " + p;
            joined <= t && t[|joined|..] == DropGap(t[|current|..])[|p|..]
  {
    var v := DropGap(t[|current|..]);
    assert t == current + " " + v;
  }

  /** Packing never joins two pieces that the text does not separate by a space. */
  lemma {:induction false} PackTiles(t: string, current: string, pieces: seq<string>, maxChars: nat)
    requires 0 < |current| <= maxChars && current <= t
    requires Boundary(current, t[|current|..], maxChars, SPLIT_FLOOR)
    requires Tiles(DropGap(t[|current|..]), pieces, maxChars, SPLIT_FLOOR)
    requires t[|t| - 1] != ' '
    ensures Tiles(t, Pack(current, pieces, maxChars), maxChars, SPLIT_FLOOR)
    decreases |pieces|
  {
    var u := t[|current|..];
    var v := DropGap(u);
    assert t == current + u;
    if u != "" {
      assert u[|u| - 1] == t[|t| - 1];
    }
    if pieces == [] {
      assert [current] + [] == [current];
      TilesCons(current, u, [], maxChars, SPLIT_FLOOR);
    } else {
      var p := pieces[0];
      if |current| + 1 + |p| <= maxChars {
        JoinStep(t, current, p);
        PackTiles(t, current + " " + p, pieces[1..], maxChars);
      } else {
        PackTiles(v, p, pieces[1..], maxChars);
        TilesCons(current, u, Pack(p, pieces[1..], maxChars), maxChars, SPLIT_FLOOR);
      }
    }
  }

  lemma PackFromEmpty(t: string, pieces: seq<string>, maxChars: nat)
    requires Tiles(t, pieces, maxChars, SPLIT_FLOOR)
    requires t == "" || t[|t| - 1] != ' '
    ensures Tiles(t, Pack("", pieces, maxChars), maxChars, SPLIT_FLOOR)
  {
    if pieces != [] {
      PackTiles(t, pieces[0], pieces[1..], maxChars);
    }
  }

  /** The chunks of a text: a first one within its own limit, then a tiling of everything after it. */
  ghost predicate TiledBy(clean: string, cs: seq<string>, maxChars: nat, firstChunkChars: nat) {
    if cs == [] then clean == ""
    else
      var c := cs[0];
      0 < |c| <= firstChunkChars && c <= clean && Boundary(c, clean[|c|..], firstChunkChars, FIRST_FLOOR) &&
      Tiles(DropGap(clean[|c|..]), cs[1..], maxChars, SPLIT_FLOOR)
  }

  lemma FirstFragmentTiles(clean: string, maxChars: nat)
    requires 1 <= maxChars && IsClean(clean) && clean != ""
    ensures var (first, remaining) := FirstFragment(clean, maxChars);
            && 0 < |first| <= maxChars && first <= clean && IsClean(remaining)
            && remaining == DropGap(clean[|first|..]) && Boundary(first, clean[|first|..], maxChars, FIRST_FLOOR)
  {
    if |clean| <= maxChars {
      assert clean[|clean|..] == "";
    } else {
      CutAt(clean, FirstSplitIndex(clean, maxChars));
      FirstSplitIndexBoundary(clean, maxChars);
    }
  }

  /** Main tiling theorem, for every text and every pair of limits that the chunker accepts. */
  lemma ChunksTile(text: string, maxChars: nat, firstChunkChars: nat)
    requires 1 <= maxChars && 1 <= firstChunkChars
    ensures TiledBy(Clean(text), Chunks(text, maxChars, firstChunkChars), maxChars, firstChunkChars)
  {
    var clean := Clean(text);
    CleanIsClean(text);
    if clean != "" {
      FirstFragmentTiles(clean, firstChunkChars);
      var (first, remaining) := FirstFragment(clean, firstChunkChars);
      SentencesTile(remaining, maxChars);
      var pieces := PiecesOf(Sentences(remaining), maxChars);
      PackFromEmpty(remaining, pieces, maxChars);
      assert ([first] + Pack("", pieces, maxChars))[1..] == Pack("", pieces, maxChars);
    }
  }
}
