/**
 What the rewrites of strings do to them, said without their scanning loops: Python's `replace`, the source
 path that a normalized string keeps, and the UTF-8 bytes that stand for it.
 */
module BorshText {
  import opened Text
  import opened Borsh
  import opened BorshNormalize

  // ---------- replace ----------

  ghost predicate NoneOf(s: string, p: string) {
    forall i :: !OccursAt(s, p, i)
  }

  /** `at` is the first place where `p` occurs. */
  ghost predicate FirstAt(s: string, p: string, at: nat) {
    OccursAt(s, p, at) && forall i :: i < at ==> !OccursAt(s, p, i)
  }

  /** The pieces between the occurrences of `p`, taken from the left without overlap. */
  ghost predicate Pieces(s: string, p: string, pieces: seq<string>)
    requires p != ""
    decreases |pieces|
  {
    && pieces != []
    && if |pieces| == 1 then pieces[0] == s && NoneOf(s, p)
       else FirstAt(s, p, |pieces[0]|) && s[..|pieces[0]|] == pieces[0] &&
            Pieces(s[|pieces[0]| + |p|..], p, pieces[1..])
  }

  function Joined(pieces: seq<string>, glue: string): string {
    if pieces == [] then "" else if |pieces| == 1 then pieces[0] else pieces[0] + glue + Joined(pieces[1..], glue)
  }

  lemma TooShort(s: string, p: string)
    requires |s| < |p|
    ensures NoneOf(s, p)
  {
  }

  lemma Shift(s: string, p: string, i: int)
    requires s != ""
    ensures i >= 1 ==> (OccursAt(s, p, i) <==> OccursAt(s[1..], p, i - 1))
    ensures i < 0 ==> !OccursAt(s, p, i)
  {
    if i >= 1 && i + |p| <= |s| {
      assert s[1..][i - 1..i - 1 + |p|] == s[i..i + |p|];
    }
  }

  lemma NoneShift(s: string, p: string)
    requires s != "" && !OccursAt(s, p, 0) && NoneOf(s[1..], p)
    ensures NoneOf(s, p)
  {
    forall i
      ensures !OccursAt(s, p, i)
    {
      Shift(s, p, i);
    }
  }

  lemma FirstShift(s: string, p: string, at: nat)
    requires s != "" && !OccursAt(s, p, 0) && FirstAt(s[1..], p, at)
    ensures FirstAt(s, p, at + 1)
  {
    Shift(s, p, at + 1);
    forall i | i < at + 1
      ensures !OccursAt(s, p, i)
    {
      Shift(s, p, i);
    }
  }

  lemma CutsShift(s: string, at: nat, n: nat)
    requires s != "" && at + n <= |s| - 1
    ensures s[..at + 1] == [s[0]] + s[1..][..at] && s[at + 1 + n..] == s[1..][at + n..]
  {
  }

  lemma JoinedCons(first: string, rest: seq<string>, glue: string)
    ensures Joined([first] + rest, glue) == if rest == [] then first else first + glue + Joined(rest, glue)
  {
    assert ([first] + rest)[1..] == rest;
  }

  /** One more character in front of the first piece. */
  lemma PrependChar(s: string, p: string, pieces: seq<string>)
    requires p != "" && s != "" && !OccursAt(s, p, 0) && Pieces(s[1..], p, pieces)
    ensures Pieces(s, p, [[s[0]] + pieces[0]] + pieces[1..])
  {
    hide OccursAt, NoneOf, FirstAt;
    var first, rest := [s[0]] + pieces[0], pieces[1..];
    if |pieces| == 1 {
      assert first == s;
      NoneShift(s, p);
      OnePiece(s, p, [first] + rest);
    } else {
      var at := |pieces[0]|;
      FirstShift(s, p, at);
      FirstInside(s[1..], p, at);
      CutsShift(s, at, |p|);
      MorePieces(s, p, first, rest);
    }
  }

  lemma FirstInside(s: string, p: string, at: nat)
    requires FirstAt(s, p, at)
    ensures at + |p| <= |s|
  {
  }

  lemma OnePiece(s: string, p: string, pieces: seq<string>)
    requires p != "" && |pieces| == 1 && pieces[0] == s && NoneOf(s, p)
    ensures Pieces(s, p, pieces)
  {
  }

  lemma MorePieces(s: string, p: string, first: string, rest: seq<string>)
    requires p != "" && FirstAt(s, p, |first|) && |first| + |p| <= |s| && s[..|first|] == first
    requires Pieces(s[|first| + |p|..], p, rest)
    ensures Pieces(s, p, [first] + rest)
  {
    hide OccursAt, NoneOf, FirstAt;
    PiecesSome(s[|first| + |p|..], p, rest);
    assert ([first] + rest)[0] == first && ([first] + rest)[1..] == rest && |[first] + rest| > 1;
  }

  lemma PrependJoined(c: char, pieces: seq<string>, glue: string)
    requires pieces != []
    ensures Joined([[c] + pieces[0]] + pieces[1..], glue) == [c] + Joined(pieces, glue)
  {
    JoinedCons([c] + pieces[0], pieces[1..], glue);
    JoinedCons(pieces[0], pieces[1..], glue);
    assert pieces == [pieces[0]] + pieces[1..];
    if |pieces| > 1 {
      var tail := Joined(pieces[1..], glue);
      assert ([c] + pieces[0]) + glue + tail == [c] + (pieces[0] + glue + tail);
    }
  }

  /** The pieces of `s`, its own text between them, and another text between them. */
  ghost predicate Replaced(s: string, p: string, new': string, pieces: seq<string>, r: string)
    requires p != ""
  {
    Pieces(s, p, pieces) && Joined(pieces, p) == s && Joined(pieces, new') == r
  }

  lemma PiecesSome(s: string, p: string, pieces: seq<string>)
    requires p != "" && Pieces(s, p, pieces)
    ensures pieces != []
  {
  }

  /** An occurrence at the very front. */
  lemma MatchInFront(s: string, p: string, new': string, rest: seq<string>, r: string)
    requires p != "" && |p| <= |s| && s[..|p|] == p && Replaced(s[|p|..], p, new', rest, r)
    ensures Replaced(s, p, new', [""] + rest, new' + r)
  {
    FrontFirst(s, p);
    hide OccursAt, FirstAt, Pieces, Joined;
    PiecesSome(s[|p|..], p, rest);
    MorePieces(s, p, "", rest);
    JoinedCons("", rest, p);
    JoinedCons("", rest, new');
    NothingInFront(p, s[|p|..]);
    NothingInFront(new', r);
  }

  lemma NothingInFront(a: string, b: string)
    ensures "" + a + b == a + b
  {
    assert "" + a == a;
  }

  lemma FrontFirst(s: string, p: string)
    requires |p| <= |s| && s[..|p|] == p
    ensures FirstAt(s, p, 0) && s[..0] == "" && s[0 + |p|..] == s[|p|..] && s == p + s[|p|..]
  {
  }

  /** Another character in front. */
  lemma CharInFront(s: string, p: string, new': string, rest: seq<string>, r: string)
    requires p != "" && s != "" && !OccursAt(s, p, 0) && Replaced(s[1..], p, new', rest, r)
    ensures rest != [] && Replaced(s, p, new', [[s[0]] + rest[0]] + rest[1..], [s[0]] + r)
  {
    hide OccursAt, Pieces, Joined;
    PiecesSome(s[1..], p, rest);
    PrependChar(s, p, rest);
    PrependJoined(s[0], rest, p);
    PrependJoined(s[0], rest, new');
    assert s == [s[0]] + s[1..];
  }

  /** `s.replace(p, new)` puts `new` for every occurrence of `p`, from the left without overlap, and nothing else. */
  lemma {:induction false} ReplaceExactly(s: string, p: string, new': string) returns (pieces: seq<string>)
    requires p != ""
    ensures Replaced(s, p, new', pieces, Replace(s, p, new'))
    decreases |s|
  {
    if |s| < |p| {
      TooShort(s, p);
      pieces := [s];
    } else if s[..|p|] == p {
      var rest := ReplaceExactly(s[|p|..], p, new');
      hide Replaced;
      MatchInFront(s, p, new', rest, Replace(s[|p|..], p, new'));
      pieces := [""] + rest;
    } else {
      assert !OccursAt(s, p, 0);
      var rest := ReplaceExactly(s[1..], p, new');
      hide Replaced;
      CharInFront(s, p, new', rest, Replace(s[1..], p, new'));
      pieces := [[s[0]] + rest[0]] + rest[1..];
    }
  }

  // ---------- normalizing ----------

  function Slash(c: char): char {
    if c == '\\' then '/' else c
  }

  lemma {:induction false} SlashedChars(s: string)
    ensures var r := Replace(s, "\\", "/");
            |r| == |s| && forall i :: 0 <= i < |s| ==> r[i] == Slash(s[i])
  {
    if s != "" {
      SlashedChars(s[1..]);
    }
  }

  /** Each step replaces one prefix before the marker, in the given order. */
  ghost predicate Steps(prefixes: seq<string>, steps: seq<string>) {
    |steps| == |prefixes| + 1 && forall i: nat :: i < |prefixes| ==> StepAt(prefixes, steps, i)
  }

  ghost predicate StepAt(prefixes: seq<string>, steps: seq<string>, i: nat) {
    && i < |prefixes| && i + 1 < |steps|
    && StripsPrefix(steps[i], prefixes[i], steps[i + 1])
  }

  ghost predicate StripsPrefix(s: string, prefix: string, r: string) {
    var marked := prefix + "baml_src";
    exists pieces :: Replaced(s, marked, "baml_src", pieces, r)
  }

  /**
   What normalizing keeps: of a source path, with slashes for backslashes, everything from the first
   `baml_src/` on; of any other string, all but the prefixes in front of `baml_src`.
   */
  lemma NormalizeExactly(value: string, prefixes: seq<string>) returns (slashed: string, steps: seq<string>)
    ensures |slashed| == |value|
    ensures forall i :: 0 <= i < |value| ==> slashed[i] == Slash(value[i])
    ensures Steps(prefixes, steps) && steps[0] == value
    ensures if |value| >= 5 && value[|value| - 5..] == ".baml" && !NoneOf(slashed, "baml_src/")
            then exists at: nat :: FirstAt(slashed, "baml_src/", at) && Normalize(value, prefixes) == slashed[at..]
            else Normalize(value, prefixes) == steps[|prefixes|]
  {
    slashed := Replace(value, "\\", "/");
    SlashedChars(value);
    steps := StripSteps(value, prefixes);
    MarkerFound(slashed);
    assert EndsWith(value, ".baml") <==> |value| >= 5 && value[|value| - 5..] == ".baml";
    hide NoneOf, FirstAt, Steps, StripPrefixes;
  }

  lemma MarkerFound(slashed: string)
    ensures var at := Find(slashed, MARKER + "/", 0);
            if at >= 0 then FirstAt(slashed, "baml_src/", at) && !NoneOf(slashed, "baml_src/")
            else NoneOf(slashed, "baml_src/")
  {
    assert MARKER + "/" == "baml_src/";
  }

  lemma {:induction false} StripSteps(value: string, prefixes: seq<string>) returns (steps: seq<string>)
    ensures Steps(prefixes, steps) && steps[0] == value && steps[|prefixes|] == StripPrefixes(value, prefixes)
  {
    if prefixes == [] {
      steps := [value];
    } else {
      var n := |prefixes| - 1;
      var before := StripSteps(value, prefixes[..n]);
      var last := StripPrefixes(value, prefixes);
      var pieces := ReplaceExactly(before[n], prefixes[n] + MARKER, MARKER);
      hide Replaced, Replace;
      steps := before + [last];
      assert StepAt(prefixes, steps, n);
      forall i: nat | i < n
        ensures StepAt(prefixes, steps, i)
      {
        assert StepAt(prefixes[..n], before, i);
      }
    }
  }

  // ---------- UTF-8 ----------

  /** How many bytes the lead byte announces. */
  function CodeLength(lead: byte): nat {
    if lead < 0x80 then 1 else if lead < 0xE0 then 2 else if lead < 0xF0 then 3 else 4
  }

  /** The code point in the bytes from `at` on: the low bits of the lead byte, then six bits from each other one. */
  function CodePoint(b: Bytes, at: nat): int
    requires at < |b| && at + CodeLength(b[at]) <= |b|
  {
    var lead := b[at] as int;
    match CodeLength(b[at])
    case 1 => lead
    case 2 => (lead - 0xC0) * 64 + LowBits(b, at + 1)
    case 3 => ((lead - 0xE0) * 64 + LowBits(b, at + 1)) * 64 + LowBits(b, at + 2)
    case _ => (((lead - 0xF0) * 64 + LowBits(b, at + 1)) * 64 + LowBits(b, at + 2)) * 64 + LowBits(b, at + 3)
  }

  function LowBits(b: Bytes, at: nat): int
    requires at < |b|
  {
    b[at] as int - 0x80
  }

  /** A number from its digits to the base 64. */
  lemma Sextets(n: nat)
    ensures n == n / 64 * 64 + n % 64
    ensures n / 64 == n / 4096 * 64 + n / 64 % 64
    ensures n / 4096 == n / 262144 * 64 + n / 4096 % 64
  {
    assert n / 4096 == n / 64 / 64;
    assert n / 262144 == n / 4096 / 64;
  }

  lemma CharDecodes(c: char)
    ensures var b := EncodeChar(c); CodeLength(b[0]) == |b| && CodePoint(b, 0) == c as int
    ensures var b := EncodeChar(c); forall i :: 0 < i < |b| ==> 0x80 <= b[i] < 0xC0
  {
    Sextets(c as int);
  }

  lemma CodeElsewhere(a: Bytes, b: Bytes, c: Bytes)
    requires b != [] && CodeLength(b[0]) == |b|
    ensures CodePoint(a + b + c, |a|) == CodePoint(b, 0) && CodeLength((a + b + c)[|a|]) == |b|
  {
    assert forall i :: 0 <= i < |b| ==> (a + b + c)[|a| + i] == b[i];
  }

  /** Every character of a text reads back from its bytes, at the place after the bytes before it. */
  lemma TextDecodes(s: string, i: nat)
    requires i < |s|
    ensures var b, at := Utf8(s), |Utf8(s[..i])|;
            && at < |b| && at + CodeLength(b[at]) == |Utf8(s[..i + 1])| <= |b| && CodePoint(b, at) == s[i] as int
  {
    var a, c := Utf8(s[..i]), Utf8(s[i + 1..]);
    assert s == s[..i + 1] + s[i + 1..] && s[..i + 1][..i] == s[..i];
    Utf8Append(s[..i + 1], s[i + 1..]);
    CharDecodes(s[i]);
    CodeElsewhere(a, EncodeChar(s[i]), c);
  }
}
