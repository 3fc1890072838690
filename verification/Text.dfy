/**
 Python string operations that the speech, search and memory code share: whitespace,
 `strip`, `" ".join(text.split())`, `find`, `rfind` and `lower`.
 */
module Text {

  /** The characters for which Python's `str.isspace` holds (also regex `\s`). */
  predicate IsSpace(c: char) {
    var n := c as int;
    9 <= n <= 13 || 28 <= n <= 32 || n == 0x85 || n == 0xA0 || n == 0x1680 ||
    0x2000 <= n <= 0x200A || n == 0x2028 || n == 0x2029 || n == 0x202F || n == 0x205F || n == 0x3000
  }

  // ---------- strip ----------

  /** Length of the leading run of whitespace. */
  function SpaceRun(s: string): (n: nat)
    ensures n <= |s|
    ensures forall i :: 0 <= i < n ==> IsSpace(s[i])
    ensures n < |s| ==> !IsSpace(s[n])
  {
    if s == "" || !IsSpace(s[0]) then 0 else 1 + SpaceRun(s[1..])
  }

  /** Length of what is left after removing the trailing run of whitespace. */
  function RightEdge(s: string): (n: nat)
    ensures n <= |s|
    ensures forall i :: n <= i < |s| ==> IsSpace(s[i])
    ensures n > 0 ==> !IsSpace(s[n - 1])
  {
    if s == "" || !IsSpace(s[|s| - 1]) then |s| else RightEdge(s[..|s| - 1])
  }

  function Strip(s: string): (r: string)
    ensures |r| <= |s|
    ensures r != "" ==> !IsSpace(r[0]) && !IsSpace(r[|r| - 1])
    ensures r == "" <==> forall i :: 0 <= i < |s| ==> IsSpace(s[i])
  {
    var t := s[SpaceRun(s)..];
    assert t != "" ==> RightEdge(t) > 0;
    t[..RightEdge(t)]
  }

  /** A stripped string is one with no whitespace at either end. */
  predicate Stripped(s: string) {
    s != "" ==> !IsSpace(s[0]) && !IsSpace(s[|s| - 1])
  }

  lemma StripFixed(s: string)
    requires Stripped(s)
    ensures Strip(s) == s
  {
    if s != "" {
      assert SpaceRun(s) == 0;
      assert s[0..] == s;
      assert RightEdge(s) == |s|;
    }
  }

  // ---------- " ".join(text.split()) ----------

  /** Length of the leading run of non-whitespace. */
  function WordRun(s: string): (n: nat)
    ensures n <= |s|
    ensures forall i :: 0 <= i < n ==> !IsSpace(s[i])
    ensures n < |s| ==> IsSpace(s[n])
    ensures s != "" && !IsSpace(s[0]) ==> n > 0
  {
    if s == "" || IsSpace(s[0]) then 0 else 1 + WordRun(s[1..])
  }

  function Words(s: string): seq<string>
    decreases |s|
  {
    var t := s[SpaceRun(s)..];
    if t == "" then []
    else
      assert t[0] == s[SpaceRun(s)];
      [t[..WordRun(t)]] + Words(t[WordRun(t)..])
  }

  function JoinWords(ws: seq<string>): string {
    if |ws| == 0 then "" else if |ws| == 1 then ws[0] else ws[0] + " " + JoinWords(ws[1..])
  }

  /** `" ".join(text.split())`. */
  function Clean(s: string): string {
    JoinWords(Words(s))
  }

  /** The character at `i` is part of a word, or is one interior ' ' between two words. */
  ghost predicate CleanAt(s: string, i: int)
    requires 0 <= i < |s|
  {
    IsSpace(s[i]) ==> s[i] == ' ' && 0 < i < |s| - 1 && !IsSpace(s[i - 1]) && !IsSpace(s[i + 1])
  }

  /** The normal form: words separated by single ' ' characters. */
  ghost predicate IsClean(s: string) {
    forall i {:trigger CleanAt(s, i)} :: 0 <= i < |s| ==> CleanAt(s, i)
  }

  ghost predicate IsWord(w: string) {
    w != "" && forall i :: 0 <= i < |w| ==> !IsSpace(w[i])
  }

  lemma {:induction false} WordsAreWords(s: string)
    ensures forall w :: w in Words(s) ==> IsWord(w)
    decreases |s|
  {
    var t := s[SpaceRun(s)..];
    if t != "" {
      WordsAreWords(t[WordRun(t)..]);
    }
  }

  lemma {:induction false} JoinedWordsAreClean(ws: seq<string>)
    requires forall w :: w in ws ==> IsWord(w)
    ensures IsClean(JoinWords(ws))
    ensures ws != [] ==> JoinWords(ws) != "" && !IsSpace(JoinWords(ws)[0])
  {
    if |ws| > 0 {
      assert ws[0] in ws;
      if |ws| == 1 {
        assert forall i :: 0 <= i < |ws[0]| ==> CleanAt(ws[0], i);
      }
    }
    if |ws| > 1 {
      JoinedWordsAreClean(ws[1..]);
      var head, tail, all := ws[0], JoinWords(ws[1..]), JoinWords(ws);
      forall i | 0 <= i < |all|
        ensures CleanAt(all, i)
      {
        if i > |head| {
          assert CleanAt(tail, i - |head| - 1);
        }
      }
    }
  }

  /** Cleaning always produces the normal form. */
  lemma CleanIsClean(s: string)
    ensures IsClean(Clean(s))
  {
    WordsAreWords(s);
    JoinedWordsAreClean(Words(s));
  }

  lemma WordsSkipLeadingSpace(s: string)
    requires s != "" && IsSpace(s[0])
    ensures Words(s) == Words(s[1..])
  {
    assert s[SpaceRun(s)..] == s[1..][SpaceRun(s[1..])..];
  }

  /** One step of `Words` on a text that starts with a word. */
  lemma WordsStep(s: string)
    requires s != "" && !IsSpace(s[0])
    ensures Words(s) == [s[..WordRun(s)]] + Words(s[WordRun(s)..])
  {
    assert SpaceRun(s) == 0 && s[0..] == s;
  }

  /** After the first word of a text in the normal form comes one ' ' and then another word. */
  lemma AfterFirstWord(s: string)
    requires IsClean(s) && s != "" && WordRun(s) < |s|
    ensures var n := WordRun(s); n + 1 < |s| && s[n] == ' ' && !IsSpace(s[n + 1]) && 0 < n && !IsSpace(s[0])
  {
    assert CleanAt(s, 0) && CleanAt(s, WordRun(s));
  }

  lemma WordsRest(s: string, n: nat)
    requires s != "" && !IsSpace(s[0]) && n == WordRun(s) < |s|
    ensures Words(s) == [s[..n]] + Words(s[n + 1..])
  {
    WordsStep(s);
    WordsSkipLeadingSpace(s[n..]);
    assert s[n..][1..] == s[n + 1..];
  }

  lemma WordsWhole(s: string)
    requires s != "" && WordRun(s) == |s|
    ensures Words(s) == [s]
  {
    WordsStep(s);
    assert s[..|s|] == s && s[|s|..] == "";
  }

  lemma JoinFirst(w: string, ws: seq<string>)
    requires JoinWords(ws) != ""
    ensures JoinWords([w] + ws) == w + " " + JoinWords(ws)
  {
    assert ([w] + ws)[1..] == ws;
  }

  lemma Rejoined(s: string, n: nat)
    requires n < |s| && s[n] == ' '
    ensures s[..n] + " " + s[n + 1..] == s
  {
  }

  /** A text already in the normal form is left alone. */
  lemma {:induction false} CleanFixed(s: string)
    requires IsClean(s)
    ensures Clean(s) == s
    decreases |s|
  {
    if s != "" {
      if WordRun(s) < |s| {
        CleanFixedStep(s, WordRun(s));
      } else {
        WordsWhole(s);
      }
    }
  }

  lemma {:induction false} CleanFixedStep(s: string, n: nat)
    requires IsClean(s) && s != "" && n == WordRun(s) < |s|
    ensures Clean(s) == s
    decreases |s|, 0
  {
    AfterFirstWord(s);
    WordsRest(s, n);
    CleanSuffix(s, n + 1);
    var rest := s[n + 1..];
    CleanFixed(rest);
    JoinFirst(s[..n], Words(rest));
    Rejoined(s, n);
  }

  /** Dropping a prefix up to a word start keeps the normal form. */
  lemma CleanSuffix(s: string, k: nat)
    requires IsClean(s) && k <= |s| && (k < |s| ==> !IsSpace(s[k]))
    ensures IsClean(s[k..])
  {
    forall i | 0 <= i < |s| - k
      ensures CleanAt(s[k..], i)
    {
      assert CleanAt(s, k + i);
    }
  }

  /** `" ".join(text.split())` is idempotent, and keeps the words themselves. */
  lemma CleanIdempotent(s: string)
    ensures Clean(Clean(s)) == Clean(s)
  {
    CleanIsClean(s);
    CleanFixed(Clean(s));
  }

  // ---------- find and rfind ----------

  predicate OccursAt(s: string, p: string, i: int) {
    0 <= i && i + |p| <= |s| && s[i..i + |p|] == p
  }

  /** `s.find(p, from)`: the first occurrence at or after `from`, or -1. */
  function Find(s: string, p: string, from: nat): (r: int)
    ensures r == -1 || (from <= r && OccursAt(s, p, r))
    ensures forall i :: from <= i && (r == -1 || i < r) ==> !OccursAt(s, p, i)
    decreases |s| - from
  {
    if from + |p| > |s| then -1
    else if s[from..from + |p|] == p then from
    else Find(s, p, from + 1)
  }

  /** The last occurrence of `p` in `s` that starts at or before `upto`, or -1. */
  function RFindFrom(s: string, p: string, upto: int): (r: int)
    requires upto + |p| <= |s|
    ensures r == -1 || (r <= upto && OccursAt(s, p, r))
    ensures forall i :: r < i <= upto ==> !OccursAt(s, p, i)
    decreases upto
  {
    if upto < 0 then -1
    else if s[upto..upto + |p|] == p then upto
    else RFindFrom(s, p, upto - 1)
  }

  /** `s.rfind(p)`. */
  function RFind(s: string, p: string): (r: int)
    ensures r == -1 || OccursAt(s, p, r)
    ensures forall i :: r < i ==> !OccursAt(s, p, i)
  {
    RFindFrom(s, p, |s| - |p|)
  }

  // ---------- lower ----------

  function LowerChar(c: char): char {
    if 'A' <= c <= 'Z' then c - 'A' + 'a' else c
  }

  /** `s.lower()`, on the ASCII letters. */
  function Lower(s: string): (r: string)
    ensures |r| == |s|
  {
    seq(|s|, i requires 0 <= i < |s| => LowerChar(s[i]))
  }

  /** Python's `p in s` on strings. */
  predicate Contains(s: string, p: string) {
    Find(s, p, 0) >= 0
  }
}
