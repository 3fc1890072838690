/**
 What the text operations do, said character by character: which characters are whitespace, and that cleaning
 a text keeps every other character and every place where whitespace separates two of them.
 */
module TextMeaning {
  import opened Text

  /** Python's whitespace characters, by their codes. */
  const SPACE_CODES := {0x09, 0x0A, 0x0B, 0x0C, 0x0D, 0x1C, 0x1D, 0x1E, 0x1F, 0x20, 0x85, 0xA0, 0x1680,
                        0x2000, 0x2001, 0x2002, 0x2003, 0x2004, 0x2005, 0x2006, 0x2007, 0x2008, 0x2009, 0x200A,
                        0x2028, 0x2029, 0x202F, 0x205F, 0x3000}

  lemma SpacesExactly(c: char)
    ensures IsSpace(c) <==> c as int in SPACE_CODES
  {
  }

  /** A character that is no whitespace, and whether whitespace or nothing comes right before it. */
  datatype Mark = Mark(c: char, apart: bool)

  /** The text's characters that are no whitespace, in order; `apart` tells of the character before the text. */
  function Marks(s: string, apart: bool): seq<Mark> {
    if s == "" then []
    else if IsSpace(s[0]) then Marks(s[1..], true)
    else [Mark(s[0], apart)] + Marks(s[1..], false)
  }

  function WordMarks(ws: seq<string>): seq<Mark> {
    if ws == [] then [] else Marks(ws[0], true) + WordMarks(ws[1..])
  }

  lemma {:induction false} MarksAfterWord(w: string, rest: string, apart: bool)
    requires IsWord(w)
    ensures Marks(w + rest, apart) == Marks(w, apart) + Marks(rest, false)
  {
    assert (w + rest)[0] == w[0] && (w + rest)[1..] == w[1..] + rest;
    if |w| == 1 {
      assert w[1..] == "" && w[1..] + rest == rest;
    } else {
      MarksAfterWord(w[1..], rest, false);
    }
  }

  lemma {:induction false} MarksSkipSpace(s: string)
    ensures Marks(s, true) == Marks(s[SpaceRun(s)..], true)
  {
    if s != "" && IsSpace(s[0]) {
      MarksSkipSpace(s[1..]);
      assert s[1..][SpaceRun(s[1..])..] == s[SpaceRun(s)..];
    } else {
      assert s[0..] == s;
    }
  }

  lemma {:induction false} WordsKeepMarks(s: string)
    ensures WordMarks(Words(s)) == Marks(s, true)
    decreases |s|
  {
    var t := s[SpaceRun(s)..];
    MarksSkipSpace(s);
    if t != "" {
      assert t[0] == s[SpaceRun(s)];
      var w, rest := t[..WordRun(t)], t[WordRun(t)..];
      assert t == w + rest;
      MarksAfterWord(w, rest, true);
      WordsKeepMarks(rest);
      assert Words(s) == [w] + Words(rest);
      assert ([w] + Words(rest))[1..] == Words(rest);
    }
  }

  lemma {:induction false} JoinKeepsMarks(ws: seq<string>)
    requires forall w :: w in ws ==> IsWord(w)
    ensures Marks(JoinWords(ws), true) == WordMarks(ws)
  {
    if |ws| == 1 {
      assert ws[1..] == [];
    } else if |ws| > 1 {
      assert ws[0] in ws;
      var rest := JoinWords(ws[1..]);
      JoinKeepsMarks(ws[1..]);
      MarksAfterWord(ws[0], " " + rest, true);
      assert ws[0] + " " + rest == ws[0] + (" " + rest);
      assert (" " + rest)[1..] == rest;
    }
  }

  /** Cleaning keeps every character that is no whitespace, and exactly the separations between them. */
  lemma CleanKeepsMarks(s: string)
    ensures Marks(Clean(s), true) == Marks(s, true)
  {
    WordsAreWords(s);
    WordsKeepMarks(s);
    JoinKeepsMarks(Words(s));
  }
}
