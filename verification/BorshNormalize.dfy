/** The rewrites themselves never lengthen a string. */
module BorshNormalize {
  import opened Ids
  import opened Text
  import opened Borsh

  // ---------- UTF-8 ----------

  function EncodeChar(c: char): (r: Bytes)
    ensures 1 <= |r| <= 4
    ensures (c as int) < 128 ==> |r| == 1
  {
    var n := c as int;
    if n < 0x80 then [n as byte]
    else if n < 0x800 then [(0xC0 + n / 64) as byte, (0x80 + n % 64) as byte]
    else if n < 0x1_0000 then [(0xE0 + n / 4096) as byte, (0x80 + n / 64 % 64) as byte, (0x80 + n % 64) as byte]
    else [(0xF0 + n / 262144) as byte, (0x80 + n / 4096 % 64) as byte, (0x80 + n / 64 % 64) as byte,
          (0x80 + n % 64) as byte]
  }

  /** `s.encode("utf-8")`. */
  function Utf8(s: string): Bytes {
    if s == "" then [] else Utf8(s[..|s| - 1]) + EncodeChar(s[|s| - 1])
  }

  lemma {:induction false} Utf8Append(s: string, t: string)
    ensures Utf8(s + t) == Utf8(s) + Utf8(t)
    decreases |t|
  {
    if t == "" {
      assert s + t == s;
    } else {
      var n := |t| - 1;
      assert (s + t)[..|s + t| - 1] == s + t[..n];
      Utf8Append(s, t[..n]);
    }
  }

  // ---------- Python's str.replace ----------

  function Replace(s: string, old': string, new': string): string
    requires old' != ""
    decreases |s|
  {
    if |s| < |old'| then s
    else if s[..|old'|] == old' then new' + Replace(s[|old'|..], old', new')
    else [s[0]] + Replace(s[1..], old', new')
  }

  lemma {:induction false} ReplaceShrinks(s: string, old': string, new': string)
    requires old' != "" && |Utf8(new')| <= |Utf8(old')|
    ensures |Utf8(Replace(s, old', new'))| <= |Utf8(s)|
    decreases |s|
  {
    if |s| >= |old'| {
      if s[..|old'|] == old' {
        var rest := s[|old'|..];
        assert s == old' + rest;
        ReplaceShrinks(rest, old', new');
        Utf8Append(old', rest);
        Utf8Append(new', Replace(rest, old', new'));
      } else {
        assert s == [s[0]] + s[1..];
        ReplaceShrinks(s[1..], old', new');
        Utf8Append([s[0]], s[1..]);
        Utf8Append([s[0]], Replace(s[1..], old', new'));
      }
    }
  }

  // ---------- normalization ----------

  const MARKER := "baml_src"

  predicate EndsWith(s: string, suffix: string) {
    |suffix| <= |s| && s[|s| - |suffix|..] == suffix
  }

  /** Stripping each symbol prefix in front of the marker, in the given order. */
  function StripPrefixes(value: string, prefixes: seq<string>): string {
    if prefixes == [] then value
    else Replace(StripPrefixes(value, prefixes[..|prefixes| - 1]), prefixes[|prefixes| - 1] + MARKER, MARKER)
  }

  /** `_normalize_embedded_source`. */
  function Normalize(value: string, prefixes: seq<string>): string {
    var slashed := Replace(value, "\\", "/");
    var at := Find(slashed, MARKER + "/", 0);
    if EndsWith(value, ".baml") && at >= 0 then slashed[at..] else StripPrefixes(value, prefixes)
  }

  method NormalizeEmbeddedSource(value: string, prefixes: seq<string>) returns (r: string)
    ensures r == Normalize(value, prefixes)
  {
    if EndsWith(value, ".baml") {
      var slashed := Replace(value, "\\", "/");
      var at := Find(slashed, MARKER + "/", 0);
      if at >= 0 {
        return slashed[at..];
      }
    }
    r := value;
    for i := 0 to |prefixes|
      invariant r == StripPrefixes(value, prefixes[..i])
    {
      assert prefixes[..i + 1][..i] == prefixes[..i];
      r := Replace(r, prefixes[i] + MARKER, MARKER);
    }
    assert prefixes[..|prefixes|] == prefixes;
  }

  lemma {:induction false} StripPrefixesShrinks(value: string, prefixes: seq<string>)
    ensures |Utf8(StripPrefixes(value, prefixes))| <= |Utf8(value)|
  {
    if prefixes != [] {
      var n := |prefixes| - 1;
      StripPrefixesShrinks(value, prefixes[..n]);
      Utf8Append(prefixes[n], MARKER);
      ReplaceShrinks(StripPrefixes(value, prefixes[..n]), prefixes[n] + MARKER, MARKER);
    }
  }

  lemma OneCharUtf8(c: char)
    requires (c as int) < 128
    ensures |Utf8([c])| == 1
  {
    assert [c][..0] == [];
  }

  /** Normalizing never lengthens the encoded string, whatever the prefixes and their order. */
  lemma NormalizeShrinks(value: string, prefixes: seq<string>)
    ensures |Utf8(Normalize(value, prefixes))| <= |Utf8(value)|
  {
    var slashed := Replace(value, "\\", "/");
    var at := Find(slashed, MARKER + "/", 0);
    if EndsWith(value, ".baml") && at >= 0 {
      OneCharUtf8('\\');
      OneCharUtf8('/');
      ReplaceShrinks(value, "\\", "/");
      assert slashed == slashed[..at] + slashed[at..];
      Utf8Append(slashed[..at], slashed[at..]);
    } else {
      StripPrefixesShrinks(value, prefixes);
    }
  }

  // ---------- the whole rewrite ----------

  /** The chosen strings of a layout decode to `values`. */
  ghost predicate Decodes(items: seq<Item>, values: map<nat, string>) {
    forall k :: k in values ==> k < |items| && items[k] == Item.Text(Utf8(values[k]))
  }

  function Changes(values: map<nat, string>, prefixes: seq<string>): map<nat, Bytes> {
    map k | k in values :: Utf8(Normalize(values[k], prefixes))
  }

  lemma {:induction false} NoGrowth(items: seq<Item>, changes: map<nat, Bytes>, n: nat)
    requires AllFit(items) && AllFit(Rewritten(items, changes)) && n <= |items|
    requires forall k :: k in changes ==> k < |items| && items[k].Text? && |changes[k]| <= |items[k].bytes|
    ensures |Encode(Rewritten(items, changes)[..n])| <= |Encode(items[..n])|
  {
    if n > 0 {
      NoGrowth(items, changes, n - 1);
      OffsetStep(items, n - 1);
      OffsetStep(Rewritten(items, changes), n - 1);
    }
  }

  /** The length prefix of a normalized string always fits. */
  lemma ChangesValid(items: seq<Item>, values: map<nat, string>, prefixes: seq<string>)
    requires AllFit(items) && Decodes(items, values)
    ensures ValidChanges(items, Changes(values, prefixes))
  {
    forall k | k in values
      ensures |Changes(values, prefixes)[k]| < U32_LIMIT
    {
      NormalizeShrinks(values[k], prefixes);
      assert Fits(items[k]);
    }
  }

  lemma ChangesShrink(items: seq<Item>, values: map<nat, string>, prefixes: seq<string>)
    requires Decodes(items, values)
    ensures var changes := Changes(values, prefixes);
            forall k :: k in changes ==> k < |items| && items[k].Text? && |changes[k]| <= |items[k].bytes|
  {
    forall k | k in values
      ensures |Changes(values, prefixes)[k]| <= |items[k].bytes|
    {
      NormalizeShrinks(values[k], prefixes);
    }
  }

  /**
   Normalizing any chosen strings of any layout never fails, yields the same layout with exactly those
   strings normalized, and does not grow the buffer.
   */
  lemma NormalizeRewrite(items: seq<Item>, values: map<nat, string>, prefixes: seq<string>, m: map<nat, Replacement>)
    requires AllFit(items) && Decodes(items, values) && Covers(items, Changes(values, prefixes), m)
    ensures var r := SpliceFrom(Encode(items), SortedKeys(m.Keys), m, 0);
            var changed := Rewritten(items, Changes(values, prefixes));
            AllFit(changed) && r == Some(Encode(changed)) && |r.value| <= |Encode(items)|
  {
    var changes := Changes(values, prefixes);
    ChangesValid(items, values, prefixes);
    ChangesShrink(items, values, prefixes);
    hide *;
    RewriteKeepsLayout(items, changes, m);
    NoGrowth(items, changes, |items|);
    assert items[..|items|] == items && Rewritten(items, changes)[..|items|] == Rewritten(items, changes);
  }
}
