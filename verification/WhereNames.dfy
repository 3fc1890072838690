/** The spelling of query variables: distinct positions get distinct names. */
module WhereNames {
  import opened WhereClause

  /** Decimal digits of a number. */
  function Decimal(n: nat): (s: string)
    ensures s != "" && forall k :: 0 <= k < |s| ==> '0' <= s[k] <= '9'
  {
    if n < 10 then [Digit(n)] else Decimal(n / 10) + [Digit(n % 10)]
  }

  function Digit(n: nat): (c: char)
    requires n < 10
    ensures '0' <= c <= '9' && (c - '0') as int == n
  {
    '0' + n as char
  }

  function Pair(i: nat, j: nat): string {
    Decimal(i) + "_" + Decimal(j)
  }

  /** The variable names of the source. */
  function Name(a: Address): string {
    match a
    case TagAnyOf => "tag_any_of"
    case TagAllOf => "tag_all_of"
    case TagNoneOf => "tag_none_of"
    case ContentTerm(i, j) => "content_term_" + Pair(i, j)
    case ContentValue(i, j) => "content_value_" + Pair(i, j)
    case StringContains(i, j) => "string_contains_" + Pair(i, j)
    case StringEquals(i, j) => "string_equals_" + Pair(i, j)
  }

  lemma {:induction false} DecimalInjective(m: nat, n: nat)
    requires Decimal(m) == Decimal(n)
    ensures m == n
  {
    var s, t := Decimal(m), Decimal(n);
    assert s[|s| - 1] == Digit(m % 10) && t[|t| - 1] == Digit(n % 10);
    if m >= 10 && n >= 10 {
      assert s[..|s| - 1] == Decimal(m / 10) && t[..|t| - 1] == Decimal(n / 10);
      DecimalInjective(m / 10, n / 10);
    } else {
      assert m < 10 ==> |s| == 1;
      assert n < 10 ==> |t| == 1;
    }
  }

  /** Position of the first underscore, or the length. */
  function FirstUnderscore(s: string): nat {
    if s == "" || s[0] == '_' then 0 else 1 + FirstUnderscore(s[1..])
  }

  lemma {:induction false} UnderscoreAfterDigits(a: string, rest: string)
    requires forall k :: 0 <= k < |a| ==> a[k] != '_'
    ensures FirstUnderscore(a + "_" + rest) == |a|
  {
    var s := a + "_" + rest;
    if a != "" {
      assert s[1..] == a[1..] + "_" + rest;
      UnderscoreAfterDigits(a[1..], rest);
    }
  }

  lemma PairInjective(i: nat, j: nat, k: nat, l: nat)
    requires Pair(i, j) == Pair(k, l)
    ensures i == k && j == l
  {
    var a, c, s := Decimal(i), Decimal(k), Pair(i, j);
    UnderscoreAfterDigits(a, Decimal(j));
    UnderscoreAfterDigits(c, Decimal(l));
    assert a == s[..|a|] == c;
    assert Decimal(j) == s[|a| + 1..] == Decimal(l);
    DecimalInjective(i, k);
    DecimalInjective(j, l);
  }

  lemma PrefixInjective(p: string, s: string, t: string)
    requires p + s == p + t
    ensures s == t
  {
    assert (p + s)[|p|..] == s && (p + t)[|p|..] == t;
  }

  /** A number that tells the seven kinds of names apart by looking at fixed positions. */
  function KindOf(s: string): int {
    if |s| < 10 then 0
    else if s[0] == 't' then (if s[5] == 'n' then 1 else if s[5] == 'l' then 2 else 3)
    else if s[0] == 'c' then (if s[8] == 't' then 4 else 5)
    else (if s[7] == 'c' then 6 else 7)
  }

  function KindNumber(a: Address): int {
    match a
    case TagAnyOf => 1
    case TagAllOf => 2
    case TagNoneOf => 3
    case ContentTerm(_, _) => 4
    case ContentValue(_, _) => 5
    case StringContains(_, _) => 6
    case StringEquals(_, _) => 7
  }

  lemma NameKind(a: Address)
    ensures KindOf(Name(a)) == KindNumber(a)
  {
  }

  /** Distinct positions get distinct variable names. */
  lemma NameInjective(a: Address, b: Address)
    requires Name(a) == Name(b)
    ensures a == b
  {
    NameKind(a);
    NameKind(b);
    match a {
      case TagAnyOf =>
      case TagAllOf =>
      case TagNoneOf =>
      case ContentTerm(i, j) =>
        PrefixInjective("content_term_", Pair(i, j), Pair(b.i, b.j));
        PairInjective(i, j, b.i, b.j);
      case ContentValue(i, j) =>
        PrefixInjective("content_value_", Pair(i, j), Pair(b.i, b.j));
        PairInjective(i, j, b.i, b.j);
      case StringContains(i, j) =>
        PrefixInjective("string_contains_", Pair(i, j), Pair(b.i, b.j));
        PairInjective(i, j, b.i, b.j);
      case StringEquals(i, j) =>
        PrefixInjective("string_equals_", Pair(i, j), Pair(b.i, b.j));
        PairInjective(i, j, b.i, b.j);
    }
  }
}
