/** The few string rules the service applies: prefix tests on tracking URIs,
    the short name of a Feast column (`col.split(":")[1]`), stripping
    trailing slashes (`str.rstrip("/")`), and decimal rendering of the
    candidate and request numbers. */
module Text {

  predicate StartsWith(s: string, prefix: string) {
    |prefix| <= |s| && s[..|prefix|] == prefix
  }

  /** Index of the first `c` in `s`, or `|s|` when `c` does not occur. */
  function IndexOf(s: string, c: char): (i: nat)
    ensures i <= |s|
    ensures i < |s| ==> s[i] == c
    ensures c !in s[..i]
    ensures i == |s| <==> c !in s
  {
    if s == [] then 0
    else if s[0] == c then 0
    else
      var j := IndexOf(s[1..], c);
      assert s[..1 + j] == [s[0]] + s[1..][..j];
      1 + j
  }

  /** The second ':'-separated field of a qualified column name, as Python's
      `col.split(":")[1]`; the match API only applies it to names that
      contain ':', and a name without ':' keeps its name. */
  function ShortName(col: string): (r: string)
    ensures ':' !in col ==> r == col
    ensures ':' in col ==> ':' !in r && |r| < |col|
  {
    if ':' !in col then col
    else
      var after := col[IndexOf(col, ':') + 1..];
      after[..IndexOf(after, ':')]
  }

  /** Every name `view:feature[:...]` has the short name `feature`: the field
      between the first ':' and the next ':' (or the end). */
  lemma ShortNameOfQualified(view: string, feature: string, rest: string)
    requires ':' !in view && ':' !in feature
    requires rest == [] || rest[0] == ':'
    ensures ShortName(view + [':'] + feature + rest) == feature
  {
    var col := view + [':'] + feature + rest;
    assert col[|view|] == ':';
    assert col[..|view|] == view;
    IndexOfFirst(col, ':', |view|);
    var after := col[|view| + 1..];
    assert after == feature + rest;
    assert after[..|feature|] == feature;
    if rest == [] {
      assert after == feature;
    } else {
      assert after[|feature|] == ':';
      IndexOfFirst(after, ':', |feature|);
    }
  }

  /** `IndexOf` finds the first occurrence. */
  lemma IndexOfFirst(s: string, c: char, k: nat)
    requires k < |s| && s[k] == c && c !in s[..k]
    ensures IndexOf(s, c) == k
  {
  }

  /** Python's `s.rstrip(c)` for a single character: the longest prefix of
      `s` that does not end in `c` and after which only `c`s follow. */
  function TrimRight(s: string, c: char): (r: string)
    ensures r <= s
    ensures r == [] || r[|r| - 1] != c
    ensures forall i :: |r| <= i < |s| ==> s[i] == c
  {
    if s == [] || s[|s| - 1] != c then s
    else TrimRight(s[..|s| - 1], c)
  }

  const Digits: string := "0123456789"

  /** Decimal rendering of a natural number, as Python's `f"{n}"`. */
  function NatToString(n: nat): (s: string)
    ensures |s| >= 1
    ensures forall i :: 0 <= i < |s| ==> s[i] in Digits
    decreases n
  {
    if n < 10 then [Digits[n]]
    else NatToString(n / 10) + [Digits[n % 10]]
  }

  /** Reads back a decimal string (the inverse of `NatToString`). */
  function ParseNat(s: string): nat
  {
    if s == [] then 0
    else ParseNat(s[..|s| - 1]) * 10 + DigitValue(s[|s| - 1])
  }

  function DigitValue(c: char): nat
  {
    if '0' <= c <= '9' then (c - '0') as nat else 0
  }

  lemma {:induction false} ParseNatToString(n: nat)
    ensures ParseNat(NatToString(n)) == n
    decreases n
  {
    var s := NatToString(n);
    if n < 10 {
      assert s[..|s| - 1] == [];
      assert DigitValue(Digits[n]) == n;
    } else {
      ParseNatToString(n / 10);
      assert s[..|s| - 1] == NatToString(n / 10);
      assert DigitValue(Digits[n % 10]) == n % 10;
    }
  }

  /** Distinct numbers render as distinct strings. */
  lemma NatToStringInjective(m: nat, n: nat)
    requires NatToString(m) == NatToString(n)
    ensures m == n
  {
    ParseNatToString(m);
    ParseNatToString(n);
  }
}
