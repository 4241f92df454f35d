/** The string operations the source uses on paths and file names:
    `a in b`, `s.split(pat)[0]`, `s.split('/')[-1]`, f-string path joins and `str(int)`. */
module Text {
  import opened Wrappers

  /** `pat` occurs in `s` starting at index `j`. */
  predicate OccursAt(s: string, pat: string, j: int) {
    0 <= j && j + |pat| <= |s| && s[j..j + |pat|] == pat
  }

  predicate StartsWith(s: string, prefix: string) {
    |prefix| <= |s| && s[..|prefix|] == prefix
  }

  predicate EndsWith(s: string, suffix: string) {
    |suffix| <= |s| && s[|s| - |suffix|..] == suffix
  }

  /** The first index at or after `from` where `pat` occurs in `s`. */
  function IndexFrom(s: string, pat: string, from: nat): (r: Option<nat>)
    ensures r.Some? ==> from <= r.value && OccursAt(s, pat, r.value)
    ensures r.Some? ==> forall j :: from <= j < r.value ==> !OccursAt(s, pat, j)
    ensures r.None? ==> forall j :: from <= j ==> !OccursAt(s, pat, j)
    decreases |s| - from
  {
    if from + |pat| > |s| then None
    else if s[from..from + |pat|] == pat then Some(from)
    else IndexFrom(s, pat, from + 1)
  }

  /** The first occurrence of `pat` in `s` (Python's `s.find(pat)`, with `None` for -1). */
  function IndexOf(s: string, pat: string): (r: Option<nat>)
    ensures r.Some? ==> OccursAt(s, pat, r.value)
    ensures r.Some? ==> forall j :: 0 <= j < r.value ==> !OccursAt(s, pat, j)
    ensures r.None? ==> forall j :: !OccursAt(s, pat, j)
  {
    IndexFrom(s, pat, 0)
  }

  /** Python's `sub in s`. */
  predicate Contains(s: string, sub: string) {
    IndexOf(s, sub).Some?
  }

  lemma ContainsIff(s: string, sub: string)
    ensures Contains(s, sub) <==> exists j :: OccursAt(s, sub, j)
  {
    if Contains(s, sub) {
      assert OccursAt(s, sub, IndexOf(s, sub).value);
    }
  }

  /** Python's `s.split(pat)[0]`: the text before the first occurrence of `pat`, or all of `s`. */
  function BeforeFirst(s: string, pat: string): (r: string)
    requires |pat| > 0
    ensures |r| <= |s| && r == s[..|r|]
    ensures forall j :: OccursAt(s, pat, j) ==> |r| <= j
    ensures |r| < |s| ==> OccursAt(s, pat, |r|)
  {
    match IndexOf(s, pat)
    case Some(i) => s[..i]
    case None => s
  }

  /** Python's `s.split(sep)[-1]`: the longest suffix of `s` without `sep`. */
  function AfterLast(s: string, sep: char): (r: string)
    ensures |r| <= |s| && r == s[|s| - |r|..]
    ensures sep !in r
    ensures |r| < |s| ==> s[|s| - |r| - 1] == sep
  {
    if |s| == 0 then ""
    else if s[|s| - 1] == sep then ""
    else AfterLast(s[..|s| - 1], sep) + [s[|s| - 1]]
  }

  /** The f-string path join `f'{dir}/{name}'`. */
  function Join(dir: string, name: string): string {
    dir + "/" + name
  }

  predicate IsDigit(c: char) {
    '0' as int <= c as int <= '9' as int
  }

  function DigitChar(d: nat): (c: char)
    requires d < 10
    ensures IsDigit(c) && c as int - '0' as int == d
  {
    "0123456789"[d]
  }

  /** Decimal digits of a natural number, without leading zeros. */
  function NatToString(n: nat): (r: string)
    ensures |r| > 0
    ensures forall i :: 0 <= i < |r| ==> IsDigit(r[i])
    ensures r[0] == '0' ==> n == 0 && |r| == 1
  {
    if n < 10 then [DigitChar(n)] else NatToString(n / 10) + [DigitChar(n % 10)]
  }

  /** Python's `str(n)` on an int. */
  function IntToString(n: int): (r: string)
    ensures |r| > 0
    ensures n < 0 <==> r[0] == '-'
  {
    if n < 0 then "-" + NatToString(-n) else NatToString(n)
  }

  function DigitValue(c: char): nat
    requires IsDigit(c)
  {
    c as int - '0' as int
  }

  /** The value of a string of decimal digits. */
  function DigitsValue(s: string): nat
    requires forall i :: 0 <= i < |s| ==> IsDigit(s[i])
  {
    if |s| == 0 then 0 else DigitsValue(s[..|s| - 1]) * 10 + DigitValue(s[|s| - 1])
  }

  /** Python's `int(s)` on an optionally signed decimal string; `None` where `int` would raise. */
  function ParseInt(s: string): Option<int> {
    if |s| > 0 && s[0] == '-' then
      var digits := s[1..];
      if |digits| > 0 && forall i :: 0 <= i < |digits| ==> IsDigit(digits[i]) then
        var v: int := DigitsValue(digits);
        Some(-v)
      else None
    else if |s| > 0 && forall i :: 0 <= i < |s| ==> IsDigit(s[i]) then Some(DigitsValue(s))
    else None
  }

  lemma {:induction false} NatToStringValue(n: nat)
    ensures DigitsValue(NatToString(n)) == n
    decreases n
  {
    if n >= 10 {
      var p := NatToString(n / 10);
      NatToStringValue(n / 10);
      assert (p + [DigitChar(n % 10)])[..|p|] == p;
    }
  }

  /** `str` on ints is inverted by `int`: distinct years give distinct directory names and substrings. */
  lemma IntToStringRoundTrip(n: int)
    ensures ParseInt(IntToString(n)) == Some(n)
  {
    if n < 0 {
      var d := NatToString(-n);
      assert ("-" + d)[1..] == d;
      NatToStringValue(-n);
    } else {
      var d := NatToString(n);
      assert IsDigit(d[0]);
      NatToStringValue(n);
    }
  }
}
