/** The string operations the sources lean on: splitting, stripping, decimal integers. */
module Text {
  import opened Common

  /** Position of the first `c`, or the length when there is none. */
  function IndexOf(s: string, c: char): (r: nat)
    ensures r <= |s| && c !in s[..r]
    ensures r < |s| ==> s[r] == c
  {
    if s == [] || s[0] == c then 0 else 1 + IndexOf(s[1..], c)
  }

  lemma {:induction false} IndexOfFirst(a: string, c: char, b: string)
    requires c !in a
    ensures IndexOf(a + [c] + b, c) == |a|
  {
    if a == "" {
    } else {
      assert (a + [c] + b)[1..] == a[1..] + [c] + b;
      IndexOfFirst(a[1..], c, b);
    }
  }

  lemma IndexOfAbsent(s: string, c: char)
    requires c !in s
    ensures IndexOf(s, c) == |s|
  {}

  /** `str::split_once`: around the first occurrence. */
  function SplitOnce(s: string, c: char): Option<(string, string)> {
    var i := IndexOf(s, c);
    if i < |s| then Some((s[..i], s[i + 1..])) else None
  }

  lemma SplitOnceAt(a: string, c: char, b: string)
    requires c !in a
    ensures SplitOnce(a + [c] + b, c) == Some((a, b))
  {
    IndexOfFirst(a, c, b);
    var s := a + [c] + b;
    assert s[..|a|] == a && s[|a| + 1..] == b;
  }

  /** `str::split`: at every occurrence, always at least one part. */
  function Split(s: string, c: char): (parts: seq<string>)
    ensures |parts| > 0
    ensures forall p :: p in parts ==> c !in p
    decreases |s|
  {
    var i := IndexOf(s, c);
    if i < |s| then [s[..i]] + Split(s[i + 1..], c) else [s]
  }

  lemma SplitAt(a: string, c: char, b: string)
    requires c !in a
    ensures Split(a + [c] + b, c) == [a] + Split(b, c)
  {
    SplitOnceAt(a, c, b);
  }

  lemma SplitNone(a: string, c: char)
    requires c !in a
    ensures Split(a, c) == [a]
  {
    IndexOfAbsent(a, c);
  }

  /** A trailing part with no separator in it is split off last. */
  lemma {:induction false} SplitLast(a: string, c: char, b: string)
    requires c !in b
    ensures Split(a + [c] + b, c) == Split(a, c) + [b]
    decreases |a|
  {
    var i := IndexOf(a, c);
    if i == |a| {
      hide Split, IndexOf;
      assert a[..i] == a;
      SplitNone(a, c);
      SplitNone(b, c);
      SplitAt(a, c, b);
    } else {
      hide Split, IndexOf;
      var rest := a[i + 1..];
      assert a == a[..i] + [c] + rest;
      assert a + [c] + b == a[..i] + [c] + (rest + [c] + b);
      SplitAt(a[..i], c, rest + [c] + b);
      SplitAt(a[..i], c, rest);
      SplitLast(rest, c, b);
    }
  }

  /** `str::strip_prefix`. */
  function StripPrefix(s: string, pat: string): Option<string> {
    if pat <= s then Some(s[|pat|..]) else None
  }

  /** `str::trim_start_matches` with a string pattern: strips as often as it can. */
  function TrimStartMatches(s: string, pat: string): string
    requires pat != ""
    decreases |s|
  {
    if pat <= s then TrimStartMatches(s[|pat|..], pat) else s
  }

  lemma TrimOne(pat: string, rest: string)
    requires pat != ""
    ensures TrimStartMatches(pat + rest, pat) == TrimStartMatches(rest, pat)
  {
    assert (pat + rest)[|pat|..] == rest;
  }

  /** Repeats of the pattern are all stripped from the front, and nothing else is. */
  lemma {:induction false} TrimRepeats(pat: string, times: nat, s: string)
    requires pat != "" && !(pat <= s)
    ensures TrimStartMatches(Repeated(pat, times) + s, pat) == s
  {
    if times == 0 {
      assert "" + s == s;
    } else {
      hide TrimStartMatches;
      TrimRepeats(pat, times - 1, s);
      var rest := Repeated(pat, times - 1) + s;
      assert Repeated(pat, times) + s == pat + rest;
      TrimOne(pat, rest);
    }
  }

  function Repeated(pat: string, times: nat): string {
    if times == 0 then "" else pat + Repeated(pat, times - 1)
  }

  predicate IsDigit(c: char) {
    '0' <= c <= '9'
  }

  function DigitChar(d: nat): (c: char)
    requires d < 10
    ensures IsDigit(c) && c as int - '0' as int == d
  {
    ('0' as int + d) as char
  }

  /** `Display` of an unsigned integer. */
  function Decimal(n: nat): (s: string)
    ensures s != ""
    ensures forall c :: c in s ==> IsDigit(c)
  {
    if n < 10 then [DigitChar(n)] else Decimal(n / 10) + [DigitChar(n % 10)]
  }

  function DigitsValue(s: string): nat
    requires forall c :: c in s ==> IsDigit(c)
  {
    if s == "" then 0 else
      assert IsDigit(s[|s| - 1]);
      10 * DigitsValue(s[..|s| - 1]) + (s[|s| - 1] as int - '0' as int)
  }

  /** `FromStr` of an unsigned integer type with the given maximum: an optional
      plus sign, then at least one digit, and no overflow. */
  function ParseUint(s: string, max: nat): Option<nat> {
    var digits := if s != "" && s[0] == '+' then s[1..] else s;
    if digits != "" && (forall c :: c in digits ==> IsDigit(c)) && DigitsValue(digits) <= max
    then Some(DigitsValue(digits)) else None
  }

  lemma {:induction false} DigitsOfDecimal(n: nat)
    ensures DigitsValue(Decimal(n)) == n
  {
    if n >= 10 {
      DigitsOfDecimal(n / 10);
      var s := Decimal(n);
      assert s[..|s| - 1] == Decimal(n / 10);
    } else {
      assert Decimal(n)[..0] == "";
    }
  }

  /** A number prints as text that reads back, with or without a plus sign, if it is within the maximum. */
  lemma ParsePrintedUint(n: nat, max: nat)
    ensures ParseUint(Decimal(n), max) == if n <= max then Some(n) else None
    ensures ParseUint("+" + Decimal(n), max) == if n <= max then Some(n) else None
  {
    DigitsOfDecimal(n);
    assert Decimal(n)[0] in Decimal(n);
    assert ("+" + Decimal(n))[1..] == Decimal(n);
  }

  lemma DecimalInjective(m: nat, n: nat)
    requires Decimal(m) == Decimal(n)
    ensures m == n
  {
    DigitsOfDecimal(m);
    DigitsOfDecimal(n);
  }
}
