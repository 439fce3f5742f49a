/**
 * The string primitives the validator and the session log rely on: Python's
 * `str.lower()` and `str.strip()` restricted to ASCII, `str.startswith`, and
 * the decimal rendering of a natural number inside an f-string.
 */
module Text {

  /** Python's `str.isspace()` on the ASCII range: TAB, LF, VT, FF, CR,
      the four information separators 0x1C..0x1F, and SPACE. */
  predicate IsSpace(c: char) {
    var n := c as int;
    (9 <= n <= 13) || (28 <= n <= 32)
  }

  ghost predicate AllSpaces(s: string) {
    forall k :: 0 <= k < |s| ==> IsSpace(s[k])
  }

  /** ASCII case folding of one character, as `str.lower()` does on 'A'..'Z'. */
  function LowerChar(c: char): char {
    if 'A' <= c <= 'Z' then (c as int + 32) as char else c
  }

  function Lower(s: string): (r: string)
    ensures |r| == |s|
  {
    seq(|s|, i requires 0 <= i < |s| => LowerChar(s[i]))
  }

  /** `lower()` changes a character exactly when it is an upper-case ASCII
      letter, and then to the matching lower-case one. */
  lemma LowerChangesOnlyUpper(s: string, i: int)
    requires 0 <= i < |s|
    ensures Lower(s)[i] != s[i] <==> 'A' <= s[i] <= 'Z'
    ensures 'A' <= s[i] <= 'Z' ==> Lower(s)[i] as int == s[i] as int + 32
  {
  }

  /** Drops leading whitespace (the left half of `str.strip()`). */
  function TrimStart(s: string): (r: string)
    ensures |r| <= |s|
    ensures forall k :: 0 <= k < |s| - |r| ==> IsSpace(s[k])
    ensures r == [] || !IsSpace(r[0])
    decreases |s|
  {
    if |s| > 0 && IsSpace(s[0]) then TrimStart(s[1..]) else s
  }

  /** Drops trailing whitespace (the right half of `str.strip()`). */
  function TrimEnd(s: string): (r: string)
    ensures |r| <= |s|
    ensures forall k :: |r| <= k < |s| ==> IsSpace(s[k])
    ensures r == [] || !IsSpace(r[|r| - 1])
    decreases |s|
  {
    if |s| > 0 && IsSpace(s[|s| - 1]) then TrimEnd(s[..|s| - 1]) else s
  }

  /** Trimming the front leaves a suffix of the string. */
  lemma {:induction false} TrimStartIsSuffix(s: string)
    ensures TrimStart(s) == s[|s| - |TrimStart(s)|..]
    decreases |s|
  {
    if |s| > 0 && IsSpace(s[0]) {
      TrimStartIsSuffix(s[1..]);
    }
  }

  /** Trimming the back leaves a prefix of the string. */
  lemma {:induction false} TrimEndIsPrefix(s: string)
    ensures TrimEnd(s) == s[..|TrimEnd(s)|]
    decreases |s|
  {
    if |s| > 0 && IsSpace(s[|s| - 1]) {
      TrimEndIsPrefix(s[..|s| - 1]);
    }
  }

  /** `str.strip()`: the result has no whitespace at either end. */
  function Strip(s: string): (r: string)
    ensures |r| <= |s|
    ensures r == [] || (!IsSpace(r[0]) && !IsSpace(r[|r| - 1]))
  {
    TrimEndIsPrefix(TrimStart(s));
    TrimEnd(TrimStart(s))
  }

  /** `s.lower().strip()`, in the order the validator applies them. */
  function Normalize(s: string): string {
    Strip(Lower(s))
  }

  predicate StartsWith(s: string, prefix: string) {
    |prefix| <= |s| && s[..|prefix|] == prefix
  }

  function DigitChar(d: nat): (c: char)
    requires d < 10
    ensures '0' <= c <= '9' && c as int - '0' as int == d
  {
    (d + '0' as int) as char
  }

  /** The decimal text of `n`, as Python formats an `int` in an f-string. */
  function NatToString(n: nat): (s: string)
    ensures |s| >= 1
    ensures s[0] == '0' ==> n == 0
    decreases n
  {
    if n < 10 then [DigitChar(n)] else NatToString(n / 10) + [DigitChar(n % 10)]
  }

  ghost predicate AllDigits(s: string) {
    forall k :: 0 <= k < |s| ==> '0' <= s[k] <= '9'
  }

  /** The number a string of decimal digits denotes; the partner of NatToString. */
  function DecimalValue(s: string): nat
    requires AllDigits(s)
    decreases |s|
  {
    if s == [] then 0 else 10 * DecimalValue(s[..|s| - 1]) + (s[|s| - 1] as int - '0' as int)
  }

  /** The text of `n` is all decimal digits and reads back as `n`. */
  lemma {:induction false} DecimalRoundTrip(n: nat)
    ensures AllDigits(NatToString(n)) && DecimalValue(NatToString(n)) == n
    decreases n
  {
    if n >= 10 {
      DecimalRoundTrip(n / 10);
      var s := NatToString(n);
      assert s[..|s| - 1] == NatToString(n / 10);
    }
  }

  lemma {:induction false} TrimStartOfSpaces(p: string)
    requires AllSpaces(p)
    ensures TrimStart(p) == []
    decreases |p|
  {
    if p != [] {
      TrimStartOfSpaces(p[1..]);
    }
  }

  lemma {:induction false} TrimEndOfSpaces(p: string)
    requires AllSpaces(p)
    ensures TrimEnd(p) == []
    decreases |p|
  {
    if p != [] {
      TrimEndOfSpaces(p[..|p| - 1]);
    }
  }

  /** Trimming the front of a concatenation only reaches into `t` when `s` is blank. */
  lemma {:induction false} TrimStartAppend(s: string, t: string)
    ensures TrimStart(s + t) == if TrimStart(s) == [] then TrimStart(t) else TrimStart(s) + t
    decreases |s|
  {
    if s == [] {
      assert s + t == t;
    } else if IsSpace(s[0]) {
      assert (s + t)[1..] == s[1..] + t;
      TrimStartAppend(s[1..], t);
    }
  }

  /** Trimming the back of a concatenation only reaches into `s` when `t` is blank. */
  lemma {:induction false} TrimEndPrepend(s: string, t: string)
    ensures TrimEnd(s + t) == if TrimEnd(t) == [] then TrimEnd(s) else s + TrimEnd(t)
    decreases |t|
  {
    if t == [] {
      assert s + t == s;
    } else if IsSpace(t[|t| - 1]) {
      var t' := t[..|t| - 1];
      assert (s + t)[..|s + t| - 1] == s + t';
      TrimEndPrepend(s, t');
    }
  }

  /** `strip()` removes exactly the surrounding whitespace: padding on either side
      makes no difference to the result. */
  lemma StripIgnoresPadding(p: string, s: string, q: string)
    requires AllSpaces(p) && AllSpaces(q)
    ensures Strip(p + s + q) == Strip(s)
  {
    assert p + s + q == p + (s + q);
    TrimStartOfSpaces(p);
    TrimStartAppend(p, s + q);
    TrimStartOfSpaces(q);
    TrimStartAppend(s, q);
    if TrimStart(s) != [] {
      TrimEndOfSpaces(q);
      TrimEndPrepend(TrimStart(s), q);
    }
  }

  /** A string that neither starts nor ends with whitespace is its own strip. */
  lemma StripUnpadded(s: string)
    requires s == [] || (!IsSpace(s[0]) && !IsSpace(s[|s| - 1]))
    ensures Strip(s) == s
  {
  }

  lemma LowerAppend(s: string, t: string)
    ensures Lower(s + t) == Lower(s) + Lower(t)
  {
    assert forall i :: 0 <= i < |s + t| ==> Lower(s + t)[i] == (Lower(s) + Lower(t))[i];
  }

  lemma {:induction false} LowerTrimStart(s: string)
    ensures Lower(TrimStart(s)) == TrimStart(Lower(s))
    decreases |s|
  {
    if |s| > 0 && IsSpace(s[0]) {
      assert Lower(s)[1..] == Lower(s[1..]);
      LowerTrimStart(s[1..]);
    }
  }

  lemma {:induction false} LowerTrimEnd(s: string)
    ensures Lower(TrimEnd(s)) == TrimEnd(Lower(s))
    decreases |s|
  {
    if |s| > 0 && IsSpace(s[|s| - 1]) {
      assert Lower(s)[..|s| - 1] == Lower(s[..|s| - 1]);
      LowerTrimEnd(s[..|s| - 1]);
    }
  }

  /** Folding case and stripping commute, so `lower().strip()` and
      `strip().lower()` normalise every string alike. */
  lemma NormalizeOrderIrrelevant(s: string)
    ensures Normalize(s) == Lower(Strip(s))
  {
    LowerTrimStart(s);
    LowerTrimEnd(TrimStart(s));
  }

  /** Normalisation ignores letter case and surrounding whitespace: a padded
      string normalises like any string that differs from it only in case. */
  lemma NormalizeIgnoresCaseAndPadding(p: string, a: string, q: string, b: string)
    requires AllSpaces(p) && AllSpaces(q)
    requires Lower(a) == Lower(b)
    ensures Normalize(p + a + q) == Normalize(b)
  {
    LowerAppend(p + a, q);
    LowerAppend(p, a);
    StripIgnoresPadding(Lower(p), Lower(a), Lower(q));
  }
}
