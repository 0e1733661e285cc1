/**
 * Text operations of the two host languages, as the storefront uses them:
 * Python's str() of an integer, int() of a string, str.strip(), slicing,
 * str.split(c)[0] and str.lower(); JavaScript's trim() and the whitespace
 * class \s. Strings are sequences of Unicode code points.
 */
module Text {
  import opened Wrappers

  // ---------------------------------------------------------------------------
  // Decimal digits

  predicate IsDigit(c: char) { '0' <= c <= '9' }

  predicate AllDigits(s: string) { forall i :: 0 <= i < |s| ==> IsDigit(s[i]) }

  function DigitValue(c: char): (d: nat)
    requires IsDigit(c)
    ensures d < 10
  {
    (c as int) - ('0' as int)
  }

  function DigitChar(d: nat): (c: char)
    requires d < 10
    ensures IsDigit(c) && DigitValue(c) == d
  {
    (('0' as int) + d) as char
  }

  /** The number a string of decimal digits denotes, most significant digit first. */
  function DigitsValue(s: string): nat
    requires AllDigits(s)
  {
    if s == [] then 0 else DigitsValue(s[..|s| - 1]) * 10 + DigitValue(s[|s| - 1])
  }

  /** Python's str(n) for a non-negative integer. */
  function NatToString(n: nat): string
  {
    if n < 10 then [DigitChar(n)] else NatToString(n / 10) + [DigitChar(n % 10)]
  }

  /** str(n) is the shortest decimal spelling of n: digits only, no leading zero, denoting n. */
  lemma {:induction false} NatToStringSpelling(n: nat)
    ensures var r := NatToString(n);
      && |r| >= 1 && AllDigits(r)
      && (|r| > 1 ==> r[0] != '0')
      && DigitsValue(r) == n
  {
    if n >= 10 {
      NatToStringSpelling(n / 10);
      var r := NatToString(n);
      assert r[..|r| - 1] == NatToString(n / 10);
    }
  }

  /** Two numbers with the same spelling are equal, so str() keys identify products. */
  lemma NatToStringInjective(a: nat, b: nat)
    requires NatToString(a) == NatToString(b)
    ensures a == b
  {
    NatToStringSpelling(a);
    NatToStringSpelling(b);
  }

  // ---------------------------------------------------------------------------
  // Whitespace, trimming, filtering

  /** Python's str.isspace() for one character. */
  predicate PyIsSpace(c: char)
  {
    c == ' ' || ('\t' <= c <= '\r') || ('\U{1c}' <= c <= '\U{1f}') || c == '\U{85}' || c == '\U{a0}'
    || c == '\U{1680}' || ('\U{2000}' <= c <= '\U{200a}') || c == '\U{2028}' || c == '\U{2029}'
    || c == '\U{202f}' || c == '\U{205f}' || c == '\U{3000}'
  }

  /** JavaScript's WhiteSpace and LineTerminator characters: what trim() removes and \s matches. */
  predicate JsIsSpace(c: char)
  {
    c == ' ' || ('\t' <= c <= '\r') || c == '\U{a0}' || c == '\U{1680}' || ('\U{2000}' <= c <= '\U{200a}')
    || c == '\U{2028}' || c == '\U{2029}' || c == '\U{202f}' || c == '\U{205f}' || c == '\U{3000}'
    || c == '\U{feff}'
  }

  /** How many characters at the start of s satisfy ws. */
  function LeadingCount(s: string, ws: char -> bool): (n: nat)
    ensures n <= |s|
  {
    if s == [] || !ws(s[0]) then 0 else 1 + LeadingCount(s[1..], ws)
  }

  /** LeadingCount is the length of the longest prefix of ws characters. */
  lemma {:induction false} LeadingCountSpec(s: string, ws: char -> bool)
    ensures var n := LeadingCount(s, ws);
      && (forall i :: 0 <= i < n ==> ws(s[i]))
      && (n < |s| ==> !ws(s[n]))
  {
    if s != [] && ws(s[0]) {
      LeadingCountSpec(s[1..], ws);
    }
  }

  /** The length of s once the characters satisfying ws are cut from its end. */
  function TrailingEnd(s: string, ws: char -> bool): (n: nat)
    ensures n <= |s|
  {
    if s == [] || !ws(s[|s| - 1]) then |s| else TrailingEnd(s[..|s| - 1], ws)
  }

  /** TrailingEnd is where the longest suffix of ws characters begins. */
  lemma {:induction false} TrailingEndSpec(s: string, ws: char -> bool)
    ensures var n := TrailingEnd(s, ws);
      && (forall i :: n <= i < |s| ==> ws(s[i]))
      && (n > 0 ==> !ws(s[n - 1]))
  {
    if s != [] && ws(s[|s| - 1]) {
      TrailingEndSpec(s[..|s| - 1], ws);
    }
  }

  /** s without the ws characters at either end (Python's strip(), JavaScript's trim()). */
  function Strip(s: string, ws: char -> bool): (r: string)
    ensures |r| <= |s|
  {
    var t := s[LeadingCount(s, ws)..];
    t[..TrailingEnd(t, ws)]
  }

  /** Strip keeps a slice of s whose own ends are not whitespace. */
  lemma StripSlice(s: string, ws: char -> bool)
    ensures var r := Strip(s, ws);
      var k := LeadingCount(s, ws);
      && k + |r| <= |s|
      && r == s[k..k + |r|]
      && (r != [] ==> !ws(r[0]) && !ws(r[|r| - 1]))
  {
    var k := LeadingCount(s, ws);
    var t := s[k..];
    LeadingCountSpec(s, ws);
    TrailingEndSpec(t, ws);
  }

  /** Everything Strip cuts from either end of s is whitespace. */
  lemma StripSurround(s: string, ws: char -> bool)
    ensures var r := Strip(s, ws);
      var k := LeadingCount(s, ws);
      && k + |r| <= |s|
      && (forall i :: 0 <= i < k ==> ws(s[i]))
      && (forall i :: k + |r| <= i < |s| ==> ws(s[i]))
  {
    var k := LeadingCount(s, ws);
    var t := s[k..];
    var e := TrailingEnd(t, ws);
    LeadingCountSpec(s, ws);
    TrailingEndSpec(t, ws);
    assert Strip(s, ws) == t[..e];
    forall i | k + e <= i < |s|
      ensures ws(s[i])
    {
      assert t[i - k] == s[i];
    }
  }

  /** The elements of s that satisfy keep, in order. */
  function Filter<T>(s: seq<T>, keep: T -> bool): (r: seq<T>)
    ensures |r| <= |s|
  {
    if s == [] then [] else (if keep(s[0]) then [s[0]] else []) + Filter(s[1..], keep)
  }

  /** What Filter keeps are exactly the elements of s that pass. */
  lemma {:induction false} FilterMembers<T>(s: seq<T>, keep: T -> bool)
    ensures forall x :: x in Filter(s, keep) <==> x in s && keep(x)
  {
    if s != [] {
      FilterMembers(s[1..], keep);
      assert s == [s[0]] + s[1..];
    }
  }

  lemma {:induction false} FilterAppend<T>(a: seq<T>, b: seq<T>, keep: T -> bool)
    ensures Filter(a + b, keep) == Filter(a, keep) + Filter(b, keep)
  {
    if a == [] {
      assert a + b == b;
    } else {
      assert (a + b)[0] == a[0];
      assert (a + b)[1..] == a[1..] + b;
      FilterAppend(a[1..], b, keep);
      var head := if keep(a[0]) then [a[0]] else [];
      assert Filter(a + b, keep) == head + Filter(a[1..] + b, keep);
      assert Filter(a, keep) == head + Filter(a[1..], keep);
    }
  }

  /** Filtering a sequence whose every element passes changes nothing. */
  lemma {:induction false} FilterKeepsAll<T>(s: seq<T>, keep: T -> bool)
    requires forall i :: 0 <= i < |s| ==> keep(s[i])
    ensures Filter(s, keep) == s
  {
    if s != [] {
      FilterKeepsAll(s[1..], keep);
    }
  }

  /** Filtering a sequence whose every element fails leaves nothing. */
  lemma {:induction false} FilterDropsAll<T>(s: seq<T>, keep: T -> bool)
    requires forall i :: 0 <= i < |s| ==> !keep(s[i])
    ensures Filter(s, keep) == []
  {
    if s != [] {
      FilterDropsAll(s[1..], keep);
    }
  }

  /** Taking out an element that Filter drops does not change the result. */
  lemma {:induction false} FilterSkipsAt<T>(s: seq<T>, i: nat, keep: T -> bool)
    requires i < |s| && !keep(s[i])
    ensures Filter(s[..i] + s[i + 1..], keep) == Filter(s, keep)
  {
    var t := s[..i] + s[i + 1..];
    if i == 0 {
      assert t == s[1..];
    } else {
      assert t[0] == s[0];
      assert t[1..] == s[1..][..i - 1] + s[1..][i..];
      FilterSkipsAt(s[1..], i - 1, keep);
    }
  }

  /** Replacing a dropped element by another dropped one does not change the result. */
  lemma {:induction false} FilterIgnoresDropped<T>(s: seq<T>, i: nat, x: T, keep: T -> bool)
    requires i < |s| && !keep(s[i]) && !keep(x)
    ensures Filter(s[i := x], keep) == Filter(s, keep)
  {
    var t := s[i := x];
    if i == 0 {
      assert t[1..] == s[1..];
    } else {
      assert t[0] == s[0];
      assert t[1..] == s[1..][i - 1 := x];
      FilterIgnoresDropped(s[1..], i - 1, x, keep);
    }
  }

  /** Removing every ws character after stripping gives what removing them from s gives. */
  lemma StripThenFilter(s: string, ws: char -> bool, keep: char -> bool)
    requires forall c :: keep(c) == !ws(c)
    ensures Filter(Strip(s, ws), keep) == Filter(s, keep)
  {
    var k := LeadingCount(s, ws);
    var r := Strip(s, ws);
    StripSlice(s, ws);
    var a := s[..k];
    var b := s[k + |r|..];
    assert s == a + r + b;
    assert Filter(a, keep) == [] by {
      StripSurround(s, ws);
      FilterDropsAll(a, keep);
    }
    assert Filter(b, keep) == [] by {
      StripSurround(s, ws);
      FilterDropsAll(b, keep);
    }
    FilterAppend(a + r, b, keep);
    FilterAppend(a, r, keep);
  }

  /** How many times c occurs in s. */
  function Count(s: string, c: char): nat
  {
    if s == [] then 0 else (if s[0] == c then 1 else 0) + Count(s[1..], c)
  }

  lemma {:induction false} CountAppend(a: string, b: string, c: char)
    ensures Count(a + b, c) == Count(a, c) + Count(b, c)
  {
    if a == [] {
      assert a + b == b;
    } else {
      assert (a + b)[1..] == a[1..] + b;
      CountAppend(a[1..], b, c);
    }
  }

  lemma {:induction false} CountAbsent(s: string, c: char)
    requires c !in s
    ensures Count(s, c) == 0
  {
    if s != [] {
      CountAbsent(s[1..], c);
    }
  }

  lemma {:induction false} CountPresent(s: string, c: char)
    requires c in s
    ensures Count(s, c) >= 1
  {
    if s[0] != c {
      CountPresent(s[1..], c);
    }
  }

  /** Filtering keeps every occurrence of a character it keeps. */
  lemma {:induction false} CountFilterKept(s: string, keep: char -> bool, c: char)
    requires keep(c)
    ensures Count(Filter(s, keep), c) == Count(s, c)
  {
    if s != [] {
      CountFilterKept(s[1..], keep, c);
      if keep(s[0]) {
        assert Filter(s, keep) == [s[0]] + Filter(s[1..], keep);
        assert ([s[0]] + Filter(s[1..], keep))[1..] == Filter(s[1..], keep);
      } else {
        assert Filter(s, keep) == Filter(s[1..], keep);
      }
    }
  }

  // ---------------------------------------------------------------------------
  // Slicing and searching

  /** Python's s[:n] for n >= 0: the first n characters, or all of s when it is shorter. */
  function Take<T>(s: seq<T>, n: nat): (r: seq<T>)
    ensures |r| == if |s| < n then |s| else n
    ensures r == s[..|r|]
  {
    if |s| <= n then s else s[..n]
  }

  lemma SliceOfSlice<T>(s: seq<T>, a: nat, n: nat, m: nat)
    requires a + n <= |s| && m <= n
    ensures s[a..a + n][..m] == s[a..a + m]
  {
  }

  lemma PrefixSlice<T>(s: seq<T>, p: nat, a: nat, m: nat)
    requires a + m <= p <= |s|
    ensures s[..p][a..a + m] == s[a..a + m]
  {
  }

  lemma NotInSlice<T>(x: T, s: seq<T>, a: nat, b: nat)
    requires a <= b <= |s| && x !in s
    ensures x !in s[a..b]
  {
    forall i | 0 <= i < b - a
      ensures s[a..b][i] != x
    {
      assert s[a..b][i] == s[a + i];
    }
  }

  /** Python's s.startswith(p). */
  predicate StartsWith(s: string, p: string)
  {
    |p| <= |s| && s[..|p|] == p
  }

  /** Python's p in s for strings: p occurs in s as a contiguous piece. */
  predicate Contains(s: string, p: string)
    decreases |s|
  {
    StartsWith(s, p) || (s != [] && Contains(s[1..], p))
  }

  /** An occurrence at offset k is found by Contains. */
  lemma {:induction false} ContainsAt(s: string, p: string, k: nat)
    requires k + |p| <= |s| && s[k..k + |p|] == p
    ensures Contains(s, p)
    decreases k
  {
    if k > 0 {
      assert s[1..][k - 1..k - 1 + |p|] == p;
      ContainsAt(s[1..], p, k - 1);
    }
  }

  /**
   * Python's s.split(c)[0]: the text before the first c, or all of s when c does not occur.
   */
  function BeforeFirst(s: string, c: char): (r: string)
    ensures c !in r
    ensures |r| <= |s| && r == s[..|r|]
    ensures |r| < |s| ==> s[|r|] == c
  {
    if s == [] || s[0] == c then []
    else
      var r := [s[0]] + BeforeFirst(s[1..], c);
      assert s == [s[0]] + s[1..];
      r
  }

  /** JavaScript's s.replace(a, b) with a one-character string pattern: only the first a is replaced. */
  function ReplaceFirst(s: string, a: char, b: char): (r: string)
    ensures |r| == |s|
    ensures a !in s ==> r == s
    ensures a in s ==>
      var k := |BeforeFirst(s, a)|;
      r == s[..k] + [b] + s[k + 1..]
  {
    if s == [] then []
    else if s[0] == a then [b] + s[1..]
    else
      var r := [s[0]] + ReplaceFirst(s[1..], a, b);
      assert s == [s[0]] + s[1..];
      r
  }

  /** Replacing the first a by b moves exactly one occurrence from a to b. */
  lemma {:induction false} ReplaceFirstCounts(s: string, a: char, b: char)
    requires a in s && a != b
    ensures Count(ReplaceFirst(s, a, b), a) == Count(s, a) - 1
    ensures Count(ReplaceFirst(s, a, b), b) == Count(s, b) + 1
  {
    var r := ReplaceFirst(s, a, b);
    if s[0] == a {
      assert r == [b] + s[1..];
      assert r[1..] == s[1..];
    } else {
      assert a in s[1..] by {
        var i :| 0 <= i < |s| && s[i] == a;
        assert i > 0 && s[1..][i - 1] == a;
      }
      ReplaceFirstCounts(s[1..], a, b);
      assert r == [s[0]] + ReplaceFirst(s[1..], a, b);
      assert r[1..] == ReplaceFirst(s[1..], a, b);
    }
  }

  /** Every character of ReplaceFirst(s, a, b) comes from s or is b. */
  lemma {:induction false} ReplaceFirstMembers(s: string, a: char, b: char)
    ensures forall c :: c in ReplaceFirst(s, a, b) ==> c in s || c == b
  {
    if s != [] && s[0] != a {
      ReplaceFirstMembers(s[1..], a, b);
      assert ReplaceFirst(s, a, b) == [s[0]] + ReplaceFirst(s[1..], a, b);
    }
  }

  // ---------------------------------------------------------------------------
  // Python's int() of a string

  /** Where int() is in its left-to-right reading of a string. */
  datatype ScanState =
    | Leading                                     // only whitespace read so far
    | AfterSign(negative: bool)                   // a sign, which must be followed by a digit
    | InDigits(negative: bool, value: nat)        // digits read, the last one a digit
    | AfterUnderscore(negative: bool, value: nat) // an underscore, which must be followed by a digit
    | Trailing(result: int)                       // the number is complete; only whitespace may follow

  /**
   * Python's int(s) on a string, None where it raises ValueError: surrounding whitespace is
   * ignored, then an optional sign, then decimal digits with single underscores allowed
   * between two digits.
   */
  function ParseInt(s: string): Option<int>
  {
    Scan(s, Leading)
  }

  function Signed(negative: bool, v: nat): int
  {
    if negative then -(v as int) else v
  }

  /** The rest of the reading of int(), from state st with s still to read. */
  function Scan(s: string, st: ScanState): Option<int>
  {
    if s == [] then
      match st
      case InDigits(neg, v) => Some(Signed(neg, v))
      case Trailing(r) => Some(r)
      case _ => None
    else
      var c, rest := s[0], s[1..];
      match st
      case Leading =>
        if PyIsSpace(c) then Scan(rest, Leading)
        else if c == '-' || c == '+' then Scan(rest, AfterSign(c == '-'))
        else if IsDigit(c) then Scan(rest, InDigits(false, DigitValue(c)))
        else None
      case AfterSign(neg) =>
        if IsDigit(c) then Scan(rest, InDigits(neg, DigitValue(c))) else None
      case InDigits(neg, v) =>
        if IsDigit(c) then Scan(rest, InDigits(neg, v * 10 + DigitValue(c)))
        else if c == '_' then Scan(rest, AfterUnderscore(neg, v))
        else if PyIsSpace(c) then Scan(rest, Trailing(Signed(neg, v)))
        else None
      case AfterUnderscore(neg, v) =>
        if IsDigit(c) then Scan(rest, InDigits(neg, v * 10 + DigitValue(c))) else None
      case Trailing(r) =>
        if PyIsSpace(c) then Scan(rest, Trailing(r)) else None
  }

  /** Reading further digits t after digits s gives the number s + t denotes. */
  lemma {:induction false} ScanDigits(s: string, t: string, negative: bool)
    requires AllDigits(s) && AllDigits(t)
    ensures AllDigits(s + t)
    ensures Scan(t, InDigits(negative, DigitsValue(s))) == Some(Signed(negative, DigitsValue(s + t)))
    decreases |t|
  {
    if t == [] {
      assert s + t == s;
    } else {
      var s' := s + [t[0]];
      assert s'[..|s'| - 1] == s;
      assert s' + t[1..] == s + t;
      ScanDigits(s', t[1..], negative);
    }
  }

  /** What str() writes, int() reads back: the round trip that ties cart keys to product ids. */
  lemma ParseIntOfNatToString(n: nat)
    ensures ParseInt(NatToString(n)) == Some(n)
  {
    var s := NatToString(n);
    NatToStringSpelling(n);
    var first := [s[0]];
    assert first[..0] == [];
    assert first + s[1..] == s;
    ScanDigits(first, s[1..], false);
  }

  /** int() of "-" followed by str(n) reads back -n. */
  lemma ParseIntOfNegative(n: nat)
    ensures ParseInt("-" + NatToString(n)) == Some(-(n as int))
  {
    var s := NatToString(n);
    NatToStringSpelling(n);
    var first := [s[0]];
    assert first[..0] == [];
    assert first + s[1..] == s;
    var t := "-" + s;
    assert t[0] == '-' && t[1..] == s;
    assert Scan(t, Leading) == Scan(s, AfterSign(true));
    ScanDigits(first, s[1..], true);
  }

  /** Whitespace around a number is ignored. */
  lemma {:induction false} ParseIntSkipsLeadingSpace(c: char, s: string)
    requires PyIsSpace(c)
    ensures ParseInt([c] + s) == ParseInt(s)
  {
    assert ([c] + s)[1..] == s;
  }

  // ---------------------------------------------------------------------------
  // Lower-casing for comparison against ASCII lower-case words

  /**
   * Python's c.lower() as far as it can yield an ASCII character: A-Z become a-z, and the
   * KELVIN SIGN becomes 'k'. Every other character either lowers to itself or to text that
   * is not ASCII, so comparing against ASCII words gives the same answer as Python.
   */
  function LowerChar(c: char): (r: char)
    ensures 'a' <= r <= 'z' <==> ('a' <= c <= 'z' || 'A' <= c <= 'Z' || c == '\U{212a}')
  {
    if 'A' <= c <= 'Z' then ((c as int) + 32) as char
    else if c == '\U{212a}' then 'k'
    else c
  }

  /** s.lower(), for comparison against ASCII words. */
  function Lower(s: string): (r: string)
    ensures |r| == |s|
  {
    if s == [] then [] else [LowerChar(s[0])] + Lower(s[1..])
  }

  /** Lower works character by character. */
  lemma {:induction false} LowerChars(s: string)
    ensures forall i :: 0 <= i < |s| ==> Lower(s)[i] == LowerChar(s[i])
  {
    if s != [] {
      LowerChars(s[1..]);
      assert forall i :: 1 <= i < |s| ==> Lower(s)[i] == Lower(s[1..])[i - 1];
    }
  }
}
