/**
 * C strings and the few libc string routines the flag library relies on
 * (strlen/strchr, strncpy, strcpy/snprintf into a bounded buffer, atoi/atoll),
 * stated over Dafny sequences of characters.
 */
module CStrings {
  import opened Wrappers

  const NUL: char := '\0'

  /** The characters a `const char *` points at, up to (not including) its terminating NUL. */
  type CString = s: seq<char> | NUL !in s

  /** Ranges of the C types `int` and `long long` (two's complement, 32 and 64 bits). */
  const IntMin: int := -0x8000_0000
  const IntMax: int := 0x7FFF_FFFF
  const LongMin: int := -0x8000_0000_0000_0000
  const LongMax: int := 0x7FFF_FFFF_FFFF_FFFF

  predicate InIntRange(x: int) { IntMin <= x <= IntMax }
  predicate InLongRange(x: int) { LongMin <= x <= LongMax }

  function Min(a: nat, b: nat): nat { if a <= b then a else b }

  /** The first `n` characters of `s` (all of `s` when it is shorter). */
  function Clip(s: CString, n: nat): (r: CString)
    ensures |r| == Min(|s|, n) && r == s[..|r|]
  {
    s[..Min(|s|, n)]
  }

  /** Index of the first `c` at or after `from` (strchr when `from` is 0). */
  function IndexOf(s: seq<char>, c: char, from: nat): (r: Option<nat>)
    ensures r.Some? ==> from <= r.value < |s| && s[r.value] == c
    ensures r.Some? ==> forall k :: from <= k < r.value ==> s[k] != c
    ensures r.None? ==> forall k :: from <= k < |s| ==> s[k] != c
    decreases |s| - from
  {
    if from >= |s| then None
    else if s[from] == c then Some(from)
    else IndexOf(s, c, from + 1)
  }

  /** The C string held in a buffer: its characters before the first NUL (the whole buffer when it has none). */
  function Text(buf: seq<char>): (r: CString)
    ensures |r| <= |buf| && r == buf[..|r|]
    ensures |r| < |buf| ==> buf[|r|] == NUL
  {
    if |buf| == 0 || buf[0] == NUL then []
    else [buf[0]] + Text(buf[1..])
  }

  /**
   * strncpy(dst, src, n): the first n bytes of dst become src followed by
   * NUL padding (with no terminator when |src| >= n); bytes from n on are kept.
   */
  function StrNCpy(dst: seq<char>, src: CString, n: nat): (r: seq<char>)
    requires n <= |dst|
  {
    seq(|dst|, k requires 0 <= k < |dst| => if k < n then (if k < |src| then src[k] else NUL) else dst[k])
  }

  /** strcpy(buf, t), and snprintf of a text that fits: t, then a NUL, then the old bytes. */
  function WriteText(buf: seq<char>, t: CString): (r: seq<char>)
    requires |t| < |buf|
  {
    t + [NUL] + buf[|t| + 1..]
  }

  lemma {:induction false} TextOfTerminated(t: CString, rest: seq<char>)
    ensures Text(t + [NUL] + rest) == t
    decreases |t|
  {
    if t == [] {
      assert (t + [NUL] + rest)[0] == NUL;
    } else {
      assert (t + [NUL] + rest)[1..] == t[1..] + [NUL] + rest;
      TextOfTerminated(t[1..], rest);
    }
  }

  /** The C string written by WriteText is exactly the text written. */
  lemma WriteTextReadsBack(buf: seq<char>, t: CString)
    requires |t| < |buf|
    ensures |WriteText(buf, t)| == |buf| && Text(WriteText(buf, t)) == t
  {
    TextOfTerminated(t, buf[|t| + 1..]);
  }

  /**
   * strncpy into a buffer wide enough for src and its terminator reproduces
   * src as a C string; a longer src leaves its first n characters and no NUL
   * among them. Either way the bytes from n on are untouched.
   */
  lemma StrNCpyText(dst: seq<char>, src: CString, n: nat)
    requires n <= |dst|
    ensures |StrNCpy(dst, src, n)| == |dst| && StrNCpy(dst, src, n)[n..] == dst[n..]
    ensures |src| < n ==> Text(StrNCpy(dst, src, n)) == src
    ensures |src| >= n ==> StrNCpy(dst, src, n)[..n] == src[..n]
  {
    var r := StrNCpy(dst, src, n);
    if |src| < n {
      assert r == src + [NUL] + r[|src| + 1..];
      TextOfTerminated(src, r[|src| + 1..]);
    }
  }

  // ---------------------------------------------------------------------
  // atoi / atoll

  /** isspace in the C locale. */
  predicate IsSpace(c: char) {
    c == ' ' || c == '\t' || c == '\n' || c == '\U{000B}' || c == '\U{000C}' || c == '\r'
  }

  predicate IsDigit(c: char) { '0' <= c <= '9' }

  function DigitValue(c: char): nat
    requires IsDigit(c)
  {
    c as int - '0' as int
  }

  function DigitChar(d: nat): (c: char)
    requires d < 10
    ensures IsDigit(c) && DigitValue(c) == d
  {
    ('0' as int + d) as char
  }

  predicate AllDigits(s: seq<char>) { forall k :: 0 <= k < |s| ==> IsDigit(s[k]) }

  /** s without its leading white space. */
  function SkipSpace(s: seq<char>): (r: seq<char>)
    ensures |r| <= |s| && r == s[|s| - |r|..]
    ensures forall k :: 0 <= k < |s| - |r| ==> IsSpace(s[k])
    ensures |r| > 0 ==> !IsSpace(r[0])
  {
    if |s| > 0 && IsSpace(s[0]) then SkipSpace(s[1..]) else s
  }

  /** The longest prefix of s made of decimal digits. */
  function LeadingDigits(s: seq<char>): (r: seq<char>)
    ensures |r| <= |s| && r == s[..|r|] && AllDigits(r)
    ensures |r| < |s| ==> !IsDigit(s[|r|])
  {
    if |s| > 0 && IsDigit(s[0]) then [s[0]] + LeadingDigits(s[1..]) else []
  }

  /** The number a string of decimal digits denotes. */
  function DigitsValue(d: seq<char>): nat
    requires AllDigits(d)
  {
    if d == [] then 0 else DigitsValue(d[..|d| - 1]) * 10 + DigitValue(d[|d| - 1])
  }

  /**
   * The number atoi and atoll read from s: optional white space, an optional
   * sign, then the longest run of digits (none reads as 0). C leaves the result
   * undefined when it does not fit the return type; callers check the range.
   */
  function Atoi(s: seq<char>): int {
    SignedValue(SkipSpace(s))
  }

  /** The value of an optional sign followed by the longest run of digits. */
  function SignedValue(t: seq<char>): int {
    if |t| > 0 && t[0] == '-' then -(DigitsValue(LeadingDigits(t[1..])) as int)
    else if |t| > 0 && t[0] == '+' then DigitsValue(LeadingDigits(t[1..]))
    else DigitsValue(LeadingDigits(t))
  }

  /** The decimal digits of n, without leading zeros ("0" for zero). */
  function Digits(n: nat): (r: CString)
    ensures |r| > 0 && AllDigits(r)
    decreases n
  {
    if n < 10 then [DigitChar(n)] else Digits(n / 10) + [DigitChar(n % 10)]
  }

  /** printf's "%d" / "%lld" rendering of x. */
  function Decimal(x: int): (r: CString)
    ensures |r| > 0
  {
    if x < 0 then ['-'] + Digits(-x) else Digits(x)
  }

  lemma {:induction false} DigitsValueOfDigits(n: nat)
    ensures DigitsValue(Digits(n)) == n
    decreases n
  {
    if n >= 10 {
      var d := Digits(n);
      assert d[..|d| - 1] == Digits(n / 10);
      DigitsValueOfDigits(n / 10);
    }
  }

  lemma {:induction false} LeadingDigitsOfDigits(d: seq<char>, rest: seq<char>)
    requires AllDigits(d)
    requires rest == [] || !IsDigit(rest[0])
    ensures LeadingDigits(d + rest) == d
    decreases |d|
  {
    if d != [] {
      assert (d + rest)[1..] == d[1..] + rest;
      LeadingDigitsOfDigits(d[1..], rest);
    }
  }

  /** atoi ignores leading white space. */
  lemma AtoiSkipsSpace(c: char, s: seq<char>)
    requires IsSpace(c)
    ensures Atoi([c] + s) == Atoi(s)
  {
    assert ([c] + s)[1..] == s;
    assert SkipSpace([c] + s) == SkipSpace(s);
  }

  /** atoi of a digit string is the number it denotes. */
  lemma AtoiOfDigits(d: seq<char>)
    requires |d| > 0 && AllDigits(d)
    ensures Atoi(d) == DigitsValue(d)
  {
    assert IsDigit(d[0]);
    assert SkipSpace(d) == d;
    LeadingDigitsOfDigits(d, []);
    assert d + [] == d;
  }

  /** atoi of a minus sign and a digit string is the negated number. */
  lemma AtoiOfNegatedDigits(d: seq<char>)
    requires AllDigits(d)
    ensures Atoi(['-'] + d) == -(DigitsValue(d) as int)
  {
    var s := ['-'] + d;
    assert SkipSpace(s) == s;
    assert s[1..] == d;
    LeadingDigitsOfDigits(d, []);
    assert d + [] == d;
  }

  /** Reading back what "%d" printed gives the number printed. */
  lemma AtoiOfDecimal(x: int)
    ensures Atoi(Decimal(x)) == x
  {
    var n: nat := if x < 0 then -x else x;
    DigitsValueOfDigits(n);
    if x < 0 {
      AtoiOfNegatedDigits(Digits(n));
    } else {
      AtoiOfDigits(Digits(n));
    }
  }
}
