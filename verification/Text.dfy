/** The pieces of Python's `str`, `int` and `os.path` behaviour that the modelled
    code relies on, stated over `string` (a sequence of Unicode code points). */
module Text {

  /** Python's `str.isspace` for one code point: exactly the characters that
      `str.strip()` with no argument removes. */
  predicate IsSpace(c: char) {
    || ('\t' <= c <= '\r')
    || ('\U{1c}' <= c <= ' ')
    || c == '\U{85}' || c == '\U{a0}' || c == '\U{1680}'
    || ('\U{2000}' <= c <= '\U{200a}')
    || c == '\U{2028}' || c == '\U{2029}' || c == '\U{202f}' || c == '\U{205f}' || c == '\U{3000}'
  }

  /** Number of whitespace code points at the start of `s`. */
  function LeadingSpaces(s: string): (n: nat)
    ensures n <= |s|
  {
    if |s| > 0 && IsSpace(s[0]) then 1 + LeadingSpaces(s[1..]) else 0
  }

  /** `LeadingSpaces` counts the whole whitespace run at the start. */
  lemma {:induction false} LeadingSpacesSpec(s: string)
    ensures forall i :: 0 <= i < LeadingSpaces(s) ==> IsSpace(s[i])
    ensures LeadingSpaces(s) < |s| ==> !IsSpace(s[LeadingSpaces(s)])
  {
    if |s| > 0 && IsSpace(s[0]) {
      LeadingSpacesSpec(s[1..]);
      forall i | 0 < i < LeadingSpaces(s)
        ensures IsSpace(s[i])
      {
        assert s[i] == s[1..][i - 1];
      }
    }
  }

  /** Number of whitespace code points at the end of `s`. */
  function TrailingSpaces(s: string): (n: nat)
    ensures n <= |s|
  {
    if |s| > 0 && IsSpace(s[|s| - 1]) then 1 + TrailingSpaces(s[..|s| - 1]) else 0
  }

  /** `TrailingSpaces` counts the whole whitespace run at the end. */
  lemma {:induction false} TrailingSpacesSpec(s: string)
    ensures forall i :: |s| - TrailingSpaces(s) <= i < |s| ==> IsSpace(s[i])
    ensures TrailingSpaces(s) < |s| ==> !IsSpace(s[|s| - TrailingSpaces(s) - 1])
  {
    if |s| > 0 && IsSpace(s[|s| - 1]) {
      TrailingSpacesSpec(s[..|s| - 1]);
    }
  }

  /** Python's `str.strip()`: the slice of `s` left once the whitespace at both
      ends is removed. */
  function Strip(s: string): (r: string)
    ensures |r| <= |s|
  {
    var t := s[LeadingSpaces(s)..];
    t[..|t| - TrailingSpaces(t)]
  }

  /** What `Strip` keeps is the middle of `s`: whitespace before it, whitespace
      after it, and none at either of its ends. */
  lemma StripSpec(s: string)
    ensures LeadingSpaces(s) + |Strip(s)| <= |s|
    ensures Strip(s) == s[LeadingSpaces(s)..LeadingSpaces(s) + |Strip(s)|]
    ensures forall i :: 0 <= i < LeadingSpaces(s) ==> IsSpace(s[i])
    ensures forall i :: LeadingSpaces(s) + |Strip(s)| <= i < |s| ==> IsSpace(s[i])
    ensures var r := Strip(s); |r| > 0 ==> !IsSpace(r[0]) && !IsSpace(r[|r| - 1])
  {
    var n := LeadingSpaces(s);
    var t := s[n..];
    LeadingSpacesSpec(s);
    TrailingSpacesSpec(t);
    StripSlice(s, n, t, TrailingSpaces(t));
    StripTail(s, n, t, TrailingSpaces(t));
  }

  /** The strip of `s` is `t[..|t| - m]` for `t := s[n..]`, a slice of `s`. */
  lemma StripSlice(s: string, n: nat, t: string, m: nat)
    requires n == LeadingSpaces(s) && t == s[n..] && m == TrailingSpaces(t)
    ensures |Strip(s)| == |s| - n - m && m <= |s| - n
    ensures Strip(s) == t[..|t| - m]
    ensures Strip(s) == s[n..n + |Strip(s)|]
  {
    var r := t[..|t| - m];
    assert |t| == |s| - n;
    forall i | 0 <= i < |r|
      ensures r[i] == s[n + i]
    {
    }
    assert r == s[n..n + |r|];
  }

  /** What follows the strip in `s` is the trailing whitespace of `t`, and the
      ends of the strip are those of the runs it sits between. */
  lemma StripTail(s: string, n: nat, t: string, m: nat)
    requires n <= |s| && t == s[n..] && m <= |t|
    requires forall i :: |t| - m <= i < |t| ==> IsSpace(t[i])
    requires m < |t| ==> !IsSpace(t[|t| - m - 1])
    requires n < |s| ==> !IsSpace(s[n])
    ensures forall i :: |s| - m <= i < |s| ==> IsSpace(s[i])
    ensures var r := t[..|t| - m]; |r| > 0 ==> !IsSpace(r[0]) && !IsSpace(r[|r| - 1])
  {
    forall i | |s| - m <= i < |s|
      ensures IsSpace(s[i])
    {
      assert s[i] == t[i - n];
    }
    var r := t[..|t| - m];
    if |r| > 0 {
      assert r[0] == t[0] == s[n];
      assert r[|r| - 1] == t[|t| - m - 1];
    }
  }

  /** A string with no whitespace at either end is its own strip. */
  lemma StripOfTrimmed(s: string)
    requires |s| == 0 || (!IsSpace(s[0]) && !IsSpace(s[|s| - 1]))
    ensures Strip(s) == s
  {
    if |s| > 0 {
      assert LeadingSpaces(s) == 0;
      assert TrailingSpaces(s) == 0;
    }
  }

  /** One leading space before text with no whitespace at either end is all
      that stripping removes. */
  lemma StripAfterSpace(t: string)
    requires |t| >= 2 && t[0] == ' ' && !IsSpace(t[1]) && !IsSpace(t[|t| - 1])
    ensures Strip(t) == t[1..]
  {
    assert LeadingSpaces(t[1..]) == 0;
    assert LeadingSpaces(t) == 1;
    StripOfTrimmed(t[1..]);
  }

  /** Stripping is idempotent. */
  lemma StripIdempotent(s: string)
    ensures Strip(Strip(s)) == Strip(s)
  {
    StripSpec(s);
    StripOfTrimmed(Strip(s));
  }

  /** ASCII lower-casing of one code point (Python's `str.lower` on ASCII). */
  function LowerChar(c: char): char {
    if 'A' <= c <= 'Z' then (c as int + 32) as char else c
  }

  /** `str.lower()` for text whose letters are ASCII. */
  function Lower(s: string): (r: string)
    ensures |r| == |s|
    ensures forall i :: 0 <= i < |s| ==> r[i] == LowerChar(s[i])
  {
    seq(|s|, i requires 0 <= i < |s| => LowerChar(s[i]))
  }

  /** `s.startswith(p)`. */
  predicate StartsWith(s: string, p: string) {
    |p| <= |s| && s[..|p|] == p
  }

  /** `s.endswith(p)`. */
  predicate EndsWith(s: string, p: string) {
    |p| <= |s| && s[|s| - |p|..] == p
  }

  /** `sub in s` for strings. */
  predicate Contains(s: string, sub: string)
    decreases |s|
  {
    StartsWith(s, sub) || (|s| > 0 && Contains(s[1..], sub))
  }

  /** `sub` found at position `k` is in `s`. */
  lemma {:induction false} ContainsAt(s: string, sub: string, k: nat)
    requires k + |sub| <= |s| && s[k..k + |sub|] == sub
    ensures Contains(s, sub)
    decreases k
  {
    if k > 0 {
      assert s[1..][k - 1..k - 1 + |sub|] == s[k..k + |sub|];
      ContainsAt(s[1..], sub, k - 1);
    }
  }

  /** A lower-case `sub` found at position `k` of `s` is in `s.lower()`. */
  lemma ContainsLowered(s: string, sub: string, k: nat)
    requires k + |sub| <= |s| && s[k..k + |sub|] == sub && Lower(sub) == sub
    ensures Contains(Lower(s), sub)
  {
    var l := Lower(s);
    forall j | 0 <= j < |sub|
      ensures l[k + j] == sub[j]
    {
      assert s[k + j] == sub[j];
      assert Lower(sub)[j] == LowerChar(sub[j]);
    }
    assert l[k..k + |sub|] == sub;
    ContainsAt(l, sub, k);
  }

  /** `s.replace(a, b)` for single code points `a` and `b`. */
  function ReplaceChar(s: string, a: char, b: char): (r: string)
    ensures |r| == |s|
    ensures forall i :: 0 <= i < |s| ==> r[i] == (if s[i] == a then b else s[i])
  {
    seq(|s|, i requires 0 <= i < |s| => if s[i] == a then b else s[i])
  }

  /** `s.replace(a, "")`: every occurrence of `a` dropped, the rest kept in order. */
  function RemoveChar(s: string, a: char): (r: string)
    ensures a !in r
    ensures |r| <= |s|
    ensures forall c :: c in r <==> c in s && c != a
  {
    if |s| == 0 then ""
    else if s[0] == a then RemoveChar(s[1..], a)
    else [s[0]] + RemoveChar(s[1..], a)
  }

  /** The string of `n` zero digits. */
  function Zeros(n: nat): (r: string)
    ensures |r| == n
    ensures forall i :: 0 <= i < n ==> r[i] == '0'
  {
    seq(n, i => '0')
  }

  predicate IsDigit(c: char) {
    '0' <= c <= '9'
  }

  /** Python's `str.isdigit()` on ASCII text: non-empty and every code point a digit. */
  predicate IsDigits(s: string) {
    |s| > 0 && forall i :: 0 <= i < |s| ==> IsDigit(s[i])
  }

  function DigitValue(c: char): nat
    requires IsDigit(c)
  {
    c as int - '0' as int
  }

  /** `int(s)` for a run of ASCII digits: its base-10 value, leading zeros ignored. */
  function DigitsValue(s: string): nat
    requires forall i :: 0 <= i < |s| ==> IsDigit(s[i])
  {
    if |s| == 0 then 0 else 10 * DigitsValue(s[..|s| - 1]) + DigitValue(s[|s| - 1])
  }

  function DigitChar(d: nat): (c: char)
    requires d < 10
    ensures IsDigit(c) && DigitValue(c) == d
  {
    ('0' as int + d) as char
  }

  /** Python's `str(n)` for a non-negative integer: the shortest digit string
      denoting `n`. */
  function NatToString(n: nat): (r: string)
    ensures IsDigits(r)
    ensures DigitsValue(r) == n
    ensures r[0] == '0' ==> n == 0 && |r| == 1
  {
    if n < 10 then [DigitChar(n)]
    else
      var r := NatToString(n / 10) + [DigitChar(n % 10)];
      assert r[..|r| - 1] == NatToString(n / 10);
      r
  }

  /** Python's `str(i)` for any integer. */
  function IntToString(i: int): (r: string)
    ensures |r| > 0
    ensures i < 0 <==> r[0] == '-'
  {
    if i < 0 then "-" + NatToString(-i) else NatToString(i)
  }

  function Pow10(k: nat): (p: nat)
    ensures p >= 1
  {
    if k == 0 then 1 else 10 * Pow10(k - 1)
  }

  /** The value of a concatenation of digit runs. */
  lemma {:induction false} DigitsValueAppend(a: string, b: string)
    requires forall i :: 0 <= i < |a| ==> IsDigit(a[i])
    requires forall i :: 0 <= i < |b| ==> IsDigit(b[i])
    ensures forall i :: 0 <= i < |a + b| ==> IsDigit((a + b)[i])
    ensures DigitsValue(a + b) == DigitsValue(a) * Pow10(|b|) + DigitsValue(b)
    decreases |b|
  {
    if |b| == 0 {
      assert a + b == a;
    } else {
      var b' := b[..|b| - 1];
      assert (a + b)[..|a + b| - 1] == a + b';
      assert (a + b)[|a + b| - 1] == b[|b| - 1];
      DigitsValueAppend(a, b');
      var x, y, p := DigitsValue(a), DigitsValue(b'), Pow10(|b'|);
      var last := DigitValue(b[|b| - 1]);
      assert DigitsValue(a + b) == 10 * DigitsValue(a + b') + last;
      assert DigitsValue(a + b') == x * p + y;
      assert 10 * (x * p + y) + last == x * (10 * p) + (10 * y + last) by {
        MulLeftDistributes(10, x * p, y);
        MulCommutesInside(10, x, p);
      }
    }
  }

  lemma MulLeftDistributes(k: int, u: int, v: int)
    ensures k * (u + v) == k * u + k * v
  {
  }

  lemma MulCommutesInside(k: int, x: int, p: int)
    ensures k * (x * p) == x * (k * p)
  {
  }

  /** Leading zeros do not change the value of a digit run. */
  lemma LeadingZerosValue(n: nat, s: string)
    requires forall i :: 0 <= i < |s| ==> IsDigit(s[i])
    ensures forall i :: 0 <= i < |Zeros(n) + s| ==> IsDigit((Zeros(n) + s)[i])
    ensures DigitsValue(Zeros(n) + s) == DigitsValue(s)
  {
    ZerosValue(n);
    DigitsValueAppend(Zeros(n), s);
  }

  lemma {:induction false} ZerosValue(n: nat)
    ensures DigitsValue(Zeros(n)) == 0
  {
    if n > 0 {
      assert Zeros(n)[..n - 1] == Zeros(n - 1);
      ZerosValue(n - 1);
    }
  }

  /** Python's `s.zfill(width)`: pad with '0' to `width`, after a leading sign. */
  function ZFill(s: string, width: int): (r: string)
    ensures |r| == if width > |s| then width else |s|
    ensures width <= |s| ==> r == s
  {
    if |s| >= width then s
    else if |s| > 0 && (s[0] == '+' || s[0] == '-') then [s[0]] + Zeros(width - |s|) + s[1..]
    else Zeros(width - |s|) + s
  }

  /** Zero-filling adds nothing but '0'. */
  lemma ZFillAdds(s: string, width: int, c: char)
    requires c != '0' && c !in s
    ensures c !in ZFill(s, width)
  {
    if |s| < width && |s| > 0 && (s[0] == '+' || s[0] == '-') {
      assert s == [s[0]] + s[1..];
    }
  }

  /** `str(n).zfill(width)` for `n >= 0`: a digit run of at least `width`
      digits that denotes `n`. */
  lemma ZFillDenotes(n: nat, width: int)
    ensures var z := ZFill(NatToString(n), width);
      && IsDigits(z) && DigitsValue(z) == n
      && |z| == if width > |NatToString(n)| then width else |NatToString(n)|
  {
    var s := NatToString(n);
    if width > |s| {
      assert ZFill(s, width) == Zeros(width - |s|) + s;
      LeadingZerosValue(width - |s|, s);
    }
  }

  /** `str(a).zfill(width)` for `a < 0`: the sign, then digits that denote
      `-a`. */
  lemma ZFillNegative(a: int, width: int)
    requires a < 0
    ensures var z := ZFill(IntToString(a), width);
      |z| > 1 && z[0] == '-' && IsDigits(z[1..]) && DigitsValue(z[1..]) == -a
  {
    var d := NatToString(-a);
    assert IntToString(a) == "-" + d;
    ZFillSigned(d, width);
  }

  /** Zero-filling "-" followed by digits keeps the sign in front and the
      value of the digits after it. */
  lemma ZFillSigned(d: string, width: int)
    requires IsDigits(d)
    ensures var z := ZFill("-" + d, width);
      |z| > 1 && z[0] == '-' && IsDigits(z[1..]) && DigitsValue(z[1..]) == DigitsValue(d)
  {
    var s := "-" + d;
    assert s[0] == '-' && s[1..] == d;
    if |s| < width {
      var z := ZFill(s, width);
      assert z == [s[0]] + Zeros(width - |s|) + d;
      assert z[1..] == Zeros(width - |s|) + d;
      LeadingZerosValue(width - |s|, d);
    }
  }

  /** `str(a).zfill(width)` read back: digits that denote `a`, after a '-'
      for a negative `a`. */
  lemma ZFillIntParts(a: int, width: int)
    ensures var z := ZFill(IntToString(a), width);
      && (a >= 0 ==> IsDigits(z) && DigitsValue(z) == a)
      && (a < 0 ==> |z| > 1 && z[0] == '-' && IsDigits(z[1..]) && DigitsValue(z[1..]) == -a)
  {
    if a >= 0 {
      ZFillDenotes(a, width);
    } else {
      ZFillNegative(a, width);
    }
  }

  /** Different numbers zero-filled to the same width stay different. */
  lemma ZFillIntInjective(a: int, b: int, width: int)
    requires ZFill(IntToString(a), width) == ZFill(IntToString(b), width)
    ensures a == b
  {
    ZFillIntParts(a, width);
    ZFillIntParts(b, width);
  }

  /** A zero-filled number holds nothing but digits and a sign. */
  lemma ZFillIntHasNo(n: int, width: int, c: char)
    requires c != '-' && !IsDigit(c)
    ensures c !in ZFill(IntToString(n), width)
  {
    var s := IntToString(n);
    assert c !in s by {
      var digits := NatToString(if n < 0 then -n else n);
      assert IsDigits(digits);
      assert s == if n < 0 then "-" + digits else digits;
    }
    ZFillAdds(s, width, c);
  }

  /** The number of decimal digits of `n`, and 0 for 0: the least `k` with
      `n < 10^k`, which is `ceil(log10(n + 1))`. */
  function DigitCount(n: nat): (k: nat)
    ensures n < Pow10(k)
    ensures k == 0 || Pow10(k - 1) <= n
  {
    if n == 0 then 0
    else
      var k' := DigitCount(n / 10);
      assert n < 10 * Pow10(k') by {
        assert n / 10 + 1 <= Pow10(k');
        assert n < 10 * (n / 10 + 1);
        MulLeftDistributes(10, n / 10, 1);
      }
      assert k' == 0 || 10 * Pow10(k' - 1) <= n by {
        if k' > 0 {
          assert Pow10(k' - 1) <= n / 10;
          assert 10 * (n / 10) <= n;
        }
      }
      1 + k'
  }

  /** For `n >= 1` the digit count is the length of `str(n)`. */
  lemma {:induction false} DigitCountIsLength(n: nat)
    requires n >= 1
    ensures DigitCount(n) == |NatToString(n)|
  {
    if n >= 10 {
      DigitCountIsLength(n / 10);
    }
  }

  /** A larger number has at least as many digits. */
  lemma {:induction false} DigitCountMonotone(m: nat, n: nat)
    requires m <= n
    ensures DigitCount(m) <= DigitCount(n)
  {
    if m > 0 {
      DigitCountMonotone(m / 10, n / 10);
    }
  }

  /** Zero-filled to the digit count of `n`, every number from 1 to `n` has
      exactly that many digits, so the padded numbers line up. */
  lemma PaddedToCount(m: nat, n: nat)
    requires 1 <= m <= n
    ensures |ZFill(NatToString(m), DigitCount(n))| == DigitCount(n)
  {
    DigitCountIsLength(m);
    DigitCountMonotone(m, n);
    ZFillDenotes(m, DigitCount(n));
  }

  /** `str(m).zfill(k)` for `1 <= m <= n` and `k` the digit count of `n`:
      exactly `k` digits that denote `m`. */
  lemma PaddedNumber(m: nat, n: nat)
    requires 1 <= m <= n
    ensures var z := ZFill(IntToString(m), DigitCount(n));
      |z| == DigitCount(n) && IsDigits(z) && DigitsValue(z) == m
  {
    PaddedToCount(m, n);
    ZFillDenotes(m, DigitCount(n));
  }

  /** `s.rfind(c)`: the last index holding `c`, or -1. */
  function RFind(s: string, c: char): (r: int)
    ensures -1 <= r < |s|
    ensures r >= 0 ==> s[r] == c
    ensures forall j :: r < j < |s| ==> s[j] != c
  {
    if |s| == 0 then -1
    else if s[|s| - 1] == c then |s| - 1
    else RFind(s[..|s| - 1], c)
  }

  /** An occurrence with none after it is what `rfind` reports. */
  lemma RFindIsLast(s: string, c: char, k: nat)
    requires k < |s| && s[k] == c
    requires forall j :: k < j < |s| ==> s[j] != c
    ensures RFind(s, c) == k
  {
  }

  /** `s.find(c)`: the first index holding `c`, or -1. */
  function Find(s: string, c: char): (r: int)
    ensures -1 <= r < |s|
    ensures r >= 0 ==> s[r] == c
    ensures forall j :: 0 <= j < |s| && (r < 0 || j < r) ==> s[j] != c
  {
    if |s| == 0 then -1
    else if s[0] == c then 0
    else var k := Find(s[1..], c); if k < 0 then -1 else k + 1
  }

  /** An occurrence with none before it is what `find` reports. */
  lemma FindIsFirst(s: string, c: char, k: nat)
    requires k < |s| && s[k] == c
    requires forall j :: 0 <= j < k ==> s[j] != c
    ensures Find(s, c) == k
  {
  }

  /** `s.split(c)[0]`: the text before the first `c`, or all of `s`. */
  function BeforeFirst(s: string, c: char): (r: string)
    ensures c !in r
    ensures StartsWith(s, r)
    ensures |r| < |s| ==> s[|r|] == c
  {
    var k := Find(s, c);
    if k < 0 then s else s[..k]
  }

  /** `s.split(c)` for a single code point separator. */
  function Split(s: string, c: char): (r: seq<string>)
    ensures |r| > 0
    ensures forall k :: 0 <= k < |r| ==> c !in r[k]
    decreases |s|
  {
    var k := Find(s, c);
    if k < 0 then [s]
    else
      var rest := Split(s[k + 1..], c);
      FindPrefixFree(s, c);
      PrependFree(s[..k], rest, c);
      [s[..k]] + rest
  }

  /** The text before the first `c` holds no `c`. */
  lemma FindPrefixFree(s: string, c: char)
    requires Find(s, c) >= 0
    ensures c !in s[..Find(s, c)]
  {
    var k := Find(s, c);
    forall j | 0 <= j < k
      ensures s[..k][j] != c
    {
      assert s[..k][j] == s[j];
    }
  }

  /** Putting a piece without `c` in front of pieces without `c`. */
  lemma PrependFree(head: string, rest: seq<string>, c: char)
    requires c !in head
    requires forall k :: 0 <= k < |rest| ==> c !in rest[k]
    ensures forall k :: 0 <= k < |[head] + rest| ==> c !in ([head] + rest)[k]
  {
    forall k | 0 <= k < |[head] + rest|
      ensures c !in ([head] + rest)[k]
    {
      if k > 0 {
        assert ([head] + rest)[k] == rest[k - 1];
      }
    }
  }

  /** Joining the pieces with the separator gives the string back. */
  lemma {:induction false} SplitJoin(s: string, c: char)
    ensures JoinWith(Split(s, c), c) == s
    decreases |s|
  {
    var k := Find(s, c);
    if k >= 0 {
      SplitJoin(s[k + 1..], c);
      JoinAtSeparator(s, c, k, Split(s[k + 1..], c));
    }
  }

  /** Putting the text before position `k` in front of pieces that join to
      the text after it rebuilds `s`, when `s[k]` is the separator. */
  lemma JoinAtSeparator(s: string, c: char, k: nat, rest: seq<string>)
    requires k < |s| && s[k] == c
    requires |rest| > 0 && JoinWith(rest, c) == s[k + 1..]
    ensures JoinWith([s[..k]] + rest, c) == s
  {
    var parts := [s[..k]] + rest;
    assert parts[0] == s[..k] && parts[1..] == rest;
    assert s == s[..k] + [c] + s[k + 1..];
  }

  /** `c.join(parts)`. */
  function JoinWith(parts: seq<string>, c: char): string {
    if |parts| == 0 then ""
    else if |parts| == 1 then parts[0]
    else parts[0] + [c] + JoinWith(parts[1..], c)
  }

  /** `os.path.basename`: what follows the last '/'. */
  function BaseName(p: string): (r: string)
    ensures '/' !in r
    ensures EndsWith(p, r)
    ensures |r| < |p| ==> p[|p| - |r| - 1] == '/'
  {
    p[RFind(p, '/') + 1..]
  }

  /** `os.path.join(a, b)` on POSIX. */
  function PathJoin(a: string, b: string): (r: string)
    ensures EndsWith(r, b)
  {
    if |b| > 0 && b[0] == '/' then b
    else if |a| == 0 || a[|a| - 1] == '/' then a + b
    else a + "/" + b
  }

  /** Joining in two steps is joining once with the joined tail, for a middle
      part that is not absolute. */
  lemma PathJoinAssoc(a: string, d: string, n: string)
    requires |d| == 0 || d[0] != '/'
    ensures PathJoin(PathJoin(a, d), n) == PathJoin(a, PathJoin(d, n))
  {
    if |n| > 0 && n[0] == '/' {
      assert PathJoin(d, n) == n;
    } else if |d| == 0 {
      assert PathJoin(d, n) == n by { assert d + n == n; }
      PathJoinEmptyTail(a, n);
    } else {
      PathJoinAssocRelative(a, d, n);
    }
  }

  lemma PathJoinEmptyTail(a: string, n: string)
    requires |n| == 0 || n[0] != '/'
    ensures PathJoin(PathJoin(a, ""), n) == PathJoin(a, n)
  {
    if |a| == 0 {
      assert PathJoin(a, "") == "";
      assert PathJoin("", n) == n by { assert "" + n == n; }
    } else if a[|a| - 1] == '/' {
      assert PathJoin(a, "") == a;
    } else {
      var a' := a + "/";
      assert PathJoin(a, "") == a';
      assert a'[|a'| - 1] == '/';
      assert PathJoin(a', n) == a' + n;
    }
  }

  lemma PathJoinAssocRelative(a: string, d: string, n: string)
    requires |d| > 0 && d[0] != '/' && (|n| == 0 || n[0] != '/')
    ensures PathJoin(PathJoin(a, d), n) == PathJoin(a, PathJoin(d, n))
  {
    var sa, sd := JoinSep(a), JoinSep(d);
    PathJoinShape(a, d);
    PathJoinShape(d, n);
    var ad, dn := a + sa + d, d + sd + n;
    assert ad[|ad| - 1] == d[|d| - 1];
    assert JoinSep(ad) == sd;
    PathJoinShape(ad, n);
    assert dn[0] == d[0];
    PathJoinShape(a, dn);
    assert ad + sd + n == a + sa + dn;
  }

  /** What `os.path.join` puts between a directory and a relative name. */
  function JoinSep(a: string): string {
    if |a| == 0 || a[|a| - 1] == '/' then "" else "/"
  }

  lemma PathJoinShape(a: string, b: string)
    requires |b| == 0 || b[0] != '/'
    ensures PathJoin(a, b) == a + JoinSep(a) + b
  {
    if |a| == 0 || a[|a| - 1] == '/' {
      assert a + "" == a;
    }
  }

  /** A name without '/' joined under a directory is that path's base name. */
  lemma BaseNameOfJoin(a: string, b: string)
    requires |b| > 0 && '/' !in b
    ensures BaseName(PathJoin(a, b)) == b
  {
    var p := PathJoin(a, b);
    var k := |p| - |b|;
    assert p[k..] == b;
    if k > 0 {
      assert p[k - 1] == '/';
      RFindIsLast(p, '/', k - 1) by {
        forall j | k - 1 < j < |p|
          ensures p[j] != '/'
        {
          assert p[j] == b[j - k];
        }
      }
    } else {
      assert p == b;
    }
  }

  /** Joining names under two directories that end in a name of their own
      gives the same path only for the same directory. */
  lemma PathJoinInjective(a1: string, a2: string, b: string)
    requires |a1| > 0 && a1[|a1| - 1] != '/' && |a2| > 0 && a2[|a2| - 1] != '/'
    requires |b| > 0 && b[0] != '/'
    requires PathJoin(a1, b) == PathJoin(a2, b)
    ensures a1 == a2
  {
    var p := PathJoin(a1, b);
    assert p == a1 + "/" + b && p == a2 + "/" + b;
    assert a1 == p[..|p| - |b| - 1] == a2;
  }

  /** `os.path.splitext` on POSIX: the extension starts at the last '.' of the
      final path component, unless everything before that '.' in the component
      is a dot too (so ".bashrc" has no extension). */
  function SplitExt(p: string): (r: (string, string))
    ensures r.0 + r.1 == p
    ensures r.1 == "" || (r.1[0] == '.' && '/' !in r.1 && '.' !in r.1[1..])
  {
    var sep := RFind(p, '/');
    var dot := RFind(p, '.');
    if dot > sep && (exists i :: sep + 1 <= i < dot && p[i] != '.') then (p[..dot], p[dot..]) else (p, "")
  }

  /** A name ending in a character other than '.' and '/', followed by '.'
      and text with neither, splits at that '.'. */
  lemma SplitExtOfStem(stem: string, x: string)
    requires |stem| > 0 && stem[|stem| - 1] != '.' && stem[|stem| - 1] != '/'
    requires '.' !in x && '/' !in x
    ensures SplitExt(stem + "." + x) == (stem, "." + x)
  {
    var p := stem + "." + x;
    var k := |stem|;
    forall j | k < j < |p|
      ensures p[j] != '.' && p[j] != '/'
    {
      assert p[j] == x[j - k - 1];
    }
    RFindIsLast(p, '.', k);
    var sep := RFind(p, '/');
    assert sep < k - 1 by {
      assert p[k - 1] == stem[k - 1];
    }
    assert sep + 1 <= k - 1 < k && p[k - 1] != '.';
    assert p[..k] == stem && p[k..] == "." + x;
  }

  /** A name without '.' has no extension. */
  lemma SplitExtWithoutDot(p: string)
    requires '.' !in p
    ensures SplitExt(p) == (p, "")
  {
  }
}
