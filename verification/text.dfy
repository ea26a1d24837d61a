/** Shared vocabulary: an Option type, the C-string views of a raw read
    buffer that the server takes, ASCII upper-casing, and decimal rendering
    of the integers the server prints with `%d`. */
module Text {

  datatype Option<+T> = None | Some(value: T)

  /** The C string held by a zero-filled buffer: everything before the
      first NUL byte. */
  function CString(buf: string): (s: string)
    ensures s <= buf
    ensures '\0' !in s
    ensures |s| < |buf| ==> buf[|s|] == '\0'
  {
    if |buf| == 0 || buf[0] == '\0' then [] else [buf[0]] + CString(buf[1..])
  }

  /** A string with no NUL is its own C string. */
  lemma {:induction false} CStringOfPlain(s: string)
    requires '\0' !in s
    ensures CString(s) == s
    decreases |s|
  {
    if |s| > 0 {
      assert s[0] in s;
      assert '\0' !in s[1..] by {
        assert forall k :: 0 <= k < |s| - 1 ==> s[1..][k] == s[k + 1];
      }
      CStringOfPlain(s[1..]);
    }
  }

  /** At most the first `n` characters of `s` (what `strncpy(dst, s, n)`
      followed by `dst[n] = '\0'` keeps). */
  function Take(s: string, n: nat): (t: string)
    ensures t <= s
    ensures |t| == if |s| < n then |s| else n
  {
    if |s| <= n then s else s[..n]
  }

  /** Everything before the first occurrence of `c` (what
      `s[strcspn(s, "c")] = '\0'` keeps). */
  function CutAt(s: string, c: char): (t: string)
    ensures t <= s
    ensures c !in t
    ensures |t| < |s| ==> s[|t|] == c
  {
    if |s| == 0 || s[0] == c then [] else [s[0]] + CutAt(s[1..], c)
  }

  /** Cutting at `c` keeps a prefix free of `c` that ends where `c` follows. */
  lemma {:induction false} CutAtPrefix(s: string, rest: string, c: char)
    requires c !in s && (rest == [] || rest[0] == c)
    ensures CutAt(s + rest, c) == s
    decreases |s|
  {
    if |s| > 0 {
      assert (s + rest)[1..] == s[1..] + rest;
      CutAtPrefix(s[1..], rest, c);
    }
  }

  predicate IsLowerAscii(c: char) {
    'a' <= c <= 'z'
  }

  /** `toupper` in the C locale: only `a`..`z` change, by 32. */
  function UpperChar(c: char): (u: char)
    ensures IsLowerAscii(c) ==> u as int == c as int - 32
    ensures !IsLowerAscii(c) ==> u == c
    ensures !IsLowerAscii(u)
  {
    if IsLowerAscii(c) then (c as int - 32) as char else c
  }

  function Upper(s: string): (u: string)
    ensures |u| == |s|
    ensures forall k :: 0 <= k < |s| ==> u[k] == UpperChar(s[k])
  {
    seq(|s|, k requires 0 <= k < |s| => UpperChar(s[k]))
  }

  predicate IsDigit(c: char) {
    '0' <= c <= '9'
  }

  function DigitChar(d: nat): (c: char)
    requires d < 10
    ensures IsDigit(c)
  {
    ('0' as int + d) as char
  }

  function DigitValue(c: char): (d: nat)
    requires IsDigit(c)
    ensures d < 10
  {
    c as int - '0' as int
  }

  /** `%d` of a non-negative integer: decimal digits, most significant
      first, no leading zero. */
  function Decimal(n: nat): (s: string)
    ensures 1 <= |s|
    ensures forall k :: 0 <= k < |s| ==> IsDigit(s[k])
    ensures n < 10 <==> |s| == 1
    ensures 10 <= n < 100 <==> |s| == 2
    ensures 100 <= n < 1000 <==> |s| == 3
    decreases n
  {
    if n < 10 then [DigitChar(n)] else Decimal(n / 10) + [DigitChar(n % 10)]
  }

  /** The value of a string of decimal digits. */
  function DigitsValue(s: string): nat
    requires forall k :: 0 <= k < |s| ==> IsDigit(s[k])
  {
    if |s| == 0 then 0 else 10 * DigitsValue(s[..|s| - 1]) + DigitValue(s[|s| - 1])
  }

  /** Reading back what `%d` printed gives the number again. */
  lemma {:induction false} DecimalRoundTrip(n: nat)
    ensures DigitsValue(Decimal(n)) == n
    decreases n
  {
    var s := Decimal(n);
    if n >= 10 {
      DecimalRoundTrip(n / 10);
      assert s[..|s| - 1] == Decimal(n / 10);
    }
  }

  /** The longest prefix of `s` made of decimal digits, and the rest. */
  function SplitDigits(s: string): (r: (string, string))
    ensures r.0 + r.1 == s
    ensures forall k :: 0 <= k < |r.0| ==> IsDigit(r.0[k])
    ensures |r.1| > 0 ==> !IsDigit(r.1[0])
  {
    if |s| == 0 || !IsDigit(s[0]) then ([], s)
    else
      var rest := SplitDigits(s[1..]);
      ([s[0]] + rest.0, rest.1)
  }

  /** A digit string followed by a non-digit splits exactly there. */
  lemma {:induction false} SplitDigitsOf(d: string, rest: string)
    requires forall k :: 0 <= k < |d| ==> IsDigit(d[k])
    requires |rest| > 0 && !IsDigit(rest[0])
    ensures SplitDigits(d + rest) == (d, rest)
  {
    if |d| > 0 {
      assert (d + rest)[1..] == d[1..] + rest;
      SplitDigitsOf(d[1..], rest);
      assert [d[0]] + d[1..] == d;
    } else {
      assert d + rest == rest;
    }
  }
}
