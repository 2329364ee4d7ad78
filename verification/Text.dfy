/** C strings, number printing and number reading, as the C library does them. */
module Text {

  const NUL: char := '\0'

  lemma Associative(a: string, b: string, c: string)
    ensures a + (b + c) == a + b + c
  {
  }

  // ---------- digits ----------

  function DigitChar(d: nat): (c: char)
    requires d < 16
    ensures DigitValue(c) == d
  {
    if d < 10 then ('0' as int + d) as char else ('a' as int + (d - 10)) as char
  }

  /** Value of a digit in bases up to 16, or -1. */
  function DigitValue(c: char): int {
    if '0' <= c <= '9' then c as int - '0' as int
    else if 'a' <= c <= 'f' then c as int - 'a' as int + 10
    else if 'A' <= c <= 'F' then c as int - 'A' as int + 10
    else -1
  }

  predicate IsDigit(c: char, b: nat) {
    0 <= DigitValue(c) < b
  }

  predicate AllDigits(s: string, b: nat) {
    forall k :: 0 <= k < |s| ==> IsDigit(s[k], b)
  }

  lemma DivisionShrinks(n: nat, b: nat)
    requires 2 <= b <= n
    ensures 0 < n / b < n
  {
  }

  /** The shortest text of n in base b, most significant digit first. */
  function Digits(n: nat, b: nat): (s: string)
    requires 2 <= b <= 16
    ensures |s| >= 1 && AllDigits(s, b)
    decreases n
  {
    if n < b then [DigitChar(n)]
    else
      DivisionShrinks(n, b);
      Digits(n / b, b) + [DigitChar(n % b)]
  }

  function Value(s: string, b: nat): nat
    requires AllDigits(s, b)
  {
    if s == [] then 0 else Value(s[..|s| - 1], b) * b + DigitValue(s[|s| - 1])
  }

  lemma ValueOfSnoc(s: string, c: char, b: nat)
    requires AllDigits(s, b) && IsDigit(c, b)
    ensures AllDigits(s + [c], b) && Value(s + [c], b) == Value(s, b) * b + DigitValue(c)
  {
    assert (s + [c])[..|s|] == s;
  }

  lemma ValueOfOne(c: char, b: nat)
    requires IsDigit(c, b)
    ensures AllDigits([c], b) && Value([c], b) == DigitValue(c)
  {
    assert [c][..0] == [] && Value([], b) == 0;
  }

  lemma Divide(n: nat, b: nat) returns (q: nat, r: nat)
    requires b > 0
    ensures q == n / b && r == n % b && n == q * b + r && r < b
    ensures 2 <= b <= n ==> 0 < q < n
  {
    q, r := n / b, n % b;
  }

  lemma ValueOfLongerDigits(n: nat, b: nat, q: nat, r: nat)
    requires 2 <= b <= 16 && n >= b && q == n / b && r == n % b
    requires n == q * b + r
    requires Value(Digits(q, b), b) == q
    ensures Value(Digits(n, b), b) == n
  {
    ValueOfSnoc(Digits(q, b), DigitChar(r), b);
    assert Digits(n, b) == Digits(q, b) + [DigitChar(r)];
  }

  lemma {:induction false} ValueOfDigits(n: nat, b: nat)
    requires 2 <= b <= 16
    ensures Value(Digits(n, b), b) == n
  {
    if n < b {
      ValueOfOne(DigitChar(n), b);
    } else {
      var q, r := Divide(n, b);
      ValueOfDigits(q, b);
      ValueOfLongerDigits(n, b, q, r);
    }
  }

  /** Leading zeros do not change the value. */
  lemma {:induction false} ValueOfPadded(k: nat, s: string, b: nat)
    requires 2 <= b <= 16 && AllDigits(s, b)
    ensures AllDigits(Repeat('0', k) + s, b)
    ensures Value(Repeat('0', k) + s, b) == Value(s, b)
  {
    var p := Repeat('0', k) + s;
    if s == [] {
      if k > 0 {
        ValueOfPadded(k - 1, s, b);
        assert p[..|p| - 1] == Repeat('0', k - 1) + s;
      }
    } else {
      ValueOfPadded(k, s[..|s| - 1], b);
      assert p[..|p| - 1] == Repeat('0', k) + s[..|s| - 1];
    }
  }

  function Repeat(c: char, k: nat): (s: string)
    ensures |s| == k && forall i :: 0 <= i < k ==> s[i] == c
  {
    seq(k, _ => c)
  }

  /** printf's "%d". */
  function Decimal(n: int): (s: string)
    ensures |s| >= 1
  {
    if n < 0 then "-" + Digits(-n, 10) else Digits(n, 10)
  }

  /** printf's "%0*d" for a non-negative number: at least `width` characters, zero padded. */
  function ZeroPadded(width: nat, n: nat): (s: string)
    ensures |s| >= width
  {
    var d := Digits(n, 10);
    if |d| >= width then d else Repeat('0', width - |d|) + d
  }

  lemma ValueOfZeroPadded(width: nat, n: nat)
    ensures AllDigits(ZeroPadded(width, n), 10) && Value(ZeroPadded(width, n), 10) == n
  {
    ValueOfDigits(n, 10);
    var d := Digits(n, 10);
    if |d| < width {
      ValueOfPadded(width - |d|, d, 10);
    }
  }

  /** intlen(). */
  function IntLen(i: nat): (n: nat) {
    if i < 10 then 1 else 1 + IntLen(i / 10)
  }

  lemma {:induction false} IntLenIsDigitCount(i: nat)
    ensures IntLen(i) == |Digits(i, 10)|
  {
    if i >= 10 {
      IntLenIsDigitCount(i / 10);
    }
  }

  lemma {:induction false} IntLenMonotone(a: nat, b: nat)
    requires a <= b
    ensures 1 <= IntLen(a) <= IntLen(b)
  {
    if a >= 10 {
      IntLenMonotone(a / 10, b / 10);
    } else if b >= 10 {
      IntLenMonotone(0, b / 10);
    }
  }

  // ---------- C strings ----------

  /** The C string that starts at the beginning of a buffer holding a NUL. */
  function CString(b: seq<char>): (s: string)
    requires NUL in b
    ensures |s| < |b| && b[..|s|] == s && b[|s|] == NUL && NUL !in s
  {
    if b[0] == NUL then [] else [b[0]] + CString(b[1..])
  }

  lemma {:induction false} CStringIs(b: seq<char>, s: string)
    requires s + [NUL] <= b && NUL !in s
    ensures NUL in b && CString(b) == s
  {
    assert b[|s|] == (s + [NUL])[|s|] == NUL;
    if s != [] {
      assert s[0] in s && b[0] == s[0];
      assert forall c :: c in s[1..] ==> c in s;
      assert s + [NUL] == [s[0]] + (s[1..] + [NUL]);
      CStringIs(b[1..], s[1..]);
    }
  }

  method StrLen(a: array<char>, from: nat) returns (n: nat)
    requires from <= a.Length && NUL in a[from..]
    ensures from + n < a.Length
    ensures a[from..from + n] == CString(a[from..]) && a[from + n] == NUL
  {
    n := 0;
    var k :| 0 <= k < |a[from..]| && a[from..][k] == NUL;
    while a[from + n] != NUL
      invariant n <= k && from + k < a.Length
      invariant NUL !in a[from..from + n]
      decreases k - n
    {
      assert a[from..from + n + 1] == a[from..from + n] + [a[from + n]];
      n := n + 1;
    }
    assert a[from..from + n] + [NUL] <= a[from..];
    CStringIs(a[from..], a[from..from + n]);
  }

  lemma CopyOne(front: string, text: string, k: nat, back: string)
    requires k < |text| && back != []
    ensures (front + text[..k] + back)[|front| + k := text[k]] == front + text[..k + 1] + back[1..]
  {
  }

  /** memcpy() into a buffer. */
  method MemCpy(a: array<char>, at: nat, text: string)
    requires at + |text| <= a.Length
    modifies a
    ensures a[..at] == old(a[..at])
    ensures a[at..] == text + old(a[at + |text|..])
  {
    var k := 0;
    ghost var was := a[..];
    while k < |text|
      invariant 0 <= k <= |text|
      invariant a[..] == was[..at] + text[..k] + was[at + k..]
    {
      CopyOne(was[..at], text, k, was[at + k..]);
      ghost var now := a[..];
      a[at + k] := text[k];
      assert a[..] == now[at + k := text[k]] && was[at + k..][1..] == was[at + k + 1..];
      k := k + 1;
    }
    assert text[..k] == text && a[..at] == a[..][..at] && a[at..] == a[..][at..];
  }
}
