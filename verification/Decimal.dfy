/**
 Numbers as text: `snprintf("%d")` into a 12-byte buffer and `atoi`
 (src/database/macros.c:40-61, src/utils/constants.h:29; sections 7.23.6.5 and 7.24.1.2 of
 ISO/IEC 9899:2024).
 */
module Decimal {
  import opened Table

  const INT_STR_LEN: nat := 12

  predicate IsDigit(c: char) {
    '0' <= c <= '9'
  }

  predicate AllDigits(s: string) {
    forall i :: 0 <= i < |s| ==> IsDigit(s[i])
  }

  function DigitChar(d: nat): (c: char)
    requires d < 10
    ensures IsDigit(c) && DigitValue(c) == d
  {
    '0' + d as char
  }

  function DigitValue(c: char): nat
    requires IsDigit(c)
  {
    c as int - '0' as int
  }

  function Digits(n: nat): (s: string)
    ensures s != [] && AllDigits(s)
  {
    if n < 10 then [DigitChar(n)] else Digits(n / 10) + [DigitChar(n % 10)]
  }

  /** What `%d` prints. */
  function Printed(n: int): string {
    if n < 0 then "-" + Digits(-n) else Digits(n)
  }

  predicate IsSpace(c: char) {
    c == ' ' || 9 as char <= c <= 13 as char
  }

  function ReadDigits(s: string, value: nat): nat
    decreases |s|
  {
    if s != [] && IsDigit(s[0]) then ReadDigits(s[1..], 10 * value + DigitValue(s[0])) else value
  }

  /** `atoi`, where its result fits an int. */
  function Atoi(s: string): int
    decreases |s|
  {
    if s != [] && IsSpace(s[0]) then Atoi(s[1..])
    else if s != [] && s[0] == '-' then 0 - ReadDigits(s[1..], 0)
    else if s != [] && s[0] == '+' then ReadDigits(s[1..], 0)
    else ReadDigits(s, 0)
  }

  lemma {:induction false} ReadAppend(a: string, b: string, value: nat)
    requires AllDigits(a)
    ensures ReadDigits(a + b, value) == ReadDigits(b, ReadDigits(a, value))
    decreases |a|
  {
    if a == [] {
      assert a + b == b;
    } else {
      assert (a + b)[1..] == a[1..] + b;
      ReadAppend(a[1..], b, 10 * value + DigitValue(a[0]));
    }
  }

  lemma {:induction false} ReadsPrintedDigits(n: nat)
    ensures ReadDigits(Digits(n), 0) == n
  {
    if n >= 10 {
      ReadsPrintedDigits(n / 10);
      ReadAppend(Digits(n / 10), [DigitChar(n % 10)], 0);
      assert ReadDigits([DigitChar(n % 10)], n / 10) == ReadDigits([], 10 * (n / 10) + n % 10);
    } else {
      assert ReadDigits([DigitChar(n)], 0) == ReadDigits([], n);
    }
  }

  lemma {:induction false} AtoiDigits(n: nat, rest: string)
    requires rest == [] || !IsDigit(rest[0])
    ensures ReadDigits(Digits(n) + rest, 0) == n
  {
    ReadsPrintedDigits(n);
    ReadAppend(Digits(n), rest, 0);
  }

  /** Reading what was printed gives the number back, also in front of anything but a digit. */
  lemma {:induction false} AtoiPrinted(n: int, rest: string)
    requires rest == [] || !IsDigit(rest[0])
    ensures Atoi(Printed(n) + rest) == n
  {
    hide *;
    PrintedCases(n);
    if n < 0 {
      AtoiNegative(-n, rest);
    } else {
      AtoiNonNegative(n, rest);
    }
  }

  lemma {:induction false} PrintedCases(n: int)
    ensures n < 0 ==> Printed(n) == "-" + Digits(-n)
    ensures n >= 0 ==> Printed(n) == Digits(n)
  {
  }

  lemma {:induction false} AtoiNegative(n: nat, rest: string)
    requires rest == [] || !IsDigit(rest[0])
    ensures Atoi(("-" + Digits(n)) + rest) == 0 - n
  {
    hide Atoi, ReadDigits, Digits, AllDigits;
    AtoiDigits(n, rest);
    SignedAtoi(Digits(n) + rest);
    assert ("-" + Digits(n)) + rest == "-" + (Digits(n) + rest);
  }

  lemma {:induction false} AtoiNonNegative(n: nat, rest: string)
    requires rest == [] || !IsDigit(rest[0])
    ensures Atoi(Digits(n) + rest) == n
  {
    AtoiDigits(n, rest);
    assert IsDigit(Digits(n)[0]);
    hide Atoi, ReadDigits, Digits;
    UnsignedAtoi(Digits(n) + rest);
  }

  lemma {:induction false} SignedAtoi(s: string)
    ensures Atoi("-" + s) == 0 - ReadDigits(s, 0)
  {
  }

  lemma {:induction false} UnsignedAtoi(s: string)
    requires s != "" && IsDigit(s[0])
    ensures Atoi(s) == ReadDigits(s, 0)
  {
  }

  function Pow10(k: nat): nat {
    if k == 0 then 1 else 10 * Pow10(k - 1)
  }

  lemma {:induction false} DigitsLength(n: nat, k: nat)
    requires k > 0
    ensures |Digits(n)| <= k <==> n < Pow10(k)
    decreases k
  {
    if k == 1 {
      assert Pow10(1) == 10 * Pow10(0);
    } else if n < 10 {
      PowPositive(k - 1);
    } else {
      DigitsLength(n / 10, k - 1);
    }
  }

  lemma {:induction false} PowPositive(k: nat)
    ensures Pow10(k) >= 1
  {
    if k > 0 { PowPositive(k - 1); }
  }

  /** The printed text and its terminator fit the buffer exactly for these numbers. */
  lemma {:induction false} FitsBuffer(n: int)
    ensures |Printed(n)| + 1 <= INT_STR_LEN <==> -10_000_000_000 < n < 100_000_000_000
  {
    DigitsLength(if n < 0 then -n else n, 10);
    DigitsLength(if n < 0 then -n else n, 11);
    assert Pow10(10) == 10_000_000_000 by { PowTable(); }
    assert Pow10(11) == 100_000_000_000 by { PowTable(); }
  }

  lemma {:induction false} PowTable()
    ensures Pow10(10) == 10_000_000_000 && Pow10(11) == 100_000_000_000
  {
  }

  /** Every int fits, and the smallest needs the whole buffer. */
  lemma {:induction false} IntsFit(n: int)
    requires InInt32(n)
    ensures |Printed(n)| + 1 <= INT_STR_LEN && Atoi(Printed(n)) == n
    ensures |Printed(-0x8000_0000)| + 1 == INT_STR_LEN
  {
    FitsBuffer(n);
    FitsBuffer(-0x8000_0000);
    DigitsLength(0x8000_0000, 9);
    assert Pow10(9) == 1_000_000_000 by { assert Pow10(4) == 10_000; assert Pow10(7) == 10_000_000; }
    AtoiPrinted(n, []);
    assert Printed(n) + [] == Printed(n);
  }

  // ---- Buffers ----

  /** The text in a buffer: everything before its first terminator. */
  function CString(s: string): string {
    if s == [] || s[0] == '\0' then [] else [s[0]] + CString(s[1..])
  }

  lemma {:induction false} CStringOf(text: string, rest: string)
    requires '\0' !in text && rest != [] && rest[0] == '\0'
    ensures CString(text + rest) == text
    decreases |text|
  {
    if text == [] {
      assert text + rest == rest;
    } else {
      assert (text + rest)[1..] == text[1..] + rest;
      CStringOf(text[1..], rest);
    }
  }

  lemma {:induction false} PrintedHasNoNul(n: int)
    ensures '\0' !in Printed(n)
  {
  }

  /** `snprintf` into the buffer: cut off what does not fit, and terminate. */
  method EncodeNumber(n: int, buffer: array<char>)
    requires buffer.Length == INT_STR_LEN
    modifies buffer
    ensures CString(buffer[..]) == if |Printed(n)| < INT_STR_LEN then Printed(n) else Printed(n)[..INT_STR_LEN - 1]
    ensures InInt32(n) ==> CString(buffer[..]) == Printed(n)
  {
    var text := Printed(n);
    var kept := if |text| < INT_STR_LEN then text else text[..INT_STR_LEN - 1];
    forall i | 0 <= i < |kept| {
      buffer[i] := kept[i];
    }
    buffer[|kept|] := '\0';
    assert buffer[..] == kept + buffer[|kept|..];
    PrintedHasNoNul(n);
    CStringOf(kept, buffer[|kept|..]);
    if InInt32(n) { IntsFit(n); }
  }
}
