/**
 * Text rendering of integers as Rust's formatter produces it: `{}` (decimal,
 * with a leading '-' for a negative signed value) and `{:#x}` (lower-case
 * hexadecimal with a "0x" prefix; a signed 32-bit value is shown as its
 * two's-complement bit pattern). `Value` reads a digit string back and is the
 * partner that pins the digit strings down.
 */
module Text {

  const TWO_POW_32: int := 0x1_0000_0000

  predicate IsDigitOf(c: char, base: nat) {
    ('0' <= c <= '9' && (c as int - '0' as int) < base) ||
    ('a' <= c <= 'f' && (c as int - 'a' as int) + 10 < base)
  }

  function DigitValue(c: char): nat {
    if '0' <= c <= '9' then c as int - '0' as int
    else if 'a' <= c <= 'f' then c as int - 'a' as int + 10
    else 0
  }

  function DigitChar(d: nat): (c: char)
    requires d < 16
    ensures DigitValue(c) == d
    ensures forall base :: d < base ==> IsDigitOf(c, base)
  {
    if d < 10 then ('0' as int + d) as char else ('a' as int + d - 10) as char
  }

  /** The digits of `n` in `base`, most significant first, without leading zeros. */
  function Digits(n: nat, base: nat): (s: string)
    requires 2 <= base <= 16
    ensures 1 <= |s|
    ensures forall i :: 0 <= i < |s| ==> IsDigitOf(s[i], base)
    ensures s[0] == '0' <==> n == 0
    decreases n
  {
    if n < base then [DigitChar(n)]
    else
      DivModFacts(n, base);
      Digits(n / base, base) + [DigitChar(n % base)]
  }

  lemma DivModFacts(n: nat, base: nat)
    requires 2 <= base <= n
    ensures 1 <= n / base < n && n % base < base && (n / base) * base + n % base == n
  {
    var q, r := n / base, n % base;
    assert n == q * base + r && 0 <= r < base;
    MulAtLeastDouble(q, base);
    assert q * base > 0;
  }

  lemma MulAtLeastDouble(q: nat, base: nat)
    requires 2 <= base
    ensures q * base >= 2 * q
    ensures q > 0 ==> q * base > 0
  {
    assert q * base == q * 2 + q * (base - 2);
  }

  /** The number a digit string denotes in `base`. */
  function Value(s: string, base: nat): nat {
    if s == [] then 0 else Value(s[..|s| - 1], base) * base + DigitValue(s[|s| - 1])
  }

  lemma {:induction false} ValueOfDigits(n: nat, base: nat)
    requires 2 <= base <= 16
    ensures Value(Digits(n, base), base) == n
    decreases n
  {
    var s := Digits(n, base);
    if n < base {
      assert s[..|s| - 1] == [];
    } else {
      DivModFacts(n, base);
      ValueOfDigits(n / base, base);
      assert s[..|s| - 1] == Digits(n / base, base);
    }
  }

  lemma DigitsInjective(m: nat, n: nat, base: nat)
    requires 2 <= base <= 16
    ensures Digits(m, base) == Digits(n, base) <==> m == n
  {
    ValueOfDigits(m, base);
    ValueOfDigits(n, base);
  }

  /** Rust `{}` of an unsigned integer. */
  function Dec(n: nat): (s: string)
    ensures 1 <= |s| && '-' !in s && '!' !in s && '\t' !in s && ',' !in s
    ensures forall c :: c in s ==> '0' <= c <= '9'
  {
    var d := Digits(n, 10);
    assert forall c :: c in d ==> '0' <= c <= '9' by {
      forall c | c in d ensures '0' <= c <= '9' {
        var i :| 0 <= i < |d| && d[i] == c;
        assert IsDigitOf(d[i], 10);
      }
    }
    d
  }

  /** Rust `{}` of a signed integer. */
  function DecInt(i: int): (s: string)
    ensures 1 <= |s| && '!' !in s && '\t' !in s && ',' !in s && ']' !in s
    ensures '-' in s <==> i < 0
  {
    if i < 0 then "-" + Dec(-i) else Dec(i)
  }

  /** Reads back the text of `DecInt`. */
  function SignedValue(s: string): int {
    if |s| > 0 && s[0] == '-' then 0 - Value(s[1..], 10) else Value(s, 10)
  }

  lemma SignedValueOfDecInt(i: int)
    ensures SignedValue(DecInt(i)) == i
  {
    if i < 0 {
      ValueOfDigits(-i, 10);
      assert DecInt(i)[1..] == Dec(-i);
    } else {
      ValueOfDigits(i, 10);
      assert Dec(i)[0] != '-';
    }
  }

  /** Rust `{:#x}` of an unsigned integer. */
  function AltHex(n: nat): (s: string)
    ensures 3 <= |s| && s[..2] == "0x"
    ensures '-' !in s && '!' !in s && '\t' !in s && ',' !in s
    ensures forall i :: 2 <= i < |s| ==> IsDigitOf(s[i], 16)
  {
    "0x" + Digits(n, 16)
  }

  /** `AltHex` reads back: the digits after "0x" denote `n`. */
  lemma AltHexValue(n: nat)
    ensures Value(AltHex(n)[2..], 16) == n
  {
    assert AltHex(n)[2..] == Digits(n, 16);
    ValueOfDigits(n, 16);
  }

  lemma AltHexInjective(m: nat, n: nat)
    ensures AltHex(m) == AltHex(n) <==> m == n
  {
    AltHexValue(m);
    AltHexValue(n);
  }

  /** The 32-bit pattern of a signed 32-bit value (`as u32`). */
  function AsU32(i: int): (w: nat)
    requires -0x8000_0000 <= i < 0x8000_0000
    ensures w < TWO_POW_32 && w % TWO_POW_32 == i % TWO_POW_32
  {
    if i < 0 then i + TWO_POW_32 else i
  }

  /** Rust `{:#x}` of an i32: the two's-complement bit pattern. */
  function AltHexI32(i: int): (s: string)
    requires -0x8000_0000 <= i < 0x8000_0000
    ensures 3 <= |s| && s[..2] == "0x" && '-' !in s && '!' !in s && '\t' !in s && ',' !in s
    ensures Value(s[2..], 16) == AsU32(i) == i % TWO_POW_32
  {
    AltHexValue(AsU32(i));
    AltHex(AsU32(i))
  }

  /** Rust `{}` of a bool. */
  function BoolText(b: bool): (s: string)
    ensures (s == "true") == b
  {
    if b then "true" else "false"
  }
}
