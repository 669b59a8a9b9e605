/** Reading hexadecimal sizes as `usize::from_str_radix(_, 16)` does, against writing them out by repeated division. */
module Hex {
  import opened Arithmetic
  import opened Sequences
  import opened Transport

  const PLUS: Byte := '+' as nat

  predicate IsHex(b: Byte) {
    48 <= b <= 57 || 65 <= b <= 70 || 97 <= b <= 102
  }

  function HexDigit(b: Byte): nat
    requires IsHex(b)
  {
    if b <= 57 then b - 48 else if b <= 70 then b - 55 else b - 87
  }

  predicate AllHex(s: seq<Byte>) {
    forall i :: 0 <= i < |s| ==> IsHex(s[i])
  }

  function HexValue(s: seq<Byte>): nat
    requires AllHex(s)
  {
    if s == [] then 0 else HexValue(s[..|s| - 1]) * 16 + HexDigit(s[|s| - 1])
  }

  /** An optional plus, at least one digit, no overflow. */
  function ParseHex(s: seq<Byte>): Option<nat> {
    var digits := if s != [] && s[0] == PLUS then s[1..] else s;
    if digits == [] || !AllHex(digits) || HexValue(digits) >= U64_RANGE then None else Some(HexValue(digits))
  }

  // ----- writing

  /** The digit for `d`, in either case. */
  function DigitText(d: nat, upper: bool): Byte
    requires d < 16
  {
    if upper then "0123456789ABCDEF"[d] as nat else "0123456789abcdef"[d] as nat
  }

  /** `n` in hexadecimal; `upper(k)` says how the digit for 16^k is written. */
  function HexText(n: nat, upper: nat -> bool): seq<Byte> {
    HexTextFrom(n, upper, 0)
  }

  function HexTextFrom(n: nat, upper: nat -> bool, k: nat): seq<Byte> {
    if n < 16 then [DigitText(n, upper(k))]
    else HexTextFrom(n / 16, upper, k + 1) + [DigitText(n % 16, upper(k))]
  }

  function Zeros(n: nat): seq<Byte> {
    seq(n, _ => '0' as nat)
  }

  // ----- reading back

  /** The bytes accepted as digits are exactly the sixteen digits in either case, each with its value. */
  lemma DigitRead(d: nat, upper: bool)
    requires d < 16
    ensures IsHex(DigitText(d, upper)) && HexDigit(DigitText(d, upper)) == d
  {
  }

  lemma DigitsOnly(b: Byte)
    ensures IsHex(b) <==> exists d, upper :: 0 <= d < 16 && b == DigitText(d, upper)
  {
    forall d, upper | 0 <= d < 16 && b == DigitText(d, upper)
      ensures IsHex(b)
    {
      DigitRead(d, upper);
    }
    if IsHex(b) {
      assert b == DigitText(HexDigit(b), 65 <= b <= 70);
    }
  }

  lemma LastDigit(s: seq<Byte>, d: Byte)
    requires AllHex(s) && IsHex(d)
    ensures AllHex(s + [d]) && HexValue(s + [d]) == HexValue(s) * 16 + HexDigit(d)
  {
    assert (s + [d])[..|s|] == s;
  }

  /** `s` is a non-empty string of digits for `n`. */
  ghost predicate DigitsOf(s: seq<Byte>, n: nat) {
    s != [] && AllHex(s) && HexValue(s) == n
  }

  lemma OneMoreDigit(s: seq<Byte>, q: nat, d: nat, upper: bool)
    requires d < 16 && (DigitsOf(s, q) || (s == [] && q == 0))
    ensures DigitsOf(s + [DigitText(d, upper)], 16 * q + d)
  {
    DigitRead(d, upper);
    LastDigit(s, DigitText(d, upper));
  }

  lemma {:induction false} TextRead(n: nat, upper: nat -> bool, k: nat)
    ensures DigitsOf(HexTextFrom(n, upper, k), n)
    decreases n
  {
    if n < 16 {
      OneMoreDigit([], 0, n, upper(k));
      assert [] + [DigitText(n, upper(k))] == [DigitText(n, upper(k))];
    } else {
      TextRead(n / 16, upper, k + 1);
      OneMoreDigit(HexTextFrom(n / 16, upper, k + 1), n / 16, n % 16, upper(k));
    }
  }

  lemma {:induction false} ZerosRead(z: nat, s: seq<Byte>)
    requires AllHex(s)
    ensures AllHex(Zeros(z) + s) && HexValue(Zeros(z) + s) == HexValue(s)
    decreases z + |s|
  {
    if s != [] {
      var n := |s| - 1;
      ZerosRead(z, s[..n]);
      LastDigit(Zeros(z) + s[..n], s[n]);
      assert Zeros(z) + s == (Zeros(z) + s[..n]) + [s[n]];
    } else if z > 0 {
      ZerosRead(z - 1, []);
      LastDigit(Zeros(z - 1) + [], '0' as nat);
      assert Zeros(z) + [] == (Zeros(z - 1) + []) + ['0' as nat];
    } else {
      assert Zeros(z) + s == [];
    }
  }

  function Numeral(zeros: nat, n: nat, upper: nat -> bool): seq<Byte> {
    Zeros(zeros) + HexText(n, upper)
  }

  lemma NumeralRead(zeros: nat, n: nat, upper: nat -> bool)
    ensures DigitsOf(Numeral(zeros, n, upper), n)
  {
    TextRead(n, upper, 0);
    ZerosRead(zeros, HexText(n, upper));
  }

  /** Every number below 2^64 is read back from its digits in any mix of cases, with or without leading zeros or a plus;
      no larger one is read. */
  lemma ParseRoundTrip(zeros: nat, n: nat, upper: nat -> bool)
    ensures ParseHex(Numeral(zeros, n, upper)) == if n < U64_RANGE then Some(n) else None
    ensures ParseHex([PLUS] + Numeral(zeros, n, upper)) == ParseHex(Numeral(zeros, n, upper))
  {
    var s := Numeral(zeros, n, upper);
    NumeralRead(zeros, n, upper);
    assert IsHex(s[0]) && ([PLUS] + s)[1..] == s;
  }

  // ----- the largest sizes

  function Power16(n: nat): nat {
    if n == 0 then 1 else 16 * Power16(n - 1)
  }

  /** `n` digits `f`. */
  function Fs(n: nat): seq<Byte> {
    seq(n, _ => 'f' as nat)
  }

  lemma {:induction false} FsText(n: nat, k: nat)
    requires n > 0
    ensures Power16(n) > 0 && HexTextFrom(Power16(n) - 1, _ => false, k) == Fs(n)
    decreases n
  {
    if n == 1 {
      assert Power16(1) == 16;
    } else {
      FsText(n - 1, k + 1);
      var m := Power16(n) - 1;
      assert m == 16 * (Power16(n - 1) - 1) + 15;
      assert m / 16 == Power16(n - 1) - 1 && m % 16 == 15;
      assert Fs(n) == Fs(n - 1) + ['f' as nat];
    }
  }

  lemma SixteenDigits()
    ensures Power16(16) == U64_RANGE
  {
    assert Power16(4) == 0x1_0000;
    assert Power16(8) == 0x1_0000_0000;
    assert Power16(12) == 0x1_0000_0000_0000;
  }
}
