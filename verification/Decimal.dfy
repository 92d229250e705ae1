/** Decimal rendering of naturals, as Rust's `{}` prints them and `from_str` reads them back. */
module Decimal {
  import opened Prelude

  type Digit = d: int | 0 <= d < 10

  /** Most significant digit first, no leading zero except for 0 itself. */
  function Digits(n: nat): (ds: seq<Digit>)
    ensures |ds| > 0
  {
    if n < 10 then [n] else Digits(n / 10) + [n % 10]
  }

  function Value(ds: seq<Digit>): nat {
    if ds == [] then 0 else 10 * Value(ds[..|ds| - 1]) + ds[|ds| - 1]
  }

  lemma {:induction false} ValueOfDigits(n: nat)
    ensures Value(Digits(n)) == n
  {
    if n >= 10 {
      ValueOfDigits(n / 10);
      assert Digits(n)[..|Digits(n)| - 1] == Digits(n / 10);
    }
  }

  function DigitChar(d: Digit): char {
    '0' + d as char
  }

  function DigitByte(d: Digit): byte {
    (48 + d) as byte
  }

  /** The rendering as text. */
  function Text(n: nat): (s: string)
    ensures |s| == |Digits(n)|
  {
    seq(|Digits(n)|, i requires 0 <= i < |Digits(n)| => DigitChar(Digits(n)[i]))
  }

  /** The rendering as octets. */
  function Octets(n: nat): (b: bytes)
    ensures |b| == |Digits(n)|
  {
    seq(|Digits(n)|, i requires 0 <= i < |Digits(n)| => DigitByte(Digits(n)[i]))
  }

  lemma TextInjective(m: nat, n: nat)
    requires Text(m) == Text(n)
    ensures m == n
  {
    forall i | 0 <= i < |Digits(m)|
      ensures Digits(m)[i] == Digits(n)[i]
    {
      assert Text(m)[i] == Text(n)[i];
    }
    assert Digits(m) == Digits(n);
    ValueOfDigits(m);
    ValueOfDigits(n);
  }

  predicate IsDigit(b: byte) {
    48 <= b <= 57
  }

  predicate AllDigits(b: bytes) {
    forall i :: 0 <= i < |b| ==> IsDigit(b[i])
  }

  function DigitsOf(b: bytes): (ds: seq<Digit>)
    requires AllDigits(b)
    ensures |ds| == |b|
  {
    seq(|b|, i requires 0 <= i < |b| => b[i] as int - 48)
  }

  const USIZE_LIMIT: nat := 0x1_0000_0000_0000_0000

  /** `usize::from_str` on a 64-bit target: an optional plus sign, at least one digit, and no overflow. */
  function ParseUsize(b: bytes): Option<nat> {
    var digits := if |b| > 0 && b[0] == 43 then b[1..] else b;
    if digits == [] || !AllDigits(digits) then None
    else if Value(DigitsOf(digits)) < USIZE_LIMIT then Some(Value(DigitsOf(digits)))
    else None
  }

  lemma ParseOctets(n: nat)
    ensures AllDigits(Octets(n)) && Value(DigitsOf(Octets(n))) == n
    ensures n < USIZE_LIMIT ==> ParseUsize(Octets(n)) == Some(n)
  {
    assert DigitsOf(Octets(n)) == Digits(n);
    ValueOfDigits(n);
    assert IsDigit(Octets(n)[0]);
  }
}
