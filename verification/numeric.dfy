/** Integer and real helpers the Python code gets from its built-ins:
    `max(lo, min(v, hi))` clamping, `int()` on a float, `//` floor division,
    `numpy.round`, and the unsigned-to-signed byte conversion that every
    mouse-relay script repeats. Each is defined once here. */
module Numeric {

  /** `max(lo, min(v, hi))`: the index clamp used by every depth-map lookup. */
  function Clamp(v: int, lo: int, hi: int): (r: int)
    requires lo <= hi
    ensures lo <= r <= hi
    ensures lo <= v <= hi ==> r == v
    ensures v < lo ==> r == lo
    ensures hi < v ==> r == hi
  {
    if v < lo then lo else if hi < v then hi else v
  }

  /** Python's `int(x)` on a float: truncation toward zero. */
  function TruncToInt(x: real): (r: int)
    ensures 0.0 <= x ==> 0 <= r && r as real <= x < r as real + 1.0
    ensures x < 0.0 ==> r <= 0 && r as real - 1.0 < x <= r as real
  {
    if 0.0 <= x then x.Floor else -((-x).Floor)
  }

  /** Python's `a // b` for a positive divisor. Dafny's `/` is Euclidean,
      which coincides with flooring division when the divisor is positive. */
  function FloorDiv(a: int, b: int): (r: int)
    requires 0 < b
    ensures b * r <= a < b * r + b
  {
    a / b
  }

  /** `numpy.round`: round half to even. */
  function RoundHalfEven(x: real): (r: int)
    ensures x - 0.5 <= r as real <= x + 0.5
    ensures r as real - x == 0.5 || x - r as real == 0.5 ==> r % 2 == 0
  {
    var f := x.Floor;
    var frac := x - f as real;
    if frac < 0.5 then f
    else if frac > 0.5 then f + 1
    else if f % 2 == 0 then f
    else f + 1
  }

  function Abs(x: real): (r: real)
    ensures 0.0 <= r && (r == x || r == -x)
  {
    if x < 0.0 then -x else x
  }

  /** Rounding keeps a value of [0, n] inside the integers 0..n. */
  lemma RoundHalfEvenInRange(x: real, n: int)
    requires 0.0 <= x <= n as real
    ensures 0 <= RoundHalfEven(x) <= n
  {
  }

  /** A byte value as the framing library's `read_byte` returns it. */
  predicate IsByte(b: int) {
    0 <= b < 256
  }

  /** `if b > 127: b = b - 256`: two's-complement reading of one byte. */
  function SignedByte(b: int): (r: int)
    requires IsByte(b)
    ensures -128 <= r <= 127
    ensures (r - b) % 256 == 0
    ensures r == b <==> b <= 127
  {
    if b > 127 then b - 256 else b
  }

  /** The byte a signed movement value is sent as. */
  function UnsignedByte(s: int): (b: int)
    ensures IsByte(b)
    ensures (b - s) % 256 == 0
  {
    s % 256
  }

  /** The conversion is a bijection between bytes and [-128, 127]. */
  lemma SignedByteRoundTrip(b: int, s: int)
    requires IsByte(b)
    requires -128 <= s <= 127
    ensures UnsignedByte(SignedByte(b)) == b
    ensures SignedByte(UnsignedByte(s)) == s
  {
  }

  /** Python truthiness of a byte, `bool(read_byte())`. */
  function ByteIsSet(b: int): bool {
    b != 0
  }
}
