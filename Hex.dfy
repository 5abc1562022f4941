/** `bytes.hex()` and `bytes.fromhex()`: lower-case base16 (section 8 of
    RFC 4648) as Python writes it, and Python's more lenient reader. */
module Hex {
  import opened Common

  const Digits: string := "0123456789abcdef"

  predicate IsLowerHexDigit(c: char)
  {
    ('0' <= c <= '9') || ('a' <= c <= 'f')
  }

  /** The value of one hexadecimal digit of either case, as `fromhex` reads it. */
  function DigitValue(c: char): (v: Option<int>)
    ensures v.Some? ==> 0 <= v.value < 16
    ensures v.Some? <==> ('0' <= c <= '9') || ('a' <= c <= 'f') || ('A' <= c <= 'F')
  {
    if '0' <= c <= '9' then Some(c as int - '0' as int)
    else if 'a' <= c <= 'f' then Some(c as int - 'a' as int + 10)
    else if 'A' <= c <= 'F' then Some(c as int - 'A' as int + 10)
    else None
  }

  lemma DigitsRoundTrip(d: int)
    requires 0 <= d < 16
    ensures IsLowerHexDigit(Digits[d]) && DigitValue(Digits[d]) == Some(d)
  {
  }

  /** `b.hex()`: two lower-case digits per byte, high nibble first. */
  function ToHex(b: Bytes): (s: string)
    ensures |s| == 2 * |b|
    ensures forall i :: 0 <= i < |s| ==> IsLowerHexDigit(s[i])
  {
    if b == [] then ""
    else [Digits[b[0] / 16], Digits[b[0] % 16]] + ToHex(b[1..])
  }

  /** The ASCII whitespace that `bytes.fromhex` skips between byte pairs. */
  predicate IsSpace(c: char)
  {
    c == ' ' || c == '\t' || c == '\n' || c == '\r' || c == '\U{0b}' || c == '\U{0c}'
  }

  /** `bytes.fromhex(s)`: whitespace may stand before any pair, each byte is
      exactly two digits of either case, anything else raises ValueError. */
  function FromHex(s: string): (r: Option<Bytes>)
    ensures r.Some? ==> |r.value| <= |s| / 2
    ensures r.Some? ==> forall i :: 0 <= i < |s| ==> IsSpace(s[i]) || DigitValue(s[i]).Some?
    ensures |s| % 2 == 0 && (forall i :: 0 <= i < |s| ==> DigitValue(s[i]).Some?) ==> r.Some? && |r.value| == |s| / 2
  {
    assert forall i :: 1 <= i < |s| ==> s[i] == s[1..][i - 1];
    assert forall i :: 2 <= i < |s| ==> s[i] == s[2..][i - 2];
    if s == [] then Some([])
    else if IsSpace(s[0]) then FromHex(s[1..])
    else if |s| < 2 then None
    else match (DigitValue(s[0]), DigitValue(s[1]))
      case (Some(hi), Some(lo)) =>
        (match FromHex(s[2..])
         case Some(rest) => Some([(16 * hi + lo) as Byte] + rest)
         case None => None)
      case _ => None
  }

  /** Keys written with `.hex()` and read back with `bytes.fromhex` are the
      bytes that were written. */
  lemma {:induction false} FromHexToHex(b: Bytes)
    ensures FromHex(ToHex(b)) == Some(b)
  {
    if b != [] {
      var s := ToHex(b);
      var hi, lo := b[0] as int / 16, b[0] as int % 16;
      assert (16 * hi + lo) as Byte == b[0];
      DigitsRoundTrip(hi);
      DigitsRoundTrip(lo);
      ToHexFirst(b);
      FromHexToHex(b[1..]);
      FromHexPair(s, hi, lo, b[1..]);
      assert b == [b[0]] + b[1..];
    }
  }

  /** The hex of a non-empty byte string opens with the two digits of its
      first byte. */
  lemma ToHexFirst(b: Bytes)
    requires b != []
    ensures |ToHex(b)| >= 2
    ensures ToHex(b)[0] == Digits[b[0] / 16] && ToHex(b)[1] == Digits[b[0] % 16]
    ensures ToHex(b)[2..] == ToHex(b[1..])
  {
    assert ToHex(b) == [Digits[b[0] / 16], Digits[b[0] % 16]] + ToHex(b[1..]);
  }

  /** A string that opens with two digits reads as their byte followed by
      what the rest reads as. */
  lemma FromHexPair(s: string, hi: int, lo: int, rest: Bytes)
    requires |s| >= 2 && !IsSpace(s[0])
    requires DigitValue(s[0]) == Some(hi) && DigitValue(s[1]) == Some(lo)
    requires FromHex(s[2..]) == Some(rest)
    ensures FromHex(s) == Some([(16 * hi + lo) as Byte] + rest)
  {
  }

  /** `ToHex` is injective, so comparing hex digests compares the digests. */
  lemma ToHexInjective(a: Bytes, b: Bytes)
    requires ToHex(a) == ToHex(b)
    ensures a == b
  {
    FromHexToHex(a);
    FromHexToHex(b);
  }
}
