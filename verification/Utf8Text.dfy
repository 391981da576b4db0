/** UTF-8 as section 3 of RFC 3629 defines it, read from the bytes, and the encoder of cJSON against it. */
module Utf8Text {
  import opened Common
  import opened Digits
  import opened Json

  /** A continuation byte, 10xxxxxx. */
  predicate Continues(b: Byte) { 0x80 <= b <= 0xBF }

  /** Unicode scalar values: code points without the surrogates. */
  predicate Scalar(uc: nat) { uc < 0xD800 || 0xE000 <= uc < 0x110000 }

  /**
   * The scalar value that a whole byte sequence encodes, by its lead byte: 0xxxxxxx alone, 110xxxxx with one,
   * 1110xxxx with two and 11110xxx with three continuation bytes. Longer forms than needed encode nothing.
   */
  function Decode(t: Text): Option<nat> {
    if |t| == 1 && t[0] <= 0x7F then Some(t[0])
    else if |t| == 2 && 0xC0 <= t[0] <= 0xDF && Continues(t[1]) then
      InRange((t[0] as int - 0xC0) * 0x40 + (t[1] - 0x80), 0x80)
    else if |t| == 3 && 0xE0 <= t[0] <= 0xEF && Continues(t[1]) && Continues(t[2]) then
      InRange((t[0] as int - 0xE0) * 0x1000 + (t[1] as int - 0x80) * 0x40 + (t[2] - 0x80), 0x800)
    else if |t| == 4 && 0xF0 <= t[0] <= 0xF7 && Continues(t[1]) && Continues(t[2]) && Continues(t[3]) then
      InRange((t[0] as int - 0xF0) * 0x40000 + (t[1] as int - 0x80) * 0x1000 + (t[2] as int - 0x80) * 0x40
              + (t[3] - 0x80), 0x10000)
    else None
  }

  function InRange(uc: nat, least: nat): Option<nat> {
    if least <= uc && Scalar(uc) then Some(uc) else None
  }

  /** What cJSON writes for a scalar value is its UTF-8 encoding. */
  lemma {:induction false} EncodeDecode(uc: nat)
    requires Scalar(uc)
    ensures Decode(Utf8(uc)) == Some(uc)
  {
    if uc >= 0x800 { Digits64(uc); }
  }

  /** And nothing else is: bytes that decode to a scalar value are those cJSON writes for it. */
  lemma {:induction false} DecodeEncode(t: Text, uc: nat)
    requires Decode(t) == Some(uc)
    ensures Scalar(uc) && Utf8(uc) == t
  {
    if |t| == 3 {
      Parts64(t[0] - 0xE0, t[1] - 0x80, t[2] - 0x80, uc);
    } else if |t| == 4 {
      Parts64((t[0] as int - 0xF0) * 0x40 + (t[1] - 0x80), t[2] - 0x80, t[3] - 0x80, uc);
    }
  }

  lemma Digits64(uc: nat)
    ensures uc == (uc / 64 / 64) * 0x1000 + (uc / 64 % 64) * 0x40 + uc % 64
  {}

  lemma {:induction false} Parts64(a: nat, b: nat, c: nat, uc: nat)
    requires b < 64 && c < 64 && uc == a * 0x1000 + b * 0x40 + c
    ensures uc % 64 == c && uc / 64 == a * 64 + b && uc / 64 % 64 == b && uc / 64 / 64 == a
  {}
}
