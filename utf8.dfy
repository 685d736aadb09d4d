/**
 * Go strings are byte sequences holding UTF-8 text, while Go's regexp package
 * matches the runes it decodes from them. The rest of the model works on
 * runes (Dafny `char`s); this module gives the byte view, so that the byte
 * length used by `len` and the byte-level reading of the two patterns can be
 * related to the rune view.
 */
module Utf8 {

  newtype byte = x: int | 0 <= x < 0x100

  /** A text whose runes are all in the ASCII range U+0000..U+007F. */
  predicate IsAscii(s: string)
  {
    forall i :: 0 <= i < |s| ==> s[i] as int < 0x80
  }

  /** A byte sequence whose bytes are all below 0x80. */
  predicate IsAsciiBytes(b: seq<byte>)
  {
    forall i :: 0 <= i < |b| ==> b[i] < 0x80
  }

  /**
   * The UTF-8 encoding of one Unicode scalar value (RFC 3629, section 3):
   * one byte for U+0000..U+007F, otherwise two to four bytes that all have
   * the high bit set.
   */
  function EncodeRune(c: char): (b: seq<byte>)
    ensures 1 <= |b| <= 4
    ensures c as int < 0x80 <==> |b| == 1
    ensures c as int < 0x80 ==> b == [c as int as byte]
    ensures c as int >= 0x80 ==> forall i :: 0 <= i < |b| ==> b[i] >= 0x80
  {
    var n := c as int;
    if n < 0x80 then
      [n as byte]
    else if n < 0x800 then
      [(0xC0 + n / 0x40) as byte, (0x80 + n % 0x40) as byte]
    else if n < 0x1_0000 then
      [(0xE0 + n / 0x1000) as byte, (0x80 + (n / 0x40) % 0x40) as byte,
       (0x80 + n % 0x40) as byte]
    else
      [(0xF0 + n / 0x4_0000) as byte, (0x80 + (n / 0x1000) % 0x40) as byte,
       (0x80 + (n / 0x40) % 0x40) as byte, (0x80 + n % 0x40) as byte]
  }

  /** The bytes of a Go string whose runes are `s`. */
  function Encode(s: string): (b: seq<byte>)
    ensures |s| <= |b| <= 4 * |s|
    ensures b == [] <==> s == []
  {
    if s == [] then [] else EncodeRune(s[0]) + Encode(s[1..])
  }

  /**
   * A text is ASCII exactly when its encoding is, and then the encoding is
   * the text itself, one byte per rune.
   */
  lemma {:induction false} EncodeAscii(s: string)
    ensures IsAscii(s) <==> IsAsciiBytes(Encode(s))
    ensures IsAscii(s) ==> |Encode(s)| == |s|
    ensures IsAscii(s) ==> forall i :: 0 <= i < |s| ==> Encode(s)[i] == s[i] as int as byte
  {
    if s != [] {
      var head, tail := EncodeRune(s[0]), Encode(s[1..]);
      EncodeAscii(s[1..]);
      assert Encode(s) == head + tail;
      if s[0] as int < 0x80 {
        assert IsAscii(s) <==> IsAscii(s[1..]) by {
          if IsAscii(s[1..]) {
            forall i | 0 <= i < |s| ensures s[i] as int < 0x80 {
              if i > 0 { assert s[i] == s[1..][i - 1]; }
            }
          }
          if IsAscii(s) {
            forall i | 0 <= i < |s| - 1 ensures s[1..][i] as int < 0x80 {
              assert s[1..][i] == s[i + 1];
            }
          }
        }
        assert IsAsciiBytes(Encode(s)) <==> IsAsciiBytes(tail) by {
          if IsAsciiBytes(tail) {
            forall j | 0 <= j < |Encode(s)| ensures Encode(s)[j] < 0x80 {
              if j > 0 { assert Encode(s)[j] == tail[j - 1]; }
            }
          }
          if IsAsciiBytes(Encode(s)) {
            forall j | 0 <= j < |tail| ensures tail[j] < 0x80 {
              assert tail[j] == Encode(s)[j + 1];
            }
          }
        }
        if IsAscii(s) {
          forall i | 0 <= i < |s| ensures Encode(s)[i] == s[i] as int as byte {
            if i > 0 { assert Encode(s)[i] == tail[i - 1] && s[i] == s[1..][i - 1]; }
          }
        }
      } else {
        assert !IsAscii(s) by { assert !(s[0] as int < 0x80); }
        assert !IsAsciiBytes(Encode(s)) by { assert Encode(s)[0] == head[0]; }
      }
    }
  }
}
