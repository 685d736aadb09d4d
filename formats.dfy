/**
 * The two field-level format rules of the custom validator guide. Each is a
 * fixed, anchored regular expression, written here as a matcher that follows
 * the pattern's structure; its contract states the set of texts the pattern
 * denotes. Texts are the runes Go's regexp reads from the field's string.
 */
module Formats {
  import Utf8

  /** The class `[a-zA-Z0-9_]` of the username pattern. */
  predicate IsWordChar(c: char)
  {
    ('a' <= c <= 'z') || ('A' <= c <= 'Z') || ('0' <= c <= '9') || c == '_'
  }

  /** RE2's `\d`, which is ASCII `[0-9]` only. */
  predicate IsDigit(c: char)
  {
    '0' <= c <= '9'
  }

  /** `[a-zA-Z0-9_]*` followed by the end of the text. */
  function MatchWordStar(s: string): (ok: bool)
    ensures ok <==> forall i :: 0 <= i < |s| ==> IsWordChar(s[i])
  {
    s == [] || (IsWordChar(s[0]) && MatchWordStar(s[1..]))
  }

  /**
   * `^[a-zA-Z0-9_]+$`, the rule registered as `username_format`: one class
   * character, then any number more, then the end of the text.
   */
  function UsernameFormat(s: string): (ok: bool)
    ensures ok <==> |s| > 0 && forall i :: 0 <= i < |s| ==> IsWordChar(s[i])
  {
    |s| > 0 && IsWordChar(s[0]) && MatchWordStar(s[1..])
  }

  /** `\d{n}` followed by the end of the text. */
  function MatchDigits(s: string, n: nat): (ok: bool)
    ensures ok <==> |s| == n && forall i :: 0 <= i < |s| ==> IsDigit(s[i])
  {
    if n == 0 then s == []
    else |s| > 0 && IsDigit(s[0]) && MatchDigits(s[1..], n - 1)
  }

  /**
   * `^1[3-9]\d{9}$`, the rule registered as `phone_format`: the rune '1',
   * one of '3'..'9', exactly nine digits, then the end of the text.
   */
  function PhoneFormat(s: string): (ok: bool)
    ensures ok <==> |s| == 11 && s[0] == '1' && '3' <= s[1] <= '9'
                    && forall i :: 2 <= i < 11 ==> IsDigit(s[i])
  {
    |s| >= 2 && s[0] == '1' && '3' <= s[1] <= '9' && MatchDigits(s[2..], 9)
  }

  // Properties of the username pattern

  /** Because of `+`, the empty text is not a username. */
  lemma UsernameRejectsEmpty()
    ensures !UsernameFormat("")
  {
  }

  /** A text holding any rune outside ASCII is rejected, wherever the rune is. */
  lemma UsernameRejectsNonAscii(s: string, i: nat)
    requires i < |s| && s[i] as int >= 0x80
    ensures !UsernameFormat(s)
  {
  }

  /** The names used by the guide's demonstration users are accepted. */
  lemma UsernameAcceptsExamples()
    ensures UsernameFormat("zhang_san")
    ensures UsernameFormat("test_user")
  {
    var a, b := "zhang_san", "test_user";
    assert forall i :: 0 <= i < |a| ==> IsWordChar(a[i]);
    assert forall i :: 0 <= i < |b| ==> IsWordChar(b[i]);
  }

  /** The Chinese name of the second demonstration user is rejected. */
  lemma UsernameRejectsExample()
    ensures !UsernameFormat("张三")
  {
  }

  /** The language of `[...]+` is closed under concatenation. */
  lemma UsernameConcat(s: string, t: string)
    requires UsernameFormat(s) && UsernameFormat(t)
    ensures UsernameFormat(s + t)
  {
  }

  /** Every non-empty prefix and suffix of a username is a username. */
  lemma {:induction false} UsernameSplit(s: string, t: string)
    requires UsernameFormat(s + t)
    ensures s != [] ==> UsernameFormat(s)
    ensures t != [] ==> UsernameFormat(t)
  {
    forall i | 0 <= i < |s| ensures IsWordChar(s[i]) { assert s[i] == (s + t)[i]; }
    forall i | 0 <= i < |t| ensures IsWordChar(t[i]) { assert t[i] == (s + t)[|s| + i]; }
  }

  // Properties of the phone pattern

  /** The number used by every demonstration user but the fourth is accepted. */
  lemma PhoneAcceptsExample()
    ensures PhoneFormat("13800138000")
  {
  }

  /** The number of the fourth demonstration user is rejected. */
  lemma PhoneRejectsExample()
    ensures !PhoneFormat("12345")
  {
  }

  /** The match is anchored at both ends: one more rune on either side, a newline included, is rejected. */
  lemma PhoneAnchored(s: string, c: char)
    requires PhoneFormat(s)
    ensures !PhoneFormat(s + [c]) && !PhoneFormat([c] + s)
    ensures !PhoneFormat(s + "\n")
  {
  }

  /** A text holding any rune outside ASCII is rejected, wherever the rune is. */
  lemma PhoneRejectsNonAscii(s: string, i: nat)
    requires i < |s| && s[i] as int >= 0x80
    ensures !PhoneFormat(s)
  {
  }

  // The same patterns read over the string's bytes

  predicate IsWordByte(b: Utf8.byte)
  {
    (0x61 <= b <= 0x7A) || (0x41 <= b <= 0x5A) || (0x30 <= b <= 0x39) || b == 0x5F
  }

  predicate IsDigitByte(b: Utf8.byte)
  {
    0x30 <= b <= 0x39
  }

  /** `^[a-zA-Z0-9_]+$` applied byte by byte. */
  predicate UsernameFormatBytes(b: seq<Utf8.byte>)
  {
    |b| > 0 && forall i :: 0 <= i < |b| ==> IsWordByte(b[i])
  }

  /** `^1[3-9]\d{9}$` applied byte by byte. */
  predicate PhoneFormatBytes(b: seq<Utf8.byte>)
  {
    |b| == 11 && b[0] == 0x31 && 0x33 <= b[1] <= 0x39
    && forall i :: 2 <= i < 11 ==> IsDigitByte(b[i])
  }

  /**
   * Every rune the username pattern accepts is ASCII, so matching the runes
   * of a string and matching its UTF-8 bytes give the same answer.
   */
  lemma {:induction false} UsernameBytesAgree(s: string)
    ensures UsernameFormat(s) <==> UsernameFormatBytes(Utf8.Encode(s))
  {
    var b := Utf8.Encode(s);
    Utf8.EncodeAscii(s);
    if UsernameFormat(s) {
      assert Utf8.IsAscii(s);
    }
    if UsernameFormatBytes(b) {
      assert Utf8.IsAsciiBytes(b);
      forall i | 0 <= i < |s| ensures IsWordChar(s[i]) { assert IsWordByte(b[i]); }
    }
  }

  /** The same agreement for the phone pattern. */
  lemma {:induction false} PhoneBytesAgree(s: string)
    ensures PhoneFormat(s) <==> PhoneFormatBytes(Utf8.Encode(s))
  {
    var b := Utf8.Encode(s);
    Utf8.EncodeAscii(s);
    if PhoneFormat(s) {
      assert Utf8.IsAscii(s) by {
        forall i | 0 <= i < |s| ensures s[i] as int < 0x80 {
          if i >= 2 { assert IsDigit(s[i]); }
        }
      }
      forall i | 2 <= i < 11 ensures IsDigitByte(b[i]) { assert IsDigit(s[i]); }
    }
    if PhoneFormatBytes(b) {
      assert Utf8.IsAsciiBytes(b) by {
        forall j | 0 <= j < |b| ensures b[j] < 0x80 {
          if j >= 2 { assert IsDigitByte(b[j]); }
        }
      }
      forall i | 2 <= i < 11 ensures IsDigit(s[i]) { assert IsDigitByte(b[i]); }
    }
  }

  /** The demonstration name "张三" is six bytes long and rejected byte by byte too. */
  lemma {:induction false} UsernameBytesExample()
    ensures Utf8.Encode("张三") == [0xE5, 0xBC, 0xA0, 0xE4, 0xB8, 0x89]
    ensures !UsernameFormatBytes(Utf8.Encode("张三"))
  {
    assert "张三"[1..][1..] == [];
    assert Utf8.Encode("张三") == Utf8.EncodeRune('张') + Utf8.EncodeRune('三');
    assert !IsWordByte(Utf8.Encode("张三")[0]);
  }
}
