/** Unicode escapes (RFC 8259 section 7) and UTF-8 (RFC 3629 section 3) as the readers join them. */
module Unicode {
  import opened Bytes
  import opened Text

  predicate Surrogate(n: nat) { 0xD800 <= n <= 0xDFFF }

  /** Unicode scalar values: code points that are no surrogates. */
  predicate ScalarValue(cp: nat) { cp < 0x11_0000 && !Surrogate(cp) }

  /** A hexadecimal digit in either case. */
  function HexLetter(n: nat, upper: bool): (r: Byte)
    requires n < 16
  {
    if n < 10 then 48 + n else (if upper then 65 else 97) + (n - 10)
  }

  function CodeUnit(n: nat, upper: bool): (r: Bytes)
    requires n < 0x1_0000
    ensures |r| == 6
  {
    [BACKSLASH, UNICODE, HexLetter(n / 0x1000, upper), HexLetter(n / 0x100 % 16, upper), HexLetter(n / 16 % 16, upper),
     HexLetter(n % 16, upper)]
  }

  /** A scalar value escaped in UTF-16: one code unit, or a surrogate pair. */
  function EscapedPoint(cp: nat, upper: bool): (r: Bytes)
    requires cp < 0x11_0000
  {
    if cp < 0x1_0000 then CodeUnit(cp, upper)
    else CodeUnit(0xD800 + (cp - 0x1_0000) / 0x400, upper) + CodeUnit(0xDC00 + (cp - 0x1_0000) % 0x400, upper)
  }

  lemma HexLetterInverse(n: nat, upper: bool)
    requires n < 16
    ensures HexValue(HexLetter(n, upper)) == n
  {
  }

  lemma UnitDigits(text: Bytes, i: nat, n: nat, upper: bool)
    requires n < 0x1_0000 && At(text, i, CodeUnit(n, upper))
    ensures i + 6 <= |text| && text[i] == BACKSLASH && text[i + 1] == UNICODE && Hex4(text, i + 2) == n
  {
    var u := CodeUnit(n, upper);
    var chunk := text[i..i + 6];
    assert forall k :: 0 <= k < 6 ==> chunk[k] == text[i + k];
    assert text[i + 0] == u[0] && text[i + 1] == u[1] && text[i + 2] == u[2];
    assert text[i + 3] == u[3] && text[i + 4] == u[4] && text[i + 5] == u[5];
    HexLetterInverse(n / 0x1000, upper);
    HexLetterInverse(n / 0x100 % 16, upper);
    HexLetterInverse(n / 16 % 16, upper);
    HexLetterInverse(n % 16, upper);
    Nibbles(n);
  }

  lemma Nibbles(n: nat)
    ensures n == n / 0x1000 * 0x1000 + n / 0x100 % 16 * 0x100 + n / 16 % 16 * 16 + n % 16
  {
    assert n / 0x100 == n / 16 / 16 && n / 0x1000 == n / 16 / 16 / 16;
  }

  /** Every scalar value escaped anywhere in a string is unescaped to its UTF-8 form. */
  lemma ScalarUnescapes(text: Bytes, i: nat, cp: nat, upper: bool)
    requires ScalarValue(cp) && At(text, i, EscapedPoint(cp, upper))
    ensures Unescape(text, i) == Prepend(Utf8(cp), Unescape(text, i + |EscapedPoint(cp, upper)|))
  {
    hide Utf8, Hex4;
    if cp < 0x1_0000 {
      UnitDigits(text, i, cp, upper);
    } else {
      var hi, lo := 0xD800 + (cp - 0x1_0000) / 0x400, 0xDC00 + (cp - 0x1_0000) % 0x400;
      AtSplit(text, i, CodeUnit(hi, upper), CodeUnit(lo, upper));
      UnitDigits(text, i, hi, upper);
      UnitDigits(text, i + 6, lo, upper);
      assert CodePoint(text, i + 2) == (cp, 10);
    }
  }

  /** Whether a high surrogate `n` is followed by an escaped low one. */
  predicate LowBehind(n: nat, text: Bytes, i: nat)
  {
    n < 0xDC00 && i + 6 <= |text| && text[i] == BACKSLASH && text[i + 1] == UNICODE
    && 0xDC00 <= Hex4(text, i + 2) <= 0xDFFF
  }

  /** An escaped surrogate is refused, unless it is a high one with a low one escaped right behind it. */
  lemma LoneSurrogateRefused(text: Bytes, i: nat, n: nat, upper: bool)
    requires n < 0x1_0000 && Surrogate(n) && At(text, i, CodeUnit(n, upper)) && !LowBehind(n, text, i + 6)
    ensures Unescape(text, i) == None
  {
    hide Utf8, Hex4;
    UnitDigits(text, i, n, upper);
  }

  /** One UTF-8 sequence at the front, by the table of RFC 3629 section 3: the code point and its length. */
  function DecodeUtf8(s: Bytes): (r: Option<(nat, nat)>)
  {
    if s == [] then None
    else if s[0] < 0x80 then Some((s[0], 1))
    else if 0xC2 <= s[0] < 0xE0 && |s| >= 2 && Continues(s[1]) then Some((Over(s[0], 0xC0) * 64 + Over(s[1], 0x80), 2))
    else if 0xE0 <= s[0] < 0xF0 && |s| >= 3 && Continues(s[1]) && Continues(s[2]) then
      var cp := Over(s[0], 0xE0) * 0x1000 + Over(s[1], 0x80) * 64 + Over(s[2], 0x80);
      if cp < 0x800 || Surrogate(cp) then None else Some((cp, 3))
    else if 0xF0 <= s[0] < 0xF5 && |s| >= 4 && Continues(s[1]) && Continues(s[2]) && Continues(s[3]) then
      var cp := Over(s[0], 0xF0) * 0x4_0000 + Over(s[1], 0x80) * 0x1000 + Over(s[2], 0x80) * 64 + Over(s[3], 0x80);
      if cp < 0x1_0000 || cp > 0x10_FFFF then None else Some((cp, 4))
    else None
  }

  /** The payload bits of a byte above its marker. */
  function Over(b: Byte, marker: Byte): (r: nat)
    requires marker <= b
  {
    b - marker
  }

  predicate Continues(b: Byte) { 0x80 <= b < 0xC0 }

  /** What is appended for a scalar value is its well-formed UTF-8 sequence, before any suffix. */
  lemma Utf8Decodes(cp: nat, suffix: Bytes)
    requires ScalarValue(cp)
    ensures DecodeUtf8(Utf8(cp) + suffix) == Some((cp, |Utf8(cp)|))
  {
    var s := Utf8(cp) + suffix;
    assert forall k :: 0 <= k < |Utf8(cp)| ==> s[k] == Utf8(cp)[k];
    Sextets(cp);
  }

  lemma Sextets(n: nat)
    ensures n == n / 64 * 64 + n % 64
    ensures n == n / 0x1000 * 0x1000 + n / 64 % 64 * 64 + n % 64
    ensures n == n / 0x4_0000 * 0x4_0000 + n / 0x1000 % 64 * 0x1000 + n / 64 % 64 * 64 + n % 64
  {
    assert n / 0x1000 == n / 64 / 64 && n / 0x4_0000 == n / 64 / 64 / 64;
  }
}
