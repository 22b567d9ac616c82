/** JSON text at the byte level: punctuation, escaping, decimal integers. */
module Text {
  import opened Bytes

  const QUOTE: Byte := 34
  const BACKSLASH: Byte := 92
  const SLASH: Byte := 47
  const COLON: Byte := 58
  const COMMA: Byte := 44
  const LBRACE: Byte := 123
  const RBRACE: Byte := 125
  const LBRACKET: Byte := 91
  const RBRACKET: Byte := 93
  const NEWLINE: Byte := 10
  const RETURN: Byte := 13
  const TAB: Byte := 9
  const SPACE: Byte := 32
  const BACKSPACE: Byte := 8
  const FORMFEED: Byte := 12
  const ZERO: Byte := 48
  const MINUS: Byte := 45
  const UNICODE: Byte := 117
  const LETTER_B: Byte := 98
  const LETTER_F: Byte := 102
  const LETTER_N: Byte := 110
  const LETTER_R: Byte := 114
  const LETTER_T: Byte := 116

  predicate IsDigit(b: Byte) { 48 <= b <= 57 }

  // ---------- Hexadecimal ----------

  /** Lower-case, as snprintf("%x") and the object-id formatter print it. */
  function HexDigit(n: nat): (r: Byte)
    requires n < 16
  {
    if n < 10 then 48 + n else 97 + n - 10
  }

  function HexValue(b: Byte): (r: int)
    ensures -1 <= r < 16
  {
    if IsDigit(b) then b - 48
    else if 97 <= b <= 102 then b - 97 + 10   // a-f
    else if 65 <= b <= 70 then b - 65 + 10    // A-F
    else -1
  }

  lemma HexInverse(n: nat)
    requires n < 16
    ensures HexValue(HexDigit(n)) == n
  {
  }

  // ---------- Escaping ----------

  function EscapeByte(b: Byte): (r: Bytes)
    ensures 1 <= |r| <= 6
  {
    if b == QUOTE then [BACKSLASH, QUOTE]
    else if b == BACKSLASH then [BACKSLASH, BACKSLASH]
    else if b == BACKSPACE then [BACKSLASH, LETTER_B]
    else if b == FORMFEED then [BACKSLASH, LETTER_F]
    else if b == NEWLINE then [BACKSLASH, LETTER_N]
    else if b == RETURN then [BACKSLASH, LETTER_R]
    else if b == TAB then [BACKSLASH, LETTER_T]
    else if b < 0x20 then [BACKSLASH, UNICODE, ZERO, ZERO, HexDigit(b / 16), HexDigit(b % 16)]
    else [b]
  }

  function Escape(s: Bytes): (r: Bytes)
    ensures |s| <= |r|
  {
    if s == [] then [] else EscapeByte(s[0]) + Escape(s[1..])
  }

  // ---------- Unescaping ----------

  /** appendUtf8Codepoint; nothing is appended past the last code point. */
  function Utf8(cp: nat): (r: Bytes)
  {
    if cp < 0x80 then [cp]
    else if cp < 0x800 then [0xC0 + cp / 64, 0x80 + cp % 64]
    else if cp < 0x1_0000 then [0xE0 + cp / 0x1000, 0x80 + cp / 64 % 64, 0x80 + cp % 64]
    else if cp < 0x11_0000 then [0xF0 + cp / 0x4_0000, 0x80 + cp / 0x1000 % 64, 0x80 + cp / 64 % 64, 0x80 + cp % 64]
    else []
  }

  /** Four hex digits at `i`, or -1. */
  function Hex4(s: Bytes, i: nat): (r: int)
    requires i + 4 <= |s|
    ensures -1 <= r < 0x1_0000
  {
    var a, b, c, d := HexValue(s[i]), HexValue(s[i + 1]), HexValue(s[i + 2]), HexValue(s[i + 3]);
    if a < 0 || b < 0 || c < 0 || d < 0 then -1 else a * 0x1000 + b * 0x100 + c * 16 + d
  }

  /** The code point of the escape whose four digits start at `i`, and how many bytes after `i` it
      takes: a high surrogate joins a low one escaped right behind it. */
  function CodePoint(s: Bytes, i: nat): (r: (nat, nat))
    requires i + 4 <= |s| && Hex4(s, i) >= 0
    ensures i + r.1 <= |s|
  {
    var hi := Hex4(s, i);
    if 0xD800 <= hi <= 0xDBFF && i + 10 <= |s| && s[i + 4] == BACKSLASH && s[i + 5] == UNICODE
       && 0xDC00 <= Hex4(s, i + 6) <= 0xDFFF
    then (0x1_0000 + (hi - 0xD800) * 0x400 + (Hex4(s, i + 6) - 0xDC00), 10)
    else (hi, 4)
  }

  /** What the letter after a backslash stands for; an unknown escape keeps its backslash. */
  function SimpleEscape(b: Byte): (r: Bytes)
  {
    if b == QUOTE || b == BACKSLASH || b == SLASH then [b]
    else if b == LETTER_B then [BACKSPACE]
    else if b == LETTER_F then [FORMFEED]
    else if b == LETTER_N then [NEWLINE]
    else if b == LETTER_R then [RETURN]
    else if b == LETTER_T then [TAB]
    else [BACKSLASH, b]
  }

  /** unescapeJsonString from position `i`; None where it throws. */
  function Unescape(s: Bytes, i: nat): (r: Option<Bytes>)
    decreases |s| - i
  {
    if i >= |s| then Some([])
    else if s[i] != BACKSLASH then Prepend([s[i]], Unescape(s, i + 1))
    else if i + 1 >= |s| then Some([])
    else if s[i + 1] != UNICODE then Prepend(SimpleEscape(s[i + 1]), Unescape(s, i + 2))
    else if i + 5 >= |s| then Unescape(s, i + 2)
    else if Hex4(s, i + 2) < 0 then None
    else
      var (cp, used) := CodePoint(s, i + 2);
      if 0xD800 <= cp <= 0xDFFF then None else Prepend(Utf8(cp), Unescape(s, i + 2 + used))
  }

  /** Unescaping undoes escaping, byte for byte, for every byte string. */
  lemma {:induction false} UnescapeEscape(s: Bytes, text: Bytes, i: nat)
    requires i <= |text| && text[i..] == Escape(s)
    ensures Unescape(text, i) == Some(s)
    decreases |s|
  {
    hide Unescape, EscapeByte;
    if s == [] {
      UnescapeEnd(text);
    } else {
      var e := EscapeByte(s[0]);
      assert text[i..][..|e|] == e && text[i..][|e|..] == Escape(s[1..]);
      assert text[i + |e|..] == text[i..][|e|..];
      UnescapeEscape(s[1..], text, i + |e|);
      assert forall k :: 0 <= k < |e| ==> text[i + k] == e[k];
      UnescapeByte(s[0], text, i);
      assert [s[0]] + s[1..] == s;
    }
  }

  lemma UnescapeEnd(text: Bytes)
    ensures Unescape(text, |text|) == Some([])
  {
  }

  lemma UnescapeByte(b: Byte, text: Bytes, i: nat)
    requires i + |EscapeByte(b)| <= |text|
    requires forall k :: 0 <= k < |EscapeByte(b)| ==> text[i + k] == EscapeByte(b)[k]
    ensures Unescape(text, i) == Prepend([b], Unescape(text, i + |EscapeByte(b)|))
  {
    var e := EscapeByte(b);
    assert text[i] == e[0];
    if |e| == 2 {
      assert text[i + 1] == e[1];
    } else if |e| == 6 {
      assert text[i + 1] == e[1] && text[i + 2] == e[2] && text[i + 3] == e[3] && text[i + 4] == e[4] && text[i + 5] == e[5];
      HexInverse(b / 16);
      HexInverse(b % 16);
      HexInverse(0);
      assert Hex4(text, i + 2) == b;
    }
  }

  // ---------- Decimal integers ----------

  function Digits(n: nat): (r: Bytes)
    ensures r != [] && forall i :: 0 <= i < |r| ==> IsDigit(r[i])
    ensures r[0] == ZERO ==> n == 0 && |r| == 1
  {
    if n < 10 then [ZERO + n] else Digits(n / 10) + [ZERO + n % 10]
  }

  function Decimal(n: int): (r: Bytes)
    ensures r != []
  {
    if n < 0 then [MINUS] + Digits(-n) else Digits(n)
  }

  /** The number a run of digits spells. */
  function FromDigits(s: Bytes): (r: nat)
    requires forall i :: 0 <= i < |s| ==> IsDigit(s[i])
  {
    if s == [] then 0
    else
      assert IsDigit(s[|s| - 1]);
      FromDigits(s[..|s| - 1]) * 10 + (s[|s| - 1] - ZERO)
  }

  lemma {:induction false} DigitsInverse(n: nat)
    ensures FromDigits(Digits(n)) == n
  {
    if n < 10 {
      assert Digits(n)[..0] == [];
      assert FromDigits([]) == 0;
    } else {
      DigitsInverse(n / 10);
      assert Digits(n)[..|Digits(n)| - 1] == Digits(n / 10);
    }
  }

  /** A run of digits without a needless leading zero is the decimal form of its number. */
  lemma {:induction false} DigitsCanonical(s: Bytes)
    requires s != [] && forall i :: 0 <= i < |s| ==> IsDigit(s[i])
    requires s[0] == ZERO ==> |s| == 1
    ensures Digits(FromDigits(s)) == s
  {
    var init := s[..|s| - 1];
    if |s| == 1 {
      assert init == [] && FromDigits(init) == 0;
    } else {
      DigitsCanonical(init);
      LeadingDigit(init);
      assert init + [s[|s| - 1]] == s;
    }
  }

  lemma {:induction false} LeadingDigit(s: Bytes)
    requires s != [] && s[0] != ZERO && forall i :: 0 <= i < |s| ==> IsDigit(s[i])
    ensures FromDigits(s) > 0
  {
    if |s| > 1 { LeadingDigit(s[..|s| - 1]); }
  }

  function Pow10(k: nat): (r: nat)
    ensures r > 0
  {
    if k == 0 then 1 else 10 * Pow10(k - 1)
  }

  /** Digit `k` from the right counts the powers 10^k. */
  lemma {:induction false} DigitsPlaces(n: nat, k: nat)
    requires k < |Digits(n)|
    ensures Digits(n)[|Digits(n)| - 1 - k] == ZERO + n / Pow10(k) % 10
    decreases k
  {
    assert Pow10(0) == 1;
    if k > 0 {
      DigitsPlaces(n / 10, k - 1);
      DivideAgain(n, 10, Pow10(k - 1));
    }
  }
}
