/** MongoDB Extended JSON objects as anyone may write them: hexadecimal in either case, further members, no subtype. */
module ExtendedJson {
  import opened Bytes
  import opened Values
  import opened Text
  import opened Regexes
  import opened Unicode
  import opened Json
  import opened Json5Numbers
  import Base64

  // ---------- Hexadecimal ----------

  lemma NoPrefix(b: Byte)
    requires HexValue(b) >= 0
    ensures !IsSpace(b) && b != MINUS && b != PLUS && b != 120 && b != 88
  {
  }

  lemma {:induction false} RunIs(digits: seq<nat>, upper: seq<bool>, acc: nat)
    requires |upper| == |digits| && (digits != [] ==> DigitsOk(digits, upper, 16))
    ensures HexRun(if digits == [] then [] else DigitsText(digits, upper, 16), acc)
         == acc * Power(16, |digits|) + Total(digits, 16)
    decreases |digits|
  {
    if digits == [] {
      assert Power(16, 0) == 1;
    } else {
      var text := DigitsText(digits, upper, 16);
      HexLetterInverse(digits[0], upper[0]);
      if |digits| > 1 { assert text[1..] == DigitsText(digits[1..], upper[1..], 16); } else { assert text[1..] == []; }
      RunIs(digits[1..], upper[1..], acc * 16 + digits[0]);
      Distributes(acc, digits[0], Power(16, |digits| - 1));
    }
  }

  lemma Distributes(acc: nat, d: nat, p: nat)
    ensures (acc * 16 + d) * p == acc * (16 * p) + d * p
  {
  }

  /** Hexadecimal digits in any case are read as their number, up to the largest 64-bit integer. */
  lemma HexRead(digits: seq<nat>, upper: seq<bool>)
    requires DigitsOk(digits, upper, 16)
    ensures var n := Total(digits, 16);
      Strtol16(DigitsText(digits, upper, 16)) == if n < TWO_63 then n else TWO_63 - 1
  {
    hide HexRun, Total, Power;
    var text := DigitsText(digits, upper, 16);
    HexLetterInverse(digits[0], upper[0]);
    NoPrefix(text[0]);
    if |digits| > 1 {
      HexLetterInverse(digits[1], upper[1]);
      NoPrefix(text[1]);
    }
    RunIs(digits, upper, 0);
  }

  /** Two letters a byte, each in its own case. */
  function HexText(s: Bytes, upper: seq<(bool, bool)>): (r: Bytes)
    requires |upper| == |s|
    ensures |r| == 2 * |s|
  {
    if s == [] then []
    else [HexLetter(s[0] / 16, upper[0].0), HexLetter(s[0] % 16, upper[0].1)] + HexText(s[1..], upper[1..])
  }

  lemma PairRead(b: Byte, hi: bool, lo: bool)
    ensures Strtol16([HexLetter(b / 16, hi), HexLetter(b % 16, lo)]) == b
  {
    hide Strtol16;
    var digits, upper := [b / 16, b % 16], [hi, lo];
    assert DigitsText(digits, upper, 16) == [HexLetter(b / 16, hi), HexLetter(b % 16, lo)];
    HexRead(digits, upper);
    assert digits[1..] == [b % 16];
    OneDigit(b % 16, 16);
    assert Power(16, 0) == 1 && Power(16, 1) == 16;
  }

  lemma {:induction false} HexBytesRead(s: Bytes, upper: seq<(bool, bool)>)
    requires |upper| == |s|
    ensures HexBytes(HexText(s, upper)) == s
    decreases |s|
  {
    hide Strtol16;
    if s != [] {
      var text := HexText(s, upper);
      assert text[..2] == [HexLetter(s[0] / 16, upper[0].0), HexLetter(s[0] % 16, upper[0].1)];
      assert text[2..] == HexText(s[1..], upper[1..]);
      PairRead(s[0], upper[0].0, upper[0].1);
      HexBytesRead(s[1..], upper[1..]);
    }
  }

  // ---------- Objects ----------

  function AsText(s: Bytes): (r: Value) { Leaf(Text(s, false)) }

  /** An object id of twelve bytes, its letters in any case. */
  lemma OidRead(oid: Bytes, upper: seq<(bool, bool)>)
    requires |oid| == 12 && |upper| == 12
    ensures Special(map[OID := AsText(HexText(oid, upper))]) == Some(Leaf(ObjectId(oid)))
  {
    hide HexBytes;
    HexBytesRead(oid, upper);
  }

  /** A timestamp, whatever else is beside its seconds. */
  lemma TimestampRead(n: Int64, o: map<Bytes, Value>)
    requires SECONDS in o && o[SECONDS] == Leaf(Int(n))
    ensures Special(map[TIMESTAMP := Object(o)]) == Some(Leaf(Timestamp(n)))
  {
    assert OID != TIMESTAMP;
  }

  /** Binary data without a subtype are plain bytes. */
  lemma BinaryRead(data: Bytes, o: map<Bytes, Value>)
    requires data != [] && BASE64 in o && o[BASE64] == AsText(Base64.Encode(Base64.Default(), data)) && SUBTYPE !in o
    ensures Special(map[BINARY := Object(o)]) == Some(Leaf(Binary(data)))
  {
    hide Base64.Encode, Base64.Decode;
    assert OID != BINARY && TIMESTAMP != BINARY;
    Base64.DefaultIsAlphabet();
    Base64.RoundTrip(Base64.Default(), data);
  }

  /** Binary data with a subtype, hexadecimal in any case: plain bytes if it is zero modulo 2^32, otherwise an extension of
      the type in its low byte. */
  lemma SubTypeRead(data: Bytes, o: map<Bytes, Value>, digits: seq<nat>, upper: seq<bool>)
    requires data != [] && BASE64 in o && o[BASE64] == AsText(Base64.Encode(Base64.Default(), data))
    requires DigitsOk(digits, upper, 16) && Total(digits, 16) < TWO_63
    requires SUBTYPE in o && o[SUBTYPE] == AsText(DigitsText(digits, upper, 16))
    ensures var n := Total(digits, 16) % TWO_32;
      Special(map[BINARY := Object(o)])
      == Some(Leaf(if n == 0 then Binary(data) else Extension(if n % 256 < 128 then n % 256 else n % 256 - 256, data)))
  {
    hide Base64.Encode, Base64.Decode, Strtol16, Total, DigitsText;
    assert OID != BINARY && TIMESTAMP != BINARY;
    Base64.DefaultIsAlphabet();
    Base64.RoundTrip(Base64.Default(), data);
    HexRead(digits, upper);
    LowByte(Total(digits, 16));
  }

  lemma LowByte(n: nat)
    ensures var sub := Signed(n % TWO_32, TWO_32);
      (sub == 0 <==> n % TWO_32 == 0)
      && Signed(sub % 256, 256) == if n % TWO_32 % 256 < 128 then n % TWO_32 % 256 else n % TWO_32 % 256 - 256
  {
    var m := n % TWO_32;
    assert (m - TWO_32) % 256 == m % 256;
  }

  /** A regular expression, whatever else is beside its pattern. */
  lemma RegexRead(pattern: Bytes, m: map<Bytes, Value>)
    requires REGEX in m && m[REGEX] == AsText(pattern) && |m| > 1
    ensures var o := TextAt(m, OPTIONS);
      Special(m) == match MakeRegex(pattern, if o.Some? then o.value else []) case None => None case Some(s) => Some(Leaf(s))
  {
  }
}
