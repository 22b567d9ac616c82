/** Quoted UDE strings in every spelling: line breaks, continued lines, short escapes, bytes and code points by number. */
module UdeQuotes {
  import opened Bytes
  import opened Values
  import opened Text
  import opened Unicode
  import opened Ude
  import opened Json5Numbers
  import UdeProofs
  import JsonNumbers

  /** The escapes of one letter: their letters and bytes. */
  const LETTERS: map<Byte, Byte> := map[110 := 10, 116 := 9, 114 := 13, 98 := 8, 102 := 12, 47 := 47, 92 := 92, 34 := 34]

  datatype Part =
    | Raw(b: Byte)
    | Broken(ending: Bytes)
    | Continued(ending: Bytes, blanks: Bytes)
    | Letter(letter: Byte)
    | Numbered(n: nat, hi: bool, lo: bool)
    | Braces(digits: seq<nat>, upper: seq<bool>)
    | Short(digits: seq<nat>, upper: seq<bool>)
    | Pair(high: nat, low: nat, capital: bool)
    | Long(digits: seq<nat>, upper: seq<bool>)

  ghost predicate PartOk(p: Part)
  {
    match p
    case Raw(b) => b != QUOTE && b != BACKSLASH && b != RETURN
    case Broken(e) => e == [RETURN] || e == [RETURN, NEWLINE]
    case Continued(e, blanks) =>
      (e == [NEWLINE] || e == [RETURN] || e == [RETURN, NEWLINE])
      && forall i :: 0 <= i < |blanks| ==> blanks[i] == SPACE || blanks[i] == TAB
    case Letter(b) => b in LETTERS
    case Numbered(n, _, _) => n < 256
    case Braces(digits, upper) => DigitsOk(digits, upper, 16) && Total(digits, 16) <= 0x10_FFFF
    case Short(digits, upper) => |digits| == 4 && DigitsOk(digits, upper, 16) && ScalarValue(Total(digits, 16))
    case Pair(high, low, _) => 0xD800 <= high < 0xDC00 && 0xDC00 <= low < 0xE000
    case Long(digits, upper) => |digits| == 8 && DigitsOk(digits, upper, 16) && ScalarValue(Total(digits, 16))
  }

  /** No line feed behind a lone carriage return, no further blank behind a continued line. */
  predicate Fits(p: Part, next: Option<Byte>)
  {
    match p
    case Broken(e) => e == [RETURN] ==> next != Some(NEWLINE)
    case Continued(e, blanks) =>
      (e == [RETURN] && blanks == [] ==> next != Some(NEWLINE)) && next != Some(SPACE) && next != Some(TAB)
    case _ => true
  }

  ghost function PartText(p: Part): (r: Bytes)
    requires PartOk(p)
    ensures r != []
  {
    match p
    case Raw(b) => [b]
    case Broken(e) => e
    case Continued(e, blanks) => [BACKSLASH] + (e + blanks)
    case Letter(b) => [BACKSLASH, b]
    case Numbered(n, hi, lo) => [BACKSLASH, 120, HexLetter(n / 16, hi), HexLetter(n % 16, lo)]
    case Braces(digits, upper) => [BACKSLASH, UNICODE, LBRACE] + (DigitsText(digits, upper, 16) + [RBRACE])
    case Short(digits, upper) => [BACKSLASH, UNICODE] + DigitsText(digits, upper, 16)
    case Pair(high, low, upper) => CodeUnit(high, upper) + CodeUnit(low, upper)
    case Long(digits, upper) => [BACKSLASH, 85] + DigitsText(digits, upper, 16)
  }

  /** A break is a line feed, a continued line nothing, a numbered byte itself, a code point its UTF-8 form. */
  ghost function PartBytes(p: Part): (r: Bytes)
    requires PartOk(p)
  {
    match p
    case Raw(b) => [b]
    case Broken(_) => [NEWLINE]
    case Continued(_, _) => []
    case Letter(b) => [LETTERS[b]]
    case Numbered(n, _, _) => [n]
    case Braces(digits, _) => Utf8(Total(digits, 16))
    case Short(digits, _) => Utf8(Total(digits, 16))
    case Pair(high, low, _) => Utf8(0x1_0000 + (high - 0xD800) * 0x400 + (low - 0xDC00))
    case Long(digits, _) => Utf8(Total(digits, 16))
  }

  ghost predicate PartsOk(ps: seq<Part>) { forall i :: 0 <= i < |ps| ==> PartOk(ps[i]) }

  ghost function PartsText(ps: seq<Part>): (r: Bytes)
    requires PartsOk(ps)
  {
    if ps == [] then [] else PartText(ps[0]) + PartsText(ps[1..])
  }

  ghost function PartsBytes(ps: seq<Part>): (r: Bytes)
    requires PartsOk(ps)
  {
    if ps == [] then [] else PartBytes(ps[0]) + PartsBytes(ps[1..])
  }

  function First(s: Bytes): (r: Option<Byte>) { if s == [] then None else Some(s[0]) }

  ghost predicate PartsFit(ps: seq<Part>)
    requires PartsOk(ps)
  {
    ps == [] || (Fits(ps[0], First(PartsText(ps[1..]))) && PartsFit(ps[1..]))
  }

  function Next(raw: Bytes, i: nat): (r: Option<Byte>) { if i < |raw| then Some(raw[i]) else None }

  // ---------- Numbers ----------

  lemma {:induction false} HexRunIs(digits: seq<nat>, upper: seq<bool>, raw: Bytes, i: nat)
    requires DigitsOk(digits, upper, 16) && At(raw, i, DigitsText(digits, upper, 16))
    ensures HexRun(raw, i, |digits|) == Some(Total(digits, 16))
    decreases |digits|
  {
    hide Total;
    var text, n := DigitsText(digits, upper, 16), |digits| - 1;
    assert raw[i..i + |digits|] == text;
    assert raw[i + n] == text[n];
    HexLetterInverse(digits[n], upper[n]);
    if n == 0 {
      assert HexRun(raw, i, 0) == Some(0);
      assert digits == [digits[0]];
      OneDigit(digits[0], 16);
    } else {
      assert text[..n] == DigitsText(digits[..n], upper[..n], 16);
      assert raw[i..i + n] == text[..n];
      HexRunIs(digits[..n], upper[..n], raw, i);
      assert digits == digits[..n] + [digits[n]];
      TotalSnoc(digits[..n], digits[n], 16);
    }
  }

  /** The digits of a unit. */
  function UnitNibbles(n: nat): (r: seq<nat>)
    requires n < 0x1_0000
  {
    [n / 0x1000, n / 0x100 % 16, n / 16 % 16, n % 16]
  }

  lemma UnitIs(n: nat, upper: bool)
    requires n < 0x1_0000
    ensures var u := [upper, upper, upper, upper];
      DigitsOk(UnitNibbles(n), u, 16) && CodeUnit(n, upper) == [BACKSLASH, UNICODE] + DigitsText(UnitNibbles(n), u, 16)
    ensures Total(UnitNibbles(n), 16) == n
  {
    var d := UnitNibbles(n);
    var a, b, c := [d[0]], [d[0], d[1]], [d[0], d[1], d[2]];
    OneDigit(d[0], 16);
    assert b == a + [d[1]] && c == b + [d[2]] && d == c + [d[3]];
    TotalSnoc(a, d[1], 16);
    TotalSnoc(b, d[2], 16);
    TotalSnoc(c, d[3], 16);
    Nibbles(n);
  }

  lemma {:induction false} BracedRead(digits: seq<nat>, upper: seq<bool>, raw: Bytes, j: nat, cp: nat, any: bool)
    requires |upper| == |digits| && (digits != [] ==> DigitsOk(digits, upper, 16)) && (any || digits != [])
    requires At(raw, j, (if digits == [] then [] else DigitsText(digits, upper, 16)) + [RBRACE])
    requires cp <= 0x10_FFFF && cp * Power(16, |digits|) + Total(digits, 16) <= 0x10_FFFF
    ensures Braced(raw, j, cp, any) == Some((cp * Power(16, |digits|) + Total(digits, 16), j + |digits|))
    decreases |digits|
  {
    hide Braced, Power, Total;
    if digits == [] {
      AtHead(raw, j, [] + [RBRACE]);
      BracedEnds(raw, j, cp);
    } else {
      DigitsRest(digits, upper, raw, j);
      BracedDigit(digits, upper, raw, j, cp);
      BracedStep(raw, j, cp, any);
      BracedRead(digits[1..], upper[1..], raw, j + 1, cp * 16 + digits[0], true);
    }
  }

  lemma BracedEnds(raw: Bytes, j: nat, cp: nat)
    requires cp <= 0x10_FFFF && j < |raw| && raw[j] == RBRACE
    ensures Braced(raw, j, cp, true) == Some((cp * Power(16, 0) + Total([], 16), j))
  {
    assert Power(16, 0) == 1;
  }

  lemma DigitsRest(digits: seq<nat>, upper: seq<bool>, raw: Bytes, j: nat)
    requires DigitsOk(digits, upper, 16) && At(raw, j, DigitsText(digits, upper, 16) + [RBRACE])
    ensures j < |raw| && raw[j] == HexLetter(digits[0], upper[0]) && (|digits| > 1 ==> DigitsOk(digits[1..], upper[1..], 16))
    ensures At(raw, j + 1, (if |digits| == 1 then [] else DigitsText(digits[1..], upper[1..], 16)) + [RBRACE])
  {
    var text := DigitsText(digits, upper, 16);
    AtHead(raw, j, text + [RBRACE]);
    assert (text + [RBRACE])[1..] == text[1..] + [RBRACE];
    if |digits| > 1 { assert text[1..] == DigitsText(digits[1..], upper[1..], 16); } else { assert text[1..] == []; }
  }

  lemma BracedStep(raw: Bytes, j: nat, cp: nat, any: bool)
    requires cp <= 0x10_FFFF && j < |raw| && raw[j] != RBRACE && 0 <= HexValue(raw[j]) && cp * 16 + HexValue(raw[j]) <= 0x10_FFFF
    ensures Braced(raw, j, cp, any) == Braced(raw, j + 1, cp * 16 + HexValue(raw[j]), true)
  {
  }

  lemma Regroup(cp: nat, d: nat, p: nat)
    ensures (cp * 16 + d) * p == cp * (16 * p) + d * p
  {
  }

  lemma BracedDigit(digits: seq<nat>, upper: seq<bool>, raw: Bytes, j: nat, cp: nat)
    requires DigitsOk(digits, upper, 16) && j < |raw| && raw[j] == HexLetter(digits[0], upper[0])
    requires cp * Power(16, |digits|) + Total(digits, 16) <= 0x10_FFFF
    ensures raw[j] != RBRACE && HexValue(raw[j]) == digits[0] && cp * 16 + digits[0] <= 0x10_FFFF
    ensures (cp * 16 + digits[0]) * Power(16, |digits| - 1) + Total(digits[1..], 16)
         == cp * Power(16, |digits|) + Total(digits, 16)
  {
    HexLetterInverse(digits[0], upper[0]);
    Regroup(cp, digits[0], Power(16, |digits| - 1));
    Positive(16, |digits| - 1);
    AtLeastOnce(cp * 16 + digits[0], Power(16, |digits| - 1));
  }

  lemma {:induction false} Positive(base: nat, k: nat)
    requires base > 0
    ensures Power(base, k) > 0
    decreases k
  {
    if k > 0 { Positive(base, k - 1); }
  }

  lemma AtLeastOnce(n: nat, p: nat)
    requires p > 0
    ensures n * p >= n
  {
  }

  // ---------- Parts ----------

  lemma {:induction false} BlanksPassed(blanks: Bytes, raw: Bytes, i: nat)
    requires At(raw, i, blanks) && (forall k :: 0 <= k < |blanks| ==> blanks[k] == SPACE || blanks[k] == TAB)
    requires Next(raw, i + |blanks|) != Some(SPACE) && Next(raw, i + |blanks|) != Some(TAB)
    ensures SkipBlanks(raw, i) == i + |blanks|
    decreases |blanks|
  {
    if blanks != [] {
      AtHead(raw, i, blanks);
      BlanksPassed(blanks[1..], raw, i + 1);
    }
  }

  ghost predicate Yields(raw: Bytes, i: nat, out: Bytes, j: nat)
  {
    Unquote(raw, i) == Prepend(out, Unquote(raw, j))
  }

  lemma BrokenRead(e: Bytes, raw: Bytes, i: nat)
    requires PartOk(Broken(e)) && At(raw, i, e) && Fits(Broken(e), Next(raw, i + |e|))
    ensures Yields(raw, i, [NEWLINE], i + |e|)
  {
    AtHead(raw, i, e);
    if |e| == 2 { AtHead(raw, i + 1, e[1..]); }
  }

  lemma ContinuedRead(e: Bytes, blanks: Bytes, raw: Bytes, i: nat)
    requires PartOk(Continued(e, blanks)) && At(raw, i, [BACKSLASH] + (e + blanks))
    requires Fits(Continued(e, blanks), Next(raw, i + 1 + |e| + |blanks|))
    ensures Yields(raw, i, [], i + 1 + |e| + |blanks|)
  {
    hide SkipBlanks;
    AtSplit(raw, i, [BACKSLASH], e + blanks);
    AtHead(raw, i, [BACKSLASH]);
    AtSplit(raw, i + 1, e, blanks);
    AtHead(raw, i + 1, e);
    if |e| == 2 { AtHead(raw, i + 2, e[1..]); }
    if blanks != [] { AtHead(raw, i + 1 + |e|, blanks); }
    BlanksPassed(blanks, raw, i + 1 + |e|);
    ContinuedStep(raw, i, i + 1 + |e|);
    PrependNothing(Unquote(raw, i + 1 + |e| + |blanks|));
  }

  lemma ContinuedStep(raw: Bytes, i: nat, p: nat)
    requires i + 1 < |raw| && raw[i] == BACKSLASH && (raw[i + 1] == NEWLINE || raw[i + 1] == RETURN)
    requires p == if raw[i + 1] == RETURN && i + 2 < |raw| && raw[i + 2] == NEWLINE then i + 3 else i + 2
    ensures Unquote(raw, i) == Unquote(raw, SkipBlanks(raw, p))
  {
    hide SkipBlanks;
  }

  lemma ShortLetters(p: Part, raw: Bytes, i: nat)
    requires (p.Raw? || p.Letter? || p.Numbered?) && PartOk(p) && At(raw, i, PartText(p))
    ensures Yields(raw, i, PartBytes(p), i + |PartText(p)|)
  {
    hide SkipBlanks, Braced, CodePointAt;
    var text := PartText(p);
    AtHead(raw, i, text);
    if |text| > 1 { AtHead(raw, i + 1, text[1..]); }
    if p.Numbered? {
      AtHead(raw, i + 2, text[1..][1..]);
      AtHead(raw, i + 3, text[1..][1..][1..]);
      HexLetterInverse(p.n / 16, p.hi);
      HexLetterInverse(p.n % 16, p.lo);
    }
  }

  lemma BracesRead(digits: seq<nat>, upper: seq<bool>, raw: Bytes, i: nat)
    requires PartOk(Braces(digits, upper)) && At(raw, i, PartText(Braces(digits, upper)))
    ensures Yields(raw, i, Utf8(Total(digits, 16)), i + |digits| + 4)
  {
    hide *;
    BracesText(digits, upper);
    var open, body := [BACKSLASH, UNICODE, LBRACE], DigitsText(digits, upper, 16) + [RBRACE];
    AtSplit(raw, i, open, body);
    AtHead(raw, i, open);
    AtHead(raw, i + 1, open[1..]);
    AtHead(raw, i + 2, open[1..][1..]);
    assert 0 * Power(16, |digits|) == 0;
    BracedRead(digits, upper, raw, i + 3, 0, false);
    BracesStep(raw, i);
    YieldsIs(raw, i, Utf8(Total(digits, 16)), i + |digits| + 4);
  }

  lemma BracesText(digits: seq<nat>, upper: seq<bool>)
    requires PartOk(Braces(digits, upper))
    ensures PartText(Braces(digits, upper)) == [BACKSLASH, UNICODE, LBRACE] + (DigitsText(digits, upper, 16) + [RBRACE])
    ensures DigitsOk(digits, upper, 16) && |upper| == |digits| > 0 && Total(digits, 16) <= 0x10_FFFF
  {
    hide DigitsText, Total;
  }

  lemma BracesStep(raw: Bytes, i: nat)
    requires i + 2 < |raw| && raw[i] == BACKSLASH && raw[i + 1] == UNICODE && raw[i + 2] == LBRACE
    ensures Unquote(raw, i)
         == match Braced(raw, i + 3, 0, false) case None => None case Some(b) => Prepend(Utf8(b.0), Unquote(raw, b.1 + 1))
  {
    hide Braced, Utf8;
  }

  function Marker(need: nat): (r: Byte) { if need == 4 then UNICODE else 85 }

  lemma PointStep(raw: Bytes, i: nat, need: nat)
    requires i + 1 < |raw| && raw[i] == BACKSLASH && (need == 4 || need == 8)
    requires raw[i + 1] == Marker(need) && (need == 4 && i + 2 < |raw| ==> raw[i + 2] != LBRACE)
    ensures Unquote(raw, i)
         == match CodePointAt(raw, i + 2, need) case None => None case Some(b) => Prepend(Utf8(b.0), Unquote(raw, b.1))
  {
    hide CodePointAt, Utf8;
  }

  lemma DigitIsNoBrace(digits: seq<nat>, upper: seq<bool>)
    requires DigitsOk(digits, upper, 16)
    ensures |DigitsText(digits, upper, 16)| == |digits| > 0 && DigitsText(digits, upper, 16)[0] != LBRACE
  {
    HexLetterInverse(digits[0], upper[0]);
  }

  /** Four or eight digits that are a scalar value. */
  lemma PointRead(digits: seq<nat>, upper: seq<bool>, raw: Bytes, i: nat)
    requires (|digits| == 4 || |digits| == 8) && DigitsOk(digits, upper, 16) && ScalarValue(Total(digits, 16))
    requires At(raw, i, [BACKSLASH, Marker(|digits|)] + DigitsText(digits, upper, 16))
    ensures Yields(raw, i, Utf8(Total(digits, 16)), i + 2 + |digits|)
  {
    hide *;
    var open, text := [BACKSLASH, Marker(|digits|)], DigitsText(digits, upper, 16);
    AtSplit(raw, i, open, text);
    assert |open| == 2;
    AtHead(raw, i, open);
    AtHead(raw, i + 1, open[1..]);
    DigitIsNoBrace(digits, upper);
    AtHead(raw, i + 2, text);
    HexRunIs(digits, upper, raw, i + 2);
    PointStep(raw, i, |digits|);
    PlainPoint(raw, i + 2, |digits|);
    YieldsIs(raw, i, Utf8(Total(digits, 16)), i + 2 + |digits|);
  }

  lemma YieldsIs(raw: Bytes, i: nat, out: Bytes, j: nat)
    requires Unquote(raw, i) == Prepend(out, Unquote(raw, j))
    ensures Yields(raw, i, out, j)
  {
    hide Unquote;
  }

  lemma PlainPoint(raw: Bytes, i: nat, need: nat)
    requires (need == 4 || need == 8) && i + need <= |raw| && HexRun(raw, i, need).Some?
    requires ScalarValue(HexRun(raw, i, need).value)
    ensures CodePointAt(raw, i, need) == Some((HexRun(raw, i, need).value, i + need))
  {
    hide HexRun;
  }

  /** A surrogate pair. */
  lemma PairRead(high: nat, low: nat, upper: bool, raw: Bytes, i: nat)
    requires PartOk(Pair(high, low, upper)) && At(raw, i, CodeUnit(high, upper) + CodeUnit(low, upper))
    ensures Yields(raw, i, Utf8(0x1_0000 + (high - 0xD800) * 0x400 + (low - 0xDC00)), i + 12)
  {
    hide Unquote, CodePointAt, HexRun, Utf8, Total, CodeUnit, DigitsText;
    var u, open := [upper, upper, upper, upper], [BACKSLASH, UNICODE];
    AtSplit(raw, i, CodeUnit(high, upper), CodeUnit(low, upper));
    UnitIs(high, upper);
    UnitIs(low, upper);
    UnitPlace(high, upper, raw, i);
    UnitPlace(low, upper, raw, i + 6);
    PointStep(raw, i, 4);
    PairPoint(raw, i + 2, high, low);
  }

  lemma UnitPlace(n: nat, upper: bool, raw: Bytes, i: nat)
    requires n < 0x1_0000 && At(raw, i, CodeUnit(n, upper))
    ensures i + 6 <= |raw| && raw[i] == BACKSLASH && raw[i + 1] == UNICODE && raw[i + 2] != LBRACE
    ensures HexRun(raw, i + 2, 4) == Some(n)
  {
    hide HexRun, Total, CodeUnit, DigitsText;
    var u, open := [upper, upper, upper, upper], [BACKSLASH, UNICODE];
    var text := DigitsText(UnitNibbles(n), u, 16);
    UnitIs(n, upper);
    AtSplit(raw, i, open, text);
    AtHead(raw, i, open);
    AtHead(raw, i + 1, open[1..]);
    DigitIsNoBrace(UnitNibbles(n), u);
    AtHead(raw, i + 2, text);
    HexRunIs(UnitNibbles(n), u, raw, i + 2);
  }

  lemma PairPoint(raw: Bytes, i: nat, high: nat, low: nat)
    requires 0xD800 <= high < 0xDC00 && 0xDC00 <= low < 0xE000 && i + 10 <= |raw|
    requires HexRun(raw, i, 4) == Some(high) && raw[i + 4] == BACKSLASH && raw[i + 5] == UNICODE && HexRun(raw, i + 6, 4) == Some(low)
    ensures CodePointAt(raw, i, 4) == Some((0x1_0000 + (high - 0xD800) * 0x400 + (low - 0xDC00), i + 10))
  {
    hide HexRun;
  }

  lemma PartRead(p: Part, raw: Bytes, i: nat)
    requires PartOk(p) && At(raw, i, PartText(p)) && Fits(p, Next(raw, i + |PartText(p)|))
    ensures Yields(raw, i, PartBytes(p), i + |PartText(p)|)
  {
    hide Yields, Total, DigitsText, Utf8, CodeUnit, Fits;
    match p
    case Broken(e) => BrokenRead(e, raw, i);
    case Continued(e, blanks) => ContinuedRead(e, blanks, raw, i);
    case Braces(digits, upper) => DigitIsNoBrace(digits, upper); BracesRead(digits, upper, raw, i);
    case Short(digits, upper) => DigitIsNoBrace(digits, upper); PointRead(digits, upper, raw, i);
    case Long(digits, upper) => DigitIsNoBrace(digits, upper); PointRead(digits, upper, raw, i);
    case Pair(high, low, upper) => PairRead(high, low, upper, raw, i);
    case Raw(_) => ShortLetters(p, raw, i);
    case Letter(_) => ShortLetters(p, raw, i);
    case Numbered(_, _, _) => ShortLetters(p, raw, i);
  }

  lemma {:induction false} PartsRead(ps: seq<Part>, raw: Bytes, i: nat)
    requires PartsOk(ps) && PartsFit(ps) && At(raw, i, PartsText(ps)) && i + |PartsText(ps)| == |raw|
    ensures Unquote(raw, i) == Some(PartsBytes(ps))
    decreases |ps|
  {
    hide Unquote, PartText, PartBytes, PartOk, Fits;
    if ps == [] {
      UdeProofs.UnquoteEnd(raw);
    } else {
      var text := PartText(ps[0]);
      AtSplit(raw, i, text, PartsText(ps[1..]));
      if PartsText(ps[1..]) != [] { AtHead(raw, i + |text|, PartsText(ps[1..])); }
      assert Next(raw, i + |text|) == First(PartsText(ps[1..]));
      PartRead(ps[0], raw, i);
      PartsRead(ps[1..], raw, i + |text|);
    }
  }

  // ---------- Strings ----------

  predicate Quiet(t: Bytes) { forall k :: 0 <= k < |t| ==> t[k] != QUOTE && t[k] != BACKSLASH }

  lemma {:induction false} QuietPassed(t: Bytes, text: Bytes, i: nat)
    requires Quiet(t) && At(text, i, t)
    ensures QuoteAfter(text, i) == QuoteAfter(text, i + |t|)
    decreases |t|
  {
    if t != [] {
      AtHead(text, i, t);
      QuietPassed(t[1..], text, i + 1);
    }
  }

  /** A backslash, the byte behind it, and bytes that mean nothing here. */
  lemma EscapePassed(b: Byte, t: Bytes, text: Bytes, i: nat)
    requires Quiet(t) && At(text, i, [BACKSLASH, b] + t)
    ensures QuoteAfter(text, i) == QuoteAfter(text, i + 2 + |t|)
  {
    AtSplit(text, i, [BACKSLASH, b], t);
    AtHead(text, i, [BACKSLASH, b]);
    QuietPassed(t, text, i + 2);
  }

  lemma DigitsQuiet(digits: seq<nat>, upper: seq<bool>)
    requires DigitsOk(digits, upper, 16)
    ensures Quiet(DigitsText(digits, upper, 16))
  {
  }

  lemma UnitPassed(n: nat, upper: bool, text: Bytes, i: nat)
    requires n < 0x1_0000 && At(text, i, CodeUnit(n, upper))
    ensures QuoteAfter(text, i) == QuoteAfter(text, i + 6)
  {
    hide QuoteAfter;
    var u := [upper, upper, upper, upper];
    UnitIs(n, upper);
    DigitsQuiet(UnitNibbles(n), u);
    EscapePassed(UNICODE, DigitsText(UnitNibbles(n), u, 16), text, i);
  }

  lemma PartScanned(p: Part, text: Bytes, i: nat)
    requires PartOk(p) && At(text, i, PartText(p))
    ensures QuoteAfter(text, i) == QuoteAfter(text, i + |PartText(p)|)
  {
    hide *;
    match p
    case Raw(_) => LetterScanned(p, text, i);
    case Broken(_) => LetterScanned(p, text, i);
    case Continued(_, _) => LetterScanned(p, text, i);
    case Letter(_) => LetterScanned(p, text, i);
    case Numbered(_, _, _) => NumberScanned(p, text, i);
    case Braces(_, _) => NumberScanned(p, text, i);
    case Short(_, _) => NumberScanned(p, text, i);
    case Long(_, _) => NumberScanned(p, text, i);
    case Pair(high, low, capital) => PairScanned(high, low, capital, text, i);
  }

  lemma LetterScanned(p: Part, text: Bytes, i: nat)
    requires PartOk(p) && At(text, i, PartText(p)) && (p.Raw? || p.Broken? || p.Continued? || p.Letter?)
    ensures QuoteAfter(text, i) == QuoteAfter(text, i + |PartText(p)|)
  {
    hide QuoteAfter;
    match p
    case Raw(b) => QuietPassed([b], text, i);
    case Broken(e) => QuietPassed(e, text, i);
    case Continued(e, blanks) => BreakScanned(e, blanks, text, i);
    case Letter(b) => assert [BACKSLASH, b] + [] == [BACKSLASH, b]; EscapePassed(b, [], text, i);
  }

  lemma BreakScanned(e: Bytes, blanks: Bytes, text: Bytes, i: nat)
    requires PartOk(Continued(e, blanks)) && At(text, i, [BACKSLASH] + (e + blanks))
    ensures QuoteAfter(text, i) == QuoteAfter(text, i + 1 + |e| + |blanks|)
  {
    hide QuoteAfter;
    assert [BACKSLASH] + (e + blanks) == [BACKSLASH, e[0]] + (e[1..] + blanks);
    EscapePassed(e[0], e[1..] + blanks, text, i);
  }

  lemma NumberScanned(p: Part, text: Bytes, i: nat)
    requires PartOk(p) && At(text, i, PartText(p)) && (p.Numbered? || p.Braces? || p.Short? || p.Long?)
    ensures QuoteAfter(text, i) == QuoteAfter(text, i + |PartText(p)|)
  {
    hide QuoteAfter, DigitsText, Total;
    match p
    case Numbered(n, hi, lo) =>
      var digits := [HexLetter(n / 16, hi), HexLetter(n % 16, lo)];
      assert [BACKSLASH, 120] + digits == PartText(p);
      EscapePassed(120, digits, text, i);
    case Braces(digits, upper) =>
      var body := [LBRACE] + (DigitsText(digits, upper, 16) + [RBRACE]);
      DigitsQuiet(digits, upper);
      assert [BACKSLASH, UNICODE] + body == PartText(p);
      EscapePassed(UNICODE, body, text, i);
    case Short(digits, upper) => DigitsQuiet(digits, upper); EscapePassed(UNICODE, DigitsText(digits, upper, 16), text, i);
    case Long(digits, upper) => DigitsQuiet(digits, upper); EscapePassed(85, DigitsText(digits, upper, 16), text, i);
  }

  lemma PairScanned(high: nat, low: nat, capital: bool, text: Bytes, i: nat)
    requires PartOk(Pair(high, low, capital)) && At(text, i, PartText(Pair(high, low, capital)))
    ensures QuoteAfter(text, i) == QuoteAfter(text, i + |PartText(Pair(high, low, capital))|)
  {
    hide QuoteAfter, CodeUnit;
    AtSplit(text, i, CodeUnit(high, capital), CodeUnit(low, capital));
    UnitPassed(high, capital, text, i);
    UnitPassed(low, capital, text, i + 6);
  }

  lemma {:induction false} PartsScanned(ps: seq<Part>, text: Bytes, i: nat)
    requires PartsOk(ps) && At(text, i, PartsText(ps) + [QUOTE])
    ensures QuoteAfter(text, i) == Some(i + |PartsText(ps)|)
    decreases |ps|
  {
    hide PartText, PartOk;
    if ps == [] {
      assert PartsText(ps) + [QUOTE] == [QUOTE];
      AtHead(text, i, [QUOTE]);
    } else {
      hide QuoteAfter;
      Regrouped(PartText(ps[0]), PartsText(ps[1..]), [QUOTE]);
      AtSplit(text, i, PartText(ps[0]), PartsText(ps[1..]) + [QUOTE]);
      PartScanned(ps[0], text, i);
      PartsScanned(ps[1..], text, i + |PartText(ps[0])|);
    }
  }

  /** A quoted string, however spelled, is read as its bytes, up to the length limit. */
  lemma StringRead(ps: seq<Part>, text: Bytes, pos: nat)
    requires PartsOk(ps) && PartsFit(ps) && At(text, pos, [QUOTE] + (PartsText(ps) + [QUOTE]))
    ensures ReadQuoted(text, pos)
         == if |PartsBytes(ps)| > MAX_STRING_LEN then Err(TooLarge) else Ok(PartsBytes(ps), pos + |PartsText(ps)| + 2)
  {
    hide PartsText, PartsBytes, PartsFit, PartsOk, Unquote, QuoteAfter;
    var body := PartsText(ps);
    AtSplit(text, pos, [QUOTE], body + [QUOTE]);
    PartsScanned(ps, text, pos + 1);
    AtSplit(text, pos + 1, body, [QUOTE]);
    assert text[pos + 1..pos + 1 + |body|] == body;
    JsonNumbers.AtWhole(body);
    PartsRead(ps, body, 0);
  }
}
