/** Reading back single JSON tokens: blanks, strings, numbers, literals. */
module JsonTokens {
  import opened Bytes
  import opened Values
  import opened Text
  import opened Json

  /** Bytes that neither start a blank nor a comment. */
  predicate Solid(b: Byte) { !IsBlank(b) && b != SLASH && b != HASH }

  /** What may follow a printed value: nothing, or a byte that continues no number and no word. */
  predicate Ends(json: Bytes, pos: nat)
  {
    !IsIdent(Cur(json, pos)) && Cur(json, pos) != DOT
  }

  lemma SkipSolid(json: Bytes, pos: nat)
    requires pos < |json| && Solid(json[pos])
    ensures Skip(json, pos) == Some(pos)
  {
  }

  lemma {:induction false} SkipIndent(json: Bytes, pos: nat, n: nat)
    requires At(json, pos, Spaces(n)) && pos + n < |json| && Solid(json[pos + n])
    ensures Skip(json, pos) == Some(pos + n)
    decreases n
  {
    if n > 0 {
      AtHead(json, pos, Spaces(n));
      assert Spaces(n)[1..] == Spaces(n - 1);
      SkipIndent(json, pos + 1, n - 1);
    }
  }

  lemma SkipBreak(json: Bytes, pos: nat, pretty: bool, indent: nat)
    requires At(json, pos, Break(pretty, indent))
    requires var p := pos + |Break(pretty, indent)|; p < |json| && Solid(json[p])
    ensures Skip(json, pos) == Some(pos + |Break(pretty, indent)|)
  {
    if pretty {
      AtHead(json, pos, Break(pretty, indent));
      assert Break(pretty, indent)[1..] == Spaces(4 * indent);
      SkipIndent(json, pos + 1, 4 * indent);
    }
  }

  // ---------- Strings ----------

  lemma ScanByte(b: Byte, json: Bytes, pos: nat)
    requires At(json, pos, EscapeByte(b))
    ensures ScanString(json, pos) == ScanString(json, pos + |EscapeByte(b)|)
  {
    var e := EscapeByte(b);
    AtHead(json, pos, e);
    if |e| > 1 {
      AtHead(json, pos + 1, e[1..]);
      if |e| == 6 {
        AtHead(json, pos + 2, e[1..][1..]);
        AtHead(json, pos + 3, e[1..][1..][1..]);
        AtHead(json, pos + 4, e[1..][1..][1..][1..]);
        AtHead(json, pos + 5, e[1..][1..][1..][1..][1..]);
        PlainByte(json, pos + 2);
        PlainByte(json, pos + 3);
        PlainByte(json, pos + 4);
        PlainByte(json, pos + 5);
      }
    }
  }

  lemma PlainByte(json: Bytes, pos: nat)
    requires pos < |json| && json[pos] >= 0x20 && json[pos] != QUOTE && json[pos] != BACKSLASH
    ensures ScanString(json, pos) == ScanString(json, pos + 1)
  {
  }

  lemma {:induction false} ScanEscaped(s: Bytes, json: Bytes, pos: nat)
    requires At(json, pos, Escape(s) + [QUOTE])
    ensures ScanString(json, pos) == Some(pos + |Escape(s)|)
    decreases |s|
  {
    hide ScanString, EscapeByte;
    if s == [] {
      AtHead(json, pos, [] + [QUOTE]);
      ScanQuote(json, pos);
    } else {
      var e := EscapeByte(s[0]);
      assert Escape(s) + [QUOTE] == e + (Escape(s[1..]) + [QUOTE]);
      AtSplit(json, pos, e, Escape(s[1..]) + [QUOTE]);
      ScanByte(s[0], json, pos);
      ScanEscaped(s[1..], json, pos + |e|);
    }
  }

  lemma ScanQuote(json: Bytes, pos: nat)
    requires pos < |json| && json[pos] == QUOTE
    ensures ScanString(json, pos) == Some(pos)
  {
  }

  lemma RawInverse(s: Bytes, json: Bytes, pos: nat)
    requires At(json, pos, Quoted(s))
    ensures ReadRaw(json, pos)
         == if |Escape(s)| <= MAX_STRING_LEN then Ok(Escape(s), pos + |Quoted(s)|) else Err(TooLarge)
  {
    hide ScanString, Escape;
    assert Quoted(s) == [QUOTE] + (Escape(s) + [QUOTE]);
    AtSplit(json, pos, [QUOTE], Escape(s) + [QUOTE]);
    AtHead(json, pos, [QUOTE]);
    AtSplit(json, pos + 1, Escape(s), [QUOTE]);
    ScanEscaped(s, json, pos + 1);
  }

  lemma Unescaped(s: Bytes)
    ensures Unescape(Escape(s), 0) == Some(s)
  {
    assert Escape(s)[0..] == Escape(s);
    UnescapeEscape(s, Escape(s), 0);
  }

  lemma KeyInverse(s: Bytes, json: Bytes, pos: nat)
    requires At(json, pos, Quoted(s))
    ensures ReadKey(json, pos)
         == if |Escape(s)| <= MAX_STRING_LEN then Ok(s, pos + |Quoted(s)|) else Err(TooLarge)
  {
    RawInverse(s, json, pos);
    Unescaped(s);
  }

  lemma StringInverse(plat: Platform, s: Bytes, json: Bytes, pos: nat)
    requires At(json, pos, Quoted(s))
    ensures StringOrDateTime(plat, json, pos)
         == if |Escape(s)| > MAX_STRING_LEN then Err(TooLarge)
            else match ReadDate(plat, Escape(s))
                 case Some(t) => Ok(Leaf(DateTime(t.0, t.1)), pos + |Quoted(s)|)
                 case None => Ok(Leaf(Text(s, false)), pos + |Quoted(s)|)
  {
    RawInverse(s, json, pos);
    Unescaped(s);
  }

  // ---------- Integers ----------

  ghost predicate AllDigits(s: Bytes)
  {
    forall i :: 0 <= i < |s| ==> IsDigit(s[i])
  }

  function Magnitude(s: Bytes): (r: Bytes)
  {
    if s != [] && s[0] == MINUS then s[1..] else s
  }

  /** An optional sign and digits, no needless leading zero. */
  ghost predicate IntegerLiteral(s: Bytes)
  {
    var m := Magnitude(s);
    m != [] && AllDigits(m) && (m[0] == ZERO ==> |m| == 1)
  }

  lemma DecimalIsLiteral(n: int)
    ensures IntegerLiteral(Decimal(n))
    ensures -TWO_63 <= n < TWO_63 ==> Int64Of(Decimal(n)) == Some(n)
  {
    var m := if n < 0 then -n else n;
    DecimalMagnitude(n);
    DigitsInverse(m);
  }

  lemma DecimalMagnitude(n: int)
    ensures Magnitude(Decimal(n)) == Digits(if n < 0 then -n else n)
    ensures Decimal(n)[0] == MINUS <==> n < 0
  {
    if n < 0 { assert Decimal(n)[1..] == Digits(-n); } else { assert IsDigit(Digits(n)[0]); }
  }

  lemma {:induction false} DigitsEndIs(json: Bytes, pos: nat, s: Bytes)
    requires At(json, pos, s) && AllDigits(s) && !IsDigit(Cur(json, pos + |s|))
    ensures DigitsEnd(json, pos) == pos + |s|
    decreases |s|
  {
    if s != [] {
      AtHead(json, pos, s);
      DigitsEndIs(json, pos + 1, s[1..]);
    }
  }

  /** A literal reads back as its value, or as itself when no 64-bit integer holds it. */
  lemma NumberInverse(plat: Platform, s: Bytes, json: Bytes, pos: nat)
    requires IntegerLiteral(s) && At(json, pos, s) && Ends(json, pos + |s|)
    ensures Number(plat, json, pos)
         == match Int64Of(s)
            case Some(n) => Ok(Leaf(Int(n)), pos + |s|)
            case None => if |s| > MAX_STRING_LEN then Err(TooLarge) else Ok(Leaf(Text(s, true)), pos + |s|)
  {
    hide FractionEnd, ExponentEnd, DigitsEnd;
    AtHead(json, pos, s);
    var m := Magnitude(s);
    var start := if s[0] == MINUS then pos + 1 else pos;
    assert s[0] != MINUS ==> IsDigit(s[0]);
    AtHead(json, start, m);
    DigitsEndIs(json, start, m);
    NothingBehind(json, pos + |s|);
    assert json[pos..pos + |s|] == s;
  }

  lemma NothingBehind(json: Bytes, end: nat)
    requires Ends(json, end)
    ensures FractionEnd(json, end) == Some(end) && ExponentEnd(json, end) == Some(end) && !IsDigit(Cur(json, end))
  {
  }

  // ---------- Tokens as values ----------

  lemma StepString(plat: Platform, json: Bytes, pos: nat, depth: nat)
    requires pos < |json| && json[pos] == QUOTE
    ensures ParseValue(plat, json, pos, depth) == StringOrDateTime(plat, json, pos)
  {
    SkipSolid(json, pos);
  }

  /** Whatever the option says, a number is not taken for NaN or Infinity. */
  lemma NoNonFinite(json: Bytes, pos: nat)
    requires pos < |json|
    requires IsDigit(json[pos]) || (json[pos] == MINUS && pos + 1 < |json| && IsDigit(json[pos + 1]))
    ensures NonFinite(json, pos) == None
  {
    NotSpelled(json, pos, NAN_TEXT);
    NotSpelled(json, pos, INFINITY_TEXT);
    NotSpelled(json, pos, [MINUS] + INFINITY_TEXT);
    NotSpelled(json, pos, [MINUS] + NAN_TEXT);
  }

  lemma NotSpelled(json: Bytes, pos: nat, word: Bytes)
    requires pos < |json| && word != []
    requires word[0] != json[pos] || (|word| > 1 && pos + 1 < |json| && word[1] != json[pos + 1])
    ensures !Spells(json, pos, word)
  {
    if pos + |word| <= |json| {
      var chunk := json[pos..pos + |word|];
      assert chunk[0] == json[pos];
      if |word| > 1 { assert chunk[1] == json[pos + 1]; }
    }
  }

  lemma SignThenDigit(s: Bytes, json: Bytes, pos: nat)
    requires IntegerLiteral(s) && At(json, pos, s)
    ensures pos < |json|
    ensures IsDigit(json[pos]) || (json[pos] == MINUS && pos + 1 < |json| && IsDigit(json[pos + 1]))
  {
    AtHead(json, pos, s);
    var m := Magnitude(s);
    assert IsDigit(m[0]);
    if s[0] == MINUS { AtHead(json, pos + 1, s[1..]); }
  }

  lemma StepNumber(plat: Platform, json: Bytes, pos: nat, depth: nat)
    requires pos < |json|
    requires IsDigit(json[pos]) || (json[pos] == MINUS && pos + 1 < |json| && IsDigit(json[pos + 1]))
    ensures ParseValue(plat, json, pos, depth) == Number(plat, json, pos)
  {
    NoNonFinite(json, pos);
    SkipSolid(json, pos);
  }

  lemma StepLiteral(plat: Platform, json: Bytes, pos: nat, depth: nat, word: Bytes, s: Scalar)
    requires (word == TRUE_TEXT && s == Bool(true)) || (word == FALSE_TEXT && s == Bool(false))
          || (word == NULL_TEXT && s == Null)
    requires At(json, pos, word) && Ends(json, pos + |word|)
    ensures ParseValue(plat, json, pos, depth) == Ok(Leaf(s), pos + |word|)
  {
    AtHead(json, pos, word);
    SkipSolid(json, pos);
  }

  lemma StepObject(plat: Platform, json: Bytes, pos: nat, depth: nat)
    requires pos < |json| && json[pos] == LBRACE
    ensures ParseValue(plat, json, pos, depth)
         == if depth + 1 > MAX_NESTING_DEPTH then Err(TooDeep)
            else match ParseMembers(plat, json, pos + 1, depth + 1, map[])
                 case Err(e) => Err(e)
                 case Ok(m, p) => match Special(m) case None => Err(BadText) case Some(v) => Ok(v, p)
  {
    SkipSolid(json, pos);
  }

  lemma StepArray(plat: Platform, json: Bytes, pos: nat, depth: nat)
    requires pos < |json| && json[pos] == LBRACKET
    ensures ParseValue(plat, json, pos, depth)
         == if depth + 1 > MAX_NESTING_DEPTH then Err(TooDeep)
            else match ParseElements(plat, json, pos + 1, depth + 1, [])
                 case Err(e) => Err(e)
                 case Ok(items, p) => Ok(Array(items), p)
  {
    SkipSolid(json, pos);
  }

  /** Blanks before a value do not matter. */
  lemma StepBlanks(plat: Platform, json: Bytes, pos: nat, p: nat, depth: nat)
    requires Skip(json, pos) == Some(p) && p < |json| && Solid(json[p])
    ensures ParseValue(plat, json, pos, depth) == ParseValue(plat, json, p, depth)
  {
    SkipSolid(json, p);
  }
}
