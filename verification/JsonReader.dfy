/** The JSON parser as the library runs it: one object whose position and depth advance step by step. */
module JsonReader {
  import opened Bytes
  import opened Values
  import opened Text
  import opened Json

  // ---------- Unescaping ----------

  method AppendUtf8(out: Buffer, cp: nat)
    modifies out
    ensures out.bytes == old(out.bytes) + Utf8(cp)
  {
    if cp < 0x80 {
      out.Push(cp);
    } else if cp < 0x800 {
      out.Push(0xC0 + cp / 64);
      out.Push(0x80 + cp % 64);
    } else if cp < 0x1_0000 {
      out.Push(0xE0 + cp / 0x1000);
      out.Push(0x80 + cp / 64 % 64);
      out.Push(0x80 + cp % 64);
    } else if cp < 0x11_0000 {
      out.Push(0xF0 + cp / 0x4_0000);
      out.Push(0x80 + cp / 0x1000 % 64);
      out.Push(0x80 + cp / 64 % 64);
      out.Push(0x80 + cp % 64);
    }
  }

  /** unescapeJsonString; None where it throws. */
  method UnescapeString(raw: Bytes) returns (r: Option<Bytes>)
    ensures r == Unescape(raw, 0)
  {
    hide CodePoint, Hex4, Utf8;
    var out := new Buffer();
    var i := 0;
    PrependNothing(Unescape(raw, 0));
    while i < |raw|
      invariant fresh(out)
      invariant Prepend(out.bytes, Unescape(raw, i)) == Unescape(raw, 0)
      decreases |raw| - i
    {
      ghost var before := out.bytes;
      if raw[i] != BACKSLASH {
        out.Push(raw[i]);
        PrependTwice(before, [raw[i]], Unescape(raw, i + 1));
        i := i + 1;
      } else if i + 1 >= |raw| {
        break;
      } else if raw[i + 1] != UNICODE {
        out.Append(SimpleEscape(raw[i + 1]));
        PrependTwice(before, SimpleEscape(raw[i + 1]), Unescape(raw, i + 2));
        i := i + 2;
      } else if i + 5 >= |raw| {
        i := i + 2;
      } else {
        if Hex4(raw, i + 2) < 0 { return None; }
        var (cp, used) := CodePoint(raw, i + 2);
        if 0xD800 <= cp <= 0xDFFF { return None; }
        AppendUtf8(out, cp);
        PrependTwice(before, Utf8(cp), Unescape(raw, i + 2 + used));
        i := i + 2 + used;
      }
    }
    r := Some(out.bytes);
    assert Unescape(raw, i) == Some([]);
    assert out.bytes + [] == out.bytes;
  }

  // ---------- The parser ----------

  /** Where one of the four words stands, its first letter or its sign and first letter do. */
  lemma FirstLetters(json: Bytes, pos: nat)
    ensures Spells(json, pos, NAN_TEXT) ==> json[pos] == NAN_TEXT[0]
    ensures Spells(json, pos, INFINITY_TEXT) ==> json[pos] == INFINITY_TEXT[0]
    ensures Spells(json, pos, [MINUS] + NAN_TEXT) ==> json[pos] == MINUS && json[pos + 1] == NAN_TEXT[0]
    ensures Spells(json, pos, [MINUS] + INFINITY_TEXT) ==> json[pos] == MINUS && json[pos + 1] == INFINITY_TEXT[0]
  {
    FirstLetter(json, pos, NAN_TEXT);
    FirstLetter(json, pos, INFINITY_TEXT);
    FirstLetter(json, pos, [MINUS] + NAN_TEXT);
    FirstLetter(json, pos, [MINUS] + INFINITY_TEXT);
  }

  lemma FirstLetter(json: Bytes, pos: nat, word: Bytes)
    requires |word| > 1
    ensures Spells(json, pos, word) ==> json[pos] == word[0] && json[pos + 1] == word[1]
  {
    if pos + |word| <= |json| {
      var chunk := json[pos..pos + |word|];
      assert chunk[0] == json[pos] && chunk[1] == json[pos + 1];
    }
  }

  class Parser {
    const plat: Platform
    const json: Bytes
    var pos: nat
    var parseDepth: nat

    constructor (plat: Platform, json: Bytes)
      ensures this.plat == plat && this.json == json && pos == 0 && parseDepth == 0
    {
      this.plat := plat;
      this.json := json;
      pos := 0;
      parseDepth := 0;
    }

    function Peek(): (r: Byte)
      reads this
      ensures r == Cur(json, pos)
    {
      if pos < |json| then json[pos] else 0
    }

    /** To the end of the line. */
    method SkipLine()
      modifies this`pos
      ensures pos == LineEnd(json, old(pos))
    {
      while pos < |json| && json[pos] != NEWLINE && json[pos] != RETURN
        invariant LineEnd(json, pos) == LineEnd(json, old(pos))
        decreases |json| - pos
      {
        pos := pos + 1;
      }
    }

    /** Past blanks and comments; Failure at a comment that never closes. */
    method SkipBlanks() returns (r: Result<()>)
      modifies this`pos
      ensures match Json.Skip(json, old(pos))
        case None => r == Failure(BadText)
        case Some(p) => r == Success(()) && pos == p
    {
      while pos < |json|
        invariant Json.Skip(json, pos) == Json.Skip(json, old(pos))
        decreases |json| - pos
      {
        var ch := json[pos];
        if IsBlank(ch) {
          pos := pos + 1;
        } else if ch == SLASH && pos + 1 < |json| {
          if json[pos + 1] == SLASH {
            pos := pos + 2;
            SkipLine();
          } else if json[pos + 1] == STAR {
            pos := pos + 2;
            ghost var start := pos;
            while pos + 1 < |json| && !(json[pos] == STAR && json[pos + 1] == SLASH)
              invariant start <= pos && CommentEnd(json, pos) == CommentEnd(json, start)
              decreases |json| - pos
            {
              pos := pos + 1;
            }
            if pos + 1 >= |json| { return Failure(BadText); }
            pos := pos + 2;
          } else {
            break;
          }
        } else if ch == HASH {
          SkipLine();
        } else {
          break;
        }
      }
      r := Success(());
    }

    method ParseStringRaw() returns (r: Result<Bytes>)
      modifies this`pos
      ensures Agrees(ReadRaw(json, old(pos)), r, pos)
    {
      if Peek() != QUOTE { return Failure(BadText); }
      pos := pos + 1;
      var start := pos;
      while pos < |json| && json[pos] != QUOTE
        invariant start <= pos && ScanString(json, pos) == ScanString(json, start)
        decreases |json| - pos
      {
        var c := json[pos];
        if c == BACKSLASH {
          if pos + 1 >= |json| { return Failure(BadText); }
          pos := pos + 2;
        } else if c < 0x20 {
          return Failure(BadText);
        } else {
          pos := pos + 1;
        }
      }
      if pos >= |json| { return Failure(BadText); }
      var len := pos - start;
      if len > MAX_STRING_LEN { return Failure(TooLarge); }
      pos := pos + 1;
      r := Success(json[start..start + len]);
    }

    method ParseStringKey() returns (r: Result<Bytes>)
      modifies this`pos
      ensures Agrees(ReadKey(json, old(pos)), r, pos)
    {
      hide ReadRaw, Unescape;
      var raw := ParseStringRaw();
      if raw.Failure? { return raw; }
      var s := UnescapeString(raw.value);
      r := if s.None? then Failure(BadText) else Success(s.value);
    }

    method ParseStringOrSpecial() returns (r: Result<Value>)
      modifies this`pos
      ensures Agrees(StringOrDateTime(plat, json, old(pos)), r, pos)
    {
      hide ReadRaw, Unescape;
      var raw := ParseStringRaw();
      if raw.Failure? { return Failure(raw.error); }
      var t := raw.value;
      if |t| >= 20 && t[4] == MINUS && t[7] == MINUS && t[10] == 84 {
        var dt := plat.parseDateTime(t);
        if dt.Some? { return Success(Leaf(DateTime(dt.value.0, dt.value.1))); }
      }
      var s := UnescapeString(t);
      if s.None? || |s.value| > MAX_STRING_LEN { return Failure(BadText); }
      r := Success(Leaf(Text(s.value, false)));
    }

    method SkipDigits()
      modifies this`pos
      ensures pos == DigitsEnd(json, old(pos))
    {
      while IsDigit(Peek())
        invariant DigitsEnd(json, pos) == DigitsEnd(json, old(pos))
        decreases |json| - pos
      {
        pos := pos + 1;
      }
    }

    /** Past the fraction, if one is there; true if so. */
    method ScanFraction() returns (r: Result<bool>)
      modifies this`pos
      ensures match FractionEnd(json, old(pos))
        case None => r == Failure(BadText)
        case Some(p) => r == Success(p > old(pos)) && pos == p
    {
      if Peek() != DOT { return Success(false); }
      pos := pos + 1;
      if !IsDigit(Peek()) { return Failure(BadText); }
      SkipDigits();
      r := Success(true);
    }

    method ScanExponent() returns (r: Result<bool>)
      modifies this`pos
      ensures match ExponentEnd(json, old(pos))
        case None => r == Failure(BadText)
        case Some(p) => r == Success(p > old(pos)) && pos == p
    {
      if !IsExponent(Peek()) { return Success(false); }
      pos := pos + 1;
      if Peek() == PLUS || Peek() == MINUS { pos := pos + 1; }
      if !IsDigit(Peek()) { return Failure(BadText); }
      SkipDigits();
      r := Success(true);
    }

    /** Past the literal; true if it has a fraction or an exponent. */
    method ScanNumber() returns (r: Result<bool>)
      modifies this`pos
      ensures var start := if Cur(json, old(pos)) == MINUS then old(pos) + 1 else old(pos);
        var intEnd := DigitsEnd(json, start);
        if intEnd == start || (intEnd > start + 1 && json[start] == ZERO) || FractionEnd(json, intEnd).None?
           || ExponentEnd(json, FractionEnd(json, intEnd).value).None?
        then r == Failure(BadText)
        else r == Success(pos > intEnd) && ExponentEnd(json, FractionEnd(json, intEnd).value) == Some(pos)
    {
      hide DigitsEnd, FractionEnd, ExponentEnd;
      if Peek() == MINUS { pos := pos + 1; }
      var intStart := pos;
      SkipDigits();
      DigitsMove(json, intStart);
      if pos == intStart { return Failure(BadText); }
      if pos - intStart > 1 && json[intStart] == ZERO { return Failure(BadText); }
      var fraction := ScanFraction();
      if fraction.Failure? { return fraction; }
      var exponent := ScanExponent();
      if exponent.Failure? { return exponent; }
      r := Success(fraction.value || exponent.value);
    }

    method ParseNumber() returns (r: Result<Value>)
      modifies this`pos
      ensures Agrees(Number(plat, json, old(pos)), r, pos)
    {
      hide DigitsEnd, Int64Of, SignificantDigits, FractionEnd, ExponentEnd;
      var start := pos;
      var isDouble := ScanNumber();
      if isDouble.Failure? { return Failure(BadText); }
      assert start <= pos <= |json| by { DigitsMove(json, if Cur(json, start) == MINUS then start + 1 else start); }
      var literal := json[start..pos];
      if isDouble.value {
        var d := plat.parseDouble(literal);
        if d.None? { return Failure(BadText); }
        if SignificantDigits(literal) <= 17 { return Success(Leaf(Double(d.value))); }
      } else {
        var n := Int64Of(literal);
        if n.Some? { return Success(Leaf(Int(n.value))); }
      }
      if |literal| > MAX_STRING_LEN { return Failure(TooLarge); }
      r := Success(Leaf(Text(literal, true)));
    }

    /** The letters of a word one by one, then no further letter. */
    method ParseWord(word: Bytes, s: Scalar) returns (r: Result<Value>)
      requires word != [] && Cur(json, pos) == word[0]
      requires forall i :: 0 <= i < |word| ==> word[i] != 0
      modifies this`pos
      ensures Agrees(Literal(json, old(pos), word, s), r, pos)
    {
      ghost var start := pos;
      pos := pos + 1;
      for i := 1 to |word|
        invariant pos == start + i <= |json| && json[start..pos] == word[..i]
      {
        if Peek() != word[i] {
          assert start + |word| <= |json| ==> json[start..start + |word|][i] == json[start + i];
          return Failure(BadText);
        }
        pos := pos + 1;
      }
      assert word[..|word|] == word;
      if IsIdent(Peek()) { return Failure(BadText); }
      r := Success(Leaf(s));
    }

    method ParseAny() returns (r: Result<Value>)
      modifies this`pos, this`parseDepth
      ensures Agrees(ParseValue(plat, json, old(pos), old(parseDepth)), r, pos)
      ensures r.Success? ==> parseDepth == old(parseDepth)
      decreases Remaining(json, pos), 2
    {
      hide StringOrDateTime, Number, Literal, ParseMembers, ParseElements, Special;
      var skipped := SkipBlanks();
      if skipped.Failure? { return Failure(BadText); }
      var c := Peek();
      if c == LBRACE { r := ParseObject(); return; }
      if c == LBRACKET { r := ParseArray(); return; }
      if c == QUOTE { r := ParseStringOrSpecial(); return; }
      if c == TRUE_TEXT[0] { r := ParseWord(TRUE_TEXT, Bool(true)); return; }
      if c == FALSE_TEXT[0] { r := ParseWord(FALSE_TEXT, Bool(false)); return; }
      if c == NULL_TEXT[0] { r := ParseWord(NULL_TEXT, Null); return; }
      if plat.allowNaNInfinity {
        var special := ParseNonFinite();
        if special.Some? { return special.value; }
      }
      if c == MINUS || IsDigit(c) { r := ParseNumber(); return; }
      r := Failure(BadText);
    }

    /** NaN and Infinity, with a sign or without; None where neither stands. */
    method ParseNonFinite() returns (r: Option<Result<Value>>)
      modifies this`pos
      ensures r.None? ==> pos == old(pos) && NonFinite(json, pos).None?
      ensures r.Some? ==> NonFinite(json, old(pos)).Some?
      ensures r.Some? ==>
        Agrees(Literal(json, old(pos), NonFinite(json, old(pos)).value.0, Double(NonFinite(json, old(pos)).value.1)), r.value, pos)
    {
      var c := Peek();
      var word, bits := NAN_TEXT, NAN_BITS;
      if c == NAN_TEXT[0] {
      } else if c == INFINITY_TEXT[0] {
        word, bits := INFINITY_TEXT, INFINITY_BITS;
      } else if c == MINUS && pos + 1 < |json| && json[pos + 1] == INFINITY_TEXT[0] {
        word, bits := [MINUS] + INFINITY_TEXT, SIGN_BIT + INFINITY_BITS;
      } else if c == MINUS && pos + 1 < |json| && json[pos + 1] == NAN_TEXT[0] {
        word, bits := [MINUS] + NAN_TEXT, SIGN_BIT + NAN_BITS;
      } else {
        FirstLetters(json, pos);
        return None;
      }
      FirstLetters(json, pos);
      if !Spells(json, pos, word) { return None; }
      pos := pos + |word|;
      r := Some(if pos < |json| && IsIdent(Peek()) then Failure(BadText) else Success(Leaf(Double(bits))));
    }

    method ParseObject() returns (r: Result<Value>)
      requires Cur(json, pos) == LBRACE
      modifies this`pos, this`parseDepth
      ensures Agrees(
        if old(parseDepth) + 1 > MAX_NESTING_DEPTH then Err(TooDeep)
        else match ParseMembers(plat, json, old(pos) + 1, old(parseDepth) + 1, map[])
             case Err(e) => Err(e)
             case Ok(m, p2) => match Special(m) case None => Err(BadText) case Some(v) => Ok(v, p2), r, pos)
      ensures r.Success? ==> parseDepth == old(parseDepth)
      decreases Remaining(json, pos), 1
    {
      hide Special, ParseMembers;
      parseDepth := parseDepth + 1;
      if parseDepth > MAX_NESTING_DEPTH { parseDepth := parseDepth - 1; return Failure(TooDeep); }
      pos := pos + 1;
      var m := Members();
      if m.Failure? { return Failure(m.error); }
      parseDepth := parseDepth - 1;
      var v := Special(m.value);
      r := if v.None? then Failure(BadText) else Success(v.value);
    }

    /** The loop over members, up to and including the closing brace. */
    method Members() returns (r: Result<map<Bytes, Value>>)
      modifies this`pos, this`parseDepth
      ensures Agrees(ParseMembers(plat, json, old(pos), old(parseDepth), map[]), r, pos)
      ensures r.Success? ==> parseDepth == old(parseDepth)
      decreases Remaining(json, pos), 3
    {
      hide ParseMember, AfterItem, Json.Skip;
      var acc: map<Bytes, Value> := map[];
      while true
        invariant old(pos) <= pos && (pos == old(pos) || pos <= |json|) && parseDepth == old(parseDepth)
        invariant ParseMembers(plat, json, pos, parseDepth, acc) == ParseMembers(plat, json, old(pos), old(parseDepth), map[])
        decreases Remaining(json, pos)
      {
        var skipped := SkipBlanks();
        if skipped.Failure? { return Failure(BadText); }
        if pos >= |json| { return Failure(BadText); }
        if json[pos] == RBRACE { pos := pos + 1; return Success(acc); }
        if |acc| + 1 > MAX_OBJECT_SIZE { return Failure(TooLarge); }
        var kv := ParsePair();
        if kv.Failure? { return Failure(kv.error); }
        acc := acc[kv.value.0 := kv.value.1];
        var closed := Separator(RBRACE);
        if closed.Failure? { return Failure(closed.error); }
        if closed.value { return Success(acc); }
      }
    }

    method ParsePair() returns (r: Result<(Bytes, Value)>)
      modifies this`pos, this`parseDepth
      ensures Agrees(ParseMember(plat, json, old(pos), old(parseDepth)), r, pos)
      ensures r.Success? ==> parseDepth == old(parseDepth)
      decreases Remaining(json, pos), 1
    {
      hide ReadKey, Json.Skip, ParseValue;
      var key := ParseStringKey();
      if key.Failure? { return Failure(key.error); }
      var skipped := SkipBlanks();
      if skipped.Failure? { return Failure(BadText); }
      if Peek() != COLON { return Failure(BadText); }
      pos := pos + 1;
      var v := ParseAny();
      r := if v.Failure? then Failure(v.error) else Success((key.value, v.value));
    }

    /** A comma (false) or the closing bracket (true). */
    method Separator(close: Byte) returns (r: Result<bool>)
      requires close != COMMA && close != 0
      modifies this`pos
      ensures Agrees(AfterItem(json, old(pos), close), r, pos)
    {
      hide Json.Skip;
      var skipped := SkipBlanks();
      if skipped.Failure? { return Failure(BadText); }
      if Peek() == close { pos := pos + 1; return Success(true); }
      if Peek() == COMMA { pos := pos + 1; return Success(false); }
      r := Failure(BadText);
    }

    method ParseArray() returns (r: Result<Value>)
      requires Cur(json, pos) == LBRACKET
      modifies this`pos, this`parseDepth
      ensures Agrees(
        if old(parseDepth) + 1 > MAX_NESTING_DEPTH then Err(TooDeep)
        else match ParseElements(plat, json, old(pos) + 1, old(parseDepth) + 1, [])
             case Err(e) => Err(e)
             case Ok(items, p2) => Ok(Array(items), p2), r, pos)
      ensures r.Success? ==> parseDepth == old(parseDepth)
      decreases Remaining(json, pos), 1
    {
      hide ParseElements;
      parseDepth := parseDepth + 1;
      if parseDepth > MAX_NESTING_DEPTH { parseDepth := parseDepth - 1; return Failure(TooDeep); }
      pos := pos + 1;
      var items := Elements();
      if items.Failure? { return Failure(items.error); }
      parseDepth := parseDepth - 1;
      r := Success(Array(items.value));
    }

    method Elements() returns (r: Result<seq<Value>>)
      modifies this`pos, this`parseDepth
      ensures Agrees(ParseElements(plat, json, old(pos), old(parseDepth), []), r, pos)
      ensures r.Success? ==> parseDepth == old(parseDepth)
      decreases Remaining(json, pos), 3
    {
      hide ParseValue, AfterItem, Json.Skip;
      var acc: seq<Value> := [];
      while true
        invariant old(pos) <= pos && (pos == old(pos) || pos <= |json|) && parseDepth == old(parseDepth)
        invariant ParseElements(plat, json, pos, parseDepth, acc) == ParseElements(plat, json, old(pos), old(parseDepth), [])
        decreases Remaining(json, pos)
      {
        var skipped := SkipBlanks();
        if skipped.Failure? { return Failure(BadText); }
        if pos >= |json| { return Failure(BadText); }
        if json[pos] == RBRACKET { pos := pos + 1; return Success(acc); }
        if |acc| + 1 > MAX_ARRAY_SIZE { return Failure(TooLarge); }
        var v := ParseAny();
        if v.Failure? { return Failure(v.error); }
        acc := acc + [v.value];
        var closed := Separator(RBRACKET);
        if closed.Failure? { return Failure(closed.error); }
        if closed.value { return Success(acc); }
      }
    }
  }

  lemma DigitsMove(json: Bytes, pos: nat)
    ensures DigitsEnd(json, pos) > pos <==> IsDigit(Cur(json, pos))
    ensures IsDigit(Cur(json, pos)) ==> pos < |json|
  {
  }

  /** parse(): the whole text, or None. */
  method ParseText(plat: Platform, text: Bytes) returns (root: Option<Value>)
    ensures root == ParseDocument(plat, text)
  {
    hide ParseValue, Skip;
    var json := if |text| >= 3 && text[0] == 0xEF && text[1] == 0xBB && text[2] == 0xBF then text[3..] else text;
    var parser := new Parser(plat, json);
    var v := parser.ParseAny();
    if v.Failure? { return None; }
    var skipped := parser.SkipBlanks();
    if skipped.Failure? || parser.pos != |json| { return None; }
    root := Some(v.value);
  }
}
