/** Number literals (section 6 of RFC 8259): which texts the parser takes, and as what. */
module JsonNumbers {
  import opened Bytes
  import opened Values
  import opened Text
  import opened Json
  import opened JsonTokens

  // ---------- The grammar ----------

  /** A literal in its parts: sign, integer digits, fraction digits and exponent, the last two empty where they are
      missing. */
  datatype Parts = Parts(minus: bool, whole: Bytes, fraction: Bytes, mark: Byte, sign: Bytes, exponent: Bytes)

  /** No superfluous zero in front; an exponent has its mark, e or E, and at most one sign. */
  ghost predicate PartsOk(p: Parts)
  {
    && AllDigits(p.whole) && AllDigits(p.fraction) && AllDigits(p.exponent)
    && p.whole != [] && (p.whole[0] == ZERO ==> |p.whole| == 1)
    && (p.mark == 101 || p.mark == 69) && (p.sign == [] || p.sign == [PLUS] || p.sign == [MINUS])
  }

  function Sign(p: Parts): (r: Bytes) { if p.minus then [MINUS] else [] }

  function Fraction(p: Parts): (r: Bytes) { if p.fraction == [] then [] else [DOT] + p.fraction }

  function Exponent(p: Parts): (r: Bytes) { if p.exponent == [] then [] else [p.mark] + (p.sign + p.exponent) }

  function Spelled(p: Parts): (r: Bytes)
  {
    Sign(p) + (p.whole + (Fraction(p) + Exponent(p)))
  }

  predicate IsWhole(p: Parts) { p.fraction == [] && p.exponent == [] }

  /** What a literal is read as: a 64-bit integer where it is one, a double of at most seventeen digits, otherwise the
      literal itself; None where it is out of a double's range or too long to be kept. */
  function NumberValue(plat: Platform, p: Parts): (r: Option<Value>)
    requires PartsOk(p)
  {
    var text := Spelled(p);
    var kept := if |text| > MAX_STRING_LEN then None else Some(Leaf(Text(text, true)));
    if IsWhole(p) then
      var n: int := if p.minus then 0 - FromDigits(p.whole) else FromDigits(p.whole);
      if -TWO_63 <= n < TWO_63 then Some(Leaf(Int(n))) else kept
    else
      match plat.parseDouble(text)
      case None => None
      case Some(bits) => if |p.whole| + |p.fraction| + |p.exponent| <= 17 then Some(Leaf(Double(bits))) else kept
  }

  // ---------- Counting digits ----------

  lemma {:induction false} CountDigits(s: Bytes)
    requires AllDigits(s)
    ensures SignificantDigits(s) == |s|
  {
    if s != [] {
      assert IsDigit(s[0]);
      CountDigits(s[1..]);
    }
  }

  lemma {:induction false} CountJoin(a: Bytes, b: Bytes)
    ensures SignificantDigits(a + b) == SignificantDigits(a) + SignificantDigits(b)
    decreases |a|
  {
    if a == [] {
      assert a + b == b;
    } else {
      assert (a + b)[1..] == a[1..] + b;
      CountJoin(a[1..], b);
    }
  }

  lemma CountOther(b: Byte)
    requires b == DOT || IsExponent(b) || b == PLUS || b == MINUS
    ensures SignificantDigits([b]) == 0
  {
    assert [b][1..] == [];
  }

  lemma CountSpelled(p: Parts)
    requires PartsOk(p)
    ensures SignificantDigits(Spelled(p)) == |p.whole| + |p.fraction| + |p.exponent|
  {
    hide SignificantDigits;
    NothingCounted();
    CountOther(MINUS);
    CountOther(DOT);
    CountOther(PLUS);
    CountOther(p.mark);
    CountDigits(p.whole);
    CountDigits(p.fraction);
    CountDigits(p.exponent);
    CountJoin([DOT], p.fraction);
    CountJoin(p.sign, p.exponent);
    CountJoin([p.mark], p.sign + p.exponent);
    CountJoin(Fraction(p), Exponent(p));
    CountJoin(p.whole, Fraction(p) + Exponent(p));
    CountJoin(Sign(p), p.whole + (Fraction(p) + Exponent(p)));
  }

  lemma NothingCounted()
    ensures SignificantDigits([]) == 0
  {
  }

  // ---------- Reading a literal ----------

  /** The fraction of a literal, if it has one, ends where its digits end. */
  lemma FractionFound(json: Bytes, pos: nat, p: Parts)
    requires PartsOk(p) && At(json, pos, Fraction(p))
    requires var e := pos + |Fraction(p)|; !IsDigit(Cur(json, e)) && (p.fraction == [] ==> Cur(json, e) != DOT)
    ensures FractionEnd(json, pos) == Some(pos + |Fraction(p)|)
  {
    hide DigitsEnd;
    if p.fraction != [] {
      AtSplit(json, pos, [DOT], p.fraction);
      AtHead(json, pos, [DOT]);
      AtHead(json, pos + 1, p.fraction);
      assert IsDigit(p.fraction[0]);
      DigitsEndIs(json, pos + 1, p.fraction);
    }
  }

  lemma ExponentFound(json: Bytes, pos: nat, p: Parts)
    requires PartsOk(p) && At(json, pos, Exponent(p))
    requires var e := pos + |Exponent(p)|; !IsDigit(Cur(json, e)) && (p.exponent == [] ==> !IsExponent(Cur(json, e)))
    ensures ExponentEnd(json, pos) == Some(pos + |Exponent(p)|)
  {
    hide DigitsEnd, PartsOk, ExponentEnd;
    if p.exponent == [] {
      NoExponent(json, pos);
    } else {
      ExponentPieces(p);
      var from := pos + 1 + |p.sign|;
      AtSplit(json, pos, [p.mark], p.sign + p.exponent);
      AtHead(json, pos, [p.mark]);
      AtSplit(json, pos + 1, p.sign, p.exponent);
      if p.sign != [] { AtHead(json, pos + 1, p.sign); }
      AtHead(json, from, p.exponent);
      DigitsEndIs(json, from, p.exponent);
      ExponentStep(json, pos, from);
    }
  }

  lemma NoExponent(json: Bytes, pos: nat)
    requires !IsExponent(Cur(json, pos))
    ensures ExponentEnd(json, pos) == Some(pos)
  {
  }

  lemma ExponentPieces(p: Parts)
    requires PartsOk(p) && p.exponent != []
    ensures AllDigits(p.exponent) && IsDigit(p.exponent[0]) && IsExponent(p.mark)
    ensures p.sign == [] || p.sign == [PLUS] || p.sign == [MINUS]
  {
  }

  lemma ExponentStep(json: Bytes, pos: nat, from: nat)
    requires IsExponent(Cur(json, pos)) && IsDigit(Cur(json, from))
    requires from == pos + 1 || (from == pos + 2 && (Cur(json, pos + 1) == PLUS || Cur(json, pos + 1) == MINUS))
    ensures ExponentEnd(json, pos) == Some(DigitsEnd(json, from))
  {
    hide DigitsEnd;
  }

  /** Every literal, before any delimiter, is read as its value and up to its end, or refused where it has none. */
  lemma NumberRead(plat: Platform, p: Parts, json: Bytes, pos: nat)
    requires PartsOk(p) && At(json, pos, Spelled(p)) && Ends(json, pos + |Spelled(p)|)
    ensures var v := NumberValue(plat, p);
      if v.Some? then Number(plat, json, pos) == Ok(v.value, pos + |Spelled(p)|) else Number(plat, json, pos).Err?
  {
    hide *;
    var start := pos + |Sign(p)|;
    var intEnd := start + |p.whole|;
    var fracEnd := intEnd + |Fraction(p)|;
    var end := fracEnd + |Exponent(p)|;
    PartsAt(p, json, pos);
    BehindWhole(p, json, intEnd);
    WholeFound(p, json, pos);
    FractionFound(json, intEnd, p);
    ExponentFound(json, fracEnd, p);
    PartsLength(p);
    LeadingZero(p);
    NumberUnfolds(plat, json, pos, start, intEnd, fracEnd, end);
    LiteralCut(p, json, pos, end);
    NumberGiven(plat, p, end);
  }

  lemma LeadingZero(p: Parts)
    requires PartsOk(p)
    ensures p.whole != [] && (p.whole[0] == ZERO ==> |p.whole| == 1)
  {
  }

  lemma LiteralCut(p: Parts, json: Bytes, pos: nat, end: nat)
    requires At(json, pos, Spelled(p)) && end == pos + |Spelled(p)|
    ensures end <= |json| && json[pos..end] == Spelled(p)
  {
    hide Spelled;
  }

  /** What the parser makes of a literal it has delimited, ending at `end`. */
  ghost function Given(plat: Platform, literal: Bytes, whole: bool, end: nat): (r: Parsed<Value>)
    requires whole ==> forall k :: (if literal != [] && literal[0] == MINUS then 1 else 0) <= k < |literal| ==> IsDigit(literal[k])
  {
    if !whole then
      match plat.parseDouble(literal)
      case None => Err(BadText)
      case Some(bits) =>
        if SignificantDigits(literal) <= 17 then Ok(Leaf(Double(bits)), end)
        else if |literal| > MAX_STRING_LEN then Err(TooLarge)
        else Ok(Leaf(Text(literal, true)), end)
    else
      match Int64Of(literal)
      case Some(n) => Ok(Leaf(Int(n)), end)
      case None => if |literal| > MAX_STRING_LEN then Err(TooLarge) else Ok(Leaf(Text(literal, true)), end)
  }

  lemma NumberGiven(plat: Platform, p: Parts, end: nat)
    requires PartsOk(p)
    requires IsWhole(p) ==> forall k :: (if Spelled(p) != [] && Spelled(p)[0] == MINUS then 1 else 0) <= k < |Spelled(p)| ==> IsDigit(Spelled(p)[k])
    ensures var v := NumberValue(plat, p); var g := Given(plat, Spelled(p), IsWhole(p), end);
      if v.Some? then g == Ok(v.value, end) else g.Err?
  {
    hide SignificantDigits, Spelled, FromDigits;
    if IsWhole(p) { WholeSpelled(p); } else { CountSpelled(p); }
  }

  lemma PartsLength(p: Parts)
    ensures |Sign(p)| == if p.minus then 1 else 0
    ensures |Fraction(p)| + |Exponent(p)| > 0 <==> !IsWhole(p)
  {
  }

  lemma NumberUnfolds(plat: Platform, json: Bytes, pos: nat, start: nat, intEnd: nat, fracEnd: nat, end: nat)
    requires pos <= start < intEnd <= fracEnd <= end <= |json|
    requires start == if Cur(json, pos) == MINUS then pos + 1 else pos
    requires intEnd == DigitsEnd(json, start) && (json[start] == ZERO ==> intEnd == start + 1)
    requires FractionEnd(json, intEnd) == Some(fracEnd) && ExponentEnd(json, fracEnd) == Some(end)
    ensures end == intEnd ==> forall k :: (if json[pos..end] != [] && json[pos..end][0] == MINUS then 1 else 0) <= k < |json[pos..end]| ==> IsDigit(json[pos..end][k])
    ensures Number(plat, json, pos) == Given(plat, json[pos..end], end == intEnd, end)
  {
    hide FractionEnd, ExponentEnd, SignificantDigits, Int64Of;
  }

  lemma PartsAt(p: Parts, json: Bytes, pos: nat)
    requires At(json, pos, Spelled(p))
    ensures var start := pos + |Sign(p)|; var intEnd := start + |p.whole|; var fracEnd := intEnd + |Fraction(p)|;
      && At(json, pos, Sign(p)) && At(json, start, p.whole) && At(json, intEnd, Fraction(p)) && At(json, fracEnd, Exponent(p))
      && |Spelled(p)| == |Sign(p)| + |p.whole| + |Fraction(p)| + |Exponent(p)|
  {
    var start := pos + |Sign(p)|;
    AtSplit(json, pos, Sign(p), p.whole + (Fraction(p) + Exponent(p)));
    AtSplit(json, start, p.whole, Fraction(p) + Exponent(p));
    AtSplit(json, start + |p.whole|, Fraction(p), Exponent(p));
  }

  /** What stands behind the integer digits: no digit, and a dot or an exponent mark exactly where that part is there. */
  lemma BehindWhole(p: Parts, json: Bytes, intEnd: nat)
    requires PartsOk(p)
    requires var fracEnd := intEnd + |Fraction(p)|;
      At(json, intEnd, Fraction(p)) && At(json, fracEnd, Exponent(p)) && Ends(json, fracEnd + |Exponent(p)|)
    ensures var fracEnd := intEnd + |Fraction(p)|; var end := fracEnd + |Exponent(p)|;
      && !IsDigit(Cur(json, intEnd)) && !IsDigit(Cur(json, fracEnd)) && !IsDigit(Cur(json, end)) && !IsExponent(Cur(json, end))
      && (p.fraction == [] ==> Cur(json, fracEnd) != DOT)
  {
    if p.fraction != [] { AtHead(json, intEnd, Fraction(p)); }
    if p.exponent != [] { AtHead(json, intEnd + |Fraction(p)|, Exponent(p)); }
  }

  lemma WholeFound(p: Parts, json: Bytes, pos: nat)
    requires PartsOk(p) && At(json, pos, Sign(p)) && At(json, pos + |Sign(p)|, p.whole)
    requires !IsDigit(Cur(json, pos + |Sign(p)| + |p.whole|))
    ensures (Cur(json, pos) == MINUS) == p.minus
    ensures DigitsEnd(json, pos + |Sign(p)|) == pos + |Sign(p)| + |p.whole| <= |json| && json[pos + |Sign(p)|] == p.whole[0]
  {
    hide DigitsEnd;
    if p.minus { AtHead(json, pos, Sign(p)); }
    AtHead(json, pos + |Sign(p)|, p.whole);
    assert IsDigit(p.whole[0]);
    DigitsEndIs(json, pos + |Sign(p)|, p.whole);
  }

  lemma WholeSpelled(p: Parts)
    requires PartsOk(p) && IsWhole(p)
    ensures Spelled(p) == Sign(p) + p.whole && IntegerLiteral(Spelled(p)) && Magnitude(Spelled(p)) == p.whole
    ensures (Spelled(p)[0] == MINUS) == p.minus
  {
    assert p.whole + ([] + []) == p.whole;
    assert IsDigit(p.whole[0]);
    if p.minus { assert ([MINUS] + p.whole)[1..] == p.whole; }
    else { assert [] + p.whole == p.whole; }
  }

  // ---------- Nothing else is a number ----------

  /** A text that is read as a number is a literal of the grammar, as long as its digits go on. */
  lemma NumberIsLiteral(plat: Platform, json: Bytes, pos: nat)
    requires pos < |json| && Number(plat, json, pos).Ok?
    ensures exists p :: PartsOk(p) && json[pos..Number(plat, json, pos).pos] == Spelled(p)
  {
    hide *;
    NumberParts(plat, json, pos);
    var minus := json[pos] == MINUS;
    var start := if minus then pos + 1 else pos;
    var intEnd := DigitsEnd(json, start);
    var fracEnd := FractionEnd(json, intEnd).value;
    var end := ExponentEnd(json, fracEnd).value;
    var fraction := FractionParts(json, intEnd);
    var mark, sign, exponent := ExponentParts(json, fracEnd);
    var p := Parts(minus, json[start..intEnd], fraction, mark, sign, exponent);
    WholePart(json, start);
    LiteralJoins(json, pos, start, intEnd, fracEnd, end, p);
    PartsJoin(p);
  }

  lemma PartsJoin(p: Parts)
    requires AllDigits(p.whole) && AllDigits(p.fraction) && AllDigits(p.exponent)
    requires p.whole != [] && (p.whole[0] == ZERO ==> |p.whole| == 1)
    requires (p.mark == 101 || p.mark == 69) && (p.sign == [] || p.sign == [PLUS] || p.sign == [MINUS])
    ensures PartsOk(p)
  {
    hide AllDigits;
  }

  lemma WholePart(json: Bytes, start: nat)
    requires start < DigitsEnd(json, start) <= |json|
    ensures AllDigits(json[start..DigitsEnd(json, start)])
  {
    hide DigitsEnd;
  }

  /** What reading a number has passed. */
  lemma NumberParts(plat: Platform, json: Bytes, pos: nat)
    requires pos < |json| && Number(plat, json, pos).Ok?
    ensures var start := if json[pos] == MINUS then pos + 1 else pos; var intEnd := DigitsEnd(json, start);
      && start < intEnd <= |json| && (json[start] == ZERO ==> intEnd == start + 1)
      && FractionEnd(json, intEnd).Some? && FractionEnd(json, intEnd).value <= |json|
      && ExponentEnd(json, FractionEnd(json, intEnd).value) == Some(Number(plat, json, pos).pos)
      && Number(plat, json, pos).pos <= |json|
  {
    hide SignificantDigits, Int64Of, FractionEnd, ExponentEnd;
  }

  lemma FractionParts(json: Bytes, pos: nat) returns (fraction: Bytes)
    requires pos <= |json| && FractionEnd(json, pos).Some?
    ensures AllDigits(fraction)
    ensures var e := FractionEnd(json, pos).value; e <= |json| && json[pos..e] == if fraction == [] then [] else [DOT] + fraction
  {
    hide DigitsEnd;
    var e := FractionEnd(json, pos).value;
    fraction := if e > pos then json[pos + 1..e] else [];
    if e > pos { DigitsStart(json, pos + 1); }
  }

  lemma DigitsStart(json: Bytes, pos: nat)
    requires IsDigit(Cur(json, pos))
    ensures pos < DigitsEnd(json, pos)
  {
  }

  lemma ExponentParts(json: Bytes, pos: nat) returns (mark: Byte, sign: Bytes, exponent: Bytes)
    requires pos <= |json| && ExponentEnd(json, pos).Some?
    ensures AllDigits(exponent) && (mark == 101 || mark == 69) && (sign == [] || sign == [PLUS] || sign == [MINUS])
    ensures var e := ExponentEnd(json, pos).value;
      e <= |json| && json[pos..e] == if exponent == [] then [] else [mark] + (sign + exponent)
  {
    hide DigitsEnd;
    var e := ExponentEnd(json, pos).value;
    mark, sign, exponent := 101, [], [];
    if e > pos {
      var from := if Cur(json, pos + 1) == PLUS || Cur(json, pos + 1) == MINUS then pos + 2 else pos + 1;
      DigitsStart(json, from);
      mark, sign, exponent := json[pos], json[pos + 1..from], json[from..e];
      assert json[pos..e] == [mark] + (sign + exponent);
    }
  }

  lemma LiteralJoins(json: Bytes, pos: nat, start: nat, intEnd: nat, fracEnd: nat, end: nat, p: Parts)
    requires pos <= start <= intEnd <= fracEnd <= end <= |json|
    requires start == (if p.minus then pos + 1 else pos) && (p.minus ==> json[pos] == MINUS)
    requires json[start..intEnd] == p.whole
    requires json[intEnd..fracEnd] == if p.fraction == [] then [] else [DOT] + p.fraction
    requires json[fracEnd..end] == if p.exponent == [] then [] else [p.mark] + (p.sign + p.exponent)
    ensures json[pos..end] == Spelled(p)
  {
    hide *;
    PartsShown(p);
    CutFour(json, pos, start, intEnd, fracEnd, end);
    assert json[pos..start] == Sign(p) by { if p.minus { CutOne(json, pos); } }
  }

  lemma CutOne(json: Bytes, pos: nat)
    requires pos < |json|
    ensures json[pos..pos + 1] == [json[pos]]
  {
  }

  lemma PartsShown(p: Parts)
    ensures Spelled(p) == Sign(p) + (p.whole + (Fraction(p) + Exponent(p))) && Sign(p) == (if p.minus then [MINUS] else [])
    ensures Fraction(p) == if p.fraction == [] then [] else [DOT] + p.fraction
    ensures Exponent(p) == if p.exponent == [] then [] else [p.mark] + (p.sign + p.exponent)
  {
  }

  lemma CutFour(json: Bytes, a: nat, b: nat, c: nat, d: nat, e: nat)
    requires a <= b <= c <= d <= e <= |json|
    ensures json[a..e] == json[a..b] + (json[b..c] + (json[c..d] + json[d..e]))
  {
    assert json[c..e] == json[c..d] + json[d..e];
    assert json[b..e] == json[b..c] + json[c..e];
  }

  // ---------- Documents ----------

  /** A document that is a literal of the grammar is the value of the literal. */
  lemma LiteralDocument(plat: Platform, p: Parts)
    requires PartsOk(p)
    ensures ParseDocument(plat, Spelled(p)) == NumberValue(plat, p)
  {
    hide *;
    var text := Spelled(p);
    AtWhole(text);
    SpelledStarts(p);
    StepNumber(plat, text, 0, 0);
    DocumentIs(plat, text);
    NumberRead(plat, p, text, 0);
    AllRead(text);
  }

  lemma SpelledStarts(p: Parts)
    requires PartsOk(p)
    ensures var s := Spelled(p); s != [] && (IsDigit(s[0]) || (s[0] == MINUS && |s| > 1 && IsDigit(s[1])))
    ensures Spelled(p)[0] != 0xEF
  {
    assert IsDigit(p.whole[0]);
    if p.minus { assert Spelled(p)[1] == p.whole[0]; } else { assert Spelled(p)[0] == p.whole[0]; }
  }

  lemma DocumentIs(plat: Platform, text: Bytes)
    requires text != [] && text[0] != 0xEF
    ensures ParseDocument(plat, text)
         == match ParseValue(plat, text, 0, 0)
            case Err(_) => None
            case Ok(v, p) => if Skip(text, p) == Some(|text|) then Some(v) else None
  {
    hide ParseValue, Skip;
  }

  lemma StepPlainNumber(plat: Platform, json: Bytes, pos: nat, depth: nat)
    requires pos < |json| && (IsDigit(json[pos]) || (json[pos] == MINUS && !plat.allowNaNInfinity))
    ensures ParseValue(plat, json, pos, depth) == Number(plat, json, pos)
  {
    hide Number;
    SkipSolid(json, pos);
    if IsDigit(json[pos]) { NoNonFinite(json, pos); }
  }

  /** A document that starts like a number and has no blanks or comments is accepted only if all of it is a literal of
      the grammar. */
  lemma OnlyLiterals(plat: Platform, text: Bytes)
    requires text != [] && (IsDigit(text[0]) || (text[0] == MINUS && !plat.allowNaNInfinity))
    requires forall i :: 0 <= i < |text| ==> Solid(text[i])
    requires ParseDocument(plat, text).Some?
    ensures exists p :: PartsOk(p) && text == Spelled(p)
  {
    hide Number, PartsOk, Spelled, Skip, ParseValue;
    StepPlainNumber(plat, text, 0, 0);
    DocumentIs(plat, text);
    NumberIsLiteral(plat, text, 0);
    var end := Number(plat, text, 0).pos;
    StopsAtEnd(text, end);
    assert text[0..end] == text;
  }

  lemma AllRead(text: Bytes)
    ensures Skip(text, |text|) == Some(|text|)
  {
  }

  lemma AtWhole(text: Bytes)
    ensures At(text, 0, text) && Ends(text, 0 + |text|)
  {
    assert text[0..] == text;
  }

  lemma StopsAtEnd(text: Bytes, end: nat)
    requires Skip(text, end) == Some(|text|) && end <= |text|
    requires forall i :: 0 <= i < |text| ==> Solid(text[i])
    ensures end == |text|
  {
    if end < |text| { SkipSolid(text, end); }
  }
}
