/** JSON5 strings, blanks, commas and keys as the language allows them, and the JSON they are translated to. */
module Json5Lexemes {
  import opened Bytes
  import opened Text
  import opened Unicode
  import opened Escapes
  import opened Json5
  import opened Json5Proofs
  import opened Json5Numbers
  import opened Comments
  import Json
  import JsonTokens

  // ---------- Pieces of a string ----------

  /** What a JSON5 string is made of. */
  datatype Part =
    | Raw(b: Byte)
    | Continued(ending: Bytes)
    | Vertical
    | Nul
    | Hex2(n: nat, upper: bool)
    | Unit(cp: nat, upper: bool)
    | Braced(digits: seq<nat>, cases: seq<bool>)
    | Apostrophe
    | Known(letter: Byte)
    | Other(letter: Byte)

  /** Letters behind a backslash that mean something of their own. */
  predicate Reserved(b: Byte)
  {
    b in SHORT || b == NEWLINE || b == RETURN || b == 118 || b == ZERO || b == 120 || b == UNICODE || b == SINGLE_QUOTE
  }

  ghost predicate PartOk(p: Part, quote: Byte)
  {
    match p
    case Raw(b) => b != BACKSLASH && b != quote
    case Continued(ending) => ending == [NEWLINE] || ending == [RETURN] || ending == [RETURN, NEWLINE]
    case Vertical => true
    case Nul => true
    case Hex2(n, _) => n < 256
    case Unit(cp, _) => ScalarValue(cp)
    case Braced(digits, cases) => DigitsOk(digits, cases, 16) && ScalarValue(Total(digits, 16))
    case Apostrophe => true
    case Known(b) => b in SHORT
    case Other(b) => !Reserved(b)
  }

  /** What may follow: no line feed behind a lone carriage return, no digit behind a NUL. */
  predicate Fits(p: Part, next: Byte)
  {
    (p == Continued([RETURN]) ==> next != NEWLINE) && (p == Nul ==> !IsDigit(next))
  }

  ghost function PartText(p: Part, quote: Byte): (r: Bytes)
    requires PartOk(p, quote)
    ensures r != []
  {
    match p
    case Raw(b) => [b]
    case Continued(ending) => [BACKSLASH] + ending
    case Vertical => [BACKSLASH, 118]
    case Nul => [BACKSLASH, ZERO]
    case Hex2(n, upper) => [BACKSLASH, 120, HexLetter(n / 16, upper), HexLetter(n % 16, upper)]
    case Unit(cp, upper) => EscapedPoint(cp, upper)
    case Braced(digits, cases) => [BACKSLASH, UNICODE, LBRACE] + (DigitsText(digits, cases, 16) + [RBRACE])
    case Apostrophe => [BACKSLASH, SINGLE_QUOTE]
    case Known(b) => [BACKSLASH, b]
    case Other(b) => [BACKSLASH, b]
  }

  /** The bytes a part stands for; an escape that means nothing keeps its backslash. */
  ghost function PartBytes(p: Part, quote: Byte): (r: Bytes)
    requires PartOk(p, quote)
  {
    match p
    case Raw(b) => [b]
    case Continued(_) => []
    case Vertical => [11]
    case Nul => [0]
    case Hex2(n, _) => Utf8(n)
    case Unit(cp, _) => Utf8(cp)
    case Braced(digits, _) => Utf8(Total(digits, 16))
    case Apostrophe => [39]
    case Known(b) => [SHORT[b]]
    case Other(b) => [BACKSLASH, b]
  }

  ghost predicate PartsOk(ps: seq<Part>, quote: Byte) { forall i :: 0 <= i < |ps| ==> PartOk(ps[i], quote) }

  ghost function PartsText(ps: seq<Part>, quote: Byte): (r: Bytes)
    requires PartsOk(ps, quote)
  {
    if ps == [] then [] else PartText(ps[0], quote) + PartsText(ps[1..], quote)
  }

  ghost function PartsBytes(ps: seq<Part>, quote: Byte): (r: Bytes)
    requires PartsOk(ps, quote)
  {
    if ps == [] then [] else PartBytes(ps[0], quote) + PartsBytes(ps[1..], quote)
  }

  ghost predicate PartsFit(ps: seq<Part>, quote: Byte)
    requires PartsOk(ps, quote)
  {
    ps == [] || (Fits(ps[0], (PartsText(ps[1..], quote) + [quote])[0]) && PartsFit(ps[1..], quote))
  }

  // ---------- Their translation ----------

  /** The JSON pieces a part is written as. */
  ghost function Pieces(p: Part, quote: Byte): (r: seq<Piece>)
    requires PartOk(p, quote)
  {
    match p
    case Raw(b) =>
      if b == QUOTE then [Short(QUOTE)]
      else if b == BACKSPACE then [Short(LETTER_B)]
      else if b == FORMFEED then [Short(LETTER_F)]
      else if b == NEWLINE then [Short(LETTER_N)]
      else if b == RETURN then [Short(LETTER_R)]
      else if b == TAB then [Short(LETTER_T)]
      else if b < 0x20 then [Point(b, false)]
      else [Plain(b)]
    case Continued(_) => []
    case Vertical => [Point(11, true)]
    case Nul => [Point(0, true)]
    case Hex2(n, upper) => [Point(n, upper)]
    case Unit(cp, upper) => [Point(cp, upper)]
    case Braced(digits, _) => [Point(Total(digits, 16), true)]
    case Apostrophe => [Plain(SINGLE_QUOTE)]
    case Known(b) => [Short(b)]
    case Other(b) => [Unknown(b)]
  }

  lemma PiecesMean(p: Part, quote: Byte)
    requires PartOk(p, quote)
    ensures Quotable(Pieces(p, quote)) && Spelled(Pieces(p, quote)) == PartBytes(p, quote)
  {
    assert forall b: Byte :: b < 128 ==> Utf8(b) == [b];
    if Pieces(p, quote) != [] { OnePiece(Pieces(p, quote)[0]); }
  }

  lemma OnePiece(p: Piece)
    ensures PieceOk(p) ==> Spelled([p]) == PieceBytes(p) && Spelling([p]) == PieceText(p)
  {
    if PieceOk(p) { assert [p][1..] == []; }
  }

  function StateOf(quote: Byte): (r: State) { if quote == QUOTE then InDouble else InSingle }

  ghost predicate Inside(s: Bytes, i: nat, quote: Byte, out: Bytes, j: nat)
  {
    Goes(s, i, StateOf(quote), out, j, StateOf(quote))
  }

  lemma RawGoes(b: Byte, quote: Byte, s: Bytes, i: nat)
    requires (quote == QUOTE || quote == SINGLE_QUOTE) && PartOk(Raw(b), quote) && At(s, i, [b])
    ensures Inside(s, i, quote, Spelling(Pieces(Raw(b), quote)), i + 1)
  {
    hide Goes, EscapeMove, Translate, Spelling;
    AtHead(s, i, [b]);
    OnePiece(Pieces(Raw(b), quote)[0]);
    RawText(b, quote);
    GoesStep(s, i, StateOf(quote), Move(PieceText(Pieces(Raw(b), quote)[0]), i + 1, StateOf(quote)));
  }

  lemma RawText(b: Byte, quote: Byte)
    requires PartOk(Raw(b), quote)
    ensures PieceOk(Pieces(Raw(b), quote)[0]) && PieceText(Pieces(Raw(b), quote)[0]) == EscapeByte(b)
  {
    HexCases(b / 16);
    HexCases(b % 16);
  }

  lemma HexCases(n: nat)
    ensures n < 16 ==> HexLetter(n, false) == HexDigit(n) && HexLetter(n, true) == UpperHex(n)
  {
  }

  lemma EscapeStep(s: Bytes, i: nat, quote: Byte, out: Bytes, next: nat)
    requires (quote == QUOTE || quote == SINGLE_QUOTE) && i + 1 < |s| && s[i] == BACKSLASH
    requires EscapeMove(s, i, StateOf(quote)) == Some(Move(out, next, StateOf(quote)))
    ensures Inside(s, i, quote, out, next)
  {
    hide Goes, EscapeMove, Translate;
    GoesStep(s, i, StateOf(quote), Move(out, next, StateOf(quote)));
  }

  lemma ContinuedGoes(ending: Bytes, quote: Byte, s: Bytes, i: nat)
    requires (quote == QUOTE || quote == SINGLE_QUOTE) && PartOk(Continued(ending), quote) && At(s, i, [BACKSLASH] + ending)
    requires var e := i + 1 + |ending|; e < |s| && Fits(Continued(ending), s[e])
    ensures Inside(s, i, quote, [], i + 1 + |ending|)
  {
    hide Goes, Translate, BracedEscape, Inside;
    AtSplit(s, i, [BACKSLASH], ending);
    AtHead(s, i, [BACKSLASH]);
    AtHead(s, i + 1, ending);
    if |ending| > 1 { AtHead(s, i + 2, ending[1..]); }
    EscapeStep(s, i, quote, [], i + 1 + |ending|);
  }

  /** Escapes of one letter. */
  lemma LetterGoes(p: Part, quote: Byte, s: Bytes, i: nat)
    requires (quote == QUOTE || quote == SINGLE_QUOTE) && PartOk(p, quote)
    requires p.Vertical? || p.Nul? || p.Apostrophe? || p.Known? || p.Other?
    requires At(s, i, PartText(p, quote)) && i + 2 < |s| && Fits(p, s[i + 2])
    ensures |PartText(p, quote)| == 2 && Inside(s, i, quote, Spelling(Pieces(p, quote)), i + 2)
  {
    hide Goes, Translate, BracedEscape, Spelling, Inside;
    AtHead(s, i, PartText(p, quote));
    AtHead(s, i + 1, PartText(p, quote)[1..]);
    OnePiece(Pieces(p, quote)[0]);
    EscapeStep(s, i, quote, PieceText(Pieces(p, quote)[0]), i + 2);
  }

  lemma Hex2Goes(n: nat, upper: bool, quote: Byte, s: Bytes, i: nat)
    requires (quote == QUOTE || quote == SINGLE_QUOTE) && n < 256
    requires At(s, i, [BACKSLASH, 120, HexLetter(n / 16, upper), HexLetter(n % 16, upper)])
    ensures Inside(s, i, quote, Spelling([Point(n, upper)]), i + 4)
  {
    hide Goes, Translate, BracedEscape, Spelling, Inside;
    var text := [BACKSLASH, 120, HexLetter(n / 16, upper), HexLetter(n % 16, upper)];
    AtHead(s, i, text);
    AtHead(s, i + 1, text[1..]);
    AtHead(s, i + 2, text[1..][1..]);
    AtHead(s, i + 3, text[1..][1..][1..]);
    HexLetterInverse(n / 16, upper);
    HexLetterInverse(n % 16, upper);
    OnePiece(Point(n, upper));
    ByteUnit(n, upper);
    EscapeStep(s, i, quote, CodeUnit(n, upper), i + 4);
  }

  lemma ByteUnit(n: nat, upper: bool)
    requires n < 256
    ensures CodeUnit(n, upper) == [BACKSLASH, UNICODE, ZERO, ZERO, HexLetter(n / 16, upper), HexLetter(n % 16, upper)]
  {
  }

  lemma OneUnitGoes(n: nat, upper: bool, quote: Byte, s: Bytes, i: nat)
    requires (quote == QUOTE || quote == SINGLE_QUOTE) && n < 0x1_0000 && At(s, i, CodeUnit(n, upper))
    ensures Inside(s, i, quote, CodeUnit(n, upper), i + 6)
  {
    hide Goes, Translate, BracedEscape, Inside;
    var text := CodeUnit(n, upper);
    var chunk := s[i..i + 6];
    assert forall k :: 0 <= k < 6 ==> chunk[k] == s[i + k];
    assert s[i + 0] == text[0] && s[i + 1] == text[1] && s[i + 2] == text[2];
    assert s[i + 3] == text[3] && s[i + 4] == text[4] && s[i + 5] == text[5];
    HexLetterInverse(n / 0x1000, upper);
    HexLetterInverse(n / 0x100 % 16, upper);
    HexLetterInverse(n / 16 % 16, upper);
    HexLetterInverse(n % 16, upper);
    EscapeStep(s, i, quote, text, i + 6);
  }

  lemma UnitGoes(cp: nat, upper: bool, quote: Byte, s: Bytes, i: nat)
    requires (quote == QUOTE || quote == SINGLE_QUOTE) && ScalarValue(cp) && At(s, i, EscapedPoint(cp, upper))
    ensures Inside(s, i, quote, Spelling([Point(cp, upper)]), i + |EscapedPoint(cp, upper)|)
  {
    hide Goes, Translate, Spelling, CodeUnit;
    OnePiece(Point(cp, upper));
    if cp < 0x1_0000 {
      OneUnitGoes(cp, upper, quote, s, i);
    } else {
      var hi, lo := 0xD800 + (cp - 0x1_0000) / 0x400, 0xDC00 + (cp - 0x1_0000) % 0x400;
      AtSplit(s, i, CodeUnit(hi, upper), CodeUnit(lo, upper));
      OneUnitGoes(hi, upper, quote, s, i);
      OneUnitGoes(lo, upper, quote, s, i + 6);
      GoesThen(s, i, StateOf(quote), CodeUnit(hi, upper), i + 6, StateOf(quote), CodeUnit(lo, upper), i + 12, StateOf(quote));
    }
  }

  // ---------- Braced code points ----------

  lemma {:induction false} HexEndIs(digits: seq<nat>, cases: seq<bool>, s: Bytes, i: nat)
    requires DigitsOk(digits, cases, 16) && At(s, i, DigitsText(digits, cases, 16))
    requires i + |digits| >= |s| || !IsHex(s[i + |digits|])
    ensures HexEnd(s, i) == i + |digits|
    decreases |digits|
  {
    var text := DigitsText(digits, cases, 16);
    AtHead(s, i, text);
    HexLetterInverse(digits[0], cases[0]);
    if |digits| > 1 {
      assert text[1..] == DigitsText(digits[1..], cases[1..], 16);
      HexEndIs(digits[1..], cases[1..], s, i + 1);
    }
  }

  /** The digits in 64-bit arithmetic: what does not fit is dropped. */
  lemma {:induction false} HexWordIs(digits: seq<nat>, cases: seq<bool>)
    requires DigitsOk(digits, cases, 16)
    ensures HexWord(DigitsText(digits, cases, 16)) == Total(digits, 16) % TWO_64
    decreases |digits|
  {
    hide Total;
    var text, n := DigitsText(digits, cases, 16), |digits| - 1;
    HexLetterInverse(digits[n], cases[n]);
    if n == 0 {
      assert text[..0] == [] && HexWord([]) == 0;
      assert digits == [digits[0]];
      OneDigit(digits[0], 16);
    } else {
      assert text[..n] == DigitsText(digits[..n], cases[..n], 16);
      HexWordIs(digits[..n], cases[..n]);
      assert digits == digits[..n] + [digits[n]];
      TotalSnoc(digits[..n], digits[n], 16);
      Wrapped(Total(digits[..n], 16), digits[n]);
    }
  }

  lemma Wrapped(n: nat, d: nat)
    ensures (n % TWO_64 * 16 + d) % TWO_64 == (n * 16 + d) % TWO_64
  {
    var q := n / TWO_64;
    assert n * 16 + d == (n % TWO_64 * 16 + d) + TWO_64 * (16 * q);
    Congruent(n % TWO_64 * 16 + d, 16 * q);
  }

  lemma {:induction false} Congruent(a: nat, k: nat)
    ensures (a + TWO_64 * k) % TWO_64 == a % TWO_64
    decreases k
  {
    if k > 0 {
      Congruent(a, k - 1);
      assert a + TWO_64 * k == (a + TWO_64 * (k - 1)) + TWO_64;
    }
  }

  /** A braced code point is accepted exactly when its digits, in 64-bit arithmetic, give one; leading zeros do not
      matter. */
  lemma BracedIs(digits: seq<nat>, cases: seq<bool>, quote: Byte, s: Bytes, i: nat)
    requires (quote == QUOTE || quote == SINGLE_QUOTE) && DigitsOk(digits, cases, 16)
    requires At(s, i, [BACKSLASH, UNICODE, LBRACE] + (DigitsText(digits, cases, 16) + [RBRACE]))
    ensures var cp := Total(digits, 16) % TWO_64;
      if cp > 0x10_FFFF then Translate(s, i, StateOf(quote)) == None
      else Inside(s, i, quote, EscapedPoint(cp, true), i + |digits| + 4)
  {
    hide *;
    var open, text := [BACKSLASH, UNICODE, LBRACE], DigitsText(digits, cases, 16);
    var e := i + 3 + |digits|;
    AtSplit(s, i, open, text + [RBRACE]);
    AtHead(s, i, open);
    AtHead(s, i + 1, open[1..]);
    AtHead(s, i + 2, open[1..][1..]);
    AtSplit(s, i + 3, text, [RBRACE]);
    TextLength(digits, cases);
    AtHead(s, e, [RBRACE]);
    BraceIsNoDigit();
    HexEndIs(digits, cases, s, i + 3);
    HexWordIs(digits, cases);
    Cut(s, i + 3, text);
    BracedMove(s, i, e, StateOf(quote));
    var cp := Total(digits, 16) % TWO_64;
    if cp > 0x10_FFFF {
      StepRefused(s, i, quote);
    } else {
      EscapeStep(s, i, quote, EscapedPoint(cp, true), e + 1);
    }
  }

  lemma TextLength(digits: seq<nat>, cases: seq<bool>)
    requires DigitsOk(digits, cases, 16)
    ensures |DigitsText(digits, cases, 16)| == |digits| > 0
  {
  }

  lemma BraceIsNoDigit()
    ensures !IsHex(RBRACE)
  {
  }

  lemma BracedMove(s: Bytes, i: nat, e: nat, state: State)
    requires i + 3 < e < |s| && s[i + 1] == UNICODE && s[i + 2] == LBRACE && HexEnd(s, i + 3) == e && s[e] == RBRACE
    ensures var cp := HexWord(s[i + 3..e]);
      EscapeMove(s, i, state) == if cp > 0x10_FFFF then None else Some(Move(EscapedPoint(cp, true), e + 1, state))
  {
    hide HexEnd, HexWord;
    var cp := HexWord(s[i + 3..e]);
    if cp < 0x1_0000 { UpperUnit(cp); }
    else if cp <= 0x10_FFFF {
      UpperUnit(0xD800 + (cp - 0x1_0000) / 0x400);
      UpperUnit(0xDC00 + (cp - 0x1_0000) % 0x400);
    }
  }

  lemma UpperUnit(n: nat)
    requires n < 0x1_0000
    ensures Unicode4(n) == CodeUnit(n, true)
  {
    HexCases(n / 0x1000);
    HexCases(n / 0x100 % 16);
    HexCases(n / 16 % 16);
    HexCases(n % 16);
  }

  lemma StepRefused(s: Bytes, i: nat, quote: Byte)
    requires (quote == QUOTE || quote == SINGLE_QUOTE) && i + 1 < |s| && s[i] == BACKSLASH
    requires EscapeMove(s, i, StateOf(quote)) == None
    ensures Translate(s, i, StateOf(quote)) == None
  {
    hide EscapeMove;
  }

  // ---------- Strings ----------

  lemma PartGoes(p: Part, quote: Byte, s: Bytes, i: nat)
    requires (quote == QUOTE || quote == SINGLE_QUOTE) && PartOk(p, quote) && At(s, i, PartText(p, quote))
    requires var e := i + |PartText(p, quote)|; e < |s| && Fits(p, s[e])
    ensures Quotable(Pieces(p, quote)) && Inside(s, i, quote, Spelling(Pieces(p, quote)), i + |PartText(p, quote)|)
  {
    hide *;
    PiecesMean(p, quote);
    PartIs(p, quote);
    match p
    case Raw(b) => RawGoes(b, quote, s, i);
    case Continued(ending) => NoPieces(); ContinuedGoes(ending, quote, s, i);
    case Hex2(n, upper) => Hex2Goes(n, upper, quote, s, i);
    case Unit(cp, upper) => UnitGoes(cp, upper, quote, s, i);
    case Braced(digits, cases) => BracedGoes(digits, cases, quote, s, i);
    case Vertical => LetterGoes(p, quote, s, i);
    case Nul => LetterGoes(p, quote, s, i);
    case Apostrophe => LetterGoes(p, quote, s, i);
    case Known(_) => LetterGoes(p, quote, s, i);
    case Other(_) => LetterGoes(p, quote, s, i);
  }

  /** The text and the pieces of the parts that are longer than two bytes. */
  lemma PartIs(p: Part, quote: Byte)
    requires PartOk(p, quote)
    ensures p.Raw? ==> PartText(p, quote) == [p.b]
    ensures p.Vertical? || p.Nul? || p.Apostrophe? || p.Known? || p.Other? ==> |PartText(p, quote)| == 2
    ensures p.Continued? ==> PartText(p, quote) == [BACKSLASH] + p.ending && Pieces(p, quote) == []
    ensures p.Hex2? ==>
      p.n < 256 && PartText(p, quote) == [BACKSLASH, 120, HexLetter(p.n / 16, p.upper), HexLetter(p.n % 16, p.upper)]
      && Pieces(p, quote) == [Point(p.n, p.upper)]
    ensures p.Unit? ==>
      ScalarValue(p.cp) && PartText(p, quote) == EscapedPoint(p.cp, p.upper) && Pieces(p, quote) == [Point(p.cp, p.upper)]
  {
    hide EscapedPoint, DigitsText, Total;
  }

  lemma BracedGoes(digits: seq<nat>, cases: seq<bool>, quote: Byte, s: Bytes, i: nat)
    requires (quote == QUOTE || quote == SINGLE_QUOTE) && PartOk(Braced(digits, cases), quote)
    requires At(s, i, PartText(Braced(digits, cases), quote)) && Quotable(Pieces(Braced(digits, cases), quote))
    ensures var p := Braced(digits, cases); Inside(s, i, quote, Spelling(Pieces(p, quote)), i + |PartText(p, quote)|)
  {
    hide Inside, Spelling, EscapedPoint, Total, DigitsText, Spelled;
    BracedIs(digits, cases, quote, s, i);
    OnePiece(Point(Total(digits, 16), true));
  }

  lemma NoPieces()
    ensures Spelling([]) == [] && Spelled([]) == []
  {
  }

  ghost function AllPieces(ps: seq<Part>, quote: Byte): (r: seq<Piece>)
    requires PartsOk(ps, quote)
  {
    if ps == [] then [] else Pieces(ps[0], quote) + AllPieces(ps[1..], quote)
  }

  lemma {:induction false} SpellingJoin(a: seq<Piece>, b: seq<Piece>)
    requires Quotable(a) && Quotable(b)
    ensures Quotable(a + b) && Spelling(a + b) == Spelling(a) + Spelling(b) && Spelled(a + b) == Spelled(a) + Spelled(b)
    decreases |a|
  {
    hide PieceText, PieceBytes;
    if a == [] {
      assert a + b == b;
    } else {
      assert (a + b)[1..] == a[1..] + b && (a + b)[0] == a[0];
      SpellingJoin(a[1..], b);
    }
  }

  /** The JSON pieces of a string spell the bytes that the JSON5 string stands for. */
  lemma {:induction false} AllPiecesMean(ps: seq<Part>, quote: Byte)
    requires PartsOk(ps, quote)
    ensures Quotable(AllPieces(ps, quote)) && Spelled(AllPieces(ps, quote)) == PartsBytes(ps, quote)
    decreases |ps|
  {
    hide Pieces, PartBytes, PartOk, Spelled;
    NoPieces();
    if ps != [] {
      PiecesMean(ps[0], quote);
      AllPiecesMean(ps[1..], quote);
      SpellingJoin(Pieces(ps[0], quote), AllPieces(ps[1..], quote));
    }
  }

  lemma {:induction false} PartsGo(ps: seq<Part>, quote: Byte, s: Bytes, i: nat)
    requires (quote == QUOTE || quote == SINGLE_QUOTE) && PartsOk(ps, quote) && PartsFit(ps, quote)
    requires At(s, i, PartsText(ps, quote) + [quote])
    ensures Quotable(AllPieces(ps, quote))
    ensures Inside(s, i, quote, Spelling(AllPieces(ps, quote)), i + |PartsText(ps, quote)|)
    decreases |ps|
  {
    hide *;
    AllPiecesMean(ps, quote);
    QuotableOk(AllPieces(ps, quote));
    if ps == [] {
      NoParts(quote);
      InsideNothing(s, i, quote);
    } else {
      PartsUnfold(ps, quote);
      var head, rest := PartText(ps[0], quote), PartsText(ps[1..], quote) + [quote];
      AtSplit(s, i, head, rest);
      AtHead(s, i + |head|, rest);
      PartGoes(ps[0], quote, s, i);
      PartsGo(ps[1..], quote, s, i + |head|);
      SpellingJoin(Pieces(ps[0], quote), AllPieces(ps[1..], quote));
      QuotableOk(Pieces(ps[0], quote));
      QuotableOk(AllPieces(ps[1..], quote));
      InsideThen(s, i, quote, Spelling(Pieces(ps[0], quote)), i + |head|, Spelling(AllPieces(ps[1..], quote)), i + |PartsText(ps, quote)|);
    }
  }

  lemma NoParts(quote: Byte)
    ensures PartsText([], quote) == [] && AllPieces([], quote) == [] && Spelling([]) == []
  {
  }

  lemma PartsUnfold(ps: seq<Part>, quote: Byte)
    requires ps != [] && PartsOk(ps, quote)
    ensures PartOk(ps[0], quote) && PartsOk(ps[1..], quote)
    ensures PartsText(ps, quote) == PartText(ps[0], quote) + PartsText(ps[1..], quote)
    ensures PartsText(ps, quote) + [quote] == PartText(ps[0], quote) + (PartsText(ps[1..], quote) + [quote])
    ensures AllPieces(ps, quote) == Pieces(ps[0], quote) + AllPieces(ps[1..], quote)
    ensures PartsFit(ps, quote) ==> Fits(ps[0], (PartsText(ps[1..], quote) + [quote])[0]) && PartsFit(ps[1..], quote)
  {
    hide PartOk, PartText, Pieces, Fits;
    Regrouped(PartText(ps[0], quote), PartsText(ps[1..], quote), [quote]);
  }

  lemma InsideNothing(s: Bytes, i: nat, quote: Byte)
    ensures Inside(s, i, quote, [], i)
  {
    hide Goes;
    GoesNowhere(s, i, StateOf(quote));
  }

  lemma InsideThen(s: Bytes, i: nat, quote: Byte, a: Bytes, j: nat, b: Bytes, k: nat)
    requires Inside(s, i, quote, a, j) && Inside(s, j, quote, b, k)
    ensures Inside(s, i, quote, a + b, k)
  {
    hide Goes;
    GoesThen(s, i, StateOf(quote), a, j, StateOf(quote), b, k, StateOf(quote));
  }

  lemma Quotes(s: Bytes, i: nat, quote: Byte)
    requires (quote == QUOTE || quote == SINGLE_QUOTE) && i < |s| && s[i] == quote
    ensures Goes(s, i, Outside, [QUOTE], i + 1, StateOf(quote))
    ensures Goes(s, i, StateOf(quote), [QUOTE], i + 1, Outside)
  {
    hide Translate, Goes;
    GoesStep(s, i, Outside, Move([QUOTE], i + 1, StateOf(quote)));
    GoesStep(s, i, StateOf(quote), Move([QUOTE], i + 1, Outside));
  }

  /** A string in either kind of quotes is translated to a JSON string that stands for the same bytes. */
  lemma StringGoes(ps: seq<Part>, quote: Byte, s: Bytes, i: nat)
    requires (quote == QUOTE || quote == SINGLE_QUOTE) && PartsOk(ps, quote) && PartsFit(ps, quote)
    requires At(s, i, [quote] + (PartsText(ps, quote) + [quote]))
    ensures Quotable(AllPieces(ps, quote))
    ensures Goes(s, i, Outside, [QUOTE] + (Spelling(AllPieces(ps, quote)) + [QUOTE]), i + |PartsText(ps, quote)| + 2, Outside)
    ensures Unescape(Spelling(AllPieces(ps, quote)), 0) == Some(PartsBytes(ps, quote))
  {
    hide *;
    AllPiecesMean(ps, quote);
    QuotableOk(AllPieces(ps, quote));
    var body, e := Spelling(AllPieces(ps, quote)), i + 1 + |PartsText(ps, quote)|;
    LiteralUnescapes(AllPieces(ps, quote));
    AtSplit(s, i, [quote], PartsText(ps, quote) + [quote]);
    AtHead(s, i, [quote]);
    AtSplit(s, i + 1, PartsText(ps, quote), [quote]);
    AtHead(s, e, [quote]);
    Quotes(s, i, quote);
    PartsGo(ps, quote, s, i + 1);
    InsideIs(s, i + 1, quote, body, e);
    Quotes(s, e, quote);
    GoesThen(s, i + 1, StateOf(quote), body, e, StateOf(quote), [QUOTE], e + 1, Outside);
    GoesThen(s, i, Outside, [QUOTE], i + 1, StateOf(quote), body + [QUOTE], e + 1, Outside);
  }

  lemma QuotableOk(ps: seq<Piece>)
    requires Quotable(ps)
    ensures PiecesOk(ps)
  {
  }

  lemma InsideIs(s: Bytes, i: nat, quote: Byte, out: Bytes, j: nat)
    requires Inside(s, i, quote, out, j)
    ensures Goes(s, i, StateOf(quote), out, j, StateOf(quote))
  {
    hide Goes;
  }

  // ---------- Blanks ----------

  /** The blanks of JSON5 (section 8 of its specification) in UTF-8. */
  const BLANKS: set<Bytes> :=
    {[9], [10], [11], [12], [13], [32], [0xC2, 0xA0], [0xEF, 0xBB, 0xBF], [0xE2, 0x80, 0xA8], [0xE2, 0x80, 0xA9],
     [0xE2, 0x80, 0x80], [0xE2, 0x80, 0x81], [0xE2, 0x80, 0x82], [0xE2, 0x80, 0x83], [0xE2, 0x80, 0x84], [0xE2, 0x80, 0x85],
     [0xE2, 0x80, 0x86], [0xE2, 0x80, 0x87], [0xE2, 0x80, 0x88], [0xE2, 0x80, 0x89], [0xE2, 0x80, 0x8A],
     [0xE2, 0x81, 0x9F], [0xE3, 0x80, 0x80]}

  function Flat(units: seq<Bytes>): (r: Bytes)
  {
    if units == [] then [] else units[0] + Flat(units[1..])
  }

  predicate AllBlank(units: seq<Bytes>) { forall i :: 0 <= i < |units| ==> units[i] in BLANKS }

  lemma BlankIs(u: Bytes, s: Bytes, j: nat)
    requires u in BLANKS && At(s, j, u)
    ensures BlankWidth(s, j) == |u| > 0
  {
    AtHead(s, j, u);
    if |u| > 1 { AtHead(s, j + 1, u[1..]); }
    if |u| > 2 { AtHead(s, j + 2, u[1..][1..]); }
  }

  /** What starts no blank. */
  predicate NoBlank(b: Byte) { b != SPACE && !(9 <= b <= 13) && b < 0x80 }

  lemma {:induction false} BlanksSkipped(units: seq<Bytes>, s: Bytes, j: nat)
    requires AllBlank(units) && At(s, j, Flat(units))
    requires var e := j + |Flat(units)|; e >= |s| || NoBlank(s[e])
    ensures SkipBlanks(s, j) == j + |Flat(units)|
    decreases |units|
  {
    hide BlankWidth;
    if units == [] {
      BlankEnds(s, j);
    } else {
      AtSplit(s, j, units[0], Flat(units[1..]));
      BlankIs(units[0], s, j);
      BlanksSkipped(units[1..], s, j + |units[0]|);
    }
  }

  lemma BlankEnds(s: Bytes, j: nat)
    requires j >= |s| || NoBlank(s[j])
    ensures BlankWidth(s, j) == 0
  {
  }

  /** Outside strings a blank of JSON is copied and any other is dropped. */
  lemma BlankGoes(u: Bytes, s: Bytes, i: nat)
    requires u in BLANKS && At(s, i, u)
    ensures Goes(s, i, Outside, if u in {[9], [10], [13], [32]} then u else [], i + |u|, Outside)
  {
    hide Goes, Translate, CommaLook, ColonFollows;
    AtHead(s, i, u);
    if |u| > 1 { BlankIs(u, s, i); }
    GoesStep(s, i, Outside, Move(if u in {[9], [10], [13], [32]} then u else [], i + |u|, Outside));
  }

  // ---------- Commas ----------

  /** Blanks and comments that can stand between tokens; a comment ends with its line. */
  ghost predicate Fills(f: Filler) { FillerOk(f, BLANKS, {NEWLINE}) }

  lemma {:induction false} NewlineFound(t: Bytes, s: Bytes, j: nat)
    requires At(s, j, t + [NEWLINE]) && forall i :: 0 <= i < |t| ==> t[i] != NEWLINE
    ensures NewlineAfter(s, j) == j + |t| < |s| && s[j + |t|] == NEWLINE
    decreases |t|
  {
    AtHead(s, j, t + [NEWLINE]);
    if t != [] {
      assert (t + [NEWLINE])[1..] == t[1..] + [NEWLINE];
      NewlineFound(t[1..], s, j + 1);
    }
  }

  lemma {:induction false} StarFound(t: Bytes, s: Bytes, j: nat)
    requires At(s, j, t + [Json.STAR, SLASH]) && Unclosed(t)
    ensures StarAfter(s, j) == j + |t| && j + |t| + 2 <= |s|
    decreases |t|
  {
    AtHead(s, j, t + [Json.STAR, SLASH]);
    if t != [] {
      var rest := t[1..] + [Json.STAR, SLASH];
      assert (t + [Json.STAR, SLASH])[1..] == rest;
      AtHead(s, j + 1, rest);
      assert t[0] == Json.STAR ==> rest[0] != SLASH;
      assert forall i :: 0 <= i < |t[1..]| ==> t[1..][i] == t[i + 1];
      StarFound(t[1..], s, j + 1);
    } else {
      assert t + [Json.STAR, SLASH] == [Json.STAR, SLASH];
      AtHead(s, j + 1, [Json.STAR, SLASH][1..]);
    }
  }

  lemma CommentEnds(f: Filler, s: Bytes, j: nat)
    requires Fills(f) && !f.Blank? && At(s, j, FillerText(f))
    ensures f.Line? ==> j + 1 < |s| && s[j] == SLASH && s[j + 1] == SLASH
    ensures f.Hash? ==> s[j] == Json.HASH
    ensures f.Line? || f.Hash? ==>
      var e := j + |FillerText(f)| - 1; j < NewlineAfter(s, j) == e < |s| && s[e] == NEWLINE
    ensures f.Block? ==> j + 1 < |s| && s[j] == SLASH && s[j + 1] == Json.STAR && PastComment(s, j) == j + |FillerText(f)|
  {
    hide NewlineAfter, StarAfter;
    AtHead(s, j, FillerText(f));
    match f
    case Line(t, _) =>
      AtHead(s, j + 1, FillerText(f)[1..]);
      assert FillerText(f) == ([SLASH, SLASH] + t) + [NEWLINE];
      NewlineFound([SLASH, SLASH] + t, s, j);
    case Hash(t, _) =>
      assert FillerText(f) == ([Json.HASH] + t) + [NEWLINE];
      NewlineFound([Json.HASH] + t, s, j);
    case Block(t) =>
      AtHead(s, j + 1, FillerText(f)[1..]);
      AtSplit(s, j, [SLASH, Json.STAR], t + [Json.STAR, SLASH]);
      StarFound(t, s, j + 2);
  }

  lemma LookStep(f: Filler, s: Bytes, j: nat)
    requires Fills(f) && At(s, j, FillerText(f))
    ensures CommaLook(s, j) == CommaLook(s, j + |FillerText(f)|)
  {
    hide *;
    if f.Blank? {
      BlankFiller(f);
      BlankPassed(f.unit, s, j);
    } else {
      CommentEnds(f, s, j);
      if f.Block? {
        BlockPassed(s, j);
      } else {
        LinePassed(s, j);
        NewlineIsBlank(s, j + |FillerText(f)| - 1);
      }
    }
  }

  lemma BlankFiller(f: Filler)
    requires f.Blank? && Fills(f)
    ensures f.unit in BLANKS && FillerText(f) == f.unit
  {
  }

  lemma BlankPassed(u: Bytes, s: Bytes, j: nat)
    requires u in BLANKS && At(s, j, u)
    ensures CommaLook(s, j) == CommaLook(s, j + |u|)
  {
    hide BlankWidth;
    BlankIs(u, s, j);
  }

  lemma BlockPassed(s: Bytes, j: nat)
    requires j + 1 < |s| && s[j] == SLASH && s[j + 1] == Json.STAR
    ensures CommaLook(s, j) == CommaLook(s, PastComment(s, j))
  {
    hide PastComment;
  }

  lemma LinePassed(s: Bytes, j: nat)
    requires j < |s| && (s[j] == Json.HASH || (j + 1 < |s| && s[j] == SLASH && s[j + 1] == SLASH)) && NewlineAfter(s, j) > j
    ensures CommaLook(s, j) == CommaLook(s, NewlineAfter(s, j))
  {
    hide NewlineAfter;
  }

  lemma NewlineIsBlank(s: Bytes, j: nat)
    requires j < |s| && s[j] == NEWLINE
    ensures BlankWidth(s, j) == 1 && CommaLook(s, j) == CommaLook(s, j + 1)
  {
  }

  lemma {:induction false} LookIs(fs: seq<Filler>, s: Bytes, j: nat)
    requires (forall i :: 0 <= i < |fs| ==> Fills(fs[i])) && At(s, j, FillersText(fs))
    requires var e := j + |FillersText(fs)|; e < |s| && NoBlank(s[e]) && s[e] != SLASH && s[e] != Json.HASH
    ensures CommaLook(s, j) == j + |FillersText(fs)|
    decreases |fs|
  {
    hide *;
    FillersUnfold(fs);
    if fs == [] {
      LookEnds(s, j);
    } else {
      AtSplit(s, j, FillerText(fs[0]), FillersText(fs[1..]));
      LookStep(fs[0], s, j);
      LookIs(fs[1..], s, j + |FillerText(fs[0])|);
    }
  }

  lemma FillersUnfold(fs: seq<Filler>)
    ensures FillersText(fs) == if fs == [] then [] else FillerText(fs[0]) + FillersText(fs[1..])
  {
    hide FillerText;
  }

  lemma LookEnds(s: Bytes, j: nat)
    requires j < |s| && NoBlank(s[j]) && s[j] != SLASH && s[j] != Json.HASH
    ensures CommaLook(s, j) == j
  {
    BlankEnds(s, j);
  }

  /** A comma with only blanks and comments up to a closing bracket is dropped with them; any other is kept. */
  lemma TrailingComma(fs: seq<Filler>, s: Bytes, i: nat)
    requires (forall k :: 0 <= k < |fs| ==> Fills(fs[k])) && At(s, i, [COMMA] + FillersText(fs))
    requires var e := i + 1 + |FillersText(fs)|; e < |s| && NoBlank(s[e]) && s[e] != SLASH && s[e] != Json.HASH
    ensures var e := i + 1 + |FillersText(fs)|;
      if s[e] == RBRACE || s[e] == RBRACKET then Goes(s, i, Outside, [], e, Outside)
      else Goes(s, i, Outside, [COMMA], i + 1, Outside)
  {
    hide *;
    AtSplit(s, i, [COMMA], FillersText(fs));
    AtHead(s, i, [COMMA]);
    LookIs(fs, s, i + 1);
    var e := i + 1 + |FillersText(fs)|;
    CommaStep(s, i, e);
    GoesStep(s, i, Outside, if s[e] == RBRACE || s[e] == RBRACKET then Move([], e, Outside) else Move([COMMA], i + 1, Outside));
  }

  lemma CommaStep(s: Bytes, i: nat, e: nat)
    requires i < e < |s| && s[i] == COMMA && CommaLook(s, i + 1) == e
    ensures Step(s, i, Outside)
         == Some(if s[e] == RBRACE || s[e] == RBRACKET then Move([], e, Outside) else Move([COMMA], i + 1, Outside))
  {
    hide CommaLook;
  }

  // ---------- Keys ----------

  ghost predicate IsWord(w: Bytes) { w != [] && IsIdStart(w[0]) && w[0] < 0x80 && forall k :: 0 <= k < |w| ==> IsIdCont(w[k]) }

  lemma {:induction false} ColonSeen(units: seq<Bytes>, s: Bytes, j: nat)
    requires AllBlank(units) && At(s, j, Flat(units))
    requires var e := j + |Flat(units)|; e < |s| && NoBlank(s[e]) && s[e] != SLASH && s[e] != Json.HASH
    ensures ColonFollows(s, j) <==> s[j + |Flat(units)|] == COLON
    decreases |units|
  {
    hide BlankWidth, NewlineAfter, PastComment;
    if units == [] {
      BlankEnds(s, j);
    } else {
      AtSplit(s, j, units[0], Flat(units[1..]));
      BlankIs(units[0], s, j);
      ColonSeen(units[1..], s, j + |units[0]|);
    }
  }

  /** A bare word with a colon behind any blanks comes out as a quoted key, and as it is before anything else. */
  lemma WordGoes(w: Bytes, units: seq<Bytes>, s: Bytes, i: nat)
    requires IsWord(w) && AllBlank(units) && At(s, i, w + Flat(units)) && (units == [] || units[0][0] < 0x80)
    requires var e := i + |w| + |Flat(units)|; e < |s| && NoBlank(s[e]) && s[e] != SLASH && s[e] != Json.HASH && !IsIdCont(s[e])
    ensures var colon := s[i + |w| + |Flat(units)|] == COLON;
      Goes(s, i, Outside, if colon then [QUOTE] + w + [QUOTE] else w, i + |w|, Outside)
  {
    hide Goes, ColonFollows;
    AtSplit(s, i, w, Flat(units));
    if units != [] {
      AtSplit(s, i + |w|, units[0], Flat(units[1..]));
      AtHead(s, i + |w|, units[0]);
    }
    ColonSeen(units, s, i + |w|);
    IdentGoes(w, s, i);
  }

  /** Directly behind a block comment the colon is not seen, and the key stays bare. */
  lemma CommentHidesColon(w: Bytes, t: Bytes, s: Bytes, i: nat)
    requires IsWord(w) && Fills(Block(t)) && At(s, i, w + (FillerText(Block(t)) + [COLON, ZERO]))
    ensures Goes(s, i, Outside, w, i + |w|, Outside)
  {
    hide Goes, PastComment, IsIdCont, IsIdStart;
    var f := Block(t);
    var p := i + |w|;
    var e := p + |FillerText(f)|;
    AtSplit(s, i, w, FillerText(f) + [COLON, ZERO]);
    AtSplit(s, p, FillerText(f), [COLON, ZERO]);
    AtHead(s, e, [COLON, ZERO]);
    AtHead(s, e + 1, [COLON, ZERO][1..]);
    CommentEnds(f, s, p);
    SlashEndsWord();
    assert !ColonFollows(s, e + 1);
    assert !ColonFollows(s, p);
    IdentGoes(w, s, i);
  }

  lemma SlashEndsWord()
    ensures !IsIdCont(SLASH)
  {
  }

  /** The printer leaves a key bare exactly when it is an identifier of ASCII characters. */
  lemma {:induction false} BareExactly(k: Bytes)
    ensures KeyText(k, true) == k
       <==> k != [] && !IsDigit(k[0]) && forall i :: 0 <= i < |k| ==> IsLetter(k[i]) || IsDigit(k[i]) || k[i] == 95 || k[i] == 36
  {
    AllBareIs(k);
    QuotedLonger(k);
  }

  lemma {:induction false} AllBareIs(k: Bytes)
    ensures AllBare(k) <==> forall i :: 0 <= i < |k| ==> IsLetter(k[i]) || IsDigit(k[i]) || k[i] == 95 || k[i] == 36
    decreases |k|
  {
    if k != [] {
      AllBareIs(k[1..]);
      assert forall i :: 0 <= i < |k[1..]| ==> k[1..][i] == k[i + 1];
      if AllBare(k) { forall i | 0 <= i < |k| ensures BareByte(k[i]) { if i > 0 { assert k[1..][i - 1] == k[i]; } } }
    }
  }

  lemma QuotedLonger(k: Bytes)
    ensures |Json.Quoted(k)| > |k|
  {
  }

  // ---------- Decimal numbers ----------

  /** A plus sign is dropped; a minus sign stays, without the blanks behind it. */
  lemma SignGoes(sign: Byte, units: seq<Bytes>, s: Bytes, i: nat)
    requires (sign == Json.PLUS || sign == MINUS) && AllBlank(units) && At(s, i, [sign] + Flat(units))
    requires var e := i + 1 + |Flat(units)|; e < |s| && (IsDigit(s[e]) || s[e] == Json.DOT)
    ensures if sign == MINUS then Goes(s, i, Outside, [MINUS], i + 1 + |Flat(units)|, Outside)
            else Goes(s, i, Outside, [], i + 1, Outside)
  {
    hide Goes, Translate, SkipBlanks;
    var e := i + 1 + |Flat(units)|;
    AtSplit(s, i, [sign], Flat(units));
    AtHead(s, i, [sign]);
    BlanksSkipped(units, s, i + 1);
    NotWord(s, e, Json.NAN_TEXT);
    NotWord(s, e, Json.INFINITY_TEXT);
    GoesStep(s, i, Outside, if sign == MINUS then Move([MINUS], e, Outside) else Move([], i + 1, Outside));
  }

  /** NaN and Infinity keep a minus sign and lose a plus sign, and the blanks behind either. */
  lemma NonFiniteGoes(sign: Byte, units: seq<Bytes>, word: Bytes, s: Bytes, i: nat)
    requires (sign == Json.PLUS || sign == MINUS) && (word == Json.NAN_TEXT || word == Json.INFINITY_TEXT)
    requires AllBlank(units) && At(s, i, [sign] + (Flat(units) + word))
    ensures Goes(s, i, Outside, (if sign == MINUS then [MINUS] else []) + word, i + 1 + |Flat(units)| + |word|, Outside)
  {
    hide *;
    var e := i + 1 + |Flat(units)|;
    AtSplit(s, i, [sign], Flat(units) + word);
    AtHead(s, i, [sign]);
    AtSplit(s, i + 1, Flat(units), word);
    WordStarts(word);
    AtHead(s, e, word);
    BlanksSkipped(units, s, i + 1);
    WordStep(word, s, i, e);
    GoesStep(s, i, Outside, Move((if sign == MINUS then [MINUS] else []) + word, e + |word|, Outside));
  }

  lemma WordStarts(word: Bytes)
    requires word == Json.NAN_TEXT || word == Json.INFINITY_TEXT
    ensures word != [] && NoBlank(word[0])
  {
  }

  lemma WordStep(word: Bytes, s: Bytes, i: nat, e: nat)
    requires i < |s| && (s[i] == Json.PLUS || s[i] == MINUS) && SkipBlanks(s, i + 1) == e && At(s, e, word)
    requires word == Json.NAN_TEXT || word == Json.INFINITY_TEXT
    ensures Step(s, i, Outside) == Some(Move((if s[i] == MINUS then [MINUS] else []) + word, e + |word|, Outside))
  {
    hide SkipBlanks;
    AtHead(s, e, word);
    assert WordAt(s, e, word);
    if word == Json.INFINITY_TEXT { NotWord(s, e, Json.NAN_TEXT); }
  }

  /** A dot gets a zero on the side where it has no digit. */
  lemma DotGoes(s: Bytes, i: nat)
    requires i < |s| && s[i] == Json.DOT
    requires (i > 0 && IsDigit(s[i - 1])) || (i + 1 < |s| && IsDigit(s[i + 1]))
    ensures var before, behind := i > 0 && IsDigit(s[i - 1]), i + 1 < |s| && IsDigit(s[i + 1]);
      Goes(s, i, Outside, (if before then [] else [ZERO]) + ([Json.DOT] + (if behind then [] else [ZERO])), i + 1, Outside)
  {
    hide Goes, Translate;
    var before, behind := i > 0 && IsDigit(s[i - 1]), i + 1 < |s| && IsDigit(s[i + 1]);
    var out := (if before then [] else [ZERO]) + ([Json.DOT] + (if behind then [] else [ZERO]));
    assert out == if !before then [ZERO, Json.DOT] else if behind then [Json.DOT] else [Json.DOT, ZERO];
    GoesStep(s, i, Outside, Move(out, i + 1, Outside));
  }

  /** Digits are copied, as long as no letter follows that could announce another base. */
  lemma {:induction false} DigitsKept(d: Bytes, s: Bytes, i: nat)
    requires JsonTokens.AllDigits(d) && At(s, i, d) && (i + |d| >= |s| || !IsLetter(s[i + |d|]))
    ensures Goes(s, i, Outside, d, i + |d|, Outside)
    decreases |d|
  {
    hide Goes, Translate;
    if d == [] {
      GoesNowhere(s, i, Outside);
    } else {
      AtHead(s, i, d);
      if |d| > 1 { AtHead(s, i + 1, d[1..]); }
      DigitStep(s, i);
      DigitsKept(d[1..], s, i + 1);
      GoesThen(s, i, Outside, [d[0]], i + 1, Outside, d[1..], i + |d|, Outside);
      assert [d[0]] + d[1..] == d;
    }
  }

  lemma DigitStep(s: Bytes, i: nat)
    requires i < |s| && IsDigit(s[i]) && (i + 1 >= |s| || !IsLetter(s[i + 1]))
    ensures Goes(s, i, Outside, [s[i]], i + 1, Outside)
  {
    hide Goes, Translate;
    GoesStep(s, i, Outside, Move([s[i]], i + 1, Outside));
  }

  /** A number with a dot: the missing side is filled with a zero. */
  lemma DecimalGoes(whole: Bytes, fraction: Bytes, s: Bytes, i: nat)
    requires JsonTokens.AllDigits(whole) && JsonTokens.AllDigits(fraction) && (whole != [] || fraction != [])
    requires At(s, i, whole + ([Json.DOT] + fraction)) && (whole == [] ==> i == 0 || !IsDigit(s[i - 1]))
    requires var e := i + |whole| + 1 + |fraction|; e >= |s| || (!IsLetter(s[e]) && !IsDigit(s[e]))
    ensures Goes(s, i, Outside, (if whole == [] then [ZERO] else whole) + ([Json.DOT] + (if fraction == [] then [ZERO] else fraction)),
                 i + |whole| + 1 + |fraction|, Outside)
  {
    hide *;
    var p := i + |whole|;
    AtSplit(s, i, whole, [Json.DOT] + fraction);
    AtSplit(s, p, [Json.DOT], fraction);
    AtHead(s, p, [Json.DOT]);
    DotIsNoLetter();
    DigitsKept(whole, s, i);
    DigitsKept(fraction, s, p + 1);
    DigitsAround(whole, fraction, s, i);
    DotGoes(s, p);
    var dot := (if whole == [] then [ZERO] else []) + ([Json.DOT] + (if fraction == [] then [ZERO] else []));
    GoesThen(s, p, Outside, dot, p + 1, Outside, fraction, p + 1 + |fraction|, Outside);
    GoesThen(s, i, Outside, whole, p, Outside, dot + fraction, p + 1 + |fraction|, Outside);
    BothSides(whole, fraction);
  }

  lemma DigitsAround(whole: Bytes, fraction: Bytes, s: Bytes, i: nat)
    requires JsonTokens.AllDigits(whole) && JsonTokens.AllDigits(fraction)
    requires At(s, i, whole) && At(s, i + |whole| + 1, fraction) && (whole == [] ==> i == 0 || !IsDigit(s[i - 1]))
    requires fraction == [] ==> var e := i + |whole| + 1; e >= |s| || !IsDigit(s[e])
    ensures var p := i + |whole|;
      && (whole != [] <==> p > 0 && IsDigit(s[p - 1])) && (fraction != [] <==> p + 1 < |s| && IsDigit(s[p + 1]))
  {
    if fraction != [] { AtHead(s, i + |whole| + 1, fraction); }
    if whole != [] {
      assert whole == whole[..|whole| - 1] + [whole[|whole| - 1]];
      AtSplit(s, i, whole[..|whole| - 1], [whole[|whole| - 1]]);
      AtHead(s, i + |whole| - 1, [whole[|whole| - 1]]);
    }
  }

  lemma BothSides(whole: Bytes, fraction: Bytes)
    ensures whole + (((if whole == [] then [ZERO] else []) + ([Json.DOT] + (if fraction == [] then [ZERO] else []))) + fraction)
         == (if whole == [] then [ZERO] else whole) + ([Json.DOT] + (if fraction == [] then [ZERO] else fraction))
  {
  }

  lemma DotIsNoLetter()
    ensures !IsLetter(Json.DOT)
  {
  }

  // ---------- Comments ----------

  /** A comment is translated like any other text: an apostrophe in it opens a string, which nothing closes. */
  lemma ApostropheInComment()
    ensures Translate([SLASH, SLASH, SINGLE_QUOTE, NEWLINE, ZERO], 0, Outside) == None
  {
    var s := [SLASH, SLASH, SINGLE_QUOTE, NEWLINE, ZERO];
    assert Translate(s, 5, InSingle) == None;
    assert Translate(s, 4, InSingle) == None;
    assert Translate(s, 3, InSingle) == None;
    assert Translate(s, 2, Outside) == None;
    assert Translate(s, 1, Outside) == None;
  }
}
