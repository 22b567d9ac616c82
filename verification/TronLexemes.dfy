/** TRON text as a run of lexemes: blanks, comments, line ends, marks, words, strings and numbers, and its tokens. */
module TronLexemes {
  import opened Bytes
  import opened Values
  import opened Text
  import opened Tron
  import opened TronTokens
  import opened TronClasses
  import opened Escapes
  import JsonNumbers
  import Base64
  import TronDocument
  import TronGrammar
  import TronProofs
  import Unicode
  import JsonTokens
  import Json

  datatype Lexeme =
    | Dropped(b: Byte)
    | Remark(text: Bytes)
    | Line
    | Mark(b: Byte)
    | Name(word: Bytes)
    | Quote(body: Bytes)
    | Numeral(parts: JsonNumbers.Parts)

  /** Bytes that begin no lexeme; the tokenizer drops them. */
  predicate IsDropped(b: Byte)
  {
    b != Json.HASH && b != NEWLINE && b != QUOTE && b != MINUS && !IsDigit(b) && !StartsWord(b) && !IsPunct(b)
  }

  /** The body of a string: no quote but escaped ones, no backslash but in front of a byte. */
  predicate BodyOk(s: Bytes)
  {
    if s == [] then true
    else if s[0] == BACKSLASH then |s| > 1 && BodyOk(s[2..])
    else s[0] != QUOTE && BodyOk(s[1..])
  }

  ghost predicate LexemeOk(l: Lexeme)
  {
    match l
    case Dropped(b) => IsDropped(b)
    case Remark(text) => forall i :: 0 <= i < |text| ==> text[i] != NEWLINE
    case Line => true
    case Mark(b) => IsPunct(b)
    case Name(w) => w != [] && StartsWord(w[0]) && forall i :: 0 <= i < |w| ==> Json.IsIdent(w[i])
    case Quote(body) => BodyOk(body)
    case Numeral(p) => JsonNumbers.PartsOk(p)
  }

  /** What may follow: a word or a number is not continued, a comment goes up to the end of its line. */
  predicate Fits(l: Lexeme, rest: Bytes)
  {
    match l
    case Name(_) => rest == [] || !Json.IsIdent(rest[0])
    case Numeral(_) => rest == [] || (!Json.IsIdent(rest[0]) && rest[0] != Json.DOT)
    case Remark(_) => rest == [] || rest[0] == NEWLINE
    case _ => true
  }

  ghost predicate LexemesOk(ls: seq<Lexeme>)
  {
    ls == [] || (LexemeOk(ls[0]) && Fits(ls[0], LexemesText(ls[1..])) && LexemesOk(ls[1..]))
  }

  function LexemeText(l: Lexeme): (r: Bytes)
  {
    match l
    case Dropped(b) => [b]
    case Remark(text) => [Json.HASH] + text
    case Line => [NEWLINE]
    case Mark(b) => [b]
    case Name(w) => w
    case Quote(body) => [QUOTE] + (body + [QUOTE])
    case Numeral(p) => JsonNumbers.Spelled(p)
  }

  function LexemesText(ls: seq<Lexeme>): (r: Bytes)
  {
    if ls == [] then [] else LexemeText(ls[0]) + LexemesText(ls[1..])
  }

  function LexemeToks(l: Lexeme): (r: seq<Tok>)
  {
    match l
    case Dropped(_) => []
    case Remark(_) => []
    case Line => [Newline]
    case Mark(b) => [Punct(b)]
    case Name(w) => [Word(w)]
    case Quote(body) => [Str(body)]
    case Numeral(p) => [Num(JsonNumbers.Spelled(p))]
  }

  function LexemesToks(ls: seq<Lexeme>): (r: seq<Tok>)
  {
    if ls == [] then [] else LexemeToks(ls[0]) + LexemesToks(ls[1..])
  }

  // ---------- Single lexemes ----------

  lemma DroppedStep(b: Byte, s: Bytes, i: nat)
    requires IsDropped(b) && At(s, i, [b])
    ensures Tokens(s, i) == Tokens(s, i + 1)
  {
    AtHead(s, i, [b]);
  }

  lemma {:induction false} RemarkEnds(text: Bytes, s: Bytes, i: nat)
    requires At(s, i, text) && (forall k :: 0 <= k < |text| ==> text[k] != NEWLINE)
    requires i + |text| < |s| ==> s[i + |text|] == NEWLINE
    ensures NewlineEnd(s, i) == i + |text|
    decreases |text|
  {
    if text != [] {
      AtHead(s, i, text);
      RemarkEnds(text[1..], s, i + 1);
    }
  }

  lemma RemarkStep(text: Bytes, s: Bytes, i: nat)
    requires LexemeOk(Remark(text)) && At(s, i, [Json.HASH] + text)
    requires var e := i + 1 + |text|; e < |s| ==> s[e] == NEWLINE
    ensures Tokens(s, i) == Tokens(s, i + 1 + |text|)
  {
    hide NewlineEnd;
    AtHead(s, i, [Json.HASH] + text);
    assert forall k :: 0 <= k < |text| ==> ([Json.HASH] + text)[k + 1] == text[k];
    RemarkEnds([Json.HASH] + text, s, i);
  }

  lemma {:induction false} QuoteFound(body: Bytes, s: Bytes, i: nat)
    requires BodyOk(body) && At(s, i, body + [QUOTE])
    ensures QuoteEnd(s, i) == i + |body|
    decreases |body|
  {
    AtHead(s, i, body + [QUOTE]);
    if body != [] {
      assert (body + [QUOTE])[1..] == body[1..] + [QUOTE];
      if body[0] == BACKSLASH {
        AtHead(s, i + 1, body[1..] + [QUOTE]);
        assert (body[1..] + [QUOTE])[1..] == body[2..] + [QUOTE];
        QuoteFound(body[2..], s, i + 2);
      } else {
        QuoteFound(body[1..], s, i + 1);
      }
    }
  }

  lemma QuoteStep(body: Bytes, s: Bytes, i: nat)
    requires BodyOk(body) && At(s, i, [QUOTE] + (body + [QUOTE]))
    ensures Tokens(s, i) == [Str(body)] + Tokens(s, i + |body| + 2)
  {
    hide QuoteEnd, Tokens, BodyOk;
    AtSplit(s, i, [QUOTE], body + [QUOTE]);
    AtHead(s, i, [QUOTE]);
    AtSplit(s, i + 1, body, [QUOTE]);
    AtHead(s, i + 1 + |body|, [QUOTE]);
    QuoteFound(body, s, i + 1);
    StringStep(s, i, i + 1 + |body|);
    Taken(s, i + 1, body);
  }

  lemma StringStep(s: Bytes, i: nat, e: nat)
    requires i < |s| && s[i] == QUOTE && QuoteEnd(s, i + 1) == e < |s|
    ensures Tokens(s, i) == [Str(s[i + 1..e])] + Tokens(s, e + 1)
  {
    hide QuoteEnd;
  }

  lemma NumeralStep(p: JsonNumbers.Parts, s: Bytes, i: nat)
    requires JsonNumbers.PartsOk(p) && At(s, i, JsonNumbers.Spelled(p)) && JsonTokens.Ends(s, i + |JsonNumbers.Spelled(p)|)
    ensures Tokens(s, i) == [Num(JsonNumbers.Spelled(p))] + Tokens(s, i + |JsonNumbers.Spelled(p)|)
  {
    hide JsonNumbers.Spelled, JsonNumbers.PartsOk, Tokens, NumberEnd;
    var n := JsonNumbers.Spelled(p);
    JsonNumbers.SpelledStarts(p);
    AtHead(s, i, n);
    NumeralEnds(p, s, i);
    StepNumberToken(s, i);
    Taken(s, i, n);
  }

  lemma Taken(s: Bytes, i: nat, n: Bytes)
    requires At(s, i, n)
    ensures s[i..i + |n|] == n
  {
  }

  lemma NumeralEnds(p: JsonNumbers.Parts, s: Bytes, i: nat)
    requires JsonNumbers.PartsOk(p) && At(s, i, JsonNumbers.Spelled(p)) && JsonTokens.Ends(s, i + |JsonNumbers.Spelled(p)|)
    requires Json.Cur(s, i) == MINUS || IsDigit(Json.Cur(s, i))
    ensures NumberEnd(s, i) == i + |JsonNumbers.Spelled(p)|
  {
    hide *;
    var start := i + |JsonNumbers.Sign(p)|;
    var intEnd := start + |p.whole|;
    var fracEnd := intEnd + |JsonNumbers.Fraction(p)|;
    JsonNumbers.PartsAt(p, s, i);
    JsonNumbers.BehindWhole(p, s, intEnd);
    JsonNumbers.WholeFound(p, s, i);
    JsonNumbers.PartsLength(p);
    JsonNumbers.FractionFound(s, intEnd, p);
    JsonNumbers.ExponentFound(s, fracEnd, p);
    JsonNumbers.LeadingZero(p);
    NumberEndsAt(s, i, start, intEnd, fracEnd, fracEnd + |JsonNumbers.Exponent(p)|);
  }

  lemma NumberEndsAt(s: Bytes, i: nat, start: nat, intEnd: nat, fracEnd: nat, end: nat)
    requires Json.Cur(s, i) == MINUS || IsDigit(Json.Cur(s, i))
    requires start == if Json.Cur(s, i) == MINUS then i + 1 else i
    requires Json.DigitsEnd(s, start) == intEnd && Json.FractionEnd(s, intEnd) == Some(fracEnd)
    requires Json.ExponentEnd(s, fracEnd) == Some(end)
    ensures NumberEnd(s, i) == end
  {
    hide Json.DigitsEnd;
  }

  /** One lexeme gives its tokens, and tokenizing goes on behind it. */
  lemma LexemeStep(l: Lexeme, rest: Bytes, s: Bytes, i: nat)
    requires LexemeOk(l) && Fits(l, rest) && At(s, i, LexemeText(l) + rest) && |s| == i + |LexemeText(l)| + |rest|
    ensures Tokens(s, i) == LexemeToks(l) + Tokens(s, i + |LexemeText(l)|)
  {
    hide Tokens, JsonNumbers.Spelled, JsonNumbers.PartsOk, Word, BodyOk, IsDropped;
    AtSplit(s, i, LexemeText(l), rest);
    if rest != [] { AtHead(s, i + |LexemeText(l)|, rest); }
    match l
    case Dropped(b) => DroppedStep(b, s, i);
    case Remark(text) => RemarkStep(text, s, i);
    case Line => LineStep(s, i);
    case Mark(b) => LexPunct(b, s, i);
    case Name(w) => LexWord(w, s, i);
    case Quote(body) => QuoteStep(body, s, i);
    case Numeral(p) => NumeralStep(p, s, i);
  }

  lemma LineStep(s: Bytes, i: nat)
    requires At(s, i, [NEWLINE])
    ensures Tokens(s, i) == [Newline] + Tokens(s, i + 1)
  {
    AtHead(s, i, [NEWLINE]);
  }

  /** A text has the tokens of its lexemes, however it is laid out. */
  lemma {:induction false} LexAll(ls: seq<Lexeme>, s: Bytes, i: nat)
    requires LexemesOk(ls) && At(s, i, LexemesText(ls)) && |s| == i + |LexemesText(ls)|
    ensures Tokens(s, i) == LexemesToks(ls) + [End]
    decreases |ls|
  {
    hide Tokens, LexemeText, LexemeToks, LexemeOk, Fits;
    if ls == [] {
      NoTokensLeft(s);
    } else {
      LexemeStep(ls[0], LexemesText(ls[1..]), s, i);
      AtSplit(s, i, LexemeText(ls[0]), LexemesText(ls[1..]));
      LexAll(ls[1..], s, i + |LexemeText(ls[0])|);
    }
  }

  lemma NoTokensLeft(s: Bytes)
    ensures Tokens(s, |s|) == [End]
  {
  }

  /** fromTRON on the text of any document: its value, or failure where it has none. */
  lemma ReadText(plat: Json.Platform, ls: seq<Lexeme>, d: Document)
    requires LexemesOk(ls) && DocumentOk(d) && LexemesToks(ls) + [End] == DocumentToks(d)
    ensures ParseDocument(plat, LexemesText(ls)) == DocumentValue(plat, d)
  {
    hide *;
    var text := LexemesText(ls);
    JsonNumbers.AtWhole(text);
    LexAll(ls, text, 0);
    ReadDocument(plat, d, text);
  }

  /** A document in which a class names its parent reads as the one in which the class lists the parent's properties
      itself. */
  lemma FlattenedText(plat: Json.Platform, ls: seq<Lexeme>, d: Document, flatLs: seq<Lexeme>, flat: Document,
                      before: seq<Definition>, c: Definition, flatC: Definition, behind: seq<Definition>)
    requires LexemesOk(ls) && DocumentOk(d) && LexemesToks(ls) + [End] == DocumentToks(d)
    requires LexemesOk(flatLs) && DocumentOk(flat) && LexemesToks(flatLs) + [End] == DocumentToks(flat)
    requires d.root == flat.root
    requires d.definitions == before + ([c] + behind) && flat.definitions == before + ([flatC] + behind)
    requires c.parent.Some? && flatC.parent.None? && flatC.name == c.name
    requires var m := DeclareAll(before, map[]);
      && m.Some? && c.parent.value in m.value && NamesOf(c.props).Some?
      && NamesOf(flatC.props) == Some(m.value[c.parent.value] + Added(m.value[c.parent.value], NamesOf(c.props).value))
    ensures ParseDocument(plat, LexemesText(ls)) == ParseDocument(plat, LexemesText(flatLs))
  {
    hide *;
    Flattened(before, c, flatC, behind);
    ReadText(plat, ls, d);
    ReadText(plat, flatLs, flat);
    SameValue(plat, d, flat);
  }

  lemma SameValue(plat: Json.Platform, d: Document, e: Document)
    requires d.root == e.root && DeclareAll(d.definitions, map[]) == DeclareAll(e.definitions, map[])
    ensures DocumentValue(plat, d) == DocumentValue(plat, e)
  {
    hide DeclareAll, TronGrammar.Denote;
  }

  /** Any spelling of a string can stand between quotes, and stands for its bytes. */
  lemma {:induction false} BodySpelled(ps: seq<Piece>)
    requires Quotable(ps)
    ensures BodyOk(Spelling(ps)) && TronGrammar.NameOf(Str(Spelling(ps))) == Some(Spelled(ps))
    decreases |ps|
  {
    LiteralUnescapes(ps);
    BodyPieces(ps);
  }

  lemma {:induction false} BodyPieces(ps: seq<Piece>)
    requires Quotable(ps)
    ensures BodyOk(Spelling(ps))
    decreases |ps|
  {
    hide PieceText;
    if ps != [] {
      BodyPieces(ps[1..]);
      PieceBody(ps[0], Spelling(ps[1..]));
    }
  }

  lemma PieceBody(p: Piece, rest: Bytes)
    requires PieceOk(p) && p != Piece.Plain(QUOTE) && BodyOk(rest)
    ensures BodyOk(PieceText(p) + rest)
  {
    var s := PieceText(p) + rest;
    match p
    case Plain(_) => assert s[1..] == rest;
    case Short(_) => assert s[2..] == rest;
    case Unknown(_) => assert s[2..] == rest;
    case Point(cp, upper) =>
      if cp < 0x1_0000 {
        UnitBody(cp, upper, rest);
      } else {
        var hi, lo := 0xD800 + (cp - 0x1_0000) / 0x400, 0xDC00 + (cp - 0x1_0000) % 0x400;
        UnitBody(lo, upper, rest);
        UnitBody(hi, upper, Unicode.CodeUnit(lo, upper) + rest);
        Regrouped(Unicode.CodeUnit(hi, upper), Unicode.CodeUnit(lo, upper), rest);
      }
  }

  lemma UnitBody(n: nat, upper: bool, rest: Bytes)
    requires n < 0x1_0000 && BodyOk(rest)
    ensures BodyOk(Unicode.CodeUnit(n, upper) + rest)
  {
    var s := Unicode.CodeUnit(n, upper) + rest;
    assert s[2..][1..][1..][1..][1..] == rest;
    assert BodyOk(s[2..][1..][1..][1..]) && BodyOk(s[2..][1..][1..]) && BodyOk(s[2..][1..]);
  }

  /** A number's value: a 64-bit integer, or what the platform makes of a fraction or an exponent; None out of range. */
  lemma NumeralValue(plat: Json.Platform, p: JsonNumbers.Parts)
    requires JsonNumbers.PartsOk(p)
    ensures ReadNumber(plat, JsonNumbers.Spelled(p))
         == if JsonNumbers.IsWhole(p) then
              var n: int := if p.minus then 0 - FromDigits(p.whole) else FromDigits(p.whole);
              if -TWO_63 <= n < TWO_63 then Some(Leaf(Int(n))) else None
            else
              match plat.parseDouble(JsonNumbers.Spelled(p)) case None => None case Some(bits) => Some(Leaf(Double(bits)))
  {
    hide FromDigits, JsonNumbers.Spelled;
    if JsonNumbers.IsWhole(p) {
      JsonNumbers.WholeSpelled(p);
      TronProofs.NoExponent(JsonNumbers.Spelled(p));
      DigitsOnlyIs(p.whole);
    } else {
      MarksShow(p);
    }
  }

  lemma MarksShow(p: JsonNumbers.Parts)
    requires JsonNumbers.PartsOk(p) && !JsonNumbers.IsWhole(p)
    ensures var s := JsonNumbers.Spelled(p); Json.DOT in s || 101 in s || 69 in s
  {
    JsonNumbers.PartsShown(p);
    var s, n := JsonNumbers.Spelled(p), |JsonNumbers.Sign(p)| + |p.whole|;
    if p.fraction != [] { assert s[n] == Json.DOT; } else { assert s[n] == p.mark; }
  }

  // ---------- Marked strings ----------

  /** Text behind the binary mark stands for the bytes it decodes to, and for none where it is no Base64. */
  lemma MarkedBinary(plat: Json.Platform, text: Bytes)
    requires text != []
    ensures var data := Base64.Decode(Base64.Default(), text); var bytes := if data.Some? then data.value else [];
      ReadString(plat, B64_PREFIX + text) == if |bytes| > MAX_STRING_LEN then None else Some(Leaf(Binary(bytes)))
  {
    hide Base64.Decode, WholeInt, FindSeparator;
    var s := B64_PREFIX + text;
    assert s[..10] == B64_PREFIX && s[10..] == text;
  }

  /** Text behind the extension mark: a number of 32 bits, whose low byte is the type, a separator, and Base64. */
  lemma MarkedExtension(plat: Json.Platform, n: int, text: Bytes)
    ensures var data := Base64.Decode(Base64.Default(), text); var bytes := if data.Some? then data.value else [];
      ReadString(plat, EXT_PREFIX + Decimal(n) + SEPARATOR + text)
      == if !(-0x8000_0000 <= n < 0x8000_0000) || |bytes| > MAX_STRING_LEN then None
         else Some(Leaf(Extension(if n % 256 < 128 then n % 256 else n % 256 - 256, bytes)))
  {
    hide Base64.Decode, WholeInt, FindSeparator, Decimal;
    var d := Decimal(n);
    var s, sep := EXT_PREFIX + d + SEPARATOR + text, 7 + |Decimal(n)|;
    assert s[..7] == EXT_PREFIX && s[7..sep] == d && s[sep + 2..] == text;
    assert s[sep] == 95 && s[sep + 1] == 95;
    TronDocument.DecimalBytes(n);
    forall k | 7 <= k < sep ensures s[k] != 95 { assert s[k] == d[k - 7]; }
    TronDocument.SeparatorAfter(s, 7, sep);
    WholeNumber(n);
    assert s[2] == 69;
    TronDocument.OtherPrefix(s, B64_PREFIX);
  }

  lemma WholeNumber(n: int)
    ensures WholeInt(Decimal(n), 0x8000_0000) == if -0x8000_0000 <= n < 0x8000_0000 then Some(n) else None
  {
    JsonTokens.DecimalMagnitude(n);
    DigitsInverse(if n < 0 then -n else n);
    DigitsOnlyIs(JsonTokens.Magnitude(Decimal(n)));
  }
}
