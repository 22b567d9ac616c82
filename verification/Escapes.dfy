/** String literals (section 7 of RFC 8259) in every spelling: bytes, short escapes, escaped code points in either case. */
module Escapes {
  import opened Bytes
  import opened Text
  import opened Unicode

  /** The short escapes of the standard and the bytes they stand for. */
  const SHORT: map<Byte, Byte> := map[34 := 34, 92 := 92, 47 := 47, 98 := 8, 102 := 12, 110 := 10, 114 := 13, 116 := 9]

  /** A piece of a string literal. An escape the standard does not know keeps its backslash. */
  datatype Piece =
    | Plain(b: Byte)
    | Short(letter: Byte)
    | Unknown(letter: Byte)
    | Point(cp: nat, upper: bool)

  predicate PieceOk(p: Piece)
  {
    match p
    case Plain(b) => b != BACKSLASH
    case Short(b) => b in SHORT
    case Unknown(b) => b !in SHORT && b != UNICODE
    case Point(cp, _) => ScalarValue(cp)
  }

  /** No bare quote: the pieces can stand between quotes. */
  predicate Quotable(ps: seq<Piece>) { PiecesOk(ps) && forall i :: 0 <= i < |ps| ==> ps[i] != Plain(QUOTE) }

  predicate PiecesOk(ps: seq<Piece>) { forall i :: 0 <= i < |ps| ==> PieceOk(ps[i]) }

  function PieceText(p: Piece): (r: Bytes)
    requires PieceOk(p)
    ensures r != []
  {
    match p
    case Plain(b) => [b]
    case Short(b) => [BACKSLASH, b]
    case Unknown(b) => [BACKSLASH, b]
    case Point(cp, upper) => EscapedPoint(cp, upper)
  }

  function PieceBytes(p: Piece): (r: Bytes)
    requires PieceOk(p)
  {
    match p
    case Plain(b) => [b]
    case Short(b) => [SHORT[b]]
    case Unknown(b) => [BACKSLASH, b]
    case Point(cp, _) => Utf8(cp)
  }

  function Spelling(ps: seq<Piece>): (r: Bytes)
    requires PiecesOk(ps)
  {
    if ps == [] then [] else PieceText(ps[0]) + Spelling(ps[1..])
  }

  function Spelled(ps: seq<Piece>): (r: Bytes)
    requires PiecesOk(ps)
  {
    if ps == [] then [] else PieceBytes(ps[0]) + Spelled(ps[1..])
  }

  // ---------- Unescaping ----------

  lemma PieceUnescapes(p: Piece, text: Bytes, i: nat)
    requires PieceOk(p) && At(text, i, PieceText(p))
    ensures Unescape(text, i) == Prepend(PieceBytes(p), Unescape(text, i + |PieceText(p)|))
  {
    hide Utf8, Hex4;
    match p
    case Point(cp, upper) => ScalarUnescapes(text, i, cp, upper);
    case Plain(b) => AtHead(text, i, [b]);
    case Short(b) =>
      AtHead(text, i, [BACKSLASH, b]);
      AtHead(text, i + 1, [BACKSLASH, b][1..]);
      assert SimpleEscape(b) == [SHORT[b]];
    case Unknown(b) =>
      AtHead(text, i, [BACKSLASH, b]);
      AtHead(text, i + 1, [BACKSLASH, b][1..]);
  }

  lemma {:induction false} PiecesUnescape(ps: seq<Piece>, text: Bytes, i: nat)
    requires PiecesOk(ps) && At(text, i, Spelling(ps)) && i + |Spelling(ps)| == |text|
    ensures Unescape(text, i) == Some(Spelled(ps))
    decreases |ps|
  {
    hide Unescape, PieceText, PieceBytes;
    if ps == [] {
      UnescapeEnd(text);
    } else {
      AtSplit(text, i, PieceText(ps[0]), Spelling(ps[1..]));
      PieceUnescapes(ps[0], text, i);
      PiecesUnescape(ps[1..], text, i + |PieceText(ps[0])|);
    }
  }

  /** Every string literal, however spelled, is unescaped to the bytes it stands for. */
  lemma LiteralUnescapes(ps: seq<Piece>)
    requires PiecesOk(ps)
    ensures Unescape(Spelling(ps), 0) == Some(Spelled(ps))
  {
    assert Spelling(ps)[0..] == Spelling(ps);
    PiecesUnescape(ps, Spelling(ps), 0);
  }

  // ---------- Malformed escapes ----------

  /** Four bytes behind the backslash and u that are not all hexadecimal digits. */
  lemma BadDigitsRefused(text: Bytes, i: nat)
    requires i + 6 <= |text| && text[i] == BACKSLASH && text[i + 1] == UNICODE
    requires exists k :: i + 2 <= k < i + 6 && HexValue(text[k]) < 0
    ensures Unescape(text, i) == None
  {
    var k :| i + 2 <= k < i + 6 && HexValue(text[k]) < 0;
  }

  /** Cut short by the end of the string, the backslash and the u are dropped and the rest stays. */
  lemma CutShort(text: Bytes, i: nat)
    requires i + 1 < |text| < i + 6 && text[i] == BACKSLASH && text[i + 1] == UNICODE
    ensures Unescape(text, i) == Unescape(text, i + 2)
  {
  }

  /** A backslash at the very end is dropped. */
  lemma LoneBackslash(text: Bytes, i: nat)
    requires i + 1 == |text| && text[i] == BACKSLASH
    ensures Unescape(text, i) == Some([])
  {
  }
}
