/** JSON5: the translator to JSON, and the compact printer. */
module Json5 {
  import opened Bytes
  import opened Values
  import opened Text
  import opened Json

  const SINGLE_QUOTE: Byte := 39
  const DOLLAR: Byte := 36
  const UNDERSCORE: Byte := 95
  const VTAB: Byte := 11

  predicate IsLetter(b: Byte) { 97 <= b <= 122 || 65 <= b <= 90 }

  predicate IsIdStart(b: Byte) { IsLetter(b) || b == UNDERSCORE || b == DOLLAR || b >= 0xC0 }

  predicate IsIdCont(b: Byte) { IsLetter(b) || IsDigit(b) || b == UNDERSCORE || b == DOLLAR || b >= 0x80 }

  predicate IsHex(b: Byte) { HexValue(b) >= 0 }

  predicate HexAt(s: Bytes, i: nat) { i < |s| && IsHex(s[i]) }

  // ---------- Blanks and comments in lookahead ----------

  /** The width of the blank at `j`: ASCII blanks and the Unicode spaces JSON5 allows; 0 if there is none. */
  function BlankWidth(s: Bytes, j: nat): (r: nat)
    ensures r > 0 ==> j < |s|
  {
    if j >= |s| then 0
    else if s[j] == SPACE || 9 <= s[j] <= 13 then 1
    else MultiByteBlank(s, j)
  }

  function MultiByteBlank(s: Bytes, j: nat): (r: nat)
    requires j < |s|
    ensures r == 0 || r == 2 || r == 3
    ensures r > 0 ==> s[j] >= 0xC2
  {
    if s[j] == 0xC2 && j + 1 < |s| && s[j + 1] == 0xA0 then 2
    else if j + 2 >= |s| then 0
    else if s[j] == 0xE2 && s[j + 1] == 0x80 && (s[j + 2] == 0xA8 || s[j + 2] == 0xA9 || 0x80 <= s[j + 2] <= 0x8A) then 3
    else if s[j] == 0xE2 && s[j + 1] == 0x81 && s[j + 2] == 0x9F then 3
    else if s[j] == 0xE3 && s[j + 1] == 0x80 && s[j + 2] == 0x80 then 3
    else if s[j] == 0xEF && s[j + 1] == 0xBB && s[j + 2] == 0xBF then 3
    else 0
  }

  function NewlineAfter(s: Bytes, j: nat): (r: nat)
    ensures j <= r
    decreases Remaining(s, j)
  {
    if j < |s| && s[j] != NEWLINE then NewlineAfter(s, j + 1) else j
  }

  /** Where the star of a closing comment mark stands, or the last position if there is none. */
  function StarAfter(s: Bytes, j: nat): (r: nat)
    ensures j <= r
    decreases Remaining(s, j)
  {
    if j + 1 < |s| && !(s[j] == STAR && s[j + 1] == SLASH) then StarAfter(s, j + 1) else j
  }

  function PastComment(s: Bytes, j: nat): (r: nat)
    ensures j + 2 <= r
  {
    var e := StarAfter(s, j + 2);
    if e < |s| then e + 2 else e
  }

  /** After a comma: the first position that is neither blank nor comment. */
  function CommaLook(s: Bytes, j: nat): (r: nat)
    ensures j <= r
    decreases Remaining(s, j)
  {
    if BlankWidth(s, j) > 0 then CommaLook(s, j + BlankWidth(s, j))
    else if j + 1 < |s| && s[j] == SLASH && s[j + 1] == SLASH then
      (if NewlineAfter(s, j) > j then CommaLook(s, NewlineAfter(s, j)) else j)
    else if j + 1 < |s| && s[j] == SLASH && s[j + 1] == STAR then CommaLook(s, PastComment(s, j))
    else if j < |s| && s[j] == HASH then (if NewlineAfter(s, j) > j then CommaLook(s, NewlineAfter(s, j)) else j)
    else j
  }

  /** After an identifier: whether a colon follows.  Every skip goes one character further than it says, so the
      character behind a block comment is not seen. */
  function ColonFollows(s: Bytes, j: nat): (r: bool)
    decreases Remaining(s, j)
  {
    if j >= |s| then false
    else if BlankWidth(s, j) > 0 then ColonFollows(s, j + BlankWidth(s, j))
    else if j + 1 < |s| && s[j] == SLASH && s[j + 1] == SLASH then ColonFollows(s, NewlineAfter(s, j) + 1)
    else if j + 1 < |s| && s[j] == SLASH && s[j + 1] == STAR then ColonFollows(s, PastComment(s, j) + 1)
    else if s[j] == HASH then ColonFollows(s, NewlineAfter(s, j) + 1)
    else s[j] == COLON
  }

  // ---------- Translator ----------

  datatype State = Outside | InDouble | InSingle

  /** One turn of the loop: what is appended, where the next turn starts, and in what state. */
  datatype Move = Move(out: Bytes, next: nat, state: State)

  function UpperHex(n: nat): (r: Byte)
    requires n < 16
  {
    if n < 10 then 48 + n else 65 + n - 10
  }

  function Unicode4(n: nat): (r: Bytes)
    requires n < 0x1_0000
  {
    [BACKSLASH, UNICODE, UpperHex(n / 0x1000), UpperHex(n / 0x100 % 16), UpperHex(n / 16 % 16), UpperHex(n % 16)]
  }

  function HexEnd(s: Bytes, i: nat): (r: nat)
    ensures i <= r && (i <= |s| ==> r <= |s|)
    decreases Remaining(s, i)
  {
    if HexAt(s, i) then HexEnd(s, i + 1) else i
  }

  /** The value of hex digits in 64-bit arithmetic, which drops what is shifted out. */
  function HexWord(s: Bytes): (r: UInt64)
  {
    if s == [] then 0
    else (HexWord(s[..|s| - 1]) * 16 + (if HexValue(s[|s| - 1]) < 0 then 0 else HexValue(s[|s| - 1]))) % TWO_64
  }

  /** \u{...} whose digits start at `i`, as one escape or a surrogate pair. */
  function BracedEscape(s: Bytes, i: nat, state: State): (r: Option<Move>)
    requires i <= |s|
    ensures r.Some? ==> i < r.value.next
  {
    var e := HexEnd(s, i);
    if e == i || e >= |s| || s[e] != RBRACE then None
    else
      var cp := HexWord(s[i..e]);
      if cp > 0x10_FFFF then None
      else if cp < 0x1_0000 then Some(Move(Unicode4(cp), e + 1, state))
      else Some(Move(Unicode4(0xD800 + (cp - 0x1_0000) / 0x400) + Unicode4(0xDC00 + (cp - 0x1_0000) % 0x400), e + 1, state))
  }

  /** An escape in a string of either kind; `i` is the backslash, and a character follows it. */
  function EscapeMove(s: Bytes, i: nat, state: State): (r: Option<Move>)
    requires i + 1 < |s|
    ensures r.Some? ==> i + 2 <= r.value.next
  {
    var n := s[i + 1];
    if n == NEWLINE then Some(Move([], i + 2, state))
    else if n == RETURN then Some(Move([], if i + 2 < |s| && s[i + 2] == NEWLINE then i + 3 else i + 2, state))
    else if n == 118 then Some(Move([BACKSLASH, UNICODE, ZERO, ZERO, ZERO, 66], i + 2, state))
    else if n == ZERO then
      if i + 2 < |s| && IsDigit(s[i + 2]) then None
      else Some(Move([BACKSLASH, UNICODE, ZERO, ZERO, ZERO, ZERO], i + 2, state))
    else if n == 120 then
      if HexAt(s, i + 2) && HexAt(s, i + 3) then
        Some(Move([BACKSLASH, UNICODE, ZERO, ZERO, s[i + 2], s[i + 3]], i + 4, state))
      else None
    else if n == UNICODE then
      if i + 2 < |s| && s[i + 2] == LBRACE then BracedEscape(s, i + 3, state)
      else if HexAt(s, i + 2) && HexAt(s, i + 3) && HexAt(s, i + 4) && HexAt(s, i + 5) then
        Some(Move([BACKSLASH, UNICODE, s[i + 2], s[i + 3], s[i + 4], s[i + 5]], i + 6, state))
      else None
    else if n == SINGLE_QUOTE then Some(Move([SINGLE_QUOTE], i + 2, state))
    else Some(Move([BACKSLASH, n], i + 2, state))
  }

  function InString(s: Bytes, i: nat, state: State): (r: Option<Move>)
    requires i < |s| && state != Outside
    ensures r.Some? ==> i < r.value.next
  {
    var c := s[i];
    if c == BACKSLASH && i + 1 < |s| then EscapeMove(s, i, state)
    else if state.InSingle? && c == SINGLE_QUOTE then Some(Move([QUOTE], i + 1, Outside))
    else if c < 0x20 then Some(Move(EscapeByte(c), i + 1, state))
    else if c == QUOTE then
      if state.InDouble? then Some(Move([QUOTE], i + 1, Outside)) else Some(Move([BACKSLASH, QUOTE], i + 1, state))
    else Some(Move([c], i + 1, state))
  }

  function IdentEnd(s: Bytes, i: nat): (r: nat)
    ensures i <= r && (i <= |s| ==> r <= |s|)
    decreases Remaining(s, i)
  {
    if i < |s| && IsIdCont(s[i]) then IdentEnd(s, i + 1) else i
  }

  /** An identifier: quoted if it is a key, copied otherwise. */
  function Identifier(s: Bytes, i: nat): (r: Move)
    requires i < |s| && IsIdStart(s[i])
    ensures i < r.next
  {
    var e := IdentEnd(s, i);
    var ident := s[i..e];
    Move(if ColonFollows(s, e) then [QUOTE] + ident + [QUOTE] else ident, e, Outside)
  }

  /** Digits of a base of at most sixteen, from `i` on. */
  function BaseEnd(s: Bytes, i: nat, base: nat): (r: nat)
    ensures i <= r && (i <= |s| ==> r <= |s|)
    decreases Remaining(s, i)
  {
    if i < |s| && 0 <= HexValue(s[i]) < base then BaseEnd(s, i + 1, base) else i
  }

  function BaseValue(s: Bytes, base: nat): (r: nat)
  {
    if s == [] then 0
    else BaseValue(s[..|s| - 1], base) * base + (if HexValue(s[|s| - 1]) < 0 then 0 else HexValue(s[|s| - 1]))
  }

  /** The base announced by a zero and a letter with a digit of that base behind; 0 if there is none. */
  function BaseAt(s: Bytes, i: nat): (r: nat)
    requires i < |s|
    ensures r > 0 ==> i + 2 < |s| && 0 <= HexValue(s[i + 2]) < r
  {
    if s[i] != ZERO || i + 2 >= |s| then 0
    else if (s[i + 1] == 120 || s[i + 1] == 88) && IsHex(s[i + 2]) then 16
    else if (s[i + 1] == 111 || s[i + 1] == 79) && 48 <= s[i + 2] <= 55 then 8
    else if (s[i + 1] == 98 || s[i + 1] == 66) && 48 <= s[i + 2] <= 49 then 2
    else 0
  }

  /** A number of another base, written out in decimal; out of range beyond 64 bits. */
  function BasedNumber(s: Bytes, i: nat): (r: Option<Move>)
    requires i < |s| && BaseAt(s, i) > 0
    ensures r.Some? ==> i < r.value.next
  {
    var e := BaseEnd(s, i + 2, BaseAt(s, i));
    var n := BaseValue(s[i + 2..e], BaseAt(s, i));
    if n >= TWO_64 then None else Some(Move(Digits(n), e, Outside))
  }


  predicate WordAt(s: Bytes, j: nat, word: Bytes)
  {
    j + |word| <= |s| && s[j..j + |word|] == word
  }

  function SkipBlanks(s: Bytes, j: nat): (r: nat)
    ensures j <= r
    decreases Remaining(s, j)
  {
    if BlankWidth(s, j) > 0 then SkipBlanks(s, j + BlankWidth(s, j)) else j
  }

  /** A sign; None where it is to be copied like any other character. */
  function Sign(s: Bytes, i: nat): (r: Option<Move>)
    requires i < |s| && (s[i] == PLUS || s[i] == MINUS)
    ensures r.Some? ==> i < r.value.next
  {
    var j := SkipBlanks(s, i + 1);
    var sign := if s[i] == MINUS then [MINUS] else [];
    if WordAt(s, j, NAN_TEXT) then Some(Move(sign + NAN_TEXT, j + 3, Outside))
    else if WordAt(s, j, INFINITY_TEXT) then Some(Move(sign + INFINITY_TEXT, j + 8, Outside))
    else if s[i] == PLUS then Some(Move([], i + 1, Outside))
    else if j < |s| && (IsDigit(s[j]) || s[j] == DOT) && j > i + 1 then Some(Move([MINUS], j, Outside))
    else None
  }

  function Default(s: Bytes, i: nat): (r: Move)
    requires i < |s|
  {
    if s[i] == DOT && i > 0 && IsDigit(s[i - 1]) && (i + 1 >= |s| || !IsDigit(s[i + 1])) then Move([DOT, ZERO], i + 1, Outside)
    else Move([s[i]], i + 1, Outside)
  }

  function OutsideString(s: Bytes, i: nat): (r: Option<Move>)
    requires i < |s|
    ensures r.Some? ==> i < r.value.next
  {
    var c := s[i];
    if c == QUOTE then Some(Move([c], i + 1, InDouble))
    else if c == SINGLE_QUOTE then Some(Move([QUOTE], i + 1, InSingle))
    else if c < 0x20 && !(9 <= c <= 13) then None
    else if c == VTAB || c == FORMFEED then Some(Move([], i + 1, Outside))
    else if MultiByteBlank(s, i) > 0 then Some(Move([], i + MultiByteBlank(s, i), Outside))
    else if c == COMMA then
      var j := CommaLook(s, i + 1);
      if j < |s| && (s[j] == RBRACE || s[j] == RBRACKET) then Some(Move([], j, Outside)) else Some(Move([COMMA], i + 1, Outside))
    else if IsIdStart(c) then Some(Identifier(s, i))
    else if BaseAt(s, i) > 0 then BasedNumber(s, i)
    else if c == DOT && (i == 0 || !IsDigit(s[i - 1])) && i + 1 < |s| && IsDigit(s[i + 1]) then
      Some(Move([ZERO, DOT], i + 1, Outside))
    else if c == PLUS || c == MINUS then
      (match Sign(s, i) case Some(m) => Some(m) case None => Some(Default(s, i)))
    else Some(Default(s, i))
  }

  function Step(s: Bytes, i: nat, state: State): (r: Option<Move>)
    requires i < |s|
    ensures r.Some? ==> i < r.value.next
  {
    if state == Outside then OutsideString(s, i) else InString(s, i, state)
  }

  /** json5ToJson from position `i`; None where it throws. */
  function Translate(s: Bytes, i: nat, state: State): (r: Option<Bytes>)
    decreases Remaining(s, i)
  {
    if i >= |s| then (if state == Outside then Some([]) else None)
    else
      match Step(s, i, state)
      case None => None
      case Some(m) => Prepend(m.out, Translate(s, m.next, m.state))
  }

  // ---------- Printer ----------

  predicate BareByte(b: Byte) { IsLetter(b) || IsDigit(b) || b == UNDERSCORE || b == DOLLAR }

  predicate AllBare(k: Bytes)
  {
    if k == [] then true else BareByte(k[0]) && AllBare(k[1..])
  }

  predicate NeedsQuote(k: Bytes)
  {
    k == [] || !AllBare(k) || IsDigit(k[0])
  }

  /** A key as JSON writes it, or bare where JSON5 allows it. */
  function KeyText(k: Bytes, bare: bool): (r: Bytes)
  {
    if bare && !NeedsQuote(k) then k else Quoted(k)
  }

  /** Scalars in JSON5 text; exact literals are quoted like other strings. */
  function TokenText(plat: Platform, s: Scalar): (r: Bytes)
  {
    match s
    case Text(t, _) => Quoted(t)
    case _ => Render(plat, Atom(s), false, 0)
  }

  /** json5SerializeVal without line breaks; with `bare` false every key is quoted.  Below the nesting limit null
      is written. */
  function Print(plat: Platform, d: Doc, bare: bool, depth: nat): (r: Bytes)
    decreases d, 0
  {
    if depth > MAX_NESTING_DEPTH then NULL_TEXT
    else
      match d
      case Atom(s) => TokenText(plat, s)
      case List(items) => [LBRACKET] + (PrintItems(plat, items, bare, depth + 1) + [RBRACKET])
      case Table(es) => [LBRACE] + (PrintMembers(plat, es, bare, depth + 1) + [RBRACE])
  }

  function PrintItems(plat: Platform, ds: seq<Doc>, bare: bool, depth: nat): (r: Bytes)
    decreases ds, 1
  {
    if ds == [] then []
    else Print(plat, ds[0], bare, depth) + (if |ds| == 1 then [] else [COMMA] + PrintItems(plat, ds[1..], bare, depth))
  }

  function PrintMembers(plat: Platform, es: seq<Entry>, bare: bool, depth: nat): (r: Bytes)
    decreases es, 1
  {
    if es == [] then []
    else
      KeyText(es[0].key, bare) + ([COLON] + (Print(plat, es[0].doc, bare, depth)
      + (if |es| == 1 then [] else [COMMA] + PrintMembers(plat, es[1..], bare, depth))))
  }
}
