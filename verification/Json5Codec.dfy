/** The JSON5 translator and printer as the library runs them: an index, a string state, lookahead loops. */
module Json5Codec {
  import opened Bytes
  import opened Values
  import opened Text
  import opened Json
  import opened Json5
  import JsonPrinter

  // ---------- Lookahead ----------

  method SkipToNewline(s: Bytes, j0: nat) returns (j: nat)
    ensures j == NewlineAfter(s, j0)
  {
    j := j0;
    while j < |s| && s[j] != NEWLINE
      invariant NewlineAfter(s, j) == NewlineAfter(s, j0)
      decreases |s| - j
    {
      j := j + 1;
    }
  }

  method SkipBlockComment(s: Bytes, j0: nat) returns (j: nat)
    ensures j == PastComment(s, j0)
  {
    j := j0 + 2;
    while j + 1 < |s| && !(s[j] == STAR && s[j + 1] == SLASH)
      invariant StarAfter(s, j) == StarAfter(s, j0 + 2)
      decreases |s| - j
    {
      j := j + 1;
    }
    if j < |s| { j := j + 2; }
  }

  /** Past blanks and comments after a comma. */
  method LookPastComma(s: Bytes, j0: nat) returns (j: nat)
    ensures j == CommaLook(s, j0)
  {
    hide BlankWidth, PastComment;
    j := j0;
    while j < |s|
      invariant CommaLook(s, j) == CommaLook(s, j0)
      decreases Remaining(s, j)
    {
      var w := BlankWidth(s, j);
      if w > 0 {
        j := j + w;
      } else if s[j] == SLASH && j + 1 < |s| && s[j + 1] == SLASH {
        SlashMoves(s, j);
        j := SkipToNewline(s, j);
      } else if s[j] == SLASH && j + 1 < |s| && s[j + 1] == STAR {
        j := SkipBlockComment(s, j);
      } else if s[j] == HASH {
        SlashMoves(s, j);
        j := SkipToNewline(s, j);
      } else {
        break;
      }
    }
    NoBlankAtEnd(s, j);
  }

  lemma SlashMoves(s: Bytes, j: nat)
    requires j < |s| && s[j] != NEWLINE
    ensures NewlineAfter(s, j) > j
  {
  }

  lemma NoBlankAtEnd(s: Bytes, j: nat)
    ensures j >= |s| ==> BlankWidth(s, j) == 0
  {
  }

  method LooksLikeKey(s: Bytes, j0: nat) returns (isKey: bool)
    ensures isKey == ColonFollows(s, j0)
  {
    hide BlankWidth, PastComment;
    var j: nat := j0;
    while j < |s|
      invariant ColonFollows(s, j) == ColonFollows(s, j0)
      decreases Remaining(s, j)
    {
      var w := BlankWidth(s, j);
      if w > 0 {
        j := j + w;
      } else if s[j] == SLASH && j + 1 < |s| && s[j + 1] == SLASH {
        j := SkipToNewline(s, j);
        j := j + 1;
      } else if s[j] == SLASH && j + 1 < |s| && s[j + 1] == STAR {
        j := SkipBlockComment(s, j);
        j := j + 1;
      } else if s[j] == HASH {
        j := SkipToNewline(s, j);
        j := j + 1;
      } else {
        return s[j] == COLON;
      }
    }
    isKey := false;
  }

  // ---------- One turn ----------

  method ReadBraced(s: Bytes, i: nat, state: State) returns (m: Option<Move>)
    requires i <= |s|
    ensures m == BracedEscape(s, i, state)
  {
    var hexEnd := i;
    while HexAt(s, hexEnd)
      invariant i <= hexEnd <= |s| && HexEnd(s, hexEnd) == HexEnd(s, i)
      decreases |s| - hexEnd
    {
      hexEnd := hexEnd + 1;
    }
    if hexEnd == i || hexEnd >= |s| || s[hexEnd] != RBRACE { return None; }
    var cp: UInt64 := 0;
    var digits := s[i..hexEnd];
    for k := 0 to |digits|
      invariant cp == HexWord(digits[..k])
    {
      var d := HexValue(digits[k]);
      assert digits[..k + 1][..k] == digits[..k];
      cp := (cp * 16 + (if d < 0 then 0 else d)) % TWO_64;
    }
    assert digits[..|digits|] == digits;
    if cp > 0x10_FFFF { return None; }
    if cp < 0x1_0000 { return Some(Move(Unicode4(cp), hexEnd + 1, state)); }
    var hi, lo := 0xD800 + (cp - 0x1_0000) / 0x400, 0xDC00 + (cp - 0x1_0000) % 0x400;
    m := Some(Move(Unicode4(hi) + Unicode4(lo), hexEnd + 1, state));
  }

  /** The escape behind the backslash at `i`: what is written for it, and where the string goes on. */
  method ReadEscape(s: Bytes, i: nat, state: State) returns (m: Option<Move>)
    requires i + 1 < |s|
    ensures m == EscapeMove(s, i, state)
  {
    hide BracedEscape;
    var n := s[i + 1];
    var out: Bytes, next := [], i + 2;
    if n == NEWLINE {
      // A line continuation leaves nothing.
    } else if n == RETURN {
      if next < |s| && s[next] == NEWLINE { next := next + 1; }
    } else if n == 118 {
      out := [BACKSLASH, UNICODE, ZERO, ZERO, ZERO, 66];
    } else if n == ZERO {
      if next < |s| && IsDigit(s[next]) { return None; }
      out := [BACKSLASH, UNICODE, ZERO, ZERO, ZERO, ZERO];
    } else if n == 120 {
      if i + 3 >= |s| || HexValue(s[i + 2]) < 0 || HexValue(s[i + 3]) < 0 { return None; }
      out := [BACKSLASH, UNICODE, ZERO, ZERO, s[i + 2], s[i + 3]];
      next := i + 4;
    } else if n == UNICODE {
      if next < |s| && s[next] == LBRACE { m := ReadBraced(s, next + 1, state); return; }
      if i + 5 >= |s| || HexValue(s[i + 2]) < 0 || HexValue(s[i + 3]) < 0 || HexValue(s[i + 4]) < 0 || HexValue(s[i + 5]) < 0 {
        return None;
      }
      out := [BACKSLASH, UNICODE, s[i + 2], s[i + 3], s[i + 4], s[i + 5]];
      next := i + 6;
    } else if n == SINGLE_QUOTE {
      out := [SINGLE_QUOTE];
    } else {
      out := [BACKSLASH, n];
    }
    m := Some(Move(out, next, state));
  }

  method ReadIdentifier(s: Bytes, i: nat) returns (m: Move)
    requires i < |s| && IsIdStart(s[i])
    ensures m == Identifier(s, i)
  {
    hide ColonFollows;
    var e := i;
    while e < |s| && IsIdCont(s[e])
      invariant i <= e <= |s| && IdentEnd(s, e) == IdentEnd(s, i)
      decreases |s| - e
    {
      e := e + 1;
    }
    var ident := s[i..e];
    var isKey := LooksLikeKey(s, e);
    m := Move(if isKey then [QUOTE] + ident + [QUOTE] else ident, e, Outside);
  }

  method ReadBased(s: Bytes, i: nat) returns (m: Option<Move>)
    requires i < |s| && BaseAt(s, i) > 0
    ensures m == BasedNumber(s, i)
  {
    var base := BaseAt(s, i);
    var e := i + 2;
    var val := 0;
    assert s[i + 2..i + 2] == [];
    while e < |s| && 0 <= HexValue(s[e]) < base
      invariant i + 2 <= e <= |s| && BaseEnd(s, e, base) == BaseEnd(s, i + 2, base) && val == BaseValue(s[i + 2..e], base)
      decreases |s| - e
    {
      assert s[i + 2..e + 1][..e - (i + 2)] == s[i + 2..e];
      val := val * base + HexValue(s[e]);
      e := e + 1;
    }
    if val >= TWO_64 { return None; }
    m := Some(Move(Digits(val), e, Outside));
  }

  method ReadSign(s: Bytes, i: nat) returns (m: Option<Move>)
    requires i < |s| && (s[i] == PLUS || s[i] == MINUS)
    ensures m == Sign(s, i)
  {
    hide BlankWidth;
    var j := i + 1;
    while BlankWidth(s, j) > 0
      invariant i + 1 <= j && SkipBlanks(s, j) == SkipBlanks(s, i + 1)
      decreases Remaining(s, j)
    {
      BlankInside(s, j);
      j := j + BlankWidth(s, j);
    }
    var sign := if s[i] == MINUS then [MINUS] else [];
    if WordAt(s, j, NAN_TEXT) { return Some(Move(sign + NAN_TEXT, j + 3, Outside)); }
    if WordAt(s, j, INFINITY_TEXT) { return Some(Move(sign + INFINITY_TEXT, j + 8, Outside)); }
    if s[i] == PLUS { return Some(Move([], i + 1, Outside)); }
    if j < |s| && (IsDigit(s[j]) || s[j] == DOT) && j > i + 1 { return Some(Move([MINUS], j, Outside)); }
    m := None;
  }

  lemma BlankInside(s: Bytes, j: nat)
    ensures BlankWidth(s, j) > 0 ==> j < |s|
  {
  }

  method ReadOutside(s: Bytes, i: nat) returns (m: Option<Move>)
    requires i < |s|
    ensures m == OutsideString(s, i)
  {
    hide CommaLook, Identifier, BasedNumber, Sign, MultiByteBlank, BaseAt;
    var c := s[i];
    if c == QUOTE { return Some(Move([c], i + 1, InDouble)); }
    if c == SINGLE_QUOTE { return Some(Move([QUOTE], i + 1, InSingle)); }
    if c < 0x20 && !(9 <= c <= 13) { return None; }
    if c == VTAB || c == FORMFEED { return Some(Move([], i + 1, Outside)); }
    if MultiByteBlank(s, i) > 0 { return Some(Move([], i + MultiByteBlank(s, i), Outside)); }
    if c == COMMA {
      var j := LookPastComma(s, i + 1);
      if j < |s| && (s[j] == RBRACE || s[j] == RBRACKET) { return Some(Move([], j, Outside)); }
      return Some(Move([COMMA], i + 1, Outside));
    }
    if IsIdStart(c) {
      var ident := ReadIdentifier(s, i);
      return Some(ident);
    }
    if BaseAt(s, i) > 0 { m := ReadBased(s, i); return; }
    if c == DOT && (i == 0 || !IsDigit(s[i - 1])) && i + 1 < |s| && IsDigit(s[i + 1]) {
      return Some(Move([ZERO, DOT], i + 1, Outside));
    }
    if c == PLUS || c == MINUS {
      var sign := ReadSign(s, i);
      if sign.Some? { return sign; }
    }
    if c == DOT && i > 0 && IsDigit(s[i - 1]) && (i + 1 >= |s| || !IsDigit(s[i + 1])) {
      return Some(Move([DOT, ZERO], i + 1, Outside));
    }
    m := Some(Move([c], i + 1, Outside));
  }

  method ReadInside(s: Bytes, i: nat, state: State) returns (m: Option<Move>)
    requires i < |s| && state != Outside
    ensures m == InString(s, i, state)
  {
    hide EscapeMove;
    var c := s[i];
    if c == BACKSLASH && i + 1 < |s| { m := ReadEscape(s, i, state); return; }
    if state.InSingle? && c == SINGLE_QUOTE { return Some(Move([QUOTE], i + 1, Outside)); }
    if c < 0x20 { return Some(Move(EscapeByte(c), i + 1, state)); }
    if c == QUOTE {
      return Some(if state.InDouble? then Move([QUOTE], i + 1, Outside) else Move([BACKSLASH, QUOTE], i + 1, state));
    }
    m := Some(Move([c], i + 1, state));
  }

  /** json5ToJson. */
  method Json5ToJson(input: Bytes) returns (r: Option<Bytes>)
    ensures r == Translate(input, 0, Outside)
  {
    hide OutsideString, InString;
    var out: Bytes := [];
    var i: nat, str: State := 0, Outside;
    PrependNothing(Translate(input, 0, Outside));
    while i < |input|
      invariant Prepend(out, Translate(input, i, str)) == Translate(input, 0, Outside)
      decreases Remaining(input, i)
    {
      var m;
      if str == Outside { m := ReadOutside(input, i); } else { m := ReadInside(input, i, str); }
      if m.None? { return None; }
      PrependTwice(out, m.value.out, Translate(input, m.value.next, m.value.state));
      out := out + m.value.out;
      i, str := m.value.next, m.value.state;
    }
    if str != Outside { return None; }
    assert out + [] == out;
    r := Some(out);
  }

  // ---------- Printer ----------

  method NeedsQuoting(k: Bytes) returns (r: bool)
    ensures r == NeedsQuote(k)
  {
    if k == [] { return true; }
    var i := 0;
    while i < |k| && BareByte(k[i])
      invariant 0 <= i <= |k| && AllBare(k[i..]) == AllBare(k)
    {
      assert k[i..][1..] == k[i + 1..];
      i := i + 1;
    }
    r := i < |k| || IsDigit(k[0]);
  }

  function ItemsFrom(plat: Platform, ds: seq<Doc>, depth: nat, i: nat): (r: Bytes)
    requires i <= |ds|
  {
    if i == |ds| then [] else (if i == 0 then [] else [COMMA]) + PrintItems(plat, ds[i..], true, depth)
  }

  function MembersFrom(plat: Platform, es: seq<Entry>, depth: nat, i: nat): (r: Bytes)
    requires i <= |es|
  {
    if i == |es| then [] else (if i == 0 then [] else [COMMA]) + PrintMembers(plat, es[i..], true, depth)
  }

  lemma ItemsStep(plat: Platform, ds: seq<Doc>, depth: nat, i: nat, written: Bytes)
    requires i < |ds|
    ensures written + ItemsFrom(plat, ds, depth, i)
         == (written + (if i == 0 then [] else [COMMA])) + Print(plat, ds[i], true, depth) + ItemsFrom(plat, ds, depth, i + 1)
  {
    hide Print;
    assert ds[i..][1..] == ds[i + 1..];
  }

  lemma MembersStep(plat: Platform, es: seq<Entry>, depth: nat, i: nat, written: Bytes)
    requires i < |es|
    ensures written + MembersFrom(plat, es, depth, i)
         == (written + (if i == 0 then [] else [COMMA])) + KeyText(es[i].key, true) + [COLON]
            + Print(plat, es[i].doc, true, depth) + MembersFrom(plat, es, depth, i + 1)
  {
    hide Print, KeyText;
    assert es[i..][1..] == es[i + 1..];
  }

  lemma FromStart(plat: Platform, ds: seq<Doc>, es: seq<Entry>, depth: nat)
    ensures ItemsFrom(plat, ds, depth, 0) == PrintItems(plat, ds, true, depth) && ItemsFrom(plat, ds, depth, |ds|) == []
    ensures MembersFrom(plat, es, depth, 0) == PrintMembers(plat, es, true, depth) && MembersFrom(plat, es, depth, |es|) == []
  {
    assert ds[0..] == ds && es[0..] == es;
  }

  /** json5SerializeVal in compact mode. */
  method Json5Serialize(plat: Platform, d: Doc, out: Buffer, depth: nat)
    modifies out
    ensures out.bytes == old(out.bytes) + Print(plat, d, true, depth)
    decreases d, 1
  {
    hide TokenText, PrintItems, PrintMembers;
    if depth > MAX_NESTING_DEPTH { out.Append(NULL_TEXT); return; }
    match d
    case Atom(s) => AppendToken(plat, s, out);
    case List(items) => SerializeArray(plat, items, out, depth + 1);
    case Table(es) => SerializeObject(plat, es, out, depth + 1);
  }

  method AppendToken(plat: Platform, s: Scalar, out: Buffer)
    modifies out
    ensures out.bytes == old(out.bytes) + TokenText(plat, s)
  {
    hide Quoted, Render;
    if s.Text? { JsonPrinter.AppendQuoted(out, s.text); }
    else {
      JsonPrinter.AppendToken(plat, s, out);
      assert out.bytes == old(out.bytes) + Render(plat, Atom(s), false, 0);
    }
  }

  method SerializeArray(plat: Platform, items: seq<Doc>, out: Buffer, depth: nat)
    modifies out
    ensures out.bytes == old(out.bytes) + ([LBRACKET] + (PrintItems(plat, items, true, depth) + [RBRACKET]))
    decreases items, 0
  {
    hide Print, ItemsFrom, PrintItems;
    ghost var before := out.bytes;
    FromStart(plat, items, [], depth);
    out.Push(LBRACKET);
    for i := 0 to |items|
      invariant out.bytes + ItemsFrom(plat, items, depth, i) == (before + [LBRACKET]) + PrintItems(plat, items, true, depth)
    {
      ItemsStep(plat, items, depth, i, out.bytes);
      if i > 0 { out.Push(COMMA); }
      Json5Serialize(plat, items[i], out, depth);
    }
    assert out.bytes + [] == out.bytes;
    out.Push(RBRACKET);
    assert out.bytes == before + ([LBRACKET] + (PrintItems(plat, items, true, depth) + [RBRACKET]));
  }

  method SerializeObject(plat: Platform, es: seq<Entry>, out: Buffer, depth: nat)
    modifies out
    ensures out.bytes == old(out.bytes) + ([LBRACE] + (PrintMembers(plat, es, true, depth) + [RBRACE]))
    decreases es, 0
  {
    hide Print, MembersFrom, PrintMembers, Quoted, NeedsQuote;
    ghost var before := out.bytes;
    FromStart(plat, [], es, depth);
    out.Push(LBRACE);
    var first := true;
    for i := 0 to |es|
      invariant first <==> i == 0
      invariant out.bytes + MembersFrom(plat, es, depth, i) == (before + [LBRACE]) + PrintMembers(plat, es, true, depth)
    {
      MembersStep(plat, es, depth, i, out.bytes);
      if !first { out.Push(COMMA); }
      first := false;
      var quote := NeedsQuoting(es[i].key);
      if quote { JsonPrinter.AppendQuoted(out, es[i].key); } else { out.Append(es[i].key); }
      out.Push(COLON);
      Json5Serialize(plat, es[i].doc, out, depth);
    }
    assert out.bytes + [] == out.bytes;
    out.Push(RBRACE);
    assert out.bytes == before + ([LBRACE] + (PrintMembers(plat, es, true, depth) + [RBRACE]));
  }
}
