/** The JSON5 translator undoes the JSON5 printer's key unquoting, and leaves compact JSON alone. */
module Json5Proofs {
  import opened Bytes
  import opened Values
  import opened Text
  import opened Json
  import opened Json5
  import JsonTokens
  import JsonFaithful
  import JsonPrinter
  import JsonProofs
  import Base64
  import Regexes

  /** From here, this is written and translation goes on there. */
  ghost predicate Goes(s: Bytes, i: nat, a: State, out: Bytes, j: nat, b: State)
  {
    Translate(s, i, a) == Prepend(out, Translate(s, j, b))
  }

  lemma GoesThen(s: Bytes, i: nat, a: State, x: Bytes, j: nat, b: State, y: Bytes, k: nat, c: State)
    requires Goes(s, i, a, x, j, b) && Goes(s, j, b, y, k, c)
    ensures Goes(s, i, a, x + y, k, c)
  {
    hide Translate;
    PrependTwice(x, y, Translate(s, k, c));
  }

  lemma GoesNowhere(s: Bytes, i: nat, a: State)
    ensures Goes(s, i, a, [], i, a)
  {
    hide Translate;
    PrependNothing(Translate(s, i, a));
  }

  lemma GoesStep(s: Bytes, i: nat, a: State, m: Move)
    requires i < |s| && Step(s, i, a) == Some(m)
    ensures Goes(s, i, a, m.out, m.next, m.state)
  {
    hide Step;
  }

  // ---------- Strings ----------

  lemma ByteGoes(b: Byte, s: Bytes, i: nat)
    requires At(s, i, EscapeByte(b)) && i + |EscapeByte(b)| < |s|
    ensures Goes(s, i, InDouble, EscapeByte(b), i + |EscapeByte(b)|, InDouble)
  {
    hide Translate, Goes, BracedEscape, Step;
    var e := EscapeByte(b);
    AtHead(s, i, e);
    if |e| == 6 {
      ControlStep(b, s, i);
    } else {
      if |e| == 2 { AtHead(s, i + 1, e[1..]); }
      ShortStep(b, s, i);
    }
    GoesStep(s, i, InDouble, Move(e, i + |e|, InDouble));
  }

  lemma ShortStep(b: Byte, s: Bytes, i: nat)
    requires var e := EscapeByte(b);
      |e| <= 2 && i + |e| < |s| && s[i] == e[0] && (|e| == 2 ==> s[i + 1] == e[1])
    ensures Step(s, i, InDouble) == Some(Move(EscapeByte(b), i + |EscapeByte(b)|, InDouble))
  {
    hide BracedEscape;
  }

  lemma ControlStep(b: Byte, s: Bytes, i: nat)
    requires |EscapeByte(b)| == 6 && At(s, i, EscapeByte(b))
    ensures Step(s, i, InDouble) == Some(Move(EscapeByte(b), i + 6, InDouble))
  {
    hide BracedEscape;
    var e := EscapeByte(b);
    var chunk := s[i..i + 6];
    assert forall k :: 0 <= k < 6 ==> chunk[k] == s[i + k];
    assert s[i + 0] == e[0] && s[i + 1] == e[1] && s[i + 2] == e[2] && s[i + 3] == e[3] && s[i + 4] == e[4] && s[i + 5] == e[5];
    HexInverse(b / 16);
    HexInverse(b % 16);
    assert HexValue(ZERO) == 0;
  }

  lemma {:induction false} EscapedGoes(k: Bytes, s: Bytes, i: nat)
    requires At(s, i, Escape(k) + [QUOTE])
    ensures Goes(s, i, InDouble, Escape(k) + [QUOTE], i + |Escape(k)| + 1, Outside)
    decreases |k|
  {
    hide Translate, Goes, EscapeByte, Step;
    if k == [] {
      assert Escape(k) + [QUOTE] == [QUOTE];
      AtHead(s, i, [QUOTE]);
      ClosingQuote(s, i);
    } else {
      var e, rest := EscapeByte(k[0]), Escape(k[1..]) + [QUOTE];
      assert Escape(k) + [QUOTE] == e + rest;
      AtSplit(s, i, e, rest);
      ByteGoes(k[0], s, i);
      EscapedGoes(k[1..], s, i + |e|);
      GoesThen(s, i, InDouble, e, i + |e|, InDouble, rest, i + |Escape(k)| + 1, Outside);
    }
  }

  lemma ClosingQuote(s: Bytes, i: nat)
    requires i < |s| && s[i] == QUOTE
    ensures Goes(s, i, InDouble, [QUOTE], i + 1, Outside)
    ensures Goes(s, i, Outside, [QUOTE], i + 1, InDouble)
  {
    hide Translate, Goes;
    GoesStep(s, i, InDouble, Move([QUOTE], i + 1, Outside));
    GoesStep(s, i, Outside, Move([QUOTE], i + 1, InDouble));
  }

  /** A quoted string is copied, whatever it holds. */
  lemma QuotedGoes(k: Bytes, s: Bytes, i: nat)
    requires At(s, i, Quoted(k))
    ensures Goes(s, i, Outside, Quoted(k), i + |Quoted(k)|, Outside)
  {
    hide Goes, Escape;
    var body := Escape(k) + [QUOTE];
    assert Quoted(k) == [QUOTE] + body;
    AtSplit(s, i, [QUOTE], body);
    AtHead(s, i, [QUOTE]);
    ClosingQuote(s, i);
    EscapedGoes(k, s, i + 1);
    GoesThen(s, i, Outside, [QUOTE], i + 1, InDouble, body, i + |Quoted(k)|, Outside);
  }

  // ---------- Punctuation ----------

  lemma PunctGoes(b: Byte, s: Bytes, i: nat)
    requires b in {LBRACE, RBRACE, LBRACKET, RBRACKET, COLON} && At(s, i, [b])
    ensures Goes(s, i, Outside, [b], i + 1, Outside)
  {
    hide Translate, Goes, CommaLook;
    AtHead(s, i, [b]);
    GoesStep(s, i, Outside, Move([b], i + 1, Outside));
  }

  /** What an item starts with: nothing the comma's lookahead skips or takes for a closing bracket. */
  predicate Opens(b: Byte)
  {
    b == QUOTE || b == LBRACE || b == LBRACKET || b == MINUS || IsDigit(b) || (IsIdStart(b) && b < 0x80)
  }

  lemma CommaGoes(s: Bytes, i: nat)
    requires i + 1 < |s| && s[i] == COMMA && Opens(s[i + 1])
    ensures Goes(s, i, Outside, [COMMA], i + 1, Outside)
  {
    hide Translate, Goes;
    assert CommaLook(s, i + 1) == i + 1;
    GoesStep(s, i, Outside, Move([COMMA], i + 1, Outside));
  }

  // ---------- Words and numbers ----------

  /** What may follow a value. */
  predicate Delimited(s: Bytes, p: nat)
  {
    p >= |s| || s[p] == COMMA || s[p] == RBRACE || s[p] == RBRACKET
  }

  lemma {:induction false} IdentEndIs(w: Bytes, s: Bytes, i: nat)
    requires At(s, i, w) && (forall k :: 0 <= k < |w| ==> IsIdCont(w[k]))
    requires i + |w| >= |s| || !IsIdCont(s[i + |w|])
    ensures IdentEnd(s, i) == i + |w|
    decreases |w|
  {
    if w != [] {
      AtHead(s, i, w);
      IdentEndIs(w[1..], s, i + 1);
    }
  }

  lemma IdentGoes(w: Bytes, s: Bytes, i: nat)
    requires w != [] && IsIdStart(w[0]) && w[0] < 0x80 && (forall k :: 0 <= k < |w| ==> IsIdCont(w[k])) && At(s, i, w)
    requires i + |w| >= |s| || !IsIdCont(s[i + |w|])
    ensures Goes(s, i, Outside, if ColonFollows(s, i + |w|) then [QUOTE] + w + [QUOTE] else w, i + |w|, Outside)
  {
    hide Translate, Goes, IdentEnd, ColonFollows, CommaLook;
    AtHead(s, i, w);
    IdentEndIs(w, s, i);
    assert s[i..i + |w|] == w;
    GoesStep(s, i, Outside, Identifier(s, i));
  }

  /** A word that no colon follows is copied. */
  lemma WordGoes(w: Bytes, s: Bytes, i: nat)
    requires w in {NULL_TEXT, TRUE_TEXT, FALSE_TEXT} && At(s, i, w) && Delimited(s, i + |w|)
    ensures Goes(s, i, Outside, w, i + |w|, Outside)
  {
    hide Goes;
    WordBytes(w);
    assert !ColonFollows(s, i + |w|);
    IdentGoes(w, s, i);
  }

  lemma WordBytes(w: Bytes)
    requires w in {NULL_TEXT, TRUE_TEXT, FALSE_TEXT}
    ensures w != [] && IsIdStart(w[0]) && w[0] < 0x80 && forall k :: 0 <= k < |w| ==> IsIdCont(w[k])
  {
  }

  lemma {:induction false} BareBytes(k: Bytes)
    requires AllBare(k)
    ensures (forall i :: 0 <= i < |k| ==> IsIdCont(k[i]) && k[i] < 0x80 && JsonFaithful.Verbatim(k[i]))
    ensures k != [] && !IsDigit(k[0]) ==> IsIdStart(k[0])
  {
    if k != [] {
      BareBytes(k[1..]);
      assert forall i :: 1 <= i < |k| ==> k[i] == k[1..][i - 1];
    }
  }

  /** A key, bare or quoted, comes out quoted; the colon behind it is seen. */
  lemma KeyGoes(k: Bytes, bare: bool, s: Bytes, i: nat)
    requires At(s, i, KeyText(k, bare) + [COLON])
    ensures Goes(s, i, Outside, Quoted(k), i + |KeyText(k, bare)|, Outside)
  {
    hide Goes, Quoted, AllBare;
    AtSplit(s, i, KeyText(k, bare), [COLON]);
    var e := i + |KeyText(k, bare)|;
    AtHead(s, e, [COLON]);
    if bare && !NeedsQuote(k) {
      BareBytes(k);
      JsonPrinter.QuotedVerbatim(k);
      assert ColonFollows(s, e);
      IdentGoes(k, s, i);
    } else {
      QuotedGoes(k, s, i);
    }
  }

  lemma DigitGoes(s: Bytes, i: nat)
    requires i < |s| && IsDigit(s[i]) && (i + 1 >= |s| || IsDigit(s[i + 1]) || Delimited(s, i + 1))
    ensures Goes(s, i, Outside, [s[i]], i + 1, Outside)
  {
    hide Translate, Goes;
    GoesStep(s, i, Outside, Move([s[i]], i + 1, Outside));
  }

  lemma {:induction false} DigitsGo(d: Bytes, s: Bytes, i: nat)
    requires JsonTokens.AllDigits(d) && At(s, i, d) && Delimited(s, i + |d|)
    ensures Goes(s, i, Outside, d, i + |d|, Outside)
    decreases |d|
  {
    hide Goes;
    if d == [] {
      GoesNowhere(s, i, Outside);
    } else {
      AtHead(s, i, d);
      if |d| > 1 { AtHead(s, i + 1, d[1..]); }
      DigitGoes(s, i);
      DigitsGo(d[1..], s, i + 1);
      GoesThen(s, i, Outside, [d[0]], i + 1, Outside, d[1..], i + |d|, Outside);
      assert [d[0]] + d[1..] == d;
    }
  }

  lemma MinusGoes(s: Bytes, i: nat)
    requires i + 1 < |s| && s[i] == MINUS && IsDigit(s[i + 1])
    ensures Goes(s, i, Outside, [MINUS], i + 1, Outside)
  {
    hide Translate, Goes;
    assert SkipBlanks(s, i + 1) == i + 1;
    NotWord(s, i + 1, NAN_TEXT);
    NotWord(s, i + 1, INFINITY_TEXT);
    GoesStep(s, i, Outside, Move([MINUS], i + 1, Outside));
  }

  lemma NotWord(s: Bytes, j: nat, w: Bytes)
    requires w != [] && j < |s| && s[j] != w[0]
    ensures !WordAt(s, j, w)
  {
    assert j + |w| <= |s| ==> s[j..j + |w|][0] == s[j];
  }

  lemma IntGoes(n: int, s: Bytes, i: nat)
    requires At(s, i, Decimal(n)) && Delimited(s, i + |Decimal(n)|)
    ensures Goes(s, i, Outside, Decimal(n), i + |Decimal(n)|, Outside)
  {
    hide Goes, Digits;
    if n < 0 {
      var d := Digits(-n);
      AtSplit(s, i, [MINUS], d);
      AtHead(s, i, [MINUS]);
      AtHead(s, i + 1, d);
      MinusGoes(s, i);
      DigitsGo(d, s, i + 1);
      GoesThen(s, i, Outside, [MINUS], i + 1, Outside, d, i + 1 + |d|, Outside);
    } else {
      DigitsGo(Digits(n), s, i);
    }
  }

  // ---------- Documents ----------

  predicate PlainScalar(s: Scalar)
  {
    !s.Double? && !s.Float32? && !s.DateTime? && (s.Text? ==> !s.rawNumber)
  }

  /** No floating point, dates or exact literals; nothing but null below the nesting limit. */
  ghost predicate Plain(d: Doc, depth: nat)
    decreases d
  {
    if depth > MAX_NESTING_DEPTH then d == Atom(Null)
    else
      match d
      case Atom(s) => PlainScalar(s)
      case List(items) => AllPlain(items, depth + 1)
      case Table(es) => EntriesPlain(es, depth + 1)
  }

  ghost predicate AllPlain(ds: seq<Doc>, depth: nat)
    decreases ds
  {
    ds == [] || (Plain(ds[0], depth) && AllPlain(ds[1..], depth))
  }

  ghost predicate EntriesPlain(es: seq<Entry>, depth: nat)
    decreases es
  {
    es == [] || (Plain(es[0].doc, depth) && EntriesPlain(es[1..], depth))
  }

  function Compact(plat: Platform, d: Doc): (r: Bytes) { Render(plat, d, false, 0) }

  function CompactItems(plat: Platform, ds: seq<Doc>): (r: Bytes)
  {
    if ds == [] then []
    else Compact(plat, ds[0]) + (if |ds| == 1 then [] else [COMMA] + CompactItems(plat, ds[1..]))
  }

  function CompactMembers(plat: Platform, es: seq<Entry>): (r: Bytes)
  {
    if es == [] then []
    else
      Quoted(es[0].key) + ([COLON] + (Compact(plat, es[0].doc)
      + (if |es| == 1 then [] else [COMMA] + CompactMembers(plat, es[1..]))))
  }

  lemma {:induction false} ItemsCompact(plat: Platform, ds: seq<Doc>, indent: nat)
    requires ds != []
    ensures RenderItems(plat, ds, false, indent) == CompactItems(plat, ds)
    decreases ds
  {
    hide Render;
    JsonPrinter.CompactIndent(plat, ds[0], indent, 0);
    if |ds| > 1 { ItemsCompact(plat, ds[1..], indent); }
  }

  lemma {:induction false} MembersCompact(plat: Platform, es: seq<Entry>, indent: nat)
    requires es != []
    ensures RenderMembers(plat, es, false, indent) == CompactMembers(plat, es)
    decreases es
  {
    hide Render, Quoted;
    JsonPrinter.CompactIndent(plat, es[0].doc, indent, 0);
    var tail := if |es| == 1 then [] else [COMMA] + RenderMembers(plat, es[1..], false, indent);
    if |es| > 1 { MembersCompact(plat, es[1..], indent); }
    assert RenderMembers(plat, es, false, indent) == Member(plat, es[0], false, indent) + tail;
    Rejoin(Quoted(es[0].key), Compact(plat, es[0].doc), tail);
  }

  lemma Rejoin(key: Bytes, value: Bytes, tail: Bytes)
    ensures (key + ([COLON] + ([] + value))) + tail == key + ([COLON] + (value + tail))
  {
  }

  lemma ContainersCompact(plat: Platform, d: Doc)
    ensures d.List? ==> Compact(plat, d) == [LBRACKET] + (CompactItems(plat, d.items) + [RBRACKET])
    ensures d.Table? ==> Compact(plat, d) == [LBRACE] + (CompactMembers(plat, d.entries) + [RBRACE])
  {
    hide RenderItems, RenderMembers, CompactItems, CompactMembers;
    if d.List? { if d.items != [] { ItemsCompact(plat, d.items, 1); } else { NoItems(plat); } }
    if d.Table? { if d.entries != [] { MembersCompact(plat, d.entries, 1); } else { NoItems(plat); } }
  }

  lemma NoItems(plat: Platform)
    ensures CompactItems(plat, []) == [] && CompactMembers(plat, []) == []
  {
  }

  // ---------- Translation ----------

  lemma TokenOpens(plat: Platform, s: Scalar)
    requires PlainScalar(s)
    ensures TokenText(plat, s) != [] && Opens(TokenText(plat, s)[0])
  {
    match s
    case Int(n) => JsonTokens.DecimalIsLiteral(n); JsonProofs.LiteralStarts(Decimal(n));
    case Text(_, _) =>
    case _ => if IsWrapper(s) { WrapperOpens(plat, s); }
  }

  lemma WrapperOpens(plat: Platform, s: Scalar)
    requires IsWrapper(s)
    ensures Render(plat, Atom(s), false, 0) != [] && Render(plat, Atom(s), false, 0)[0] == LBRACE
  {
    WrapperRank(s);
    hide RenderMembers;
  }

  lemma PrintOpens(plat: Platform, d: Doc, bare: bool, depth: nat)
    requires Plain(d, depth)
    ensures Print(plat, d, bare, depth) != [] && Opens(Print(plat, d, bare, depth)[0])
  {
    hide Opens;
    OpenBytes();
    if depth <= MAX_NESTING_DEPTH && d.Atom? { TokenOpens(plat, d.scalar); }
  }

  lemma OpenBytes()
    ensures Opens(LBRACE) && Opens(LBRACKET) && Opens(QUOTE) && Opens(NULL_TEXT[0])
  {
  }

  lemma KeyOpens(k: Bytes, bare: bool)
    ensures KeyText(k, bare) != [] && Opens(KeyText(k, bare)[0])
  {
    hide AllBare;
    if bare && !NeedsQuote(k) { BareBytes(k); }
  }

  ghost predicate Translates(plat: Platform, d: Doc, bare: bool, depth: nat, s: Bytes, i: nat)
  {
    Goes(s, i, Outside, Compact(plat, d), i + |Print(plat, d, bare, depth)|, Outside)
  }

  /** Printed JSON5 is translated to compact JSON text, wherever it stands before a delimiter. */
  lemma {:induction false} PrintGoes(plat: Platform, d: Doc, bare: bool, depth: nat, s: Bytes, i: nat)
    requires Plain(d, depth) && At(s, i, Print(plat, d, bare, depth)) && Delimited(s, i + |Print(plat, d, bare, depth)|)
    ensures Translates(plat, d, bare, depth, s, i)
    decreases Rank(d), d, 2
  {
    hide Goes, PlainScalar, AllPlain, EntriesPlain, PrintItems, PrintMembers, TokenText, Compact, CompactItems, CompactMembers;
    if depth > MAX_NESTING_DEPTH {
      NullCompact(plat);
      WordGoes(NULL_TEXT, s, i);
    } else {
      match d
      case Atom(x) => TokenGoes(plat, x, s, i);
      case List(items) =>
        ContainersCompact(plat, d);
        var body := PrintItems(plat, items, bare, depth + 1) + [RBRACKET];
        AtSplit(s, i, [LBRACKET], body);
        PunctGoes(LBRACKET, s, i);
        ItemsGo(plat, items, bare, depth + 1, s, i + 1);
        GoesThen(s, i, Outside, [LBRACKET], i + 1, Outside, CompactItems(plat, items) + [RBRACKET], i + 1 + |body|, Outside);
      case Table(es) =>
        ContainersCompact(plat, d);
        var body := PrintMembers(plat, es, bare, depth + 1) + [RBRACE];
        AtSplit(s, i, [LBRACE], body);
        PunctGoes(LBRACE, s, i);
        MembersGo(plat, es, bare, depth + 1, s, i + 1);
        GoesThen(s, i, Outside, [LBRACE], i + 1, Outside, CompactMembers(plat, es) + [RBRACE], i + 1 + |body|, Outside);
    }
  }

  lemma NullCompact(plat: Platform)
    ensures Compact(plat, Atom(Null)) == NULL_TEXT
  {
  }

  lemma {:induction false} TokenGoes(plat: Platform, x: Scalar, s: Bytes, i: nat)
    requires PlainScalar(x) && At(s, i, TokenText(plat, x)) && Delimited(s, i + |TokenText(plat, x)|)
    ensures Goes(s, i, Outside, Compact(plat, Atom(x)), i + |TokenText(plat, x)|, Outside)
    decreases Rank(Atom(x)), Atom(x), 1
  {
    hide Goes, Quoted, Decimal, WrapperDoc;
    if IsWrapper(x) { WrapperGoes(plat, x, s, i); }
    match x
    case Null => WordGoes(NULL_TEXT, s, i);
    case Bool(flag) => WordGoes(if flag then TRUE_TEXT else FALSE_TEXT, s, i);
    case Int(n) => IntGoes(n, s, i);
    case Text(t, _) => QuotedGoes(t, s, i);
    case _ =>
  }

  /** A special scalar is an object with quoted keys. */
  lemma {:induction false} WrapperGoes(plat: Platform, x: Scalar, s: Bytes, i: nat)
    requires IsWrapper(x) && At(s, i, TokenText(plat, x)) && Delimited(s, i + |TokenText(plat, x)|)
    ensures Goes(s, i, Outside, Compact(plat, Atom(x)), i + |TokenText(plat, x)|, Outside)
    decreases Rank(Atom(x)), Atom(x), 0
  {
    hide Goes, WrapperDoc, Print, Plain;
    WrapperRank(x);
    WrapperPlain(x);
    PrintQuoted(plat, WrapperDoc(x), 0);
    assert Compact(plat, Atom(x)) == Compact(plat, WrapperDoc(x));
    PrintGoes(plat, WrapperDoc(x), false, 0, s, i);
  }

  lemma WrapperPlain(x: Scalar)
    requires IsWrapper(x)
    ensures Plain(WrapperDoc(x), 0)
  {
    match x
    case Binary(data) => BinaryPlain(data, 0);
    case Extension(t, payload) => BinaryPlain(payload, t % 256);
    case ObjectId(oid) => SinglePlain(OID, Atom(Text(Hex(oid), false)), 0);
    case Timestamp(n) =>
      SinglePlain(SECONDS, Atom(Int(n)), 1);
      SinglePlain(TIMESTAMP, Table([Entry(SECONDS, Atom(Int(n)))]), 0);
    case Regex(source) =>
      var p, o := Entry(REGEX, Atom(Text(Regexes.PatternOf(source), false))), Entry(OPTIONS, Atom(Text(Regexes.OptionsOf(source), false)));
      SinglePlain(REGEX, p.doc, 0);
      PairPlain(p, o, 0);
      assert [p] + [] == [p] && [p] + [o] == [p, o];
  }

  lemma {:induction false} SinglePlain(key: Bytes, d: Doc, depth: nat)
    requires depth < MAX_NESTING_DEPTH && Plain(d, depth + 1)
    ensures Plain(Table([Entry(key, d)]), depth)
  {
    assert [Entry(key, d)][1..] == [];
  }

  lemma {:induction false} PairPlain(a: Entry, b: Entry, depth: nat)
    requires depth < MAX_NESTING_DEPTH && Plain(a.doc, depth + 1) && Plain(b.doc, depth + 1)
    ensures Plain(Table([a, b]), depth)
  {
    assert [a, b][1..] == [b] && [b][1..] == [];
    assert EntriesPlain([], depth + 1);
    assert EntriesPlain([b], depth + 1);
    assert EntriesPlain([a, b], depth + 1);
  }

  lemma {:induction false} BinaryPlain(data: Bytes, subType: Byte)
    ensures Plain(BinaryDoc(data, subType), 0)
  {
    var a := Entry(BASE64, Atom(Text(Base64.Encode(Base64.Default(), data), false)));
    var b := Entry(SUBTYPE, Atom(Text(Hex([subType]), false)));
    PairPlain(a, b, 1);
    SinglePlain(BINARY, Table([a, b]), 0);
  }

  /** With every key quoted, JSON5 text is compact JSON text. */
  lemma {:induction false} PrintQuoted(plat: Platform, d: Doc, depth: nat)
    requires Plain(d, depth)
    ensures Print(plat, d, false, depth) == Compact(plat, d)
    decreases d
  {
    hide Render, PlainScalar, Quoted;
    NullCompact(plat);
    ContainersCompact(plat, d);
    if depth <= MAX_NESTING_DEPTH {
      match d
      case Atom(s) => PlainText(plat, s);
      case List(items) => ItemsQuoted(plat, items, depth + 1);
      case Table(es) => MembersQuoted(plat, es, depth + 1);
    }
  }

  lemma PlainText(plat: Platform, s: Scalar)
    requires PlainScalar(s)
    ensures TokenText(plat, s) == Compact(plat, Atom(s))
  {
    hide Quoted, WrapperDoc;
  }

  lemma {:induction false} ItemsQuoted(plat: Platform, ds: seq<Doc>, depth: nat)
    requires AllPlain(ds, depth)
    ensures PrintItems(plat, ds, false, depth) == CompactItems(plat, ds)
    decreases ds
  {
    hide Print, Plain, Compact;
    if ds != [] {
      PrintQuoted(plat, ds[0], depth);
      ItemsQuoted(plat, ds[1..], depth);
    }
  }

  lemma {:induction false} MembersQuoted(plat: Platform, es: seq<Entry>, depth: nat)
    requires EntriesPlain(es, depth)
    ensures PrintMembers(plat, es, false, depth) == CompactMembers(plat, es)
    decreases es
  {
    hide Print, Plain, Compact, Quoted;
    if es != [] {
      PrintQuoted(plat, es[0].doc, depth);
      MembersQuoted(plat, es[1..], depth);
    }
  }

  lemma NothingGoes(plat: Platform, bare: bool, depth: nat, s: Bytes, i: nat)
    ensures At(s, i, PrintItems(plat, [], bare, depth) + [RBRACKET]) ==>
      Goes(s, i, Outside, CompactItems(plat, []) + [RBRACKET], i + |PrintItems(plat, [], bare, depth)| + 1, Outside)
    ensures At(s, i, PrintMembers(plat, [], bare, depth) + [RBRACE]) ==>
      Goes(s, i, Outside, CompactMembers(plat, []) + [RBRACE], i + |PrintMembers(plat, [], bare, depth)| + 1, Outside)
  {
    hide Goes;
    assert PrintItems(plat, [], bare, depth) + [RBRACKET] == [RBRACKET] == CompactItems(plat, []) + [RBRACKET];
    assert PrintMembers(plat, [], bare, depth) + [RBRACE] == [RBRACE] == CompactMembers(plat, []) + [RBRACE];
    if At(s, i, [RBRACKET]) { PunctGoes(RBRACKET, s, i); }
    if At(s, i, [RBRACE]) { PunctGoes(RBRACE, s, i); }
  }

  lemma ItemsShape(plat: Platform, ds: seq<Doc>, bare: bool, depth: nat)
    requires ds != [] && AllPlain(ds, depth)
    ensures Plain(ds[0], depth) && AllPlain(ds[1..], depth)
    ensures var rest := if |ds| == 1 then [RBRACKET] else [COMMA] + (PrintItems(plat, ds[1..], bare, depth) + [RBRACKET]);
      PrintItems(plat, ds, bare, depth) + [RBRACKET] == Print(plat, ds[0], bare, depth) + rest
    ensures var rest := if |ds| == 1 then [RBRACKET] else [COMMA] + (CompactItems(plat, ds[1..]) + [RBRACKET]);
      CompactItems(plat, ds) + [RBRACKET] == Compact(plat, ds[0]) + rest
    ensures Rank(ds[0]) <= ItemsRank(ds) && ItemsRank(ds[1..]) <= ItemsRank(ds)
  {
    hide Print, Plain, Compact;
  }

  lemma {:induction false} ItemGoes(plat: Platform, d: Doc, bare: bool, depth: nat, rest: Bytes, s: Bytes, i: nat)
    requires Plain(d, depth) && At(s, i, Print(plat, d, bare, depth) + rest)
    requires rest != [] && (rest[0] == COMMA || rest[0] == RBRACKET)
    ensures var j := i + |Print(plat, d, bare, depth)|;
      At(s, j, rest) && Goes(s, i, Outside, Compact(plat, d), j, Outside)
    decreases Rank(d), d, 3
  {
    hide Goes, Print, Plain, Compact;
    AtSplit(s, i, Print(plat, d, bare, depth), rest);
    AtHead(s, i + |Print(plat, d, bare, depth)|, rest);
    PrintGoes(plat, d, bare, depth, s, i);
  }

  lemma {:induction false} ItemsGo(plat: Platform, ds: seq<Doc>, bare: bool, depth: nat, s: Bytes, i: nat)
    requires AllPlain(ds, depth) && At(s, i, PrintItems(plat, ds, bare, depth) + [RBRACKET])
    ensures Goes(s, i, Outside, CompactItems(plat, ds) + [RBRACKET], i + |PrintItems(plat, ds, bare, depth)| + 1, Outside)
    decreases ItemsRank(ds), ds, 2
  {
    hide *;
    if ds == [] {
      NothingGoes(plat, bare, depth, s, i);
    } else {
      var out, end := Compact(plat, ds[0]), i + |PrintItems(plat, ds, bare, depth)| + 1;
      var p := i + |Print(plat, ds[0], bare, depth)|;
      ItemsShape(plat, ds, bare, depth);
      if |ds| == 1 {
        ItemGoes(plat, ds[0], bare, depth, [RBRACKET], s, i);
        PunctGoes(RBRACKET, s, p);
        GoesThen(s, i, Outside, out, p, Outside, [RBRACKET], end, Outside);
      } else {
        var more := PrintItems(plat, ds[1..], bare, depth) + [RBRACKET];
        ItemGoes(plat, ds[0], bare, depth, [COMMA] + more, s, i);
        AtSplit(s, p, [COMMA], more);
        AtHead(s, p, [COMMA]);
        ItemsShape(plat, ds[1..], bare, depth);
        PrintOpens(plat, ds[1], bare, depth);
        AtHead(s, p + 1, more);
        CommaGoes(s, p);
        ItemsGo(plat, ds[1..], bare, depth, s, p + 1);
        var rest := CompactItems(plat, ds[1..]) + [RBRACKET];
        GoesThen(s, p, Outside, [COMMA], p + 1, Outside, rest, end, Outside);
        GoesThen(s, i, Outside, out, p, Outside, [COMMA] + rest, end, Outside);
      }
    }
  }

  /** A member: key, colon, value. */
  lemma {:induction false} MemberGoes(plat: Platform, e: Entry, bare: bool, depth: nat, rest: Bytes, s: Bytes, i: nat)
    requires Plain(e.doc, depth) && At(s, i, KeyText(e.key, bare) + ([COLON] + (Print(plat, e.doc, bare, depth) + rest)))
    requires rest != [] && (rest[0] == COMMA || rest[0] == RBRACE)
    ensures var j := i + |KeyText(e.key, bare)| + 1 + |Print(plat, e.doc, bare, depth)|;
      At(s, j, rest) && Goes(s, i, Outside, Quoted(e.key) + ([COLON] + Compact(plat, e.doc)), j, Outside)
    decreases Rank(e.doc), e.doc, 3
  {
    hide Goes, Print, Plain, Compact, Quoted, KeyText;
    var key, value := KeyText(e.key, bare), Print(plat, e.doc, bare, depth);
    var p := i + |key|;
    var j := p + 1 + |value|;
    AtSplit(s, i, key, [COLON] + (value + rest));
    AtSplit(s, p, [COLON], value + rest);
    AtSplit(s, p + 1, value, rest);
    AtHead(s, j, rest);
    AtJoin(s, i, key, [COLON]);
    KeyGoes(e.key, bare, s, i);
    PunctGoes(COLON, s, p);
    PrintGoes(plat, e.doc, bare, depth, s, p + 1);
    GoesThen(s, p, Outside, [COLON], p + 1, Outside, Compact(plat, e.doc), j, Outside);
    GoesThen(s, i, Outside, Quoted(e.key), p, Outside, [COLON] + Compact(plat, e.doc), j, Outside);
  }

  lemma AtJoin(s: Bytes, i: nat, a: Bytes, b: Bytes)
    requires At(s, i, a) && At(s, i + |a|, b)
    ensures At(s, i, a + b)
  {
    assert s[i..i + |a| + |b|] == s[i..i + |a|] + s[i + |a|..i + |a| + |b|];
  }

  lemma MembersShape(plat: Platform, es: seq<Entry>, bare: bool, depth: nat)
    requires es != [] && EntriesPlain(es, depth)
    ensures Plain(es[0].doc, depth) && EntriesPlain(es[1..], depth)
    ensures var rest := if |es| == 1 then [RBRACE] else [COMMA] + (PrintMembers(plat, es[1..], bare, depth) + [RBRACE]);
      PrintMembers(plat, es, bare, depth) + [RBRACE]
      == KeyText(es[0].key, bare) + ([COLON] + (Print(plat, es[0].doc, bare, depth) + rest))
    ensures var rest := if |es| == 1 then [RBRACE] else [COMMA] + (CompactMembers(plat, es[1..]) + [RBRACE]);
      CompactMembers(plat, es) + [RBRACE] == (Quoted(es[0].key) + ([COLON] + Compact(plat, es[0].doc))) + rest
    ensures Rank(es[0].doc) <= EntriesRank(es) && EntriesRank(es[1..]) <= EntriesRank(es)
  {
    hide Print, Plain, Compact, Quoted, KeyText;
  }

  lemma {:induction false} MembersGo(plat: Platform, es: seq<Entry>, bare: bool, depth: nat, s: Bytes, i: nat)
    requires EntriesPlain(es, depth) && At(s, i, PrintMembers(plat, es, bare, depth) + [RBRACE])
    ensures Goes(s, i, Outside, CompactMembers(plat, es) + [RBRACE], i + |PrintMembers(plat, es, bare, depth)| + 1, Outside)
    decreases EntriesRank(es), es, 3
  {
    hide *;
    if es == [] {
      NothingGoes(plat, bare, depth, s, i);
    } else {
      var e, end := es[0], i + |PrintMembers(plat, es, bare, depth)| + 1;
      var out := Quoted(e.key) + ([COLON] + Compact(plat, e.doc));
      var p := i + |KeyText(e.key, bare)| + 1 + |Print(plat, e.doc, bare, depth)|;
      MembersShape(plat, es, bare, depth);
      if |es| == 1 {
        MemberGoes(plat, e, bare, depth, [RBRACE], s, i);
        PunctGoes(RBRACE, s, p);
        GoesThen(s, i, Outside, out, p, Outside, [RBRACE], end, Outside);
      } else {
        var more := PrintMembers(plat, es[1..], bare, depth) + [RBRACE];
        MemberGoes(plat, e, bare, depth, [COMMA] + more, s, i);
        AtSplit(s, p, [COMMA], more);
        AtHead(s, p, [COMMA]);
        MembersShape(plat, es[1..], bare, depth);
        KeyOpens(es[1].key, bare);
        AtHead(s, p + 1, more);
        CommaGoes(s, p);
        MembersGo(plat, es[1..], bare, depth, s, p + 1);
        var rest := CompactMembers(plat, es[1..]) + [RBRACE];
        GoesThen(s, p, Outside, [COMMA], p + 1, Outside, rest, end, Outside);
        GoesThen(s, i, Outside, out, p, Outside, [COMMA] + rest, end, Outside);
      }
    }
  }

  // ---------- Results ----------

  /** Translating JSON5 text gives compact JSON text, character for character. */
  lemma TranslationUndoesPrinting(plat: Platform, d: Doc, bare: bool)
    requires Plain(d, 0)
    ensures Translate(Print(plat, d, bare, 0), 0, Outside) == Some(Compact(plat, d))
  {
    hide Print, Plain, Compact, Translate;
    var s := Print(plat, d, bare, 0);
    assert s[0..0 + |s|] == s;
    PrintGoes(plat, d, bare, 0, s, 0);
    TranslateEnd(s);
    assert Compact(plat, d) + [] == Compact(plat, d);
  }

  lemma TranslateEnd(s: Bytes)
    ensures Translate(s, |s|, Outside) == Some([])
  {
  }

  /** Compact JSON text is valid JSON5 that translates to itself. */
  lemma JsonIsJson5(plat: Platform, d: Doc)
    requires Plain(d, 0)
    ensures Translate(Compact(plat, d), 0, Outside) == Some(Compact(plat, d))
  {
    PrintQuoted(plat, d, 0);
    TranslationUndoesPrinting(plat, d, false);
  }

  lemma {:induction false} PlainTextual(d: Doc, depth: nat)
    requires Plain(d, depth)
    ensures JsonProofs.AllTextual(d)
    decreases d
  {
    if depth <= MAX_NESTING_DEPTH {
      match d
      case Atom(_) =>
      case List(items) => ItemsPlainTextual(items, depth + 1);
      case Table(es) => EntriesPlainTextual(es, depth + 1);
    }
  }

  lemma {:induction false} ItemsPlainTextual(ds: seq<Doc>, depth: nat)
    requires AllPlain(ds, depth)
    ensures JsonProofs.ItemsTextual(ds)
    decreases ds
  {
    if ds != [] {
      PlainTextual(ds[0], depth);
      ItemsPlainTextual(ds[1..], depth);
    }
  }

  lemma {:induction false} EntriesPlainTextual(es: seq<Entry>, depth: nat)
    requires EntriesPlain(es, depth)
    ensures JsonProofs.EntriesTextual(es)
    decreases es
  {
    if es != [] {
      PlainTextual(es[0].doc, depth);
      EntriesPlainTextual(es[1..], depth);
    }
  }

  /** fromJSON5 after toJSON5: the document comes back exactly when it survives as JSON.  The platform's parser may take
      NaN and Infinity, as it does there, or not. */
  lemma RoundTrip(plat: Platform, d: Doc)
    requires Plain(d, 0) && WellFormed(d)
    ensures var json := Translate(Print(plat, d, true, 0), 0, Outside);
      json.Some? && (ParseDocument(plat, json.value) == Some(Meaning(d)) <==> JsonFaithful.Faithful(plat, d, 0))
  {
    hide Print, Plain, Translate, ParseDocument, Render, Meaning, WellFormed, JsonFaithful.Faithful, JsonProofs.AllTextual;
    TranslationUndoesPrinting(plat, d, true);
    PlainTextual(d, 0);
    JsonFaithful.DocumentRoundTrip(plat, d, false);
  }
}
