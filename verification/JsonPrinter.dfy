/** The two JSON printers as the library runs them, appending to one output string. */
module JsonPrinter {
  import opened Bytes
  import opened Values
  import opened Text
  import opened Regexes
  import opened Json
  import opened JsonFaithful
  import Base64
  import Base64Codec

  // ---------- Strings ----------

  method AppendEscaped(out: Buffer, s: Bytes)
    modifies out
    ensures out.bytes == old(out.bytes) + Escape(s)
  {
    for i := 0 to |s|
      invariant out.bytes + Escape(s[i..]) == old(out.bytes) + Escape(s)
    {
      ghost var before := out.bytes;
      var c := s[i];
      if c == QUOTE { out.Push(BACKSLASH); out.Push(QUOTE); }
      else if c == BACKSLASH { out.Push(BACKSLASH); out.Push(BACKSLASH); }
      else if c == BACKSPACE { out.Push(BACKSLASH); out.Push(LETTER_B); }
      else if c == FORMFEED { out.Push(BACKSLASH); out.Push(LETTER_F); }
      else if c == NEWLINE { out.Push(BACKSLASH); out.Push(LETTER_N); }
      else if c == RETURN { out.Push(BACKSLASH); out.Push(LETTER_R); }
      else if c == TAB { out.Push(BACKSLASH); out.Push(LETTER_T); }
      else if c < 0x20 { out.Append([BACKSLASH, UNICODE, ZERO, ZERO, HexDigit(c / 16), HexDigit(c % 16)]); }
      else { out.Push(c); }
      assert out.bytes == before + EscapeByte(c);
      EscapeStep(before, s[i..]);
      assert s[i..][1..] == s[i + 1..];
    }
    assert out.bytes + [] == out.bytes;
  }

  lemma EscapeStep(before: Bytes, s: Bytes)
    requires s != []
    ensures (before + EscapeByte(s[0])) + Escape(s[1..]) == before + Escape(s)
  {
    hide EscapeByte;
  }

  method AppendHex(out: Buffer, s: Bytes)
    modifies out
    ensures out.bytes == old(out.bytes) + Hex(s)
  {
    for i := 0 to |s|
      invariant out.bytes + Hex(s[i..]) == old(out.bytes) + Hex(s)
    {
      ghost var before := out.bytes;
      out.Push(HexDigit(s[i] / 16));
      out.Push(HexDigit(s[i] % 16));
      assert s[i..][1..] == s[i + 1..];
      HexStep(before, s[i..]);
    }
    assert out.bytes + [] == out.bytes;
  }

  lemma HexStep(before: Bytes, s: Bytes)
    requires s != []
    ensures (before + [HexDigit(s[0] / 16)] + [HexDigit(s[0] % 16)]) + Hex(s[1..]) == before + Hex(s)
  {
  }

  // ---------- Tokens ----------

  /** An object of one member on one line. */
  lemma RenderSingle(plat: Platform, key: Bytes, d: Doc)
    ensures Render(plat, Table([Entry(key, d)]), false, 0)
         == [LBRACE] + Quoted(key) + [COLON] + Render(plat, d, false, 1) + [RBRACE]
  {
    hide Quoted;
    var e := Entry(key, d);
    assert RenderMembers(plat, [e], false, 1) == Break(false, 1) + (Member(plat, e, false, 1) + []);
  }

  lemma RenderPair(plat: Platform, a: Entry, b: Entry, indent: nat)
    ensures Render(plat, Table([a, b]), false, indent)
         == [LBRACE] + Quoted(a.key) + [COLON] + Render(plat, a.doc, false, indent + 1) + [COMMA]
            + Quoted(b.key) + [COLON] + Render(plat, b.doc, false, indent + 1) + [RBRACE]
  {
    hide Quoted;
    assert [a, b][1..] == [b];
    assert RenderMembers(plat, [b], false, indent + 1) == Break(false, indent + 1) + (Member(plat, b, false, indent + 1) + []);
    assert RenderMembers(plat, [a, b], false, indent + 1)
        == Break(false, indent + 1) + (Member(plat, a, false, indent + 1) + ([COMMA] + RenderMembers(plat, [b], false, indent + 1)));
  }

  lemma QuotedVerbatim(s: Bytes)
    requires AllVerbatim(s)
    ensures Quoted(s) == [QUOTE] + s + [QUOTE]
  {
    EscapeVerbatim(s);
  }

  const BINARY_OPEN: Bytes := [LBRACE, QUOTE] + BINARY + [QUOTE, COLON, LBRACE, QUOTE] + BASE64 + [QUOTE, COLON, QUOTE]
  const BINARY_MIDDLE: Bytes := [QUOTE, COMMA, QUOTE] + SUBTYPE + [QUOTE, COLON, QUOTE]

  /** The binary wrapper spelled out. */
  lemma BinaryText(plat: Platform, data: Bytes, subType: Byte)
    ensures Render(plat, BinaryDoc(data, subType), false, 0)
         == BINARY_OPEN + Base64.Encode(Base64.Default(), data) + BINARY_MIDDLE + Hex([subType]) + [QUOTE, RBRACE, RBRACE]
  {
    hide Quoted, Hex, Base64.Encode, Render;
    var text, hex := Base64.Encode(Base64.Default(), data), Hex([subType]);
    var a, b := Entry(BASE64, Atom(Text(text, false))), Entry(SUBTYPE, Atom(Text(hex, false)));
    KeysVerbatim();
    EncodedVerbatim(data);
    HexVerbatim([subType]);
    QuotedVerbatim(BINARY);
    QuotedVerbatim(BASE64);
    QuotedVerbatim(SUBTYPE);
    QuotedVerbatim(text);
    QuotedVerbatim(hex);
    RenderSingle(plat, BINARY, Table([a, b]));
    RenderPair(plat, a, b, 1);
    RenderText(plat, text);
    RenderText(plat, hex);
    RejoinBinary(text, hex);
  }

  lemma RenderText(plat: Platform, t: Bytes)
    ensures forall i :: Render(plat, Atom(Text(t, false)), false, i) == Quoted(t)
  {
    hide Quoted;
  }

  lemma RejoinBinary(text: Bytes, hex: Bytes)
    ensures [LBRACE] + ([QUOTE] + BINARY + [QUOTE]) + [COLON]
            + ([LBRACE] + ([QUOTE] + BASE64 + [QUOTE]) + [COLON] + ([QUOTE] + text + [QUOTE]) + [COMMA]
               + ([QUOTE] + SUBTYPE + [QUOTE]) + [COLON] + ([QUOTE] + hex + [QUOTE]) + [RBRACE]) + [RBRACE]
         == BINARY_OPEN + text + BINARY_MIDDLE + hex + [QUOTE, RBRACE, RBRACE]
  {
    var a := [LBRACE] + ([QUOTE] + BINARY + [QUOTE]) + [COLON];
    var b := [LBRACE] + ([QUOTE] + BASE64 + [QUOTE]) + [COLON] + [QUOTE];
    var c := [QUOTE] + [COMMA] + ([QUOTE] + SUBTYPE + [QUOTE]) + [COLON] + [QUOTE];
    var d := [QUOTE] + [RBRACE];
    BinaryConstants();
    RejoinInner(text, hex);
    RejoinOuter(a, b, text, c, hex, d);
  }

  lemma BinaryConstants()
    ensures [LBRACE] + ([QUOTE] + BINARY + [QUOTE]) + [COLON] + ([LBRACE] + ([QUOTE] + BASE64 + [QUOTE]) + [COLON] + [QUOTE])
         == BINARY_OPEN
    ensures [QUOTE] + [COMMA] + ([QUOTE] + SUBTYPE + [QUOTE]) + [COLON] + [QUOTE] == BINARY_MIDDLE
    ensures [QUOTE] + [RBRACE] + [RBRACE] == [QUOTE, RBRACE, RBRACE]
  {
  }

  lemma RejoinInner(text: Bytes, hex: Bytes)
    ensures [LBRACE] + ([QUOTE] + BASE64 + [QUOTE]) + [COLON] + ([QUOTE] + text + [QUOTE]) + [COMMA]
            + ([QUOTE] + SUBTYPE + [QUOTE]) + [COLON] + ([QUOTE] + hex + [QUOTE]) + [RBRACE]
         == [LBRACE] + ([QUOTE] + BASE64 + [QUOTE]) + [COLON] + [QUOTE] + text
            + ([QUOTE] + [COMMA] + ([QUOTE] + SUBTYPE + [QUOTE]) + [COLON] + [QUOTE]) + hex + ([QUOTE] + [RBRACE])
  {
  }

  lemma RejoinOuter(a: Bytes, b: Bytes, text: Bytes, c: Bytes, hex: Bytes, d: Bytes)
    ensures a + (b + text + c + hex + d) + [RBRACE] == (a + b) + text + c + hex + (d + [RBRACE])
  {
  }

  const OID_OPEN: Bytes := [LBRACE, QUOTE] + OID + [QUOTE, COLON, QUOTE]

  lemma ObjectIdText(plat: Platform, oid: Bytes)
    ensures Render(plat, WrapperDoc(ObjectId(oid)), false, 0) == OID_OPEN + Hex(oid) + [QUOTE, RBRACE]
  {
    hide Quoted, Hex, Render;
    KeysVerbatim();
    HexVerbatim(oid);
    QuotedVerbatim(OID);
    QuotedVerbatim(Hex(oid));
    RenderText(plat, Hex(oid));
    RenderSingle(plat, OID, Atom(Text(Hex(oid), false)));
  }

  const TIMESTAMP_OPEN: Bytes := [LBRACE, QUOTE] + TIMESTAMP + [QUOTE, COLON, LBRACE, QUOTE] + SECONDS + [QUOTE, COLON]

  lemma TimestampText(plat: Platform, n: Int64)
    ensures Render(plat, WrapperDoc(Timestamp(n)), false, 0) == TIMESTAMP_OPEN + Decimal(n) + [RBRACE, RBRACE]
  {
    hide Quoted, Decimal;
    var inner := Table([Entry(SECONDS, Atom(Int(n)))]);
    KeysVerbatim();
    QuotedVerbatim(TIMESTAMP);
    QuotedVerbatim(SECONDS);
    RenderSingle(plat, TIMESTAMP, inner);
    RenderSingle(plat, SECONDS, Atom(Int(n)));
    CompactIndent(plat, inner, 0, 1);
    assert Render(plat, Atom(Int(n)), false, 1) == Decimal(n);
  }

  const REGEX_OPEN: Bytes := [LBRACE, QUOTE] + REGEX + [QUOTE, COLON, QUOTE]
  const REGEX_MIDDLE: Bytes := [COMMA, QUOTE] + OPTIONS + [QUOTE, COLON, QUOTE]

  lemma RegexShape(p: Bytes, o: Bytes)
    ensures var first := [LBRACE] + ([QUOTE] + REGEX + [QUOTE]) + [COLON] + ([QUOTE] + p + [QUOTE]);
      first + [RBRACE] == REGEX_OPEN + p + [QUOTE] + [] + [RBRACE]
      && first + [COMMA] + ([QUOTE] + OPTIONS + [QUOTE]) + [COLON] + ([QUOTE] + o + [QUOTE]) + [RBRACE]
         == REGEX_OPEN + p + [QUOTE] + (REGEX_MIDDLE + o + [QUOTE]) + [RBRACE]
  {
  }

  lemma RegexText(plat: Platform, source: Bytes)
    ensures var o := OptionsOf(source);
      Render(plat, WrapperDoc(Regex(source)), false, 0)
      == REGEX_OPEN + Escape(PatternOf(source)) + [QUOTE]
         + (if o == [] then [] else REGEX_MIDDLE + Escape(o) + [QUOTE]) + [RBRACE]
  {
    hide Escape, Render, PatternOf, OptionsOf;
    var p, o := PatternOf(source), OptionsOf(source);
    RegexShape(Escape(p), Escape(o));
    var a, b := Entry(REGEX, Atom(Text(p, false))), Entry(OPTIONS, Atom(Text(o, false)));
    KeysVerbatim();
    QuotedVerbatim(REGEX);
    QuotedVerbatim(OPTIONS);
    RenderText(plat, p);
    RenderText(plat, o);
    if o == [] {
      assert [a] + [] == [a];
      RenderSingle(plat, REGEX, a.doc);
    } else {
      assert [a] + [b] == [a, b];
      RenderPair(plat, a, b, 0);
    }
  }

  /** Indentation is not written in compact text. */
  lemma {:induction false} CompactIndent(plat: Platform, d: Doc, i: nat, j: nat)
    ensures Render(plat, d, false, i) == Render(plat, d, false, j)
    decreases d
  {
    match d
    case Atom(s) =>
    case List(items) => if items != [] { CompactItems(plat, items, i + 1, j + 1); }
    case Table(es) => if es != [] { CompactMembers(plat, es, i + 1, j + 1); }
  }

  lemma {:induction false} CompactItems(plat: Platform, ds: seq<Doc>, i: nat, j: nat)
    requires ds != []
    ensures RenderItems(plat, ds, false, i) == RenderItems(plat, ds, false, j)
    decreases ds
  {
    hide Render;
    CompactIndent(plat, ds[0], i, j);
    if |ds| > 1 { CompactItems(plat, ds[1..], i, j); }
  }

  lemma {:induction false} CompactMembers(plat: Platform, es: seq<Entry>, i: nat, j: nat)
    requires es != []
    ensures RenderMembers(plat, es, false, i) == RenderMembers(plat, es, false, j)
    decreases es
  {
    hide Render, Quoted;
    CompactIndent(plat, es[0].doc, i, j);
    if |es| > 1 { CompactMembers(plat, es[1..], i, j); }
  }

  /** appendJsonToken: the wrappers are spelled out as literal text around their parts. */
  method AppendToken(plat: Platform, s: Scalar, out: Buffer)
    modifies out
    ensures forall pretty, indent :: out.bytes == old(out.bytes) + Render(plat, Atom(s), pretty, indent)
  {
    hide Render, Escape, Hex, Base64.Encode, PatternOf, OptionsOf;
    hide Decimal;
    ghost var before := out.bytes;
    TokenText(plat, s);
    match s
    case Null => out.Append(NULL_TEXT);
    case Bool(flag) => out.Append(if flag then TRUE_TEXT else FALSE_TEXT);
    case Int(n) => out.Append(Decimal(n));
    case Double(bits) => out.Append(plat.formatDouble(bits));
    case Float32(bits) => out.Append(plat.formatDouble(plat.widen(bits)));
    case Text(t, raw) =>
      if raw { out.Append(t); }
      else {
        out.Push(QUOTE);
        AppendEscaped(out, t);
        out.Push(QUOTE);
        assert out.bytes == before + Quoted(t);
      }
    case DateTime(ts, ms) =>
      out.Push(QUOTE);
      out.Append(plat.formatDateTime(ts, ms));
      out.Push(QUOTE);
      assert out.bytes == before + ([QUOTE] + plat.formatDateTime(ts, ms) + [QUOTE]);
    case _ => AppendWrapper(plat, s, out);
  }

  /** The types JSON has no notation for. */
  method AppendWrapper(plat: Platform, s: Scalar, out: Buffer)
    requires IsWrapper(s)
    modifies out
    ensures out.bytes == old(out.bytes) + Render(plat, WrapperDoc(s), false, 0)
  {
    hide Render, Escape, Hex, Base64.Encode, PatternOf, OptionsOf, Decimal;
    ghost var before := out.bytes;
    match s
    case Binary(data) => AppendBinary(plat, out, data, 0);
    case Extension(t, payload) => AppendBinary(plat, out, payload, t % 256);
    case ObjectId(oid) =>
      ObjectIdText(plat, oid);
      out.Append(OID_OPEN);
      AppendHex(out, oid);
      out.Append([QUOTE, RBRACE]);
      assert out.bytes == before + (OID_OPEN + Hex(oid) + [QUOTE, RBRACE]);
    case Timestamp(n) =>
      TimestampText(plat, n);
      out.Append(TIMESTAMP_OPEN);
      out.Append(Decimal(n));
      out.Append([RBRACE, RBRACE]);
      assert out.bytes == before + (TIMESTAMP_OPEN + Decimal(n) + [RBRACE, RBRACE]);
    case Regex(source) => AppendRegex(plat, out, source);
  }

  lemma TokenText(plat: Platform, s: Scalar)
    ensures var text := if IsWrapper(s) then Render(plat, WrapperDoc(s), false, 0) else PlainToken(plat, s);
      forall pretty, indent :: Render(plat, Atom(s), pretty, indent) == text
  {
    hide WrapperDoc, PlainToken;
  }

  method AppendBinary(plat: Platform, out: Buffer, data: Bytes, subType: Byte)
    modifies out
    ensures out.bytes == old(out.bytes) + Render(plat, BinaryDoc(data, subType), false, 0)
  {
    hide Render, Hex, Base64.Encode;
    ghost var before := out.bytes;
    BinaryText(plat, data, subType);
    out.Append(BINARY_OPEN);
    var text := Base64Codec.EncodeBlocks(Base64.Default(), data);
    out.Append(text);
    out.Append(BINARY_MIDDLE);
    AppendHex(out, [subType]);
    out.Append([QUOTE, RBRACE, RBRACE]);
    assert out.bytes == before + (BINARY_OPEN + text + BINARY_MIDDLE + Hex([subType]) + [QUOTE, RBRACE, RBRACE]);
  }

  method AppendRegex(plat: Platform, out: Buffer, source: Bytes)
    modifies out
    ensures out.bytes == old(out.bytes) + Render(plat, WrapperDoc(Regex(source)), false, 0)
  {
    hide Render, Escape, PatternOf, OptionsOf;
    ghost var before := out.bytes;
    RegexText(plat, source);
    var p, o := PatternOf(source), OptionsOf(source);
    out.Append(REGEX_OPEN);
    AppendEscaped(out, p);
    out.Push(QUOTE);
    if o != [] {
      out.Append(REGEX_MIDDLE);
      AppendEscaped(out, o);
      out.Push(QUOTE);
      assert out.bytes == before + (REGEX_OPEN + Escape(p) + [QUOTE]) + (REGEX_MIDDLE + Escape(o) + [QUOTE]);
    }
    out.Push(RBRACE);
  }

  // ---------- Containers ----------

  /** What remains to be written before element `i`: a comma unless it is the first, then the elements. */
  function ItemsFrom(plat: Platform, ds: seq<Doc>, i: nat, pretty: bool, indent: nat): (r: Bytes)
    requires i <= |ds|
  {
    if i == |ds| then [] else (if i == 0 then [] else [COMMA]) + RenderItems(plat, ds[i..], pretty, indent)
  }

  lemma ItemsFromStep(plat: Platform, ds: seq<Doc>, i: nat, pretty: bool, indent: nat)
    requires i < |ds|
    ensures ItemsFrom(plat, ds, i, pretty, indent)
         == (if i == 0 then [] else [COMMA]) + Break(pretty, indent) + Render(plat, ds[i], pretty, indent)
            + ItemsFrom(plat, ds, i + 1, pretty, indent)
  {
    hide Render;
    assert ds[i..][1..] == ds[i + 1..];
  }

  function MembersFrom(plat: Platform, es: seq<Entry>, i: nat, pretty: bool, indent: nat): (r: Bytes)
    requires i <= |es|
  {
    if i == |es| then [] else (if i == 0 then [] else [COMMA]) + RenderMembers(plat, es[i..], pretty, indent)
  }

  lemma MembersFromStep(plat: Platform, es: seq<Entry>, i: nat, pretty: bool, indent: nat)
    requires i < |es|
    ensures MembersFrom(plat, es, i, pretty, indent)
         == (if i == 0 then [] else [COMMA]) + Break(pretty, indent) + Member(plat, es[i], pretty, indent)
            + MembersFrom(plat, es, i + 1, pretty, indent)
  {
    hide Member;
    assert es[i..][1..] == es[i + 1..];
  }

  lemma ListText(plat: Platform, items: seq<Doc>, pretty: bool, indent: nat)
    ensures Render(plat, List(items), pretty, indent)
         == [LBRACKET] + ItemsFrom(plat, items, 0, pretty, indent + 1)
            + (if items == [] then [] else Break(pretty, indent)) + [RBRACKET]
    ensures ItemsFrom(plat, items, |items|, pretty, indent + 1) == []
  {
    hide RenderItems;
    assert items[0..] == items;
  }

  lemma TableText(plat: Platform, es: seq<Entry>, pretty: bool, indent: nat)
    ensures Render(plat, Table(es), pretty, indent)
         == [LBRACE] + MembersFrom(plat, es, 0, pretty, indent + 1)
            + (if es == [] then [] else Break(pretty, indent)) + [RBRACE]
    ensures MembersFrom(plat, es, |es|, pretty, indent + 1) == []
  {
    hide RenderMembers;
    assert es[0..] == es;
  }

  method AppendQuoted(out: Buffer, s: Bytes)
    modifies out
    ensures out.bytes == old(out.bytes) + Quoted(s)
  {
    hide Escape;
    ghost var before := out.bytes;
    out.Push(QUOTE);
    AppendEscaped(out, s);
    out.Push(QUOTE);
    assert out.bytes == before + ([QUOTE] + Escape(s) + [QUOTE]);
  }

  /** serialize: compact text. */
  method Serialize(plat: Platform, d: Doc, out: Buffer, ghost indent: nat)
    modifies out
    ensures out.bytes == old(out.bytes) + Render(plat, d, false, indent)
    decreases d, 1
  {
    hide *;
    match d
    case Atom(s) => AppendToken(plat, s, out);
    case Table(es) => SerializeObject(plat, es, out, indent);
    case List(items) => SerializeArray(plat, items, out, indent);
  }

  method AppendMember(plat: Platform, e: Entry, out: Buffer, ghost indent: nat)
    modifies out
    ensures out.bytes == old(out.bytes) + Member(plat, e, false, indent)
    decreases e, 2
  {
    hide Render, Quoted;
    ghost var before := out.bytes;
    AppendQuoted(out, e.key);
    out.Push(COLON);
    Serialize(plat, e.doc, out, indent);
    assert out.bytes == before + (Quoted(e.key) + ([COLON] + ([] + Render(plat, e.doc, false, indent))));
  }

  method SerializeObject(plat: Platform, es: seq<Entry>, out: Buffer, ghost indent: nat)
    modifies out
    ensures out.bytes == old(out.bytes) + Render(plat, Table(es), false, indent)
    decreases es, 0
  {
    hide Render, Member, MembersFrom;
    ghost var before := out.bytes;
    TableText(plat, es, false, indent);
    out.Push(LBRACE);
    var first := true;
    for i := 0 to |es|
      invariant first <==> i == 0
      invariant out.bytes + MembersFrom(plat, es, i, false, indent + 1)
             == before + [LBRACE] + MembersFrom(plat, es, 0, false, indent + 1)
    {
      ghost var now := out.bytes;
      MembersFromStep(plat, es, i, false, indent + 1);
      if !first { out.Push(COMMA); }
      AppendMember(plat, es[i], out, indent + 1);
      first := false;
      assert now + MembersFrom(plat, es, i, false, indent + 1) == out.bytes + MembersFrom(plat, es, i + 1, false, indent + 1);
    }
    assert out.bytes + MembersFrom(plat, es, |es|, false, indent + 1) == out.bytes;
    out.Push(RBRACE);
    assert out.bytes == before + Render(plat, Table(es), false, indent);
  }

  method SerializeArray(plat: Platform, items: seq<Doc>, out: Buffer, ghost indent: nat)
    modifies out
    ensures out.bytes == old(out.bytes) + Render(plat, List(items), false, indent)
    decreases items, 0
  {
    hide Render, ItemsFrom;
    ghost var before := out.bytes;
    ListText(plat, items, false, indent);
    out.Push(LBRACKET);
    var first := true;
    for i := 0 to |items|
      invariant first <==> i == 0
      invariant out.bytes + ItemsFrom(plat, items, i, false, indent + 1)
             == before + [LBRACKET] + ItemsFrom(plat, items, 0, false, indent + 1)
    {
      ghost var now := out.bytes;
      ItemsFromStep(plat, items, i, false, indent + 1);
      if !first { out.Push(COMMA); }
      Serialize(plat, items[i], out, indent + 1);
      first := false;
      assert now + ItemsFrom(plat, items, i, false, indent + 1) == out.bytes + ItemsFrom(plat, items, i + 1, false, indent + 1);
    }
    assert out.bytes + ItemsFrom(plat, items, |items|, false, indent + 1) == out.bytes;
    out.Push(RBRACKET);
    assert out.bytes == before + Render(plat, List(items), false, indent);
  }

  /** serializePretty: one item a line, four spaces a level. */
  method SerializePretty(plat: Platform, d: Doc, out: Buffer, indent: nat)
    modifies out
    ensures out.bytes == old(out.bytes) + Render(plat, d, true, indent)
    decreases d, 1
  {
    hide *;
    match d
    case Atom(s) => AppendToken(plat, s, out);
    case Table(es) => PrettyObject(plat, es, out, indent);
    case List(items) => PrettyArray(plat, items, out, indent);
  }

  lemma BreakText(indent: nat)
    ensures Break(true, indent) == [NEWLINE] + Spaces(4 * indent)
  {
  }

  method PrettyMember(plat: Platform, e: Entry, out: Buffer, indent: nat)
    modifies out
    ensures out.bytes == old(out.bytes) + Member(plat, e, true, indent)
    decreases e, 2
  {
    hide Render, Quoted;
    ghost var before := out.bytes;
    AppendQuoted(out, e.key);
    out.Append([COLON, SPACE]);
    SerializePretty(plat, e.doc, out, indent);
    assert out.bytes == before + (Quoted(e.key) + ([COLON] + ([SPACE] + Render(plat, e.doc, true, indent))));
  }

  method PrettyObject(plat: Platform, es: seq<Entry>, out: Buffer, indent: nat)
    modifies out
    ensures out.bytes == old(out.bytes) + Render(plat, Table(es), true, indent)
    decreases es, 1
  {
    hide Render, Member, MembersFrom, Break, Spaces;
    ghost var before := out.bytes;
    TableText(plat, es, true, indent);
    BreakText(indent);
    var prefix := Spaces(4 * indent);
    out.Push(LBRACE);
    if es != [] {
      PrettyMembers(plat, es, out, indent + 1);
      out.Push(NEWLINE);
      out.Append(prefix);
    }
    out.Push(RBRACE);
    assert out.bytes == before + Render(plat, Table(es), true, indent);
  }

  /** The line break is written once before the first one and with the comma before the others. */
  method PrettyMembers(plat: Platform, es: seq<Entry>, out: Buffer, indent: nat)
    requires es != []
    modifies out
    ensures out.bytes == old(out.bytes) + MembersFrom(plat, es, 0, true, indent)
    decreases es, 0
  {
    hide Render, Member, MembersFrom, Break, Spaces;
    ghost var lead, all := out.bytes, MembersFrom(plat, es, 0, true, indent);
    BreakText(indent);
    TableTextEnds(plat, es, indent);
    var indentNext := Spaces(4 * indent);
    out.Push(NEWLINE);
    var first := true;
    for i := 0 to |es|
      invariant first <==> i == 0
      invariant i == 0 ==> out.bytes == lead + [NEWLINE]
      invariant i > 0 ==> Finishes(out.bytes, MembersFrom(plat, es, i, true, indent), lead, all)
    {
      ghost var now := if first then lead else out.bytes;
      MembersFromStep(plat, es, i, true, indent);
      if !first { out.Push(COMMA); out.Push(NEWLINE); }
      out.Append(indentNext);
      assert out.bytes == now + ((if first then [] else [COMMA]) + Break(true, indent));
      PrettyMember(plat, es[i], out, indent);
      first := false;
      ThreeMore(now, (if i == 0 then [] else [COMMA]) + Break(true, indent), Member(plat, es[i], true, indent),
                MembersFrom(plat, es, i + 1, true, indent));
    }
    assert out.bytes + [] == out.bytes;
  }

  lemma TableTextEnds(plat: Platform, es: seq<Entry>, indent: nat)
    ensures MembersFrom(plat, es, |es|, true, indent) == []
  {
  }

  /** What is written and what remains make up the whole. */
  lemma ThreeMore(start: Bytes, a: Bytes, b: Bytes, rest: Bytes)
    ensures start + (a + b + rest) == start + a + b + rest
  {
  }

  ghost predicate Finishes(written: Bytes, rest: Bytes, start: Bytes, all: Bytes)
  {
    written + rest == start + all
  }

  method PrettyArray(plat: Platform, items: seq<Doc>, out: Buffer, indent: nat)
    modifies out
    ensures out.bytes == old(out.bytes) + Render(plat, List(items), true, indent)
    decreases items, 1
  {
    hide Render, ItemsFrom, Break, Spaces;
    ghost var before := out.bytes;
    ListText(plat, items, true, indent);
    BreakText(indent);
    var prefix := Spaces(4 * indent);
    out.Push(LBRACKET);
    if items != [] {
      PrettyItems(plat, items, out, indent + 1);
      out.Push(NEWLINE);
      out.Append(prefix);
    }
    out.Push(RBRACKET);
    assert out.bytes == before + Render(plat, List(items), true, indent);
  }

  /** The line break is written once before the first one and with the comma before the others. */
  method PrettyItems(plat: Platform, items: seq<Doc>, out: Buffer, indent: nat)
    requires items != []
    modifies out
    ensures out.bytes == old(out.bytes) + ItemsFrom(plat, items, 0, true, indent)
    decreases items, 0
  {
    hide Render, ItemsFrom, Break, Spaces;
    ghost var lead, all := out.bytes, ItemsFrom(plat, items, 0, true, indent);
    BreakText(indent);
    ListTextEnds(plat, items, indent);
    var indentNext := Spaces(4 * indent);
    out.Push(NEWLINE);
    var first := true;
    for i := 0 to |items|
      invariant first <==> i == 0
      invariant i == 0 ==> out.bytes == lead + [NEWLINE]
      invariant i > 0 ==> Finishes(out.bytes, ItemsFrom(plat, items, i, true, indent), lead, all)
    {
      ghost var now := if first then lead else out.bytes;
      ItemsFromStep(plat, items, i, true, indent);
      if !first { out.Push(COMMA); out.Push(NEWLINE); }
      out.Append(indentNext);
      assert out.bytes == now + ((if first then [] else [COMMA]) + Break(true, indent));
      SerializePretty(plat, items[i], out, indent);
      first := false;
      ThreeMore(now, (if i == 0 then [] else [COMMA]) + Break(true, indent), Render(plat, items[i], true, indent),
                ItemsFrom(plat, items, i + 1, true, indent));
    }
    assert out.bytes + [] == out.bytes;
  }

  lemma ListTextEnds(plat: Platform, items: seq<Doc>, indent: nat)
    ensures ItemsFrom(plat, items, |items|, true, indent) == []
  {
  }
}
