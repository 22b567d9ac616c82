/** JSON text as the parser accepts it: any blanks and comments, any spelling of strings and numbers, trailing commas,
    keys that come again. What the parser makes of each text. */
module JsonGrammar {
  import opened Bytes
  import opened Values
  import opened Text
  import opened Json
  import opened JsonTokens
  import opened Escapes
  import opened Comments
  import JsonNumbers
  import Unicode

  // ---------- Syntax ----------

  const BLANKS: set<Bytes> := {[9], [10], [13], [32]}
  const ENDINGS: set<Byte> := {10, 13}

  ghost predicate Fills(fs: seq<Filler>) { forall i :: 0 <= i < |fs| ==> FillerOk(fs[i], BLANKS, ENDINGS) }

  datatype Node =
    | Str(pieces: seq<Piece>)
    | Num(parts: JsonNumbers.Parts)
    | Flag(flag: bool)
    | Nil
    | NotANumber(minus: bool)
    | Endless(minus: bool)
    | Arr(lead: seq<Filler>, items: seq<Item>)
    | Obj(lead: seq<Filler>, items: seq<Item>)

  /** An element or a member: in an object its key and the fillers on both sides of the colon; its value; and the fillers
      and the comma behind it. */
  datatype Item = Item(key: seq<Piece>, gap: seq<Filler>, colonGap: seq<Filler>, value: Node, before: seq<Filler>, comma: bool,
                       after: seq<Filler>)

  /** Strings hold no bare control characters. */
  predicate StringOk(ps: seq<Piece>)
  {
    Quotable(ps) && forall i :: 0 <= i < |ps| ==> match ps[i] case Plain(b) => b >= 0x20 case _ => true
  }

  ghost predicate ItemOk(keyed: bool, it: Item)
  {
    && Fills(it.before) && Fills(it.after) && (!it.comma ==> it.after == [])
    && (keyed ==> StringOk(it.key) && Fills(it.gap) && Fills(it.colonGap))
  }

  ghost predicate ItemsOk(keyed: bool, items: seq<Item>)
    decreases items
  {
    items == []
    || (ItemOk(keyed, items[0]) && NodeOk(items[0].value) && (|items| > 1 ==> items[0].comma) && ItemsOk(keyed, items[1..]))
  }

  ghost predicate NodeOk(n: Node)
    decreases n
  {
    match n
    case Str(ps) => StringOk(ps)
    case Num(p) => JsonNumbers.PartsOk(p)
    case Arr(lead, items) => Fills(lead) && ItemsOk(false, items)
    case Obj(lead, items) => Fills(lead) && ItemsOk(true, items)
    case _ => true
  }

  function StringText(ps: seq<Piece>): (r: Bytes)
    requires PiecesOk(ps)
  {
    [QUOTE] + (Spelling(ps) + [QUOTE])
  }

  ghost function KeyText(keyed: bool, it: Item): (r: Bytes)
    requires ItemOk(keyed, it)
  {
    if keyed then StringText(it.key) + (FillersText(it.gap) + ([COLON] + FillersText(it.colonGap))) else []
  }

  function CommaText(it: Item): (r: Bytes) { if it.comma then [COMMA] + FillersText(it.after) else [] }

  function SignText(minus: bool): (r: Bytes) { if minus then [MINUS] else [] }

  ghost function NodeText(n: Node): (r: Bytes)
    requires NodeOk(n)
    decreases n, 0
  {
    match n
    case Str(ps) => StringText(ps)
    case Num(p) => JsonNumbers.Spelled(p)
    case Flag(flag) => if flag then TRUE_TEXT else FALSE_TEXT
    case Nil => NULL_TEXT
    case NotANumber(minus) => SignText(minus) + NAN_TEXT
    case Endless(minus) => SignText(minus) + INFINITY_TEXT
    case Arr(lead, items) => [LBRACKET] + (FillersText(lead) + (ItemsText(false, items) + [RBRACKET]))
    case Obj(lead, items) => [LBRACE] + (FillersText(lead) + (ItemsText(true, items) + [RBRACE]))
  }

  ghost function ItemsText(keyed: bool, items: seq<Item>): (r: Bytes)
    requires ItemsOk(keyed, items)
    decreases items, 1
  {
    if items == [] then []
    else
      KeyText(keyed, items[0]) + (NodeText(items[0].value)
      + (FillersText(items[0].before) + (CommaText(items[0]) + ItemsText(keyed, items[1..]))))
  }

  // ---------- Meaning ----------

  /** A string that looks like a date-time as it is written is one; any other is its bytes, up to the limit. */
  function StringValue(plat: Platform, ps: seq<Piece>): (r: Option<Value>)
    requires PiecesOk(ps)
  {
    var raw := Spelling(ps);
    if |raw| > MAX_STRING_LEN then None
    else
      match (if |raw| >= 20 && raw[4] == MINUS && raw[7] == MINUS && raw[10] == 84 then plat.parseDateTime(raw) else None)
      case Some(t) => Some(Leaf(DateTime(t.0, t.1)))
      case None => if |Spelled(ps)| > MAX_STRING_LEN then None else Some(Leaf(Text(Spelled(ps), false)))
  }

  const NOT_A_NUMBER: UInt64 := 0x7FF8_0000_0000_0000
  const ENDLESS: UInt64 := 0x7FF0_0000_0000_0000

  ghost function Denote(plat: Platform, n: Node, depth: nat): (r: Option<Value>)
    requires NodeOk(n)
    decreases n
  {
    match n
    case Str(ps) => StringValue(plat, ps)
    case Num(p) => JsonNumbers.NumberValue(plat, p)
    case Flag(flag) => Some(Leaf(Bool(flag)))
    case Nil => Some(Leaf(Null))
    case NotANumber(minus) =>
      if plat.allowNaNInfinity then Some(Leaf(Double((if minus then TWO_63 else 0) + NOT_A_NUMBER))) else None
    case Endless(minus) =>
      if plat.allowNaNInfinity then Some(Leaf(Double((if minus then TWO_63 else 0) + ENDLESS))) else None
    case Arr(_, items) =>
      if depth >= MAX_NESTING_DEPTH || |items| > MAX_ARRAY_SIZE then None
      else (match ElementsOf(plat, items, depth + 1) case None => None case Some(vs) => Some(Array(vs)))
    case Obj(_, items) =>
      if depth >= MAX_NESTING_DEPTH then None
      else (match MembersOf(plat, items, depth + 1, map[]) case None => None case Some(m) => Special(m))
  }

  ghost function ElementsOf(plat: Platform, items: seq<Item>, depth: nat): (r: Option<seq<Value>>)
    requires ItemsOk(false, items)
    decreases items
  {
    if items == [] then Some([])
    else
      match (Denote(plat, items[0].value, depth), ElementsOf(plat, items[1..], depth))
      case (Some(v), Some(vs)) => Some([v] + vs)
      case _ => None
  }

  /** Later members replace earlier ones with the same key; a member more than an object may have is an error. */
  ghost function MembersOf(plat: Platform, items: seq<Item>, depth: nat, acc: map<Bytes, Value>): (r: Option<map<Bytes, Value>>)
    requires ItemsOk(true, items)
    decreases items
  {
    if items == [] then Some(acc)
    else if |acc| >= MAX_OBJECT_SIZE || |Spelling(items[0].key)| > MAX_STRING_LEN then None
    else
      match Denote(plat, items[0].value, depth)
      case None => None
      case Some(v) => MembersOf(plat, items[1..], depth, acc[Spelled(items[0].key) := v])
  }

  // ---------- Fillers ----------

  lemma {:induction false} LineEnds(t: Bytes, e: Byte, json: Bytes, pos: nat)
    requires At(json, pos, t + [e]) && OneLine(t, ENDINGS) && e in ENDINGS
    ensures LineEnd(json, pos) == pos + |t| < |json| && json[pos + |t|] == e
    decreases |t|
  {
    AtHead(json, pos, t + [e]);
    if t != [] {
      assert (t + [e])[1..] == t[1..] + [e];
      assert t[0] !in ENDINGS;
      LineEnds(t[1..], e, json, pos + 1);
    }
  }

  lemma {:induction false} CommentEnds(t: Bytes, json: Bytes, pos: nat)
    requires At(json, pos, t + [STAR, SLASH]) && Unclosed(t)
    ensures CommentEnd(json, pos) == Some(pos + |t|) && pos + |t| + 2 <= |json|
    decreases |t|
  {
    AtHead(json, pos, t + [STAR, SLASH]);
    if t != [] {
      var rest := t[1..] + [STAR, SLASH];
      assert (t + [STAR, SLASH])[1..] == rest;
      AtHead(json, pos + 1, rest);
      assert t[0] == STAR ==> rest[0] != SLASH;
      assert forall i :: 0 <= i < |t[1..]| ==> t[1..][i] == t[i + 1];
      CommentEnds(t[1..], json, pos + 1);
    } else {
      assert t + [STAR, SLASH] == [STAR, SLASH];
      AtHead(json, pos + 1, [STAR, SLASH][1..]);
    }
  }

  lemma FillerSkipped(f: Filler, json: Bytes, pos: nat)
    requires FillerOk(f, BLANKS, ENDINGS) && At(json, pos, FillerText(f))
    ensures Skip(json, pos) == Skip(json, pos + |FillerText(f)|)
  {
    hide LineEnd, CommentEnd;
    AtHead(json, pos, FillerText(f));
    match f
    case Blank(_) =>
    case Line(t, e) =>
      AtHead(json, pos + 1, FillerText(f)[1..]);
      AtSplit(json, pos, [SLASH, SLASH], t + [e]);
      LineEnds(t, e, json, pos + 2);
    case Hash(t, e) =>
      assert FillerText(f) == ([HASH] + t) + [e];
      LineEnds([HASH] + t, e, json, pos);
    case Block(t) =>
      AtHead(json, pos + 1, FillerText(f)[1..]);
      AtSplit(json, pos, [SLASH, STAR], t + [STAR, SLASH]);
      CommentEnds(t, json, pos + 2);
  }

  lemma {:induction false} FillersSkipped(fs: seq<Filler>, json: Bytes, pos: nat)
    requires Fills(fs) && At(json, pos, FillersText(fs))
    ensures Skip(json, pos) == Skip(json, pos + |FillersText(fs)|)
    decreases |fs|
  {
    hide FillerText, FillerOk, Skip;
    if fs != [] {
      AtSplit(json, pos, FillerText(fs[0]), FillersText(fs[1..]));
      FillerSkipped(fs[0], json, pos);
      FillersSkipped(fs[1..], json, pos + |FillerText(fs[0])|);
    }
  }

  /** Past the fillers to a byte that starts none. */
  lemma SkipsTo(fs: seq<Filler>, json: Bytes, pos: nat)
    requires Fills(fs) && At(json, pos, FillersText(fs))
    requires var e := pos + |FillersText(fs)|; e < |json| && Solid(json[e])
    ensures Skip(json, pos) == Some(pos + |FillersText(fs)|)
  {
    hide Skip;
    FillersSkipped(fs, json, pos);
    SkipSolid(json, pos + |FillersText(fs)|);
  }

  /** A filler starts with a byte that continues no number and no word. */
  lemma FillersStart(fs: seq<Filler>, json: Bytes, pos: nat)
    requires Fills(fs) && At(json, pos, FillersText(fs)) && fs != []
    ensures Ends(json, pos)
  {
    AtSplit(json, pos, FillerText(fs[0]), FillersText(fs[1..]));
    assert FillerOk(fs[0], BLANKS, ENDINGS);
    AtHead(json, pos, FillerText(fs[0]));
  }

  // ---------- Strings ----------

  lemma {:induction false} StringScanned(ps: seq<Piece>, json: Bytes, pos: nat)
    requires StringOk(ps) && At(json, pos, Spelling(ps) + [QUOTE])
    ensures ScanString(json, pos) == Some(pos + |Spelling(ps)|)
    decreases |ps|
  {
    hide ScanString, PieceText;
    if ps == [] {
      assert Spelling(ps) + [QUOTE] == [QUOTE];
      AtHead(json, pos, [QUOTE]);
      ScanQuote(json, pos);
    } else {
      var text, rest := PieceText(ps[0]), Spelling(ps[1..]) + [QUOTE];
      Regrouped(text, Spelling(ps[1..]), [QUOTE]);
      AtSplit(json, pos, text, rest);
      PieceScanned(ps[0], json, pos);
      StringScanned(ps[1..], json, pos + |text|);
    }
  }

  lemma PieceScanned(p: Piece, json: Bytes, pos: nat)
    requires PieceOk(p) && p != Plain(QUOTE) && (p.Plain? ==> p.b >= 0x20) && At(json, pos, PieceText(p))
    ensures ScanString(json, pos) == ScanString(json, pos + |PieceText(p)|)
  {
    AtHead(json, pos, PieceText(p));
    if !p.Plain? { AtHead(json, pos + 1, PieceText(p)[1..]); }
    if p.Point? {
      if p.cp < 0x1_0000 {
        UnitScanned(p.cp, p.upper, json, pos);
      } else {
        var hi, lo := 0xD800 + (p.cp - 0x1_0000) / 0x400, 0xDC00 + (p.cp - 0x1_0000) % 0x400;
        AtSplit(json, pos, Unicode.CodeUnit(hi, p.upper), Unicode.CodeUnit(lo, p.upper));
        UnitScanned(hi, p.upper, json, pos);
        UnitScanned(lo, p.upper, json, pos + 6);
      }
    }
  }

  lemma UnitScanned(n: nat, upper: bool, json: Bytes, pos: nat)
    requires n < 0x1_0000 && At(json, pos, Unicode.CodeUnit(n, upper))
    ensures ScanString(json, pos) == ScanString(json, pos + 6)
  {
    var u := Unicode.CodeUnit(n, upper);
    AtHead(json, pos, u);
    AtHead(json, pos + 1, u[1..]);
    AtHead(json, pos + 2, u[1..][1..]);
    AtHead(json, pos + 3, u[1..][1..][1..]);
    AtHead(json, pos + 4, u[1..][1..][1..][1..]);
    AtHead(json, pos + 5, u[1..][1..][1..][1..][1..]);
    PlainByte(json, pos + 2);
    PlainByte(json, pos + 3);
    PlainByte(json, pos + 4);
    PlainByte(json, pos + 5);
  }

  lemma RawRead(ps: seq<Piece>, json: Bytes, pos: nat)
    requires StringOk(ps) && At(json, pos, StringText(ps))
    ensures ReadRaw(json, pos)
         == if |Spelling(ps)| <= MAX_STRING_LEN then Ok(Spelling(ps), pos + |StringText(ps)|) else Err(TooLarge)
  {
    hide ScanString, Spelling;
    AtSplit(json, pos, [QUOTE], Spelling(ps) + [QUOTE]);
    AtHead(json, pos, [QUOTE]);
    AtSplit(json, pos + 1, Spelling(ps), [QUOTE]);
    StringScanned(ps, json, pos + 1);
  }

  lemma KeyRead(ps: seq<Piece>, json: Bytes, pos: nat)
    requires StringOk(ps) && At(json, pos, StringText(ps))
    ensures ReadKey(json, pos)
         == if |Spelling(ps)| <= MAX_STRING_LEN then Ok(Spelled(ps), pos + |StringText(ps)|) else Err(TooLarge)
  {
    hide ReadRaw, Spelling, Spelled, Unescape, StringText;
    RawRead(ps, json, pos);
    LiteralUnescapes(ps);
  }

  lemma StringRead(plat: Platform, ps: seq<Piece>, json: Bytes, pos: nat)
    requires StringOk(ps) && At(json, pos, StringText(ps))
    ensures var v := StringValue(plat, ps);
      if v.None? then StringOrDateTime(plat, json, pos).Err?
      else StringOrDateTime(plat, json, pos) == Ok(v.value, pos + |StringText(ps)|)
  {
    hide ReadRaw, Spelling, Spelled, Unescape, StringText;
    RawRead(ps, json, pos);
    LiteralUnescapes(ps);
  }

  // ---------- Places ----------

  predicate Begins(b: Byte)
  {
    b == QUOTE || b == MINUS || IsDigit(b) || b == LBRACE || b == LBRACKET || b == 116 || b == 102 || b == 110 || b == 78 || b == 73
  }

  lemma NodeBegins(n: Node)
    requires NodeOk(n)
    ensures NodeText(n) != [] && Begins(NodeText(n)[0])
  {
    hide ItemsText, ItemsOk, Spelling, JsonNumbers.Spelled, JsonNumbers.PartsOk;
    if n.Num? { JsonNumbers.SpelledStarts(n.parts); }
  }

  lemma BeginsSolid(b: Byte)
    requires Begins(b)
    ensures Solid(b) && b != COMMA && b != COLON && b != RBRACE && b != RBRACKET
  {
  }

  datatype Spot = Spot(value: nat, behind: nat, comma: nat, next: nat)

  ghost function SpotOf(keyed: bool, it: Item, pos: nat): (r: Spot)
    requires ItemOk(keyed, it) && NodeOk(it.value)
    ensures pos <= r.value <= r.behind <= r.comma <= r.next
  {
    var v := pos + |KeyText(keyed, it)|;
    var b := v + |NodeText(it.value)|;
    var c := b + |FillersText(it.before)|;
    Spot(v, b, c, c + |CommaText(it)|)
  }

  lemma SpotDef(keyed: bool, it: Item, pos: nat)
    requires ItemOk(keyed, it) && NodeOk(it.value)
    ensures var at := SpotOf(keyed, it, pos);
      && at.value == pos + |KeyText(keyed, it)| && at.behind == at.value + |NodeText(it.value)|
      && at.comma == at.behind + |FillersText(it.before)| && at.next == at.comma + |CommaText(it)|
  {
    hide NodeText, KeyText, CommaText, FillersText;
  }

  lemma ItemsSplit(keyed: bool, items: seq<Item>)
    requires items != [] && ItemsOk(keyed, items)
    ensures ItemOk(keyed, items[0]) && NodeOk(items[0].value) && ItemsOk(keyed, items[1..])
    ensures |items| > 1 ==> items[0].comma
  {
    hide ItemOk, NodeOk;
  }

  lemma ItemsUnfold(keyed: bool, items: seq<Item>, close: Byte)
    requires items != [] && ItemsOk(keyed, items) && ItemOk(keyed, items[0]) && NodeOk(items[0].value) && ItemsOk(keyed, items[1..])
    ensures ItemsText(keyed, items) + [close]
         == KeyText(keyed, items[0]) + (NodeText(items[0].value)
            + (FillersText(items[0].before) + (CommaText(items[0]) + (ItemsText(keyed, items[1..]) + [close]))))
    ensures |ItemsText(keyed, items)|
         == |KeyText(keyed, items[0])| + |NodeText(items[0].value)| + |FillersText(items[0].before)| + |CommaText(items[0])|
            + |ItemsText(keyed, items[1..])|
  {
    hide NodeText, KeyText, CommaText, FillersText, ItemOk, NodeOk;
    Regroup5(KeyText(keyed, items[0]), NodeText(items[0].value), FillersText(items[0].before), CommaText(items[0]),
             ItemsText(keyed, items[1..]), [close]);
  }

  lemma ItemAt(keyed: bool, items: seq<Item>, close: Byte, json: Bytes, pos: nat)
    requires items != [] && ItemsOk(keyed, items) && At(json, pos, ItemsText(keyed, items) + [close])
    ensures ItemOk(keyed, items[0]) && NodeOk(items[0].value) && ItemsOk(keyed, items[1..])
    ensures var it, at := items[0], SpotOf(keyed, items[0], pos);
      && At(json, pos, KeyText(keyed, it)) && At(json, at.value, NodeText(it.value))
      && At(json, at.behind, FillersText(it.before)) && At(json, at.comma, CommaText(it))
      && At(json, at.next, ItemsText(keyed, items[1..]) + [close])
      && pos + |ItemsText(keyed, items)| == at.next + |ItemsText(keyed, items[1..])|
      && at.behind == at.value + |NodeText(it.value)|
  {
    hide *;
    ItemsSplit(keyed, items);
    ItemsUnfold(keyed, items, close);
    SpotDef(keyed, items[0], pos);
    var it, at, rest := items[0], SpotOf(keyed, items[0], pos), ItemsText(keyed, items[1..]) + [close];
    AtSplit(json, pos, KeyText(keyed, it), NodeText(it.value) + (FillersText(it.before) + (CommaText(it) + rest)));
    AtSplit(json, at.value, NodeText(it.value), FillersText(it.before) + (CommaText(it) + rest));
    AtSplit(json, at.behind, FillersText(it.before), CommaText(it) + rest);
    AtSplit(json, at.comma, CommaText(it), rest);
  }

  /** The first byte of the remaining items, or the closing bracket. */
  lemma ItemsBegin(keyed: bool, items: seq<Item>, close: Byte, json: Bytes, pos: nat)
    requires ItemsOk(keyed, items) && At(json, pos, ItemsText(keyed, items) + [close])
    requires close == RBRACKET || close == RBRACE
    ensures pos < |json| && Solid(json[pos]) && json[pos] != COMMA
    ensures items == [] ==> json[pos] == close
    ensures items != [] ==> json[pos] != close && Begins(json[pos])
    ensures keyed && items != [] ==> json[pos] == QUOTE
  {
    hide NodeText, NodeOk, ItemsText, FillersText, Spelling, Begins;
    if items == [] {
      NoItemsText(keyed);
      AtHead(json, pos, [] + [close]);
    } else {
      ItemAt(keyed, items, close, json, pos);
      var it := items[0];
      if keyed {
        QuoteBegins(it);
        AtHead(json, pos, KeyText(keyed, it));
      } else {
        NodeBegins(it.value);
        AtHead(json, pos, NodeText(it.value));
      }
      BeginsSolid(json[pos]);
    }
  }

  lemma NoItemsText(keyed: bool)
    ensures ItemsOk(keyed, []) && ItemsText(keyed, []) == []
  {
  }

  lemma QuoteBegins(it: Item)
    requires ItemOk(true, it)
    ensures KeyText(true, it) != [] && KeyText(true, it)[0] == QUOTE && Begins(QUOTE)
  {
    hide Spelling, FillersText;
  }

  /** What stands behind an item's value: nothing that continues it, then the comma or the closing bracket. */
  lemma Between(keyed: bool, items: seq<Item>, close: Byte, json: Bytes, pos: nat)
    requires items != [] && ItemsOk(keyed, items) && At(json, pos, ItemsText(keyed, items) + [close])
    requires close == RBRACKET || close == RBRACE
    requires ItemOk(keyed, items[0]) && NodeOk(items[0].value)
    ensures var it, at := items[0], SpotOf(keyed, items[0], pos);
      && Ends(json, at.behind) && Skip(json, at.behind) == Some(at.comma) && at.comma < |json|
      && json[at.comma] == (if it.comma then COMMA else close)
      && (it.comma ==> At(json, at.comma + 1, FillersText(it.after)) && at.next == at.comma + 1 + |FillersText(it.after)|)
      && (!it.comma ==> items[1..] == [] && at.next == at.comma)
  {
    hide *;
    var it, at := items[0], SpotOf(keyed, items[0], pos);
    ItemAt(keyed, items, close, json, pos);
    ItemsSplit(keyed, items);
    SpotDef(keyed, it, pos);
    ItemFillers(keyed, it);
    CommaIs(it);
    ItemsBegin(keyed, items[1..], close, json, at.next);
    MarksSolid();
    if it.comma {
      AtSplit(json, at.comma, [COMMA], FillersText(it.after));
      AtHead(json, at.comma, [COMMA]);
    } else {
      assert items[1..] == [];
    }
    SkipsTo(it.before, json, at.behind);
    if it.before == [] { NothingFilled(); MarkEnds(json, at.comma); } else { FillersStart(it.before, json, at.behind); }
  }

  lemma NothingFilled()
    ensures FillersText([]) == []
  {
  }

  lemma ItemFillers(keyed: bool, it: Item)
    requires ItemOk(keyed, it)
    ensures Fills(it.before) && Fills(it.after) && (keyed ==> StringOk(it.key) && Fills(it.gap) && Fills(it.colonGap))
  {
    hide Fills, StringOk;
  }

  lemma CommaIs(it: Item)
    ensures CommaText(it) == if it.comma then [COMMA] + FillersText(it.after) else []
  {
  }

  lemma MarksSolid()
    ensures Solid(COMMA) && Solid(COLON) && Solid(RBRACKET) && Solid(RBRACE)
  {
  }

  lemma MarkEnds(json: Bytes, pos: nat)
    requires pos < |json| && (json[pos] == COMMA || json[pos] == RBRACKET || json[pos] == RBRACE)
    ensures Ends(json, pos)
  {
  }

  // ---------- Loops ----------

  ghost predicate NodeRead(plat: Platform, n: Node, json: Bytes, pos: nat, depth: nat, end: nat)
    requires NodeOk(n)
  {
    match Denote(plat, n, depth)
    case None => ParseValue(plat, json, pos, depth).Err?
    case Some(v) => ParseValue(plat, json, pos, depth) == Ok(v, end)
  }

  lemma NodeIs(plat: Platform, n: Node, json: Bytes, pos: nat, depth: nat, end: nat)
    requires NodeOk(n) && NodeRead(plat, n, json, pos, depth, end)
    ensures Denote(plat, n, depth).None? ==> ParseValue(plat, json, pos, depth).Err?
    ensures Denote(plat, n, depth).Some? ==> ParseValue(plat, json, pos, depth) == Ok(Denote(plat, n, depth).value, end)
  {
    hide NodeOk, Denote, ParseValue;
  }

  ghost predicate ElementsRead(plat: Platform, items: seq<Item>, json: Bytes, pos: nat, depth: nat, acc: seq<Value>, end: nat)
    requires ItemsOk(false, items)
  {
    var vs := ElementsOf(plat, items, depth);
    if vs.None? || |acc| + |items| > MAX_ARRAY_SIZE then ParseElements(plat, json, pos, depth, acc).Err?
    else ParseElements(plat, json, pos, depth, acc) == Ok(acc + vs.value, end)
  }

  ghost predicate MembersRead(plat: Platform, items: seq<Item>, json: Bytes, pos: nat, depth: nat, acc: map<Bytes, Value>, end: nat)
    requires ItemsOk(true, items)
  {
    match MembersOf(plat, items, depth, acc)
    case None => ParseMembers(plat, json, pos, depth, acc).Err?
    case Some(m) => ParseMembers(plat, json, pos, depth, acc) == Ok(m, end)
  }

  /** Fillers in front of the loops do not matter. */
  lemma LoopSkips(plat: Platform, json: Bytes, pos: nat, p: nat, depth: nat)
    requires Skip(json, pos) == Some(p) && p < |json| && Solid(json[p])
    ensures forall acc :: ParseElements(plat, json, pos, depth, acc) == ParseElements(plat, json, p, depth, acc)
    ensures forall acc :: ParseMembers(plat, json, pos, depth, acc) == ParseMembers(plat, json, p, depth, acc)
  {
    hide Skip, ParseValue, ParseMember, AfterItem;
    SkipSolid(json, p);
  }

  lemma ElementTurn(plat: Platform, json: Bytes, pos: nat, depth: nat, acc: seq<Value>, v: Value, behind: nat, mark: nat)
    requires pos < |json| && Solid(json[pos]) && json[pos] != RBRACKET
    requires ParseValue(plat, json, pos, depth) == Ok(v, behind) && Skip(json, behind) == Some(mark) && mark < |json|
    requires json[mark] == COMMA || json[mark] == RBRACKET
    ensures ParseElements(plat, json, pos, depth, acc)
         == if |acc| + 1 > MAX_ARRAY_SIZE then Err(TooLarge)
            else if json[mark] == COMMA then ParseElements(plat, json, mark + 1, depth, acc + [v])
            else Ok(acc + [v], mark + 1)
  {
    hide Skip, ParseValue;
    SkipSolid(json, pos);
  }

  lemma ElementFails(plat: Platform, json: Bytes, pos: nat, depth: nat, acc: seq<Value>)
    requires pos < |json| && Solid(json[pos]) && json[pos] != RBRACKET
    requires ParseValue(plat, json, pos, depth).Err? || |acc| + 1 > MAX_ARRAY_SIZE
    ensures ParseElements(plat, json, pos, depth, acc).Err?
  {
    hide Skip, ParseValue;
    SkipSolid(json, pos);
  }

  lemma LoopEnds(plat: Platform, json: Bytes, pos: nat, depth: nat)
    requires pos < |json|
    ensures json[pos] == RBRACKET ==> forall acc :: ParseElements(plat, json, pos, depth, acc) == Ok(acc, pos + 1)
    ensures json[pos] == RBRACE ==> forall acc :: ParseMembers(plat, json, pos, depth, acc) == Ok(acc, pos + 1)
  {
    hide ParseValue, ParseMember, AfterItem;
  }

  lemma ElementsUnfold(plat: Platform, items: seq<Item>, depth: nat)
    requires items != [] && ItemsOk(false, items) && NodeOk(items[0].value) && ItemsOk(false, items[1..])
    ensures var v, vs := Denote(plat, items[0].value, depth), ElementsOf(plat, items[1..], depth);
      ElementsOf(plat, items, depth) == if v.Some? && vs.Some? then Some([v.value] + vs.value) else None
    ensures items[1..] == [] ==> ElementsOf(plat, items[1..], depth) == Some([])
  {
    hide Denote, NodeOk, ItemOk;
  }

  lemma MembersUnfold(plat: Platform, items: seq<Item>, depth: nat, acc: map<Bytes, Value>)
    requires items != [] && ItemsOk(true, items) && NodeOk(items[0].value) && ItemsOk(true, items[1..]) && PiecesOk(items[0].key)
    ensures var v := Denote(plat, items[0].value, depth);
      MembersOf(plat, items, depth, acc)
      == if |acc| >= MAX_OBJECT_SIZE || |Spelling(items[0].key)| > MAX_STRING_LEN || v.None? then None
         else MembersOf(plat, items[1..], depth, acc[Spelled(items[0].key) := v.value])
    ensures items[1..] == [] ==> forall m :: MembersOf(plat, items[1..], depth, m) == Some(m)
  {
    hide Denote, NodeOk, ItemOk, Spelling, Spelled;
  }

  lemma {:induction false} ReadElements(plat: Platform, items: seq<Item>, json: Bytes, pos: nat, depth: nat, acc: seq<Value>)
    requires ItemsOk(false, items) && At(json, pos, ItemsText(false, items) + [RBRACKET]) && |acc| <= MAX_ARRAY_SIZE
    ensures ElementsRead(plat, items, json, pos, depth, acc, pos + |ItemsText(false, items)| + 1)
    decreases items, 1
  {
    hide *;
    ItemsBegin(false, items, RBRACKET, json, pos);
    if items == [] {
      NoItemsText(false);
      LoopEnds(plat, json, pos, depth);
      NoElements(plat, json, pos, depth, acc);
    } else {
      FirstElement(plat, items, json, pos, depth, acc);
    }
  }

  lemma NoElements(plat: Platform, json: Bytes, pos: nat, depth: nat, acc: seq<Value>)
    requires ParseElements(plat, json, pos, depth, acc) == Ok(acc, pos + 1)
    ensures ItemsOk(false, []) && (|acc| <= MAX_ARRAY_SIZE ==> ElementsRead(plat, [], json, pos, depth, acc, pos + 1))
  {
    assert acc + [] == acc;
  }

  lemma {:induction false} FirstElement(plat: Platform, items: seq<Item>, json: Bytes, pos: nat, depth: nat, acc: seq<Value>)
    requires items != [] && ItemsOk(false, items) && At(json, pos, ItemsText(false, items) + [RBRACKET]) && |acc| <= MAX_ARRAY_SIZE
    requires pos < |json| && Solid(json[pos]) && json[pos] != RBRACKET
    ensures ElementsRead(plat, items, json, pos, depth, acc, pos + |ItemsText(false, items)| + 1)
    decreases items, 0
  {
    hide *;
    ItemAt(false, items, RBRACKET, json, pos);
    Between(false, items, RBRACKET, json, pos);
    var it, at, end := items[0], SpotOf(false, items[0], pos), pos + |ItemsText(false, items)| + 1;
    Unkeyed(it, pos);
    ReadNode(plat, it.value, json, pos, depth);
    NodeIs(plat, it.value, json, pos, depth, at.behind);
    ElementsUnfold(plat, items, depth);
    var v := Denote(plat, it.value, depth);
    if v.None? || |acc| + 1 > MAX_ARRAY_SIZE {
      ElementFails(plat, json, pos, depth, acc);
      ElementsRefused(plat, items, json, pos, depth, acc, end);
    } else {
      ElementTurn(plat, json, pos, depth, acc, v.value, at.behind, at.comma);
      if it.comma {
        ItemsBegin(false, items[1..], RBRACKET, json, at.next);
        ItemFillers(false, it);
        SkipsTo(it.after, json, at.comma + 1);
        LoopSkips(plat, json, at.comma + 1, at.next, depth);
        ReadElements(plat, items[1..], json, at.next, depth, acc + [v.value]);
        ElementJoined(plat, items, json, pos, at.next, depth, acc, end);
      } else {
        NoItemsText(false);
        CommaIsNot();
        ElementLast(plat, items, json, pos, depth, acc, end);
      }
    }
  }

  lemma CommaIsNot()
    ensures COMMA != RBRACKET && COMMA != RBRACE
  {
  }

  lemma Unkeyed(it: Item, pos: nat)
    requires ItemOk(false, it) && NodeOk(it.value)
    ensures SpotOf(false, it, pos).value == pos
  {
    hide NodeText, FillersText, NodeOk;
  }

  lemma ElementsRefused(plat: Platform, items: seq<Item>, json: Bytes, pos: nat, depth: nat, acc: seq<Value>, end: nat)
    requires items != [] && ItemsOk(false, items) && ParseElements(plat, json, pos, depth, acc).Err?
    requires ElementsOf(plat, items, depth).None? || |acc| + |items| > MAX_ARRAY_SIZE
    ensures ElementsRead(plat, items, json, pos, depth, acc, end)
  {
    hide ElementsOf, ParseElements, ItemsOk;
  }

  lemma ElementJoined(plat: Platform, items: seq<Item>, json: Bytes, pos: nat, next: nat, depth: nat, acc: seq<Value>, end: nat)
    requires items != [] && ItemsOk(false, items) && NodeOk(items[0].value) && ItemsOk(false, items[1..])
    requires Denote(plat, items[0].value, depth).Some?
    requires var acc' := acc + [Denote(plat, items[0].value, depth).value];
      && ParseElements(plat, json, pos, depth, acc) == ParseElements(plat, json, next, depth, acc')
      && ElementsRead(plat, items[1..], json, next, depth, acc', end)
    ensures ElementsRead(plat, items, json, pos, depth, acc, end)
  {
    hide ElementsOf, ParseElements, ItemsOk, NodeOk, Denote;
    ElementsUnfold(plat, items, depth);
    var v, vs := Denote(plat, items[0].value, depth).value, ElementsOf(plat, items[1..], depth);
    if vs.Some? { Regrouped(acc, [v], vs.value); }
  }

  lemma ElementLast(plat: Platform, items: seq<Item>, json: Bytes, pos: nat, depth: nat, acc: seq<Value>, end: nat)
    requires items != [] && ItemsOk(false, items) && NodeOk(items[0].value) && items[1..] == [] && |acc| < MAX_ARRAY_SIZE
    requires Denote(plat, items[0].value, depth).Some?
    requires ParseElements(plat, json, pos, depth, acc) == Ok(acc + [Denote(plat, items[0].value, depth).value], end)
    ensures ElementsRead(plat, items, json, pos, depth, acc, end)
  {
    hide ElementsOf, ParseElements, ItemsOk, NodeOk, Denote;
    NoItemsText(false);
    ElementsUnfold(plat, items, depth);
    assert |items| == 1;
    assert [Denote(plat, items[0].value, depth).value] + [] == [Denote(plat, items[0].value, depth).value];
  }

  // ---------- Members ----------

  lemma KeyAt(it: Item, json: Bytes, pos: nat)
    requires ItemOk(true, it) && NodeOk(it.value) && At(json, pos, KeyText(true, it))
    requires var v := SpotOf(true, it, pos).value; v < |json| && Solid(json[v])
    ensures var p := pos + |StringText(it.key)|; var c := p + |FillersText(it.gap)|;
      && At(json, pos, StringText(it.key)) && Skip(json, p) == Some(c) && c < |json| && json[c] == COLON
      && Skip(json, c + 1) == Some(SpotOf(true, it, pos).value)
  {
    hide *;
    ItemFillers(true, it);
    StringIsOk(it.key);
    KeyIs(it);
    SpotDef(true, it, pos);
    MarksSolid();
    var key, gap, behind := StringText(it.key), FillersText(it.gap), FillersText(it.colonGap);
    var p := pos + |key|;
    AtSplit(json, pos, key, gap + ([COLON] + behind));
    AtSplit(json, p, gap, [COLON] + behind);
    AtSplit(json, p + |gap|, [COLON], behind);
    AtHead(json, p + |gap|, [COLON]);
    SkipsTo(it.gap, json, p);
    SkipsTo(it.colonGap, json, p + |gap| + 1);
  }

  lemma StringIsOk(ps: seq<Piece>)
    requires StringOk(ps)
    ensures PiecesOk(ps)
  {
  }

  lemma KeyIs(it: Item)
    requires ItemOk(true, it) && PiecesOk(it.key)
    ensures KeyText(true, it) == StringText(it.key) + (FillersText(it.gap) + ([COLON] + FillersText(it.colonGap)))
    ensures |KeyText(true, it)| == |StringText(it.key)| + |FillersText(it.gap)| + 1 + |FillersText(it.colonGap)|
  {
    hide StringText, FillersText;
  }

  lemma MemberValue(plat: Platform, it: Item, json: Bytes, pos: nat, depth: nat)
    requires ItemOk(true, it) && NodeOk(it.value) && PiecesOk(it.key) && At(json, pos, KeyText(true, it))
    requires var v := SpotOf(true, it, pos).value; v < |json| && Solid(json[v])
    ensures |Spelling(it.key)| > MAX_STRING_LEN ==> ParseMember(plat, json, pos, depth).Err?
    ensures |Spelling(it.key)| <= MAX_STRING_LEN ==>
      var r := ParseValue(plat, json, SpotOf(true, it, pos).value, depth);
      if r.Err? then ParseMember(plat, json, pos, depth).Err?
      else ParseMember(plat, json, pos, depth) == Ok((Spelled(it.key), r.value), r.pos)
  {
    hide *;
    KeyAt(it, json, pos);
    ItemFillers(true, it);
    KeyRead(it.key, json, pos);
    var c := pos + |StringText(it.key)| + |FillersText(it.gap)|;
    StepBlanks(plat, json, c + 1, SpotOf(true, it, pos).value, depth);
    MemberStep(plat, json, pos, depth);
    ColonAt(json, c);
  }

  lemma ColonAt(json: Bytes, c: nat)
    requires c < |json| && json[c] == COLON
    ensures Cur(json, c) == COLON
  {
  }

  lemma MemberStep(plat: Platform, json: Bytes, pos: nat, depth: nat)
    ensures ReadKey(json, pos).Err? ==> ParseMember(plat, json, pos, depth).Err?
    ensures ReadKey(json, pos).Ok? && Skip(json, ReadKey(json, pos).pos).Some? ==>
      var key, c := ReadKey(json, pos).value, Skip(json, ReadKey(json, pos).pos).value;
      Cur(json, c) == COLON ==>
        var r := ParseValue(plat, json, c + 1, depth);
        if r.Err? then ParseMember(plat, json, pos, depth).Err?
        else ParseMember(plat, json, pos, depth) == Ok((key, r.value), r.pos)
  {
    hide ReadKey, Skip, ParseValue;
  }

  lemma MemberTurn(plat: Platform, json: Bytes, pos: nat, depth: nat, acc: map<Bytes, Value>, k: Bytes, v: Value, behind: nat,
                   mark: nat)
    requires pos < |json| && Solid(json[pos]) && json[pos] != RBRACE
    requires ParseMember(plat, json, pos, depth) == Ok((k, v), behind) && Skip(json, behind) == Some(mark) && mark < |json|
    requires json[mark] == COMMA || json[mark] == RBRACE
    ensures ParseMembers(plat, json, pos, depth, acc)
         == if |acc| + 1 > MAX_OBJECT_SIZE then Err(TooLarge)
            else if json[mark] == COMMA then ParseMembers(plat, json, mark + 1, depth, acc[k := v])
            else Ok(acc[k := v], mark + 1)
  {
    hide Skip, ParseMember;
    SkipSolid(json, pos);
  }

  lemma MemberFails(plat: Platform, json: Bytes, pos: nat, depth: nat, acc: map<Bytes, Value>)
    requires pos < |json| && Solid(json[pos]) && json[pos] != RBRACE
    requires ParseMember(plat, json, pos, depth).Err? || |acc| + 1 > MAX_OBJECT_SIZE
    ensures ParseMembers(plat, json, pos, depth, acc).Err?
  {
    hide Skip, ParseMember;
    SkipSolid(json, pos);
  }

  lemma {:induction false} ReadMembers(plat: Platform, items: seq<Item>, json: Bytes, pos: nat, depth: nat, acc: map<Bytes, Value>)
    requires ItemsOk(true, items) && At(json, pos, ItemsText(true, items) + [RBRACE])
    ensures MembersRead(plat, items, json, pos, depth, acc, pos + |ItemsText(true, items)| + 1)
    decreases items, 1
  {
    hide *;
    ItemsBegin(true, items, RBRACE, json, pos);
    if items == [] {
      NoItemsText(true);
      LoopEnds(plat, json, pos, depth);
      NoMembers(plat, json, pos, depth, acc);
    } else {
      FirstMember(plat, items, json, pos, depth, acc);
    }
  }

  lemma NoMembers(plat: Platform, json: Bytes, pos: nat, depth: nat, acc: map<Bytes, Value>)
    requires ParseMembers(plat, json, pos, depth, acc) == Ok(acc, pos + 1)
    ensures ItemsOk(true, []) && MembersRead(plat, [], json, pos, depth, acc, pos + 1)
  {
  }

  lemma {:induction false} FirstMember(plat: Platform, items: seq<Item>, json: Bytes, pos: nat, depth: nat, acc: map<Bytes, Value>)
    requires items != [] && ItemsOk(true, items) && At(json, pos, ItemsText(true, items) + [RBRACE])
    requires pos < |json| && Solid(json[pos]) && json[pos] != RBRACE
    ensures MembersRead(plat, items, json, pos, depth, acc, pos + |ItemsText(true, items)| + 1)
    decreases items, 0
  {
    hide *;
    ItemAt(true, items, RBRACE, json, pos);
    Between(true, items, RBRACE, json, pos);
    var it, at, end := items[0], SpotOf(true, items[0], pos), pos + |ItemsText(true, items)| + 1;
    ItemFillers(true, it);
    StringIsOk(it.key);
    NodeBegins(it.value);
    AtHead(json, at.value, NodeText(it.value));
    BeginsSolid(json[at.value]);
    ReadNode(plat, it.value, json, at.value, depth);
    NodeIs(plat, it.value, json, at.value, depth, at.behind);
    MemberValue(plat, it, json, pos, depth);
    MembersUnfold(plat, items, depth, acc);
    var v := Denote(plat, it.value, depth);
    if v.None? || |acc| >= MAX_OBJECT_SIZE || |Spelling(it.key)| > MAX_STRING_LEN {
      MemberFails(plat, json, pos, depth, acc);
      MembersRefused(plat, items, json, pos, depth, acc, end);
    } else {
      var acc' := acc[Spelled(it.key) := v.value];
      MemberTurn(plat, json, pos, depth, acc, Spelled(it.key), v.value, at.behind, at.comma);
      if it.comma {
        ItemsBegin(true, items[1..], RBRACE, json, at.next);
        SkipsTo(it.after, json, at.comma + 1);
        LoopSkips(plat, json, at.comma + 1, at.next, depth);
        ReadMembers(plat, items[1..], json, at.next, depth, acc');
        MemberJoined(plat, items, json, pos, at.next, depth, acc, acc', end);
      } else {
        NoItemsText(true);
        CommaIsNot();
        MemberLast(plat, items, json, pos, depth, acc, acc', end);
      }
    }
  }

  lemma MembersRefused(plat: Platform, items: seq<Item>, json: Bytes, pos: nat, depth: nat, acc: map<Bytes, Value>, end: nat)
    requires items != [] && ItemsOk(true, items) && ParseMembers(plat, json, pos, depth, acc).Err?
    requires MembersOf(plat, items, depth, acc).None?
    ensures MembersRead(plat, items, json, pos, depth, acc, end)
  {
    hide MembersOf, ParseMembers, ItemsOk;
  }

  lemma MemberJoined(plat: Platform, items: seq<Item>, json: Bytes, pos: nat, next: nat, depth: nat, acc: map<Bytes, Value>,
                     acc': map<Bytes, Value>, end: nat)
    requires items != [] && ItemsOk(true, items) && ItemsOk(true, items[1..])
    requires MembersOf(plat, items, depth, acc) == MembersOf(plat, items[1..], depth, acc')
    requires ParseMembers(plat, json, pos, depth, acc) == ParseMembers(plat, json, next, depth, acc')
    requires MembersRead(plat, items[1..], json, next, depth, acc', end)
    ensures MembersRead(plat, items, json, pos, depth, acc, end)
  {
    hide MembersOf, ParseMembers, ItemsOk;
  }

  lemma MemberLast(plat: Platform, items: seq<Item>, json: Bytes, pos: nat, depth: nat, acc: map<Bytes, Value>,
                   acc': map<Bytes, Value>, end: nat)
    requires items != [] && ItemsOk(true, items) && MembersOf(plat, items, depth, acc) == Some(acc')
    requires ParseMembers(plat, json, pos, depth, acc) == Ok(acc', end)
    ensures MembersRead(plat, items, json, pos, depth, acc, end)
  {
    hide MembersOf, ParseMembers, ItemsOk;
  }

  // ---------- Values ----------

  /** A value, however written, before anything that does not continue it: what it denotes, or failure where it denotes
      nothing. */
  lemma {:induction false} ReadNode(plat: Platform, n: Node, json: Bytes, pos: nat, depth: nat)
    requires NodeOk(n) && At(json, pos, NodeText(n)) && Ends(json, pos + |NodeText(n)|)
    ensures NodeRead(plat, n, json, pos, depth, pos + |NodeText(n)|)
    decreases n, 0
  {
    hide *;
    match n
    case Str(ps) => ReadString(plat, ps, json, pos, depth);
    case Num(p) => ReadNumber(plat, p, json, pos, depth);
    case Flag(flag) => ReadWord(plat, n, json, pos, depth);
    case Nil => ReadWord(plat, n, json, pos, depth);
    case NotANumber(_) => ReadNonFinite(plat, n, json, pos, depth);
    case Endless(_) => ReadNonFinite(plat, n, json, pos, depth);
    case Arr(lead, items) => ReadArray(plat, lead, items, json, pos, depth);
    case Obj(lead, items) => ReadObject(plat, lead, items, json, pos, depth);
  }

  lemma ReadString(plat: Platform, ps: seq<Piece>, json: Bytes, pos: nat, depth: nat)
    requires NodeOk(Str(ps)) && At(json, pos, NodeText(Str(ps)))
    ensures NodeRead(plat, Str(ps), json, pos, depth, pos + |NodeText(Str(ps))|)
  {
    hide Spelling, StringValue, StringOrDateTime, ParseValue, StringOk;
    StringIsOk(ps);
    AtHead(json, pos, StringText(ps));
    StepString(plat, json, pos, depth);
    StringRead(plat, ps, json, pos);
  }

  lemma ReadNumber(plat: Platform, p: JsonNumbers.Parts, json: Bytes, pos: nat, depth: nat)
    requires NodeOk(Num(p)) && At(json, pos, NodeText(Num(p))) && Ends(json, pos + |NodeText(Num(p))|)
    ensures NodeRead(plat, Num(p), json, pos, depth, pos + |NodeText(Num(p))|)
  {
    hide Number, ParseValue, JsonNumbers.Spelled, JsonNumbers.NumberValue, JsonNumbers.PartsOk, Ends;
    var text := JsonNumbers.Spelled(p);
    JsonNumbers.SpelledStarts(p);
    AtHead(json, pos, text);
    if text[0] == MINUS { AtHead(json, pos + 1, text[1..]); }
    StepNumber(plat, json, pos, depth);
    JsonNumbers.NumberRead(plat, p, json, pos);
  }

  lemma ReadWord(plat: Platform, n: Node, json: Bytes, pos: nat, depth: nat)
    requires n.Flag? || n.Nil?
    requires At(json, pos, NodeText(n)) && Ends(json, pos + |NodeText(n)|)
    ensures NodeRead(plat, n, json, pos, depth, pos + |NodeText(n)|)
  {
    hide ParseValue;
    if n.Nil? { StepLiteral(plat, json, pos, depth, NULL_TEXT, Null); }
    else if n.flag { StepLiteral(plat, json, pos, depth, TRUE_TEXT, Bool(true)); }
    else { StepLiteral(plat, json, pos, depth, FALSE_TEXT, Bool(false)); }
  }

  lemma ReadNonFinite(plat: Platform, n: Node, json: Bytes, pos: nat, depth: nat)
    requires n.NotANumber? || n.Endless?
    requires At(json, pos, NodeText(n)) && Ends(json, pos + |NodeText(n)|)
    ensures NodeRead(plat, n, json, pos, depth, pos + |NodeText(n)|)
  {
    hide ParseValue;
    var word := if n.NotANumber? then NAN_TEXT else INFINITY_TEXT;
    AtSplit(json, pos, SignText(n.minus), word);
    var p := pos + |SignText(n.minus)|;
    AtHead(json, p, word);
    if n.minus { AtHead(json, pos, [MINUS]); }
    SkipSolid(json, pos);
    if plat.allowNaNInfinity {
      NonFiniteIs(n, json, pos);
      StepNonFinite(plat, n, json, pos, depth);
    } else {
      StepNoNumber(plat, json, pos, depth);
    }
  }

  lemma NonFiniteIs(n: Node, json: Bytes, pos: nat)
    requires (n.NotANumber? || n.Endless?) && At(json, pos, NodeText(n))
    ensures NonFinite(json, pos)
         == Some((NodeText(n), (if n.minus then TWO_63 else 0) + (if n.NotANumber? then NOT_A_NUMBER else ENDLESS)))
  {
    var text := NodeText(n);
    AtHead(json, pos, text);
    AtHead(json, pos + 1, text[1..]);
    assert Spells(json, pos, text);
    if text != NAN_TEXT { NotSpelled(json, pos, NAN_TEXT); }
    if text != NAN_TEXT && text != INFINITY_TEXT { NotSpelled(json, pos, INFINITY_TEXT); }
    if text == [MINUS] + NAN_TEXT { NotSpelled(json, pos, [MINUS] + INFINITY_TEXT); }
  }

  lemma StepNonFinite(plat: Platform, n: Node, json: Bytes, pos: nat, depth: nat)
    requires plat.allowNaNInfinity && (n.NotANumber? || n.Endless?) && At(json, pos, NodeText(n))
    requires Ends(json, pos + |NodeText(n)|) && Skip(json, pos) == Some(pos) && pos < |json|
    requires NonFinite(json, pos).Some? && NonFinite(json, pos).value.0 == NodeText(n)
    ensures ParseValue(plat, json, pos, depth) == Ok(Leaf(Double(NonFinite(json, pos).value.1)), pos + |NodeText(n)|)
  {
    hide NonFinite, Skip;
    AtHead(json, pos, NodeText(n));
    assert Spells(json, pos, NodeText(n));
  }

  lemma StepNoNumber(plat: Platform, json: Bytes, pos: nat, depth: nat)
    requires !plat.allowNaNInfinity && pos < |json| && Skip(json, pos) == Some(pos)
    requires json[pos] == 78 || json[pos] == 73 || (json[pos] == MINUS && !IsDigit(Cur(json, pos + 1)))
    ensures ParseValue(plat, json, pos, depth).Err?
  {
    hide Skip;
  }

  /** Behind an opening bracket. */
  lemma Opened(keyed: bool, open: Byte, lead: seq<Filler>, items: seq<Item>, close: Byte, json: Bytes, pos: nat)
    requires Fills(lead) && ItemsOk(keyed, items) && (close == RBRACKET || close == RBRACE)
    requires At(json, pos, [open] + (FillersText(lead) + (ItemsText(keyed, items) + [close])))
    ensures var p := pos + 1 + |FillersText(lead)|;
      && pos < |json| && json[pos] == open && Skip(json, pos + 1) == Some(p) && p < |json| && Solid(json[p])
      && At(json, p, ItemsText(keyed, items) + [close])
  {
    hide *;
    var body := ItemsText(keyed, items) + [close];
    AtSplit(json, pos, [open], FillersText(lead) + body);
    AtHead(json, pos, [open]);
    AtSplit(json, pos + 1, FillersText(lead), body);
    ItemsBegin(keyed, items, close, json, pos + 1 + |FillersText(lead)|);
    SkipsTo(lead, json, pos + 1);
  }

  lemma {:induction false} ReadArray(plat: Platform, lead: seq<Filler>, items: seq<Item>, json: Bytes, pos: nat, depth: nat)
    requires NodeOk(Arr(lead, items)) && At(json, pos, NodeText(Arr(lead, items)))
    ensures NodeRead(plat, Arr(lead, items), json, pos, depth, pos + |NodeText(Arr(lead, items))|)
    decreases items, 2
  {
    hide *;
    ArrayIs(lead, items);
    Opened(false, LBRACKET, lead, items, RBRACKET, json, pos);
    var p := pos + 1 + |FillersText(lead)|;
    StepArray(plat, json, pos, depth);
    LoopSkips(plat, json, pos + 1, p, depth + 1);
    NothingYet();
    ReadElements(plat, items, json, p, depth + 1, []);
    ArrayClosed(plat, lead, items, json, pos, p, depth, p + |ItemsText(false, items)| + 1);
  }

  lemma NothingYet()
    ensures 0 <= MAX_ARRAY_SIZE
  {
  }

  lemma ArrayIs(lead: seq<Filler>, items: seq<Item>)
    requires NodeOk(Arr(lead, items))
    ensures Fills(lead) && ItemsOk(false, items)
    ensures NodeText(Arr(lead, items)) == [LBRACKET] + (FillersText(lead) + (ItemsText(false, items) + [RBRACKET]))
    ensures |NodeText(Arr(lead, items))| == 1 + |FillersText(lead)| + |ItemsText(false, items)| + 1
  {
    hide ItemsText, ItemsOk, FillersText, Fills;
  }

  lemma ArrayClosed(plat: Platform, lead: seq<Filler>, items: seq<Item>, json: Bytes, pos: nat, p: nat, depth: nat, end: nat)
    requires NodeOk(Arr(lead, items)) && ItemsOk(false, items)
    requires ElementsRead(plat, items, json, p, depth + 1, [], end)
    requires ParseElements(plat, json, pos + 1, depth + 1, []) == ParseElements(plat, json, p, depth + 1, [])
    requires ParseValue(plat, json, pos, depth)
      == if depth + 1 > MAX_NESTING_DEPTH then Err(TooDeep)
         else match ParseElements(plat, json, pos + 1, depth + 1, [])
              case Err(e) => Err(e)
              case Ok(vs, q) => Ok(Array(vs), q)
    ensures NodeRead(plat, Arr(lead, items), json, pos, depth, end)
  {
    hide ParseElements, ElementsOf, ItemsOk, ParseValue;
    var vs := ElementsOf(plat, items, depth + 1);
    if vs.Some? { assert [] + vs.value == vs.value; }
  }

  lemma {:induction false} ReadObject(plat: Platform, lead: seq<Filler>, items: seq<Item>, json: Bytes, pos: nat, depth: nat)
    requires NodeOk(Obj(lead, items)) && At(json, pos, NodeText(Obj(lead, items)))
    ensures NodeRead(plat, Obj(lead, items), json, pos, depth, pos + |NodeText(Obj(lead, items))|)
    decreases items, 2
  {
    hide *;
    ObjectIs(lead, items);
    Opened(true, LBRACE, lead, items, RBRACE, json, pos);
    var p := pos + 1 + |FillersText(lead)|;
    StepObject(plat, json, pos, depth);
    LoopSkips(plat, json, pos + 1, p, depth + 1);
    ReadMembers(plat, items, json, p, depth + 1, map[]);
    ObjectClosed(plat, lead, items, json, pos, p, depth, p + |ItemsText(true, items)| + 1);
  }

  lemma ObjectIs(lead: seq<Filler>, items: seq<Item>)
    requires NodeOk(Obj(lead, items))
    ensures Fills(lead) && ItemsOk(true, items)
    ensures NodeText(Obj(lead, items)) == [LBRACE] + (FillersText(lead) + (ItemsText(true, items) + [RBRACE]))
    ensures |NodeText(Obj(lead, items))| == 1 + |FillersText(lead)| + |ItemsText(true, items)| + 1
  {
    hide ItemsText, ItemsOk, FillersText, Fills;
  }

  lemma ObjectClosed(plat: Platform, lead: seq<Filler>, items: seq<Item>, json: Bytes, pos: nat, p: nat, depth: nat, end: nat)
    requires NodeOk(Obj(lead, items)) && ItemsOk(true, items)
    requires MembersRead(plat, items, json, p, depth + 1, map[], end)
    requires ParseMembers(plat, json, pos + 1, depth + 1, map[]) == ParseMembers(plat, json, p, depth + 1, map[])
    requires ParseValue(plat, json, pos, depth)
      == if depth + 1 > MAX_NESTING_DEPTH then Err(TooDeep)
         else match ParseMembers(plat, json, pos + 1, depth + 1, map[])
              case Err(e) => Err(e)
              case Ok(m, q) => match Special(m) case None => Err(BadText) case Some(v) => Ok(v, q)
    ensures NodeRead(plat, Obj(lead, items), json, pos, depth, end)
  {
    hide ParseMembers, MembersOf, ItemsOk, ParseValue, Special;
  }

  // ---------- Documents ----------

  /** A byte-order mark or none, fillers, a value, fillers; the last comment need not end with a line. */
  datatype Document = Document(mark: bool, lead: seq<Filler>, root: Node, trail: seq<Filler>, last: Bytes)

  ghost predicate DocumentOk(d: Document)
  {
    && Fills(d.lead) && NodeOk(d.root) && Fills(d.trail)
    && (d.last == [] || d.last[0] == HASH || (|d.last| > 1 && d.last[0] == SLASH && d.last[1] == SLASH))
    && OneLine(d.last, ENDINGS)
  }

  ghost function DocumentText(d: Document): (r: Bytes)
    requires DocumentOk(d)
  {
    (if d.mark then [0xEF, 0xBB, 0xBF] else []) + (FillersText(d.lead) + (NodeText(d.root) + (FillersText(d.trail) + d.last)))
  }

  lemma {:induction false} LastLine(t: Bytes, json: Bytes, pos: nat)
    requires At(json, pos, t) && OneLine(t, ENDINGS) && pos + |t| == |json|
    ensures LineEnd(json, pos) == |json|
    decreases |t|
  {
    if t != [] {
      AtHead(json, pos, t);
      assert t[0] !in ENDINGS;
      LastLine(t[1..], json, pos + 1);
    }
  }

  lemma LastSkipped(d: Document, json: Bytes, pos: nat)
    requires DocumentOk(d) && At(json, pos, d.last) && pos + |d.last| == |json|
    ensures Skip(json, pos) == Some(|json|)
  {
    hide LineEnd, NodeOk;
    if d.last != [] {
      AtHead(json, pos, d.last);
      LastLine(d.last, json, pos);
      if d.last[0] == SLASH {
        AtHead(json, pos + 1, d.last[1..]);
        AtSplit(json, pos, d.last[..2], d.last[2..]);
        assert d.last[..2] + d.last[2..] == d.last;
        LastLine(d.last[2..], json, pos + 2);
      }
    }
  }

  ghost function Body(d: Document): (r: Bytes)
    requires DocumentOk(d)
  {
    FillersText(d.lead) + (NodeText(d.root) + (FillersText(d.trail) + d.last))
  }

  lemma DocumentParts(d: Document)
    requires DocumentOk(d)
    ensures Fills(d.lead) && NodeOk(d.root) && Fills(d.trail)
    ensures Body(d) == FillersText(d.lead) + (NodeText(d.root) + (FillersText(d.trail) + d.last))
  {
    hide NodeOk, Fills, NodeText, FillersText;
  }

  /** Behind the root nothing continues it, and fillers go on up to the end. */
  lemma RootEnds(d: Document, json: Bytes, pos: nat)
    requires DocumentOk(d) && At(json, pos, FillersText(d.trail) + d.last) && |json| == pos + |FillersText(d.trail)| + |d.last|
    ensures Ends(json, pos) && Skip(json, pos) == Some(|json|)
  {
    hide NodeOk, Fills, FillersText, Skip, OneLine;
    AtSplit(json, pos, FillersText(d.trail), d.last);
    FillersSkipped(d.trail, json, pos);
    LastSkipped(d, json, pos + |FillersText(d.trail)|);
    if d.trail != [] {
      FillersStart(d.trail, json, pos);
    } else {
      NothingFilled();
      if d.last != [] { AtHead(json, pos, d.last); }
    }
  }

  /** The value at the start of the text, and nothing else in it. */
  lemma ReadBody(plat: Platform, d: Document)
    requires DocumentOk(d)
    ensures var json := Body(d); var v := Denote(plat, d.root, 0);
      if v.None? then ParseValue(plat, json, 0, 0).Err?
      else ParseValue(plat, json, 0, 0).Ok? && ParseValue(plat, json, 0, 0).value == v.value
           && Skip(json, ParseValue(plat, json, 0, 0).pos) == Some(|json|)
    ensures Body(d) != [] && Body(d)[0] != 0xEF
  {
    hide *;
    DocumentParts(d);
    var json, p := Body(d), |FillersText(d.lead)|;
    var e := p + |NodeText(d.root)|;
    JsonNumbers.AtWhole(json);
    AtSplit(json, 0, FillersText(d.lead), NodeText(d.root) + (FillersText(d.trail) + d.last));
    AtSplit(json, p, NodeText(d.root), FillersText(d.trail) + d.last);
    NodeBegins(d.root);
    AtHead(json, p, NodeText(d.root));
    BeginsSolid(json[p]);
    SkipsTo(d.lead, json, 0);
    StepBlanks(plat, json, 0, p, 0);
    RootEnds(d, json, e);
    ReadNode(plat, d.root, json, p, 0);
    NodeIs(plat, d.root, json, p, 0, e);
    if d.lead == [] { NothingFilled(); BeginsAscii(json[0]); } else { FillersAscii(d.lead, json, 0); }
  }

  lemma BeginsAscii(b: Byte)
    requires Begins(b)
    ensures b < 0x80
  {
  }

  lemma FillersAscii(fs: seq<Filler>, json: Bytes, pos: nat)
    requires Fills(fs) && At(json, pos, FillersText(fs)) && fs != []
    ensures pos < |json| && json[pos] < 0x80
  {
    AtSplit(json, pos, FillerText(fs[0]), FillersText(fs[1..]));
    assert FillerOk(fs[0], BLANKS, ENDINGS);
    AtHead(json, pos, FillerText(fs[0]));
  }

  lemma ParseIs(plat: Platform, mark: bool, json: Bytes)
    requires json != [] && json[0] != 0xEF
    ensures ParseDocument(plat, (if mark then [0xEF, 0xBB, 0xBF] else []) + json)
         == match ParseValue(plat, json, 0, 0)
            case Err(_) => None
            case Ok(v, p) => if Skip(json, p) == Some(|json|) then Some(v) else None
  {
    hide ParseValue, Skip;
    var text := (if mark then [0xEF, 0xBB, 0xBF] else []) + json;
    if mark { assert text[3..] == json; } else { assert text == json; }
  }

  /** parse() on any text of the grammar: its value, or failure where it has none. */
  lemma ReadDocument(plat: Platform, d: Document)
    requires DocumentOk(d)
    ensures ParseDocument(plat, DocumentText(d)) == Denote(plat, d.root, 0)
  {
    hide ParseDocument, ParseValue, Skip, Denote, NodeOk, NodeText, FillersText, Fills;
    ReadBody(plat, d);
    ParseIs(plat, d.mark, Body(d));
  }

  // ---------- Keys that come again ----------

  /** The last member with a key gives its value. */
  lemma {:induction false} LastWins(plat: Platform, items: seq<Item>, depth: nat, acc: map<Bytes, Value>, k: Bytes)
    requires ItemsOk(true, items) && MembersOf(plat, items, depth, acc).Some?
    ensures var m := MembersOf(plat, items, depth, acc).value;
      if HasKey(items, k) then k in m && Denote(plat, items[LastAt(items, k)].value, depth) == Some(m[k])
      else (k in m <==> k in acc) && (k in acc ==> m[k] == acc[k])
    decreases items
  {
    hide Denote, NodeOk, Spelling, Spelled, ItemOk;
    if items != [] {
      ItemsSplit(true, items);
      ItemFillers(true, items[0]);
      StringIsOk(items[0].key);
      MembersUnfold(plat, items, depth, acc);
      var v := Denote(plat, items[0].value, depth).value;
      LastWins(plat, items[1..], depth, acc[Spelled(items[0].key) := v], k);
    }
  }

  ghost predicate HasKey(items: seq<Item>, k: Bytes)
    requires ItemsOk(true, items)
  {
    items != [] && ((PiecesOk(items[0].key) && Spelled(items[0].key) == k) || HasKey(items[1..], k))
  }

  ghost function LastAt(items: seq<Item>, k: Bytes): (r: nat)
    requires ItemsOk(true, items) && HasKey(items, k)
    ensures r < |items| && NodeOk(items[r].value)
  {
    if HasKey(items[1..], k) then 1 + LastAt(items[1..], k) else 0
  }
}
