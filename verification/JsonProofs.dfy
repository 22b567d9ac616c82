/** JSON text round trips: parsing what either printer wrote. */
module JsonProofs {
  import opened Bytes
  import opened Values
  import opened Text
  import opened Regexes
  import opened Json
  import opened JsonTokens
  import Base64

  // ---------- What printed text is read as ----------

  /** Scalars whose text does not come from the platform's number and date formatting. */
  ghost predicate Textual(s: Scalar)
  {
    !s.Double? && !s.Float32? && !s.DateTime? && (s.Text? && s.rawNumber ==> IntegerLiteral(s.text))
  }

  function ExpectPlain(plat: Platform, s: Scalar): (r: Option<Value>)
    requires Textual(s) && !IsWrapper(s)
  {
    match s
    case Text(t, false) =>
      if |Escape(t)| > MAX_STRING_LEN then None
      else (match ReadDate(plat, Escape(t)) case Some(dt) => Some(Leaf(DateTime(dt.0, dt.1))) case None => Some(Leaf(s)))
    case Text(t, true) =>
      (match Int64Of(t)
       case Some(n) => Some(Leaf(Int(n)))
       case None => if |t| > MAX_STRING_LEN then None else Some(Leaf(s)))
    case _ => Some(Leaf(s))
  }

  ghost predicate AllTextual(d: Doc)
    decreases d
  {
    match d
    case Atom(s) => Textual(s)
    case List(items) => ItemsTextual(items)
    case Table(es) => EntriesTextual(es)
  }

  ghost predicate ItemsTextual(ds: seq<Doc>)
    decreases ds
  {
    ds == [] || (AllTextual(ds[0]) && ItemsTextual(ds[1..]))
  }

  ghost predicate EntriesTextual(es: seq<Entry>)
    decreases es
  {
    es == [] || (AllTextual(es[0].doc) && EntriesTextual(es[1..]))
  }

  /** The value the parser returns for the printed document, met at nesting `depth`; None where it
      refuses.  Objects that look like Extended JSON are read as what they look like. */
  ghost function Expect(plat: Platform, d: Doc, depth: nat): (r: Option<Value>)
    requires AllTextual(d)
    decreases Rank(d), d, 0
  {
    match d
    case Atom(s) =>
      if IsWrapper(s) then
        WrapperRank(s);
        WrapperTextual(s);
        Expect(plat, WrapperDoc(s), depth)
      else ExpectPlain(plat, s)
    case List(items) =>
      if depth + 1 > MAX_NESTING_DEPTH || |items| > MAX_ARRAY_SIZE then None
      else (match ExpectItems(plat, items, depth + 1) case None => None case Some(vs) => Some(Array(vs)))
    case Table(es) =>
      if depth + 1 > MAX_NESTING_DEPTH || |es| > MAX_OBJECT_SIZE then None
      else (match ExpectPairs(plat, es, depth + 1) case None => None case Some(ps) => Special(Build(ps, map[])))
  }

  ghost function ExpectItems(plat: Platform, ds: seq<Doc>, depth: nat): (r: Option<seq<Value>>)
    requires ItemsTextual(ds)
    ensures r.Some? ==> |r.value| == |ds|
    decreases ItemsRank(ds), ds, 1
  {
    if ds == [] then Some([])
    else
      match (Expect(plat, ds[0], depth), ExpectItems(plat, ds[1..], depth))
      case (Some(v), Some(vs)) => Some([v] + vs)
      case _ => None
  }

  ghost function ExpectPairs(plat: Platform, es: seq<Entry>, depth: nat): (r: Option<seq<(Bytes, Value)>>)
    requires EntriesTextual(es)
    ensures r.Some? ==> |r.value| == |es| && forall i :: 0 <= i < |es| ==> r.value[i].0 == es[i].key
    decreases EntriesRank(es), es, 1
  {
    if es == [] then Some([])
    else if |Escape(es[0].key)| > MAX_STRING_LEN then None
    else
      match (Expect(plat, es[0].doc, depth), ExpectPairs(plat, es[1..], depth))
      case (Some(v), Some(ps)) => Some([(es[0].key, v)] + ps)
      case _ => None
  }

  lemma WrapperTextual(s: Scalar)
    requires IsWrapper(s)
    ensures AllTextual(WrapperDoc(s)) && WellFormed(WrapperDoc(s))
  {
    match s
    case Binary(data) => BinaryTextual(data, 0);
    case Extension(t, payload) => BinaryTextual(payload, t % 256);
    case ObjectId(oid) => SingleTextual(OID, Atom(Text(Hex(oid), false)));
    case Timestamp(n) =>
      SingleTextual(SECONDS, Atom(Int(n)));
      SingleTextual(TIMESTAMP, Table([Entry(SECONDS, Atom(Int(n)))]));
    case Regex(source) =>
      var p, o := Entry(REGEX, Atom(Text(PatternOf(source), false))), Entry(OPTIONS, Atom(Text(OptionsOf(source), false)));
      PairTextual(p, o);
      SingleTextual(REGEX, p.doc);
      assert [p] + [] == [p] && [p] + [o] == [p, o];
      assert |REGEX| != |OPTIONS|;
  }

  lemma SingleTextual(key: Bytes, d: Doc)
    requires AllTextual(d) && WellFormed(d)
    ensures AllTextual(Table([Entry(key, d)])) && WellFormed(Table([Entry(key, d)]))
  {
    assert [Entry(key, d)][1..] == [];
  }

  lemma PairTextual(a: Entry, b: Entry)
    requires AllTextual(a.doc) && AllTextual(b.doc) && WellFormed(a.doc) && WellFormed(b.doc)
    requires |a.key| != |b.key|
    ensures AllTextual(Table([a, b])) && WellFormed(Table([a, b]))
  {
    assert [a, b][1..] == [b] && [b][1..] == [];
    assert EntriesTextual([]) && EntriesWellFormed([]);
    assert EntriesTextual([b]) && EntriesWellFormed([b]);
    assert EntriesTextual([a, b]) && EntriesWellFormed([a, b]);
  }

  lemma BinaryTextual(data: Bytes, subType: Byte)
    ensures AllTextual(BinaryDoc(data, subType)) && WellFormed(BinaryDoc(data, subType))
  {
    var a := Entry(BASE64, Atom(Text(Base64.Encode(Base64.Default(), data), false)));
    var b := Entry(SUBTYPE, Atom(Text(Hex([subType]), false)));
    PairTextual(a, b);
    SingleTextual(BINARY, Table([a, b]));
  }

  // ---------- Round trip ----------

  /** Printed values start with a solid byte that closes nothing. */
  predicate Starts(b: Byte)
  {
    Solid(b) && b != RBRACE && b != RBRACKET && b != COMMA
  }

  lemma {:induction false} RenderStarts(plat: Platform, d: Doc, pretty: bool, indent: nat)
    requires AllTextual(d)
    ensures Render(plat, d, pretty, indent) != [] && Starts(Render(plat, d, pretty, indent)[0])
    decreases Rank(d)
  {
    match d
    case Atom(s) =>
      if IsWrapper(s) {
        WrapperRank(s);
        WrapperTextual(s);
        RenderStarts(plat, WrapperDoc(s), false, 0);
      } else if s.Int? {
        DecimalIsLiteral(s.num);
        LiteralStarts(Decimal(s.num));
      } else if s.Text? && s.rawNumber {
        LiteralStarts(s.text);
      }
    case List(_) =>
    case Table(_) =>
  }

  lemma LiteralStarts(s: Bytes)
    requires IntegerLiteral(s)
    ensures s != [] && (s[0] == MINUS || IsDigit(s[0]))
  {
    assert s[0] != MINUS ==> IsDigit(Magnitude(s)[0]);
  }

  /** The parser's whole behaviour on printed text, compact or pretty, whatever delimiter follows. */
  lemma {:induction false} RoundTrip(plat: Platform, d: Doc, pretty: bool, indent: nat, json: Bytes, pos: nat, depth: nat)
    requires AllTextual(d) && WellFormed(d)
    requires At(json, pos, Render(plat, d, pretty, indent))
    requires Ends(json, pos + |Render(plat, d, pretty, indent)|)
    ensures match Expect(plat, d, depth)
      case Some(v) => ParseValue(plat, json, pos, depth) == Ok(v, pos + |Render(plat, d, pretty, indent)|)
      case None => ParseValue(plat, json, pos, depth).Err?
    decreases Rank(d), d, 0
  {
    hide ParseValue, RenderItems, RenderMembers, PlainToken, Special, ExpectItems, ExpectPairs, ExpectPlain;
    var text := Render(plat, d, pretty, indent);
    match d
    case Atom(s) =>
      if IsWrapper(s) {
        WrapperRank(s);
        WrapperTextual(s);
        RoundTrip(plat, WrapperDoc(s), false, 0, json, pos, depth);
      } else {
        PlainRoundTrip(plat, s, json, pos, depth);
      }
    case List(items) => ListRoundTrip(plat, items, pretty, indent, json, pos, depth);
    case Table(es) => TableRoundTrip(plat, es, pretty, indent, json, pos, depth);
  }

  lemma PlainRoundTrip(plat: Platform, s: Scalar, json: Bytes, pos: nat, depth: nat)
    requires Textual(s) && !IsWrapper(s)
    requires At(json, pos, PlainToken(plat, s)) && Ends(json, pos + |PlainToken(plat, s)|)
    ensures match ExpectPlain(plat, s)
      case Some(v) => ParseValue(plat, json, pos, depth) == Ok(v, pos + |PlainToken(plat, s)|)
      case None => ParseValue(plat, json, pos, depth).Err?
  {
    hide ParseValue, StringOrDateTime, Number, Escape, Quoted;
    match s
    case Null => StepLiteral(plat, json, pos, depth, NULL_TEXT, Null);
    case Bool(flag) => StepLiteral(plat, json, pos, depth, if flag then TRUE_TEXT else FALSE_TEXT, s);
    case Int(n) =>
      DecimalIsLiteral(n);
      LiteralRoundTrip(plat, Decimal(n), json, pos, depth);
    case Text(t, raw) =>
      if raw { LiteralRoundTrip(plat, t, json, pos, depth); }
      else {
        QuotedStart(t);
        AtHead(json, pos, Quoted(t));
        StepString(plat, json, pos, depth);
        StringInverse(plat, t, json, pos);
      }
  }

  lemma QuotedStart(s: Bytes)
    ensures Quoted(s)[0] == QUOTE
  {
  }

  lemma LiteralRoundTrip(plat: Platform, s: Bytes, json: Bytes, pos: nat, depth: nat)
    requires IntegerLiteral(s) && At(json, pos, s) && Ends(json, pos + |s|)
    ensures ParseValue(plat, json, pos, depth)
         == match Int64Of(s)
            case Some(n) => Ok(Leaf(Int(n)), pos + |s|)
            case None => if |s| > MAX_STRING_LEN then Err(TooLarge) else Ok(Leaf(Text(s, true)), pos + |s|)
  {
    hide ParseValue, Number;
    LiteralStarts(s);
    SignThenDigit(s, json, pos);
    StepNumber(plat, json, pos, depth);
    NumberInverse(plat, s, json, pos);
  }

  // ---------- Arrays ----------

  lemma {:induction false} ListRoundTrip(plat: Platform, items: seq<Doc>, pretty: bool, indent: nat, json: Bytes, pos: nat, depth: nat)
    requires ItemsTextual(items) && AllWellFormed(items)
    requires At(json, pos, Render(plat, List(items), pretty, indent))
    ensures match Expect(plat, List(items), depth)
      case Some(v) => ParseValue(plat, json, pos, depth) == Ok(v, pos + |Render(plat, List(items), pretty, indent)|)
      case None => ParseValue(plat, json, pos, depth).Err?
    decreases ItemsRank(items), items, 3
  {
    hide ParseValue, Render, Expect, RenderItems, ExpectItems, Break, ParseElements, ItemsTextual, AllWellFormed, ItemsRank;
    var text := Render(plat, List(items), pretty, indent);
    ListLaid(plat, items, pretty, indent);
    ListExpected(plat, items, depth);
    AtHead(json, pos, text);
    StepArray(plat, json, pos, depth);
    if depth + 1 <= MAX_NESTING_DEPTH {
      if items == [] {
        AtSplit(json, pos, [LBRACKET], [RBRACKET]);
        EmptyArray(plat, json, pos + 1, depth + 1);
      } else {
        var body, end := RenderItems(plat, items, pretty, indent + 1), Break(pretty, indent) + [RBRACKET];
        assert text == [LBRACKET] + (body + end);
        AtSplit(json, pos, [LBRACKET], body + end);
        ElementsRoundTrip(plat, items, pretty, indent, json, pos + 1, depth + 1, []);
        assert ExpectItems(plat, items, depth + 1).Some? ==>
          [] + ExpectItems(plat, items, depth + 1).value == ExpectItems(plat, items, depth + 1).value;
      }
    }
  }

  lemma ListLaid(plat: Platform, items: seq<Doc>, pretty: bool, indent: nat)
    ensures items == [] ==> Render(plat, List(items), pretty, indent) == [LBRACKET] + [RBRACKET]
    ensures items != [] ==>
      Render(plat, List(items), pretty, indent)
      == [LBRACKET] + (RenderItems(plat, items, pretty, indent + 1) + (Break(pretty, indent) + [RBRACKET]))
  {
    hide RenderItems, Break;
  }

  lemma ListExpected(plat: Platform, items: seq<Doc>, depth: nat)
    requires ItemsTextual(items)
    ensures AllTextual(List(items))
    ensures Expect(plat, List(items), depth)
         == if depth + 1 > MAX_NESTING_DEPTH || |items| > MAX_ARRAY_SIZE || ExpectItems(plat, items, depth + 1).None? then None
            else Some(Array(ExpectItems(plat, items, depth + 1).value))
  {
    hide ExpectItems, ItemsTextual;
  }

  lemma EmptyArray(plat: Platform, json: Bytes, pos: nat, depth: nat)
    requires At(json, pos, [RBRACKET])
    ensures ParseElements(plat, json, pos, depth, []) == Ok([], pos + 1)
    ensures ItemsTextual([]) && ExpectItems(plat, [], depth) == Some([])
  {
    AtHead(json, pos, [RBRACKET]);
    SkipSolid(json, pos);
  }

  lemma Regroup(a: Bytes, b: Bytes, c: Bytes, d: Bytes)
    ensures (a + (b + c)) + d == a + (b + (c + d))
  {
  }

  /** One turn of the array loop, when an item is there. */
  lemma StepElement(plat: Platform, json: Bytes, pos: nat, p: nat, depth: nat, acc: seq<Value>)
    requires Skip(json, pos) == Some(p) && p < |json| && json[p] != RBRACKET
    ensures ParseElements(plat, json, pos, depth, acc)
         == if |acc| + 1 > MAX_ARRAY_SIZE then Err(TooLarge)
            else match ParseValue(plat, json, p, depth)
                 case Err(e) => Err(e)
                 case Ok(v, p2) =>
                   match AfterItem(json, p2, RBRACKET)
                   case Err(e) => Err(e)
                   case Ok(closed, p3) => if closed then Ok(acc + [v], p3) else ParseElements(plat, json, p3, depth, acc + [v])
  {
  }

  /** The array loop at `pos` is past its first item at `q`, or stopped at it. */
  ghost predicate FirstItemRead(plat: Platform, d: Doc, json: Bytes, pos: nat, q: nat, depth: nat, acc: seq<Value>)
    requires AllTextual(d)
  {
    match Expect(plat, d, depth)
    case None => ParseElements(plat, json, pos, depth, acc).Err?
    case Some(v) =>
      ParseElements(plat, json, pos, depth, acc)
      == if |acc| + 1 > MAX_ARRAY_SIZE then Err(TooLarge)
         else match AfterItem(json, q, RBRACKET)
              case Err(e) => Err(e)
              case Ok(closed, p3) => if closed then Ok(acc + [v], p3) else ParseElements(plat, json, p3, depth, acc + [v])
  }

  lemma {:induction false} FirstElement(plat: Platform, d: Doc, rest: Bytes, pretty: bool, indent: nat, json: Bytes,
                                        pos: nat, depth: nat, acc: seq<Value>)
    requires AllTextual(d) && WellFormed(d)
    requires At(json, pos, Break(pretty, indent) + (Render(plat, d, pretty, indent) + rest))
    requires var q := pos + |Break(pretty, indent)| + |Render(plat, d, pretty, indent)|; Ends(json, q)
    ensures var q := pos + |Break(pretty, indent)| + |Render(plat, d, pretty, indent)|;
      At(json, q, rest) && FirstItemRead(plat, d, json, pos, q, depth, acc)
    decreases Rank(d), d, 1
  {
    hide ParseValue, Expect, Render, AllTextual, WellFormed, Break, ParseElements, AfterItem, Skip;
    var gap, item := Break(pretty, indent), Render(plat, d, pretty, indent);
    AtSplit(json, pos, gap, item + rest);
    var p := pos + |gap|;
    AtSplit(json, p, item, rest);
    RenderStarts(plat, d, pretty, indent);
    AtHead(json, p, item);
    SkipBreak(json, pos, pretty, indent);
    RoundTrip(plat, d, pretty, indent, json, p, depth);
    StepElement(plat, json, pos, p, depth, acc);
  }

  /** The elements of an array are read as expected, up to `end`. */
  ghost predicate ElementsRead(plat: Platform, ds: seq<Doc>, json: Bytes, pos: nat, depth: nat, acc: seq<Value>, end: nat)
    requires ItemsTextual(ds)
  {
    match ExpectItems(plat, ds, depth)
    case None => ParseElements(plat, json, pos, depth, acc).Err?
    case Some(vs) =>
      if |acc| + |ds| > MAX_ARRAY_SIZE then ParseElements(plat, json, pos, depth, acc).Err?
      else ParseElements(plat, json, pos, depth, acc) == Ok(acc + vs, end)
  }

  lemma {:induction false} ElementsRoundTrip(plat: Platform, ds: seq<Doc>, pretty: bool, indent: nat, json: Bytes,
                                             pos: nat, depth: nat, acc: seq<Value>)
    requires ds != [] && ItemsTextual(ds) && AllWellFormed(ds)
    requires At(json, pos, RenderItems(plat, ds, pretty, indent + 1) + (Break(pretty, indent) + [RBRACKET]))
    ensures ElementsRead(plat, ds, json, pos, depth, acc,
                         pos + |RenderItems(plat, ds, pretty, indent + 1)| + |Break(pretty, indent)| + 1)
    decreases ItemsRank(ds), ds, 2
  {
    hide *;
    var d, close := ds[0], Break(pretty, indent) + [RBRACKET];
    var gap, item := Break(pretty, indent + 1), Render(plat, d, pretty, indent + 1);
    var more := if |ds| == 1 then [] else RenderItems(plat, ds[1..], pretty, indent + 1);
    var tail := if |ds| == 1 then [] else [COMMA] + more;
    ItemsRendered(plat, ds, pretty, indent + 1);
    ItemsUnfolded(ds);
    Regroup(gap, item, tail, close);
    ItemFollowed(json, pos, gap, item, tail, pretty, indent, RBRACKET);
    var q := pos + |gap| + |item|;
    FirstElement(plat, d, tail + close, pretty, indent + 1, json, pos, depth, acc);
    if |ds| == 1 {
      assert tail + close == close;
      CloseAfterBreak(json, q, pretty, indent, RBRACKET);
      LastElement(plat, ds, json, pos, q, depth, acc);
    } else {
      assert tail + close == [COMMA] + (more + close);
      AtSplit(json, q, [COMMA], more + close);
      CommaNext(json, q, RBRACKET);
      var end := pos + |RenderItems(plat, ds, pretty, indent + 1)| + |Break(pretty, indent)| + 1;
      if Expect(plat, d, depth).Some? {
        ElementsRoundTrip(plat, ds[1..], pretty, indent, json, q + 1, depth, acc + [Expect(plat, d, depth).value]);
      }
      MoreElements(plat, ds, json, pos, q, depth, acc, end);
    }
  }

  lemma ItemsRendered(plat: Platform, ds: seq<Doc>, pretty: bool, indent: nat)
    requires ds != []
    ensures RenderItems(plat, ds, pretty, indent)
         == Break(pretty, indent) + (Render(plat, ds[0], pretty, indent)
            + (if |ds| == 1 then [] else [COMMA] + RenderItems(plat, ds[1..], pretty, indent)))
  {
  }

  lemma ItemsUnfolded(ds: seq<Doc>)
    requires ds != [] && ItemsTextual(ds) && AllWellFormed(ds)
    ensures AllTextual(ds[0]) && WellFormed(ds[0]) && ItemsTextual(ds[1..]) && AllWellFormed(ds[1..])
    ensures Rank(ds[0]) <= ItemsRank(ds) && ItemsRank(ds[1..]) <= ItemsRank(ds)
  {
  }

  lemma LastElement(plat: Platform, ds: seq<Doc>, json: Bytes, pos: nat, q: nat, depth: nat, acc: seq<Value>)
    requires |ds| == 1 && ItemsTextual(ds) && FirstItemRead(plat, ds[0], json, pos, q, depth, acc)
    requires AfterItem(json, q, RBRACKET).Ok? && AfterItem(json, q, RBRACKET).value
    ensures ElementsRead(plat, ds, json, pos, depth, acc, AfterItem(json, q, RBRACKET).pos)
  {
    hide Expect, ParseElements, AfterItem;
    assert ds[1..] == [];
    assert ExpectItems(plat, ds[1..], depth) == Some([]);
    if Expect(plat, ds[0], depth).Some? {
      var v := Expect(plat, ds[0], depth).value;
      assert [v] + [] == [v];
    }
  }

  lemma MoreElements(plat: Platform, ds: seq<Doc>, json: Bytes, pos: nat, q: nat, depth: nat, acc: seq<Value>, end: nat)
    requires |ds| > 1 && ItemsTextual(ds) && FirstItemRead(plat, ds[0], json, pos, q, depth, acc)
    requires AfterItem(json, q, RBRACKET) == Ok(false, q + 1)
    requires match Expect(plat, ds[0], depth)
      case None => true
      case Some(v) => ElementsRead(plat, ds[1..], json, q + 1, depth, acc + [v], end)
    ensures ElementsRead(plat, ds, json, pos, depth, acc, end)
  {
    hide Expect, ParseElements, AfterItem;
    if Expect(plat, ds[0], depth).Some? && ExpectItems(plat, ds[1..], depth).Some? {
      var v, vs := Expect(plat, ds[0], depth).value, ExpectItems(plat, ds[1..], depth).value;
      assert acc + [v] + vs == acc + ([v] + vs);
    }
  }

  /** After an item comes a comma, a line break or a closing bracket: nothing that prolongs it. */
  lemma ItemFollowed(json: Bytes, pos: nat, gap: Bytes, item: Bytes, tail: Bytes, pretty: bool, indent: nat, close: Byte)
    requires close == RBRACKET || close == RBRACE
    requires tail == [] || tail[0] == COMMA
    requires At(json, pos, gap + (item + (tail + (Break(pretty, indent) + [close]))))
    ensures Ends(json, pos + |gap| + |item|)
  {
    var end := tail + (Break(pretty, indent) + [close]);
    AtSplit(json, pos, gap, item + end);
    AtSplit(json, pos + |gap|, item, end);
    AtHead(json, pos + |gap| + |item|, end);
  }

  lemma CloseAfterBreak(json: Bytes, pos: nat, pretty: bool, indent: nat, close: Byte)
    requires close == RBRACKET || close == RBRACE
    requires At(json, pos, Break(pretty, indent) + [close])
    ensures AfterItem(json, pos, close) == Ok(true, pos + |Break(pretty, indent)| + 1)
  {
    hide Skip, Break;
    AtSplit(json, pos, Break(pretty, indent), [close]);
    AtHead(json, pos + |Break(pretty, indent)|, [close]);
    SkipBreak(json, pos, pretty, indent);
  }

  lemma CommaNext(json: Bytes, pos: nat, close: Byte)
    requires close == RBRACKET || close == RBRACE
    requires At(json, pos, [COMMA])
    ensures AfterItem(json, pos, close) == Ok(false, pos + 1)
  {
    AtHead(json, pos, [COMMA]);
    SkipSolid(json, pos);
  }

  // ---------- Objects ----------

  lemma {:induction false} TableRoundTrip(plat: Platform, es: seq<Entry>, pretty: bool, indent: nat, json: Bytes, pos: nat, depth: nat)
    requires EntriesTextual(es) && DistinctKeys(es) && EntriesWellFormed(es)
    requires At(json, pos, Render(plat, Table(es), pretty, indent))
    ensures match Expect(plat, Table(es), depth)
      case Some(v) => ParseValue(plat, json, pos, depth) == Ok(v, pos + |Render(plat, Table(es), pretty, indent)|)
      case None => ParseValue(plat, json, pos, depth).Err?
    decreases EntriesRank(es), es, 3
  {
    hide ParseValue, RenderMembers, ExpectPairs, Special, Build, Break, ParseMembers, EntriesTextual, EntriesWellFormed, EntriesRank;
    var text := Render(plat, Table(es), pretty, indent);
    AtHead(json, pos, text);
    StepObject(plat, json, pos, depth);
    if depth + 1 <= MAX_NESTING_DEPTH {
      if es == [] {
        AtSplit(json, pos, [LBRACE], [RBRACE]);
        EmptyObject(plat, json, pos + 1, depth + 1);
      } else {
        var body, end := RenderMembers(plat, es, pretty, indent + 1), Break(pretty, indent) + [RBRACE];
        assert text == [LBRACE] + (body + end);
        AtSplit(json, pos, [LBRACE], body + end);
        MembersRoundTrip(plat, es, pretty, indent, json, pos + 1, depth + 1, map[]);
      }
    }
  }

  lemma EmptyObject(plat: Platform, json: Bytes, pos: nat, depth: nat)
    requires At(json, pos, [RBRACE])
    ensures ParseMembers(plat, json, pos, depth, map[]) == Ok(map[], pos + 1)
    ensures EntriesTextual([]) && ExpectPairs(plat, [], depth) == Some([]) && Build([], map[]) == map[]
  {
    AtHead(json, pos, [RBRACE]);
    SkipSolid(json, pos);
  }

  lemma StepMember(plat: Platform, json: Bytes, pos: nat, p: nat, depth: nat, acc: map<Bytes, Value>)
    requires Skip(json, pos) == Some(p) && p < |json| && json[p] != RBRACE
    ensures ParseMembers(plat, json, pos, depth, acc)
         == if |acc| + 1 > MAX_OBJECT_SIZE then Err(TooLarge)
            else match ParseMember(plat, json, p, depth)
                 case Err(e) => Err(e)
                 case Ok(kv, p2) =>
                   match AfterItem(json, p2, RBRACE)
                   case Err(e) => Err(e)
                   case Ok(closed, p3) =>
                     if closed then Ok(acc[kv.0 := kv.1], p3) else ParseMembers(plat, json, p3, depth, acc[kv.0 := kv.1])
  {
  }

  ghost function ExpectMember(plat: Platform, e: Entry, depth: nat): (r: Option<Value>)
    requires AllTextual(e.doc)
  {
    if |Escape(e.key)| > MAX_STRING_LEN then None else Expect(plat, e.doc, depth)
  }

  /** The object loop at `pos` is past its first member at `q`, or stopped at it. */
  ghost predicate FirstRead(plat: Platform, e: Entry, json: Bytes, pos: nat, q: nat, depth: nat, acc: map<Bytes, Value>)
    requires AllTextual(e.doc)
  {
    match ExpectMember(plat, e, depth)
    case None => ParseMembers(plat, json, pos, depth, acc).Err?
    case Some(v) =>
      ParseMembers(plat, json, pos, depth, acc)
      == if |acc| + 1 > MAX_OBJECT_SIZE then Err(TooLarge)
         else match AfterItem(json, q, RBRACE)
              case Err(e) => Err(e)
              case Ok(closed, p3) =>
                if closed then Ok(acc[e.key := v], p3) else ParseMembers(plat, json, p3, depth, acc[e.key := v])
  }

  lemma {:induction false} FirstMember(plat: Platform, e: Entry, rest: Bytes, pretty: bool, indent: nat, json: Bytes,
                                       pos: nat, depth: nat, acc: map<Bytes, Value>)
    requires AllTextual(e.doc) && WellFormed(e.doc)
    requires At(json, pos, Break(pretty, indent) + (Member(plat, e, pretty, indent) + rest))
    requires var q := pos + |Break(pretty, indent)| + |Member(plat, e, pretty, indent)|; Ends(json, q)
    ensures var q := pos + |Break(pretty, indent)| + |Member(plat, e, pretty, indent)|;
      At(json, q, rest) && FirstRead(plat, e, json, pos, q, depth, acc)
    decreases Rank(e.doc), e, 2
  {
    hide ParseMember, ExpectMember, Member, AllTextual, WellFormed, Break, ParseMembers, AfterItem, Skip;
    var gap, item := Break(pretty, indent), Member(plat, e, pretty, indent);
    AtSplit(json, pos, gap, item + rest);
    var p := pos + |gap|;
    AtSplit(json, p, item, rest);
    MemberStarts(plat, e, pretty, indent);
    AtHead(json, p, item);
    SkipBreak(json, pos, pretty, indent);
    MemberRoundTrip(plat, e, pretty, indent, json, p, depth);
    StepMember(plat, json, pos, p, depth, acc);
  }

  lemma MemberStarts(plat: Platform, e: Entry, pretty: bool, indent: nat)
    ensures Member(plat, e, pretty, indent) != [] && Member(plat, e, pretty, indent)[0] == QUOTE
  {
  }

  /** The members of a table are read as expected, up to `end`. */
  ghost predicate MembersRead(plat: Platform, es: seq<Entry>, json: Bytes, pos: nat, depth: nat, acc: map<Bytes, Value>, end: nat)
    requires EntriesTextual(es)
  {
    match ExpectPairs(plat, es, depth)
    case None => ParseMembers(plat, json, pos, depth, acc).Err?
    case Some(ps) =>
      if |acc| + |es| > MAX_OBJECT_SIZE then ParseMembers(plat, json, pos, depth, acc).Err?
      else ParseMembers(plat, json, pos, depth, acc) == Ok(Build(ps, acc), end)
  }

  lemma {:induction false} MembersRoundTrip(plat: Platform, es: seq<Entry>, pretty: bool, indent: nat, json: Bytes,
                                            pos: nat, depth: nat, acc: map<Bytes, Value>)
    requires es != [] && EntriesTextual(es) && EntriesWellFormed(es) && DistinctKeys(es)
    requires forall i :: 0 <= i < |es| ==> es[i].key !in acc
    requires At(json, pos, RenderMembers(plat, es, pretty, indent + 1) + (Break(pretty, indent) + [RBRACE]))
    ensures MembersRead(plat, es, json, pos, depth, acc,
                        pos + |RenderMembers(plat, es, pretty, indent + 1)| + |Break(pretty, indent)| + 1)
    decreases EntriesRank(es), es, 2
  {
    hide *;
    var e, close, q := es[0], Break(pretty, indent) + [RBRACE], pos;
    var gap, item := Break(pretty, indent + 1), Member(plat, e, pretty, indent + 1);
    var more := if |es| == 1 then [] else RenderMembers(plat, es[1..], pretty, indent + 1);
    var tail := if |es| == 1 then [] else [COMMA] + more;
    MembersRendered(plat, es, pretty, indent + 1);
    Unfolded(es);
    Regroup(gap, item, tail, close);
    ItemFollowed(json, pos, gap, item, tail, pretty, indent, RBRACE);
    q := pos + |gap| + |item|;
    FirstMember(plat, e, tail + close, pretty, indent + 1, json, pos, depth, acc);
    if |es| == 1 {
      assert tail + close == close;
      CloseAfterBreak(json, q, pretty, indent, RBRACE);
      LastMember(plat, es, json, pos, q, depth, acc);
    } else {
      assert tail + close == [COMMA] + (more + close);
      AtSplit(json, q, [COMMA], more + close);
      CommaNext(json, q, RBRACE);
      var end := pos + |RenderMembers(plat, es, pretty, indent + 1)| + |Break(pretty, indent)| + 1;
      if ExpectMember(plat, e, depth).Some? {
        var v := ExpectMember(plat, e, depth).value;
        LaterKeys(es, acc, v);
        MembersRoundTrip(plat, es[1..], pretty, indent, json, q + 1, depth, acc[e.key := v]);
      }
      MoreMembers(plat, es, json, pos, q, depth, acc, end);
    }
  }

  lemma LastMember(plat: Platform, es: seq<Entry>, json: Bytes, pos: nat, q: nat, depth: nat, acc: map<Bytes, Value>)
    requires |es| == 1 && EntriesTextual(es) && es[0].key !in acc
    requires FirstRead(plat, es[0], json, pos, q, depth, acc)
    requires AfterItem(json, q, RBRACE).Ok? && AfterItem(json, q, RBRACE).value
    ensures MembersRead(plat, es, json, pos, depth, acc, AfterItem(json, q, RBRACE).pos)
  {
    hide ExpectPairs, ExpectMember, ParseMembers, AfterItem, Build;
    MorePairs(plat, es, depth, acc);
  }

  lemma MoreMembers(plat: Platform, es: seq<Entry>, json: Bytes, pos: nat, q: nat, depth: nat, acc: map<Bytes, Value>, end: nat)
    requires |es| > 1 && EntriesTextual(es) && es[0].key !in acc
    requires FirstRead(plat, es[0], json, pos, q, depth, acc)
    requires AfterItem(json, q, RBRACE) == Ok(false, q + 1)
    requires match ExpectMember(plat, es[0], depth)
      case None => true
      case Some(v) => MembersRead(plat, es[1..], json, q + 1, depth, acc[es[0].key := v], end)
    ensures MembersRead(plat, es, json, pos, depth, acc, end)
  {
    hide ExpectPairs, ExpectMember, ParseMembers, AfterItem, Build;
    MorePairs(plat, es, depth, acc);
    if ExpectMember(plat, es[0], depth).Some? {
      KeyAdded(acc, es[0].key, ExpectMember(plat, es[0], depth).value);
    }
  }

  lemma KeyAdded(acc: map<Bytes, Value>, k: Bytes, v: Value)
    requires k !in acc
    ensures |acc[k := v]| == |acc| + 1
  {
    assert acc[k := v].Keys == acc.Keys + {k};
    assert |acc[k := v].Keys| == |acc.Keys| + 1;
  }

  lemma MembersRendered(plat: Platform, es: seq<Entry>, pretty: bool, indent: nat)
    requires es != []
    ensures RenderMembers(plat, es, pretty, indent)
         == Break(pretty, indent) + (Member(plat, es[0], pretty, indent)
            + (if |es| == 1 then [] else [COMMA] + RenderMembers(plat, es[1..], pretty, indent)))
  {
  }

  lemma Unfolded(es: seq<Entry>)
    requires es != [] && EntriesTextual(es) && EntriesWellFormed(es)
    ensures AllTextual(es[0].doc) && WellFormed(es[0].doc) && EntriesTextual(es[1..]) && EntriesWellFormed(es[1..])
    ensures Rank(es[0].doc) <= EntriesRank(es) && EntriesRank(es[1..]) <= EntriesRank(es)
  {
  }

  lemma LaterKeys(es: seq<Entry>, acc: map<Bytes, Value>, v: Value)
    requires es != [] && DistinctKeys(es) && forall i :: 0 <= i < |es| ==> es[i].key !in acc
    ensures DistinctKeys(es[1..])
    ensures forall i :: 0 <= i < |es[1..]| ==> es[1..][i].key !in acc[es[0].key := v]
  {
  }

  /** The pairs expected of a table are those of its first member and of the others. */
  lemma MorePairs(plat: Platform, es: seq<Entry>, depth: nat, acc: map<Bytes, Value>)
    requires es != [] && EntriesTextual(es) && es[0].key !in acc
    ensures match (ExpectMember(plat, es[0], depth), ExpectPairs(plat, es[1..], depth))
      case (Some(v), Some(ps)) =>
        && ExpectPairs(plat, es, depth).Some?
        && Build(ExpectPairs(plat, es, depth).value, acc) == Build(ps, acc[es[0].key := v])
        && (|es| == 1 ==> Build(ps, acc[es[0].key := v]) == acc[es[0].key := v])
      case _ => ExpectPairs(plat, es, depth) == None && (|es| == 1 ==> ExpectMember(plat, es[0], depth) == None)
  {
    hide Expect, Build;
    if ExpectMember(plat, es[0], depth).Some? && ExpectPairs(plat, es[1..], depth).Some? {
      var v := ExpectMember(plat, es[0], depth).value;
      FirstPair(es[0].key, v, ExpectPairs(plat, es[1..], depth).value, acc);
      NoPairs(acc[es[0].key := v]);
    }
  }

  lemma NoPairs(acc: map<Bytes, Value>)
    ensures Build([], acc) == acc
  {
  }

  lemma {:induction false} MemberRoundTrip(plat: Platform, e: Entry, pretty: bool, indent: nat, json: Bytes, pos: nat, depth: nat)
    requires AllTextual(e.doc) && WellFormed(e.doc)
    requires At(json, pos, Member(plat, e, pretty, indent)) && Ends(json, pos + |Member(plat, e, pretty, indent)|)
    ensures match ExpectMember(plat, e, depth)
      case Some(v) => ParseMember(plat, json, pos, depth) == Ok((e.key, v), pos + |Member(plat, e, pretty, indent)|)
      case None => ParseMember(plat, json, pos, depth).Err?
    decreases Rank(e.doc), e, 1
  {
    hide *;
    var p := pos + |Quoted(e.key)|;
    var q := if pretty then p + 2 else p + 1;
    MemberPlaces(plat, e, pretty, indent, json, pos);
    KeyInverse(e.key, json, pos);
    ColonFound(json, p);
    RenderStarts(plat, e.doc, pretty, indent);
    AtHead(json, q, Render(plat, e.doc, pretty, indent));
    SkipBlank(json, p + 1, pretty);
    StepBlanks(plat, json, p + 1, q, depth);
    RoundTrip(plat, e.doc, pretty, indent, json, q, depth);
    MemberRead(plat, json, pos, p, depth);
    MemberExpected(plat, e, depth);
  }

  /** Where the key, the colon, the blank and the value of a member lie. */
  lemma MemberPlaces(plat: Platform, e: Entry, pretty: bool, indent: nat, json: Bytes, pos: nat)
    requires At(json, pos, Member(plat, e, pretty, indent))
    ensures var p := pos + |Quoted(e.key)|; var q := if pretty then p + 2 else p + 1;
      && At(json, pos, Quoted(e.key)) && p < |json| && json[p] == COLON && (pretty ==> At(json, p + 1, [SPACE]))
      && At(json, q, Render(plat, e.doc, pretty, indent))
      && pos + |Member(plat, e, pretty, indent)| == q + |Render(plat, e.doc, pretty, indent)|
  {
    hide *;
    MemberLaid(plat, e, pretty, indent);
    var key, blank, value := Quoted(e.key), Blank(pretty), Render(plat, e.doc, pretty, indent);
    AtSplit(json, pos, key, [COLON] + (blank + value));
    var p := pos + |key|;
    AtSplit(json, p, [COLON], blank + value);
    AtHead(json, p, [COLON]);
    AtSplit(json, p + 1, blank, value);
  }

  /** The blank behind a printed colon. */
  function Blank(pretty: bool): (r: Bytes) { if pretty then [SPACE] else [] }

  lemma MemberLaid(plat: Platform, e: Entry, pretty: bool, indent: nat)
    ensures Member(plat, e, pretty, indent) == Quoted(e.key) + ([COLON] + (Blank(pretty) + Render(plat, e.doc, pretty, indent)))
    ensures Blank(pretty) == if pretty then [SPACE] else []
  {
    hide Render, Quoted;
  }

  lemma MemberExpected(plat: Platform, e: Entry, depth: nat)
    requires AllTextual(e.doc)
    ensures ExpectMember(plat, e, depth) == if |Escape(e.key)| > MAX_STRING_LEN then None else Expect(plat, e.doc, depth)
  {
    hide AllTextual, Expect, Escape;
  }

  lemma ColonFound(json: Bytes, p: nat)
    requires p < |json| && json[p] == COLON
    ensures Skip(json, p) == Some(p)
  {
    SkipSolid(json, p);
  }

  /** A key that is read, and the colon behind it. */
  lemma MemberRead(plat: Platform, json: Bytes, pos: nat, p: nat, depth: nat)
    requires p < |json| && json[p] == COLON && Skip(json, p) == Some(p)
    requires ReadKey(json, pos).Ok? ==> ReadKey(json, pos).pos == p
    ensures ReadKey(json, pos).Err? ==> ParseMember(plat, json, pos, depth).Err?
    ensures ReadKey(json, pos).Ok? ==>
      ParseMember(plat, json, pos, depth)
      == match ParseValue(plat, json, p + 1, depth)
         case Err(e) => Err(e)
         case Ok(v, q) => Ok((ReadKey(json, pos).value, v), q)
  {
    hide ParseValue, ReadKey, Skip;
  }

  lemma SkipBlank(json: Bytes, pos: nat, pretty: bool)
    requires pretty ==> At(json, pos, [SPACE])
    requires var q := if pretty then pos + 1 else pos; q < |json| && Solid(json[q])
    ensures Skip(json, pos) == Some(if pretty then pos + 1 else pos)
  {
    if pretty {
      AtHead(json, pos, [SPACE]);
      SkipSolid(json, pos + 1);
    } else {
      SkipSolid(json, pos);
    }
  }
}
