/** TRON values as the language allows them to be written: line breaks and semicolons around values, trailing commas,
    calls with positional and named arguments. What the parser makes of each. */
module TronGrammar {
  import opened Bytes
  import opened Values
  import opened Text
  import opened Tron
  import opened TronProofs
  import Json

  // ---------- Syntax ----------

  predicate IsBreak(t: Tok) { t == Newline || t == Punct(SEMICOLON) }

  ghost predicate Breaks(b: seq<Tok>) { forall i :: 0 <= i < |b| ==> IsBreak(b[i]) }

  /** A value; `lead` are the line breaks behind its opening bracket. */
  datatype Node =
    | Lone(tok: Tok)
    | Listed(lead: seq<Tok>, items: seq<Item>)
    | Record(lead: seq<Tok>, items: seq<Item>)
    | Call(name: Bytes, lead: seq<Tok>, items: seq<Item>)

  /** An element, a member or an argument: its key or name and the breaks behind the mark, its value, and what separates
      it from the next one. */
  datatype Item =
    Item(tag: Option<Tok>, gap: seq<Tok>, value: Node, before: seq<Tok>, comma: bool, after: seq<Tok>)

  datatype Place = InList | InRecord | InCall

  function Mark(place: Place): (r: Byte) { if place == InRecord then COLON else EQUALS }

  ghost predicate ItemOk(place: Place, it: Item)
  {
    && Breaks(it.gap) && Breaks(it.before) && Breaks(it.after)
    && (it.tag.None? ==> it.gap == []) && (!it.comma ==> it.after == [])
    && match place
       case InList => it.tag.None?
       case InRecord => it.tag.Some? && it.tag.value.Str?
       case InCall => it.tag.Some? ==> it.tag.value.Ident? || it.tag.value.Str?
  }

  /** Commas separate elements and members; between arguments they can be left out. */
  ghost predicate ItemsOk(place: Place, items: seq<Item>)
    decreases items
  {
    items == []
    || (ItemOk(place, items[0]) && NodeOk(items[0].value) && (|items| > 1 && place != InCall ==> items[0].comma)
        && ItemsOk(place, items[1..]))
  }

  ghost predicate NodeOk(n: Node)
    decreases n
  {
    match n
    case Lone(t) => t.Str? || t.Num? || t.True? || t.False? || t.Nul?
    case Listed(lead, items) => Breaks(lead) && ItemsOk(InList, items)
    case Record(lead, items) => Breaks(lead) && ItemsOk(InRecord, items)
    case Call(_, lead, items) => Breaks(lead) && ItemsOk(InCall, items)
  }

  function LabelToks(place: Place, it: Item): (r: seq<Tok>)
  {
    if it.tag.None? then [] else [it.tag.value, Punct(Mark(place))] + it.gap
  }

  function CommaToks(it: Item): (r: seq<Tok>) { if it.comma then [Punct(COMMA)] + it.after else [] }

  function NodeToks(n: Node): (r: seq<Tok>)
    decreases n, 0
  {
    match n
    case Lone(t) => [t]
    case Listed(lead, items) => [Punct(LBRACKET)] + (lead + (ItemsToks(InList, items) + [Punct(RBRACKET)]))
    case Record(lead, items) => [Punct(LBRACE)] + (lead + (ItemsToks(InRecord, items) + [Punct(RBRACE)]))
    case Call(name, lead, items) => [Ident(name), Punct(LPAREN)] + (lead + (ItemsToks(InCall, items) + [Punct(RPAREN)]))
  }

  function ItemsToks(place: Place, items: seq<Item>): (r: seq<Tok>)
    decreases items, 1
  {
    if items == [] then []
    else
      LabelToks(place, items[0]) + (NodeToks(items[0].value)
      + (items[0].before + (CommaToks(items[0]) + ItemsToks(place, items[1..]))))
  }

  // ---------- Meaning ----------

  function NameOf(t: Tok): (r: Option<Bytes>)
  {
    match t case Ident(name) => Some(name) case Str(raw) => Unescape(raw, 0) case _ => None
  }

  function LoneValue(plat: Json.Platform, t: Tok): (r: Option<Value>)
  {
    match t
    case Str(raw) => (match Unescape(raw, 0) case None => None case Some(s) => ReadString(plat, s))
    case Num(digits) => ReadNumber(plat, digits)
    case True => Some(Leaf(Bool(true)))
    case False => Some(Leaf(Bool(false)))
    case Nul => Some(Leaf(Null))
    case _ => None
  }

  function Position(ks: seq<Bytes>, k: Bytes): (r: nat)
    requires k in ks
    ensures r < |ks| && ks[r] == k && forall i :: 0 <= i < r ==> ks[i] != k
  {
    if ks[0] == k then 0 else 1 + Position(ks[1..], k)
  }

  /** Later assignments to a name replace earlier ones. */
  function Assigned(ps: seq<(Bytes, Value)>, acc: map<Bytes, Value>): (r: map<Bytes, Value>)
  {
    if ps == [] then acc else Assigned(ps[1..], acc[ps[0].0 := ps[0].1])
  }

  /** An instance has every property of its class and no other: the argument in the property's position, or else the one
      under its name, or else null. */
  function InstanceOf(props: seq<Bytes>, args: seq<Value>, named: map<Bytes, Value>): (r: map<Bytes, Value>)
  {
    map k | k in props ::
      if Position(props, k) < |args| then args[Position(props, k)] else if k in named then named[k] else Leaf(Null)
  }

  function Denote(plat: Json.Platform, cs: Classes, n: Node): (r: Option<Value>)
    decreases n
  {
    match n
    case Lone(t) => LoneValue(plat, t)
    case Listed(_, items) => (match ElementsOf(plat, cs, items) case None => None case Some(vs) => Some(Array(vs)))
    case Record(_, items) =>
      (match MembersOf(plat, cs, items) case None => None case Some(ps) => Some(Object(Build(ps, map[]))))
    case Call(name, _, items) =>
      if name !in cs then None
      else
        match ArgsOf(plat, cs, items)
        case None => None
        case Some(a) => Some(Object(InstanceOf(cs[name], a.0, Assigned(a.1, map[]))))
  }

  function ElementsOf(plat: Json.Platform, cs: Classes, items: seq<Item>): (r: Option<seq<Value>>)
    decreases items
  {
    if items == [] then Some([])
    else
      match (Denote(plat, cs, items[0].value), ElementsOf(plat, cs, items[1..]))
      case (Some(v), Some(vs)) => Some([v] + vs)
      case _ => None
  }

  function MembersOf(plat: Json.Platform, cs: Classes, items: seq<Item>): (r: Option<seq<(Bytes, Value)>>)
    decreases items
  {
    if items == [] then Some([])
    else if items[0].tag.None? then None
    else
      match (NameOf(items[0].tag.value), Denote(plat, cs, items[0].value), MembersOf(plat, cs, items[1..]))
      case (Some(k), Some(v), Some(ps)) => Some([(k, v)] + ps)
      case _ => None
  }

  /** The positional arguments and the named ones; a positional one behind a named one is an error. */
  function ArgsOf(plat: Json.Platform, cs: Classes, items: seq<Item>): (r: Option<(seq<Value>, seq<(Bytes, Value)>)>)
    decreases items
  {
    if items == [] then Some(([], []))
    else
      match (Denote(plat, cs, items[0].value), ArgsOf(plat, cs, items[1..]))
      case (Some(v), Some(a)) =>
        if items[0].tag.None? then Some(([v] + a.0, a.1))
        else if a.0 != [] then None
        else (match NameOf(items[0].tag.value) case None => None case Some(k) => Some(([], [(k, v)] + a.1)))
      case _ => None
  }

  // ---------- Places ----------

  lemma {:induction false} SkipBreaks(ts: seq<Tok>, p: nat, b: seq<Tok>)
    requires At(ts, p, b) && Breaks(b) && !IsBreak(Peek(ts, p + |b|))
    ensures SkipLines(ts, p) == p + |b|
    decreases |b|
  {
    if b != [] {
      AtHead(ts, p, b);
      assert IsBreak(b[0]);
      SkipBreaks(ts, p + 1, b[1..]);
    }
  }

  /** Tokens a value can start with. */
  predicate Begins(t: Tok)
  {
    t.Ident? || t.Str? || t.Num? || t.True? || t.False? || t.Nul? || t == Punct(LBRACE) || t == Punct(LBRACKET)
  }

  lemma NodeBegins(n: Node)
    requires NodeOk(n)
    ensures NodeToks(n) != [] && Begins(NodeToks(n)[0])
  {
    hide ItemsToks, ItemsOk;
  }

  lemma BeginsNoBreak(t: Tok)
    requires Begins(t)
    ensures !IsBreak(t) && t != Punct(COMMA) && t != Punct(RBRACKET) && t != Punct(RBRACE) && t != Punct(RPAREN)
    ensures t != Punct(COLON) && t != Punct(EQUALS) && t != End
  {
  }

  /** Where the parts of the first item lie: its value, the comma, the next item. */
  datatype Spot = Spot(value: nat, behind: nat, comma: nat, next: nat)

  function SpotOf(place: Place, it: Item, pos: nat): (r: Spot)
  {
    var v := pos + |LabelToks(place, it)|;
    var b := v + |NodeToks(it.value)|;
    var c := b + |it.before|;
    Spot(v, b, c, c + |CommaToks(it)|)
  }

  lemma ItemsStep(place: Place, items: seq<Item>, close: Tok)
    requires items != []
    ensures ItemsToks(place, items) + [close]
         == LabelToks(place, items[0]) + (NodeToks(items[0].value)
            + (items[0].before + (CommaToks(items[0]) + (ItemsToks(place, items[1..]) + [close]))))
    ensures |ItemsToks(place, items)| == SpotOf(place, items[0], 0).next + |ItemsToks(place, items[1..])|
  {
    hide NodeToks, LabelToks, CommaToks;
    Regroup5(LabelToks(place, items[0]), NodeToks(items[0].value), items[0].before, CommaToks(items[0]),
             ItemsToks(place, items[1..]), [close]);
  }

  lemma SpotDef(place: Place, it: Item, pos: nat)
    ensures var at := SpotOf(place, it, pos);
      && at.value == pos + |LabelToks(place, it)| && at.behind == at.value + |NodeToks(it.value)|
      && at.comma == at.behind + |it.before| && at.next == at.comma + |CommaToks(it)|
  {
    hide NodeToks, LabelToks, CommaToks;
  }

  lemma ItemAt(place: Place, items: seq<Item>, close: Tok, ts: seq<Tok>, pos: nat)
    requires items != [] && At(ts, pos, ItemsToks(place, items) + [close])
    ensures var it, at := items[0], SpotOf(place, items[0], pos);
      && At(ts, pos, LabelToks(place, it)) && At(ts, at.value, NodeToks(it.value)) && At(ts, at.behind, it.before)
      && At(ts, at.comma, CommaToks(it)) && At(ts, at.next, ItemsToks(place, items[1..]) + [close])
      && pos + |ItemsToks(place, items)| == at.next + |ItemsToks(place, items[1..])|
  {
    hide *;
    SpotDef(place, items[0], pos);
    SpotDef(place, items[0], 0);
    var it, at, rest := items[0], SpotOf(place, items[0], pos), ItemsToks(place, items[1..]) + [close];
    ItemsStep(place, items, close);
    AtSplit(ts, pos, LabelToks(place, it), NodeToks(it.value) + (it.before + (CommaToks(it) + rest)));
    AtSplit(ts, at.value, NodeToks(it.value), it.before + (CommaToks(it) + rest));
    AtSplit(ts, at.behind, it.before, CommaToks(it) + rest);
    AtSplit(ts, at.comma, CommaToks(it), rest);
  }

  lemma LabelAt(place: Place, it: Item, ts: seq<Tok>, pos: nat)
    requires it.tag.Some? && At(ts, pos, LabelToks(place, it))
    ensures Peek(ts, pos) == it.tag.value && Peek(ts, pos + 1) == Punct(Mark(place)) && At(ts, pos + 2, it.gap)
  {
    var pair := [it.tag.value, Punct(Mark(place))];
    AtSplit(ts, pos, pair, it.gap);
    AtHead(ts, pos, pair);
    AtHead(ts, pos + 1, pair[1..]);
  }

  lemma CommaAt(it: Item, ts: seq<Tok>, c: nat)
    requires At(ts, c, CommaToks(it))
    ensures it.comma ==> Peek(ts, c) == Punct(COMMA) && At(ts, c + 1, it.after)
  {
    if it.comma {
      AtSplit(ts, c, [Punct(COMMA)], it.after);
      AtHead(ts, c, [Punct(COMMA)]);
    }
  }

  /** The first token of the remaining items, or the closing bracket: no break and no comma. */
  lemma ItemsBegin(place: Place, items: seq<Item>, close: Byte, ts: seq<Tok>, pos: nat)
    requires ItemsOk(place, items) && At(ts, pos, ItemsToks(place, items) + [Punct(close)])
    requires close == RBRACKET || close == RBRACE || close == RPAREN
    ensures !IsBreak(Peek(ts, pos)) && Peek(ts, pos) != Punct(COMMA)
    ensures items == [] ==> Peek(ts, pos) == Punct(close)
    ensures items != [] ==> Begins(Peek(ts, pos))
  {
    hide NodeToks, NodeOk;
    if items == [] {
      PeekAt(ts, pos, [Punct(close)]);
    } else {
      ItemBegins(place, items, close, ts, pos);
      BeginsNoBreak(Peek(ts, pos));
    }
  }

  lemma ItemBegins(place: Place, items: seq<Item>, close: Byte, ts: seq<Tok>, pos: nat)
    requires items != [] && ItemsOk(place, items) && At(ts, pos, ItemsToks(place, items) + [Punct(close)])
    ensures Begins(Peek(ts, pos)) && Begins(Peek(ts, SpotOf(place, items[0], pos).value))
  {
    hide NodeToks, NodeOk, ItemsToks;
    var it := items[0];
    ItemAt(place, items, Punct(close), ts, pos);
    NodeBegins(it.value);
    PeekAt(ts, SpotOf(place, it, pos).value, NodeToks(it.value));
    if it.tag.Some? { LabelAt(place, it, ts, pos); }
  }

  /** What the parser meets between an item's value and the next item. */
  lemma Between(place: Place, items: seq<Item>, close: Byte, ts: seq<Tok>, pos: nat)
    requires items != [] && ItemsOk(place, items) && At(ts, pos, ItemsToks(place, items) + [Punct(close)])
    requires close == RBRACKET || close == RBRACE || close == RPAREN
    ensures var it, at := items[0], SpotOf(place, items[0], pos);
      && SkipLines(ts, at.behind) == at.comma
      && (it.comma ==> Peek(ts, at.comma) == Punct(COMMA) && SkipLines(ts, at.comma + 1) == at.next)
      && (!it.comma ==> at.next == at.comma && Peek(ts, at.comma) != Punct(COMMA))
  {
    hide NodeToks, NodeOk, ItemsToks, SkipLines, LabelToks;
    var it, at := items[0], SpotOf(place, items[0], pos);
    ItemAt(place, items, Punct(close), ts, pos);
    ItemsBegin(place, items[1..], close, ts, at.next);
    CommaAt(it, ts, at.comma);
    CommaNoBreak();
    SkipBreaks(ts, at.behind, it.before);
    if it.comma { SkipBreaks(ts, at.comma + 1, it.after); }
  }

  lemma CommaNoBreak()
    ensures !IsBreak(Punct(COMMA))
  {
  }

  // ---------- Loops ----------

  ghost predicate NodeRead(plat: Json.Platform, cs: Classes, n: Node, ts: seq<Tok>, pos: nat, end: nat)
  {
    match Denote(plat, cs, n)
    case None => ParseValue(plat, cs, ts, pos).Err?
    case Some(v) => ParseValue(plat, cs, ts, pos) == Ok(v, end)
  }

  ghost predicate ElementsRead(plat: Json.Platform, cs: Classes, items: seq<Item>, ts: seq<Tok>, pos: nat, acc: seq<Value>,
                               end: nat)
  {
    match ElementsOf(plat, cs, items)
    case None => ParseElements(plat, cs, ts, pos, acc).Err?
    case Some(vs) => ParseElements(plat, cs, ts, pos, acc) == Ok(acc + vs, end)
  }

  ghost predicate MembersRead(plat: Json.Platform, cs: Classes, items: seq<Item>, ts: seq<Tok>, pos: nat,
                              acc: map<Bytes, Value>, end: nat)
  {
    match MembersOf(plat, cs, items)
    case None => ParseMembers(plat, cs, ts, pos, acc).Err?
    case Some(ps) => ParseMembers(plat, cs, ts, pos, acc) == Ok(Build(ps, acc), end)
  }

  ghost predicate ArgsRead(plat: Json.Platform, cs: Classes, items: seq<Item>, ts: seq<Tok>, pos: nat, args: seq<Value>,
                           named: map<Bytes, Value>, end: nat)
  {
    match ArgsOf(plat, cs, items)
    case None => ParseArgs(plat, cs, ts, pos, args, named).Err?
    case Some(a) =>
      if a.0 != [] && named != map[] then ParseArgs(plat, cs, ts, pos, args, named).Err?
      else ParseArgs(plat, cs, ts, pos, args, named) == Ok((args + a.0, Assigned(a.1, named)), end)
  }

  lemma ElementStep(plat: Json.Platform, cs: Classes, ts: seq<Tok>, pos: nat, acc: seq<Value>)
    requires Peek(ts, pos) != Punct(RBRACKET)
    ensures ParseElements(plat, cs, ts, pos, acc)
         == match ParseValue(plat, cs, ts, pos)
            case Err(e) => Err(e)
            case Ok(v, p) =>
              if Peek(ts, SkipLines(ts, p)) == Punct(COMMA)
              then ParseElements(plat, cs, ts, SkipLines(ts, SkipLines(ts, p) + 1), acc + [v])
              else Ok(acc + [v], SkipLines(ts, p))
  {
    hide ParseValue, SkipLines;
  }

  lemma ElementsUnfold(plat: Json.Platform, cs: Classes, items: seq<Item>)
    requires items != []
    ensures var v, vs := Denote(plat, cs, items[0].value), ElementsOf(plat, cs, items[1..]);
      ElementsOf(plat, cs, items) == if v.Some? && vs.Some? then Some([v.value] + vs.value) else None
    ensures |items| == 1 ==> ElementsOf(plat, cs, items[1..]) == Some([])
  {
    hide Denote;
  }

  lemma NoElements(plat: Json.Platform, cs: Classes, ts: seq<Tok>, pos: nat, acc: seq<Value>)
    requires Peek(ts, pos) == Punct(RBRACKET)
    ensures ElementsRead(plat, cs, [], ts, pos, acc, pos)
  {
    assert acc + [] == acc;
  }

  lemma ElementJoined(plat: Json.Platform, cs: Classes, items: seq<Item>, ts: seq<Tok>, pos: nat, next: nat,
                      acc: seq<Value>, end: nat)
    requires items != [] && Denote(plat, cs, items[0].value).Some?
    requires var acc' := acc + [Denote(plat, cs, items[0].value).value];
      && ParseElements(plat, cs, ts, pos, acc) == ParseElements(plat, cs, ts, next, acc')
      && ElementsRead(plat, cs, items[1..], ts, next, acc', end)
    ensures ElementsRead(plat, cs, items, ts, pos, acc, end)
  {
    hide Denote, ParseElements, ElementsOf;
    ElementsUnfold(plat, cs, items);
    var v, vs := Denote(plat, cs, items[0].value).value, ElementsOf(plat, cs, items[1..]);
    if vs.Some? { Regrouped(acc, [v], vs.value); }
  }

  lemma {:induction false} ReadElements(plat: Json.Platform, cs: Classes, items: seq<Item>, ts: seq<Tok>, pos: nat,
                                        acc: seq<Value>)
    requires ItemsOk(InList, items) && At(ts, pos, ItemsToks(InList, items) + [Punct(RBRACKET)])
    ensures ElementsRead(plat, cs, items, ts, pos, acc, pos + |ItemsToks(InList, items)|)
    decreases items, 1
  {
    hide *;
    ItemsBegin(InList, items, RBRACKET, ts, pos);
    if items == [] {
      ItemsNone(InList);
      NoElements(plat, cs, ts, pos, acc);
    } else {
      ElementTurn(plat, cs, items, ts, pos, acc);
    }
  }

  lemma ItemsNone(place: Place)
    ensures ItemsToks(place, []) == []
  {
  }

  lemma ItemsSplit(place: Place, items: seq<Item>)
    requires items != [] && ItemsOk(place, items)
    ensures NodeOk(items[0].value) && ItemsOk(place, items[1..]) && ItemOk(place, items[0])
    ensures |items| > 1 && place != InCall ==> items[0].comma
  {
    hide NodeOk, ItemOk;
  }

  lemma {:induction false} ElementTurn(plat: Json.Platform, cs: Classes, items: seq<Item>, ts: seq<Tok>, pos: nat,
                                       acc: seq<Value>)
    requires items != [] && ItemsOk(InList, items) && At(ts, pos, ItemsToks(InList, items) + [Punct(RBRACKET)])
    requires Begins(Peek(ts, pos))
    ensures ElementsRead(plat, cs, items, ts, pos, acc, pos + |ItemsToks(InList, items)|)
    decreases items, 0
  {
    hide *;
    var it, at := items[0], SpotOf(InList, items[0], pos);
    ItemsSplit(InList, items);
    ItemAt(InList, items, Punct(RBRACKET), ts, pos);
    Between(InList, items, RBRACKET, ts, pos);
    Unlabelled(it, pos);
    ReadNode(plat, cs, it.value, ts, pos);
    BeginsNoBreak(Peek(ts, pos));
    ElementStep(plat, cs, ts, pos, acc);
    var end := pos + |ItemsToks(InList, items)|;
    if Denote(plat, cs, it.value).Some? {
      NodeIs(plat, cs, it.value, ts, pos, at.behind);
      var v := Denote(plat, cs, it.value).value;
      if it.comma {
        ReadElements(plat, cs, items[1..], ts, at.next, acc + [v]);
        ElementJoined(plat, cs, items, ts, pos, at.next, acc, end);
      } else {
        assert items[1..] == [];
        ItemsNone(InList);
        ElementLast(plat, cs, items, ts, pos, acc, end);
      }
    } else {
      NodeIs(plat, cs, it.value, ts, pos, at.behind);
      ElementsRefused(plat, cs, items, ts, pos, acc, end);
    }
  }

  lemma ElementLast(plat: Json.Platform, cs: Classes, items: seq<Item>, ts: seq<Tok>, pos: nat, acc: seq<Value>, end: nat)
    requires |items| == 1 && Denote(plat, cs, items[0].value).Some?
    requires ParseElements(plat, cs, ts, pos, acc) == Ok(acc + [Denote(plat, cs, items[0].value).value], end)
    ensures ElementsRead(plat, cs, items, ts, pos, acc, end)
  {
    hide Denote, ParseElements, ElementsOf;
    ElementsUnfold(plat, cs, items);
    assert [Denote(plat, cs, items[0].value).value] + [] == [Denote(plat, cs, items[0].value).value];
  }

  lemma ElementsRefused(plat: Json.Platform, cs: Classes, items: seq<Item>, ts: seq<Tok>, pos: nat, acc: seq<Value>, end: nat)
    requires items != [] && Denote(plat, cs, items[0].value).None? && ParseElements(plat, cs, ts, pos, acc).Err?
    ensures ElementsRead(plat, cs, items, ts, pos, acc, end)
  {
    hide Denote, ParseElements;
  }

  lemma NodeIs(plat: Json.Platform, cs: Classes, n: Node, ts: seq<Tok>, pos: nat, end: nat)
    requires NodeRead(plat, cs, n, ts, pos, end)
    ensures Denote(plat, cs, n).None? ==> ParseValue(plat, cs, ts, pos).Err?
    ensures Denote(plat, cs, n).Some? ==> ParseValue(plat, cs, ts, pos) == Ok(Denote(plat, cs, n).value, end)
  {
    hide Denote, ParseValue;
  }

  lemma Unlabelled(it: Item, pos: nat)
    requires ItemOk(InList, it)
    ensures SpotOf(InList, it, pos).value == pos && SpotOf(InList, it, pos).behind == pos + |NodeToks(it.value)|
  {
    hide NodeToks;
  }

  // ---------- Members ----------

  lemma MemberStep(plat: Json.Platform, cs: Classes, ts: seq<Tok>, pos: nat, acc: map<Bytes, Value>, raw: Bytes)
    requires Peek(ts, pos) == Str(raw) && Peek(ts, pos + 1) == Punct(COLON)
    ensures ParseMembers(plat, cs, ts, pos, acc)
         == match Unescape(raw, 0)
            case None => Err(BadText)
            case Some(key) =>
              match ParseValue(plat, cs, ts, SkipLines(ts, pos + 2))
              case Err(e) => Err(e)
              case Ok(v, p) =>
                if Peek(ts, SkipLines(ts, p)) == Punct(COMMA)
                then ParseMembers(plat, cs, ts, SkipLines(ts, SkipLines(ts, p) + 1), Emplace(acc, key, v))
                else Ok(Emplace(acc, key, v), SkipLines(ts, p))
  {
    hide ParseValue, SkipLines, Unescape, Emplace;
  }

  lemma MembersUnfold(plat: Json.Platform, cs: Classes, items: seq<Item>)
    requires items != [] && items[0].tag.Some?
    ensures var k, v, ps := NameOf(items[0].tag.value), Denote(plat, cs, items[0].value), MembersOf(plat, cs, items[1..]);
      MembersOf(plat, cs, items) == if k.Some? && v.Some? && ps.Some? then Some([(k.value, v.value)] + ps.value) else None
    ensures |items| == 1 ==> MembersOf(plat, cs, items[1..]) == Some([])
  {
    hide Denote, NameOf;
  }

  lemma NoMembers(plat: Json.Platform, cs: Classes, ts: seq<Tok>, pos: nat, acc: map<Bytes, Value>)
    requires Peek(ts, pos) == Punct(RBRACE)
    ensures MembersRead(plat, cs, [], ts, pos, acc, pos)
  {
  }

  lemma {:induction false} ReadMembers(plat: Json.Platform, cs: Classes, items: seq<Item>, ts: seq<Tok>, pos: nat,
                                       acc: map<Bytes, Value>)
    requires ItemsOk(InRecord, items) && At(ts, pos, ItemsToks(InRecord, items) + [Punct(RBRACE)])
    ensures MembersRead(plat, cs, items, ts, pos, acc, pos + |ItemsToks(InRecord, items)|)
    decreases items, 1
  {
    hide *;
    ItemsBegin(InRecord, items, RBRACE, ts, pos);
    if items == [] {
      ItemsNone(InRecord);
      NoMembers(plat, cs, ts, pos, acc);
    } else {
      MemberTurn(plat, cs, items, ts, pos, acc);
    }
  }

  /** A key with its colon: the value starts where the breaks end. */
  lemma Labelled(place: Place, items: seq<Item>, close: Byte, ts: seq<Tok>, pos: nat)
    requires items != [] && ItemsOk(place, items) && At(ts, pos, ItemsToks(place, items) + [Punct(close)])
    requires items[0].tag.Some?
    ensures Peek(ts, pos) == items[0].tag.value && Peek(ts, pos + 1) == Punct(Mark(place))
    ensures SkipLines(ts, pos + 2) == SpotOf(place, items[0], pos).value
  {
    hide NodeToks, NodeOk, ItemsToks, SkipLines, Begins;
    var it, at := items[0], SpotOf(place, items[0], pos);
    ItemAt(place, items, Punct(close), ts, pos);
    ItemBegins(place, items, close, ts, pos);
    LabelAt(place, it, ts, pos);
    BeginsNoBreak(Peek(ts, at.value));
    SkipBreaks(ts, pos + 2, it.gap);
  }

  lemma StrLabel(it: Item)
    requires ItemOk(InRecord, it)
    ensures it.tag.Some? && it.tag.value.Str? && NameOf(it.tag.value) == Unescape(it.tag.value.raw, 0)
    ensures Mark(InRecord) == COLON
  {
  }

  lemma {:induction false} MemberTurn(plat: Json.Platform, cs: Classes, items: seq<Item>, ts: seq<Tok>, pos: nat,
                                      acc: map<Bytes, Value>)
    requires items != [] && ItemsOk(InRecord, items) && At(ts, pos, ItemsToks(InRecord, items) + [Punct(RBRACE)])
    ensures MembersRead(plat, cs, items, ts, pos, acc, pos + |ItemsToks(InRecord, items)|)
    decreases items, 0
  {
    hide *;
    var it, at := items[0], SpotOf(InRecord, items[0], pos);
    ItemsSplit(InRecord, items);
    ItemAt(InRecord, items, Punct(RBRACE), ts, pos);
    Between(InRecord, items, RBRACE, ts, pos);
    StrLabel(it);
    Labelled(InRecord, items, RBRACE, ts, pos);
    ReadNode(plat, cs, it.value, ts, at.value);
    MemberStep(plat, cs, ts, pos, acc, it.tag.value.raw);
    SpotDef(InRecord, it, pos);
    NodeIs(plat, cs, it.value, ts, at.value, at.behind);
    var end := pos + |ItemsToks(InRecord, items)|;
    var k, v := NameOf(it.tag.value), Denote(plat, cs, it.value);
    if k.Some? && v.Some? && it.comma {
      ReadMembers(plat, cs, items[1..], ts, at.next, Emplace(acc, k.value, v.value));
      MemberJoined(plat, cs, items, ts, pos, at.next, acc, end);
    } else {
      if !it.comma { assert items[1..] == []; ItemsNone(InRecord); }
      MemberLast(plat, cs, items, ts, pos, acc, end);
    }
  }

  lemma MemberJoined(plat: Json.Platform, cs: Classes, items: seq<Item>, ts: seq<Tok>, pos: nat, next: nat,
                     acc: map<Bytes, Value>, end: nat)
    requires items != [] && items[0].tag.Some? && NameOf(items[0].tag.value).Some? && Denote(plat, cs, items[0].value).Some?
    requires var acc' := Emplace(acc, NameOf(items[0].tag.value).value, Denote(plat, cs, items[0].value).value);
      && ParseMembers(plat, cs, ts, pos, acc) == ParseMembers(plat, cs, ts, next, acc')
      && MembersRead(plat, cs, items[1..], ts, next, acc', end)
    ensures MembersRead(plat, cs, items, ts, pos, acc, end)
  {
    hide Denote, ParseMembers, MembersOf, NameOf, Emplace, Build;
    MembersUnfold(plat, cs, items);
    var ps := MembersOf(plat, cs, items[1..]);
    if ps.Some? {
      FirstPair(NameOf(items[0].tag.value).value, Denote(plat, cs, items[0].value).value, ps.value, acc);
    }
  }

  lemma MemberLast(plat: Json.Platform, cs: Classes, items: seq<Item>, ts: seq<Tok>, pos: nat, acc: map<Bytes, Value>, end: nat)
    requires items != [] && items[0].tag.Some?
    requires var k, v := NameOf(items[0].tag.value), Denote(plat, cs, items[0].value);
      if k.Some? && v.Some? then |items| == 1 && ParseMembers(plat, cs, ts, pos, acc) == Ok(Emplace(acc, k.value, v.value), end)
      else ParseMembers(plat, cs, ts, pos, acc).Err?
    ensures MembersRead(plat, cs, items, ts, pos, acc, end)
  {
    hide Denote, ParseMembers, NameOf, Emplace, Build, MembersOf;
    MembersUnfold(plat, cs, items);
    var k, v := NameOf(items[0].tag.value), Denote(plat, cs, items[0].value);
    if k.Some? && v.Some? {
      FirstPair(k.value, v.value, [], acc);
      BuildNothing(Emplace(acc, k.value, v.value));
    }
  }

  lemma BuildNothing(acc: map<Bytes, Value>)
    ensures Build([], acc) == acc
  {
  }

  // ---------- Arguments ----------

  lemma PositionalStep(plat: Json.Platform, cs: Classes, ts: seq<Tok>, pos: nat, args: seq<Value>, named: map<Bytes, Value>)
    requires Begins(Peek(ts, pos))
    requires !((Peek(ts, pos).Ident? || Peek(ts, pos).Str?) && Peek(ts, pos + 1) == Punct(EQUALS))
    ensures named != map[] || ParseValue(plat, cs, ts, pos).Err? ==> ParseArgs(plat, cs, ts, pos, args, named).Err?
    ensures named == map[] && ParseValue(plat, cs, ts, pos).Ok? ==>
      var r := ParseValue(plat, cs, ts, pos);
      ParseArgs(plat, cs, ts, pos, args, named) == ParseArgs(plat, cs, ts, SkipLines(ts, r.pos), args + [r.value], named)
  {
    hide ParseValue;
    BeginsNoBreak(Peek(ts, pos));
    SkipNothing(ts, pos);
  }

  lemma NamedStep(plat: Json.Platform, cs: Classes, ts: seq<Tok>, pos: nat, args: seq<Value>, named: map<Bytes, Value>)
    requires Peek(ts, pos).Ident? || Peek(ts, pos).Str?
    requires Peek(ts, pos + 1) == Punct(EQUALS)
    ensures ParseArgs(plat, cs, ts, pos, args, named)
         == match NameOf(Peek(ts, pos))
            case None => Err(BadText)
            case Some(name) =>
              match ParseValue(plat, cs, ts, SkipLines(ts, pos + 2))
              case Err(e) => Err(e)
              case Ok(v, q) => ParseArgs(plat, cs, ts, SkipLines(ts, q), args, named[name := v])
  {
    hide ParseValue, Unescape;
    SkipNothing(ts, pos);
  }

  lemma SeparatorStep(plat: Json.Platform, cs: Classes, ts: seq<Tok>, pos: nat, args: seq<Value>, named: map<Bytes, Value>)
    requires Peek(ts, pos) == Punct(COMMA) && (args != [] || named != map[])
    ensures ParseArgs(plat, cs, ts, pos, args, named) == ParseArgs(plat, cs, ts, SkipLines(ts, pos + 1), args, named)
  {
    hide ParseValue, Unescape;
  }

  lemma NoMoreArgs(plat: Json.Platform, cs: Classes, ts: seq<Tok>, pos: nat, args: seq<Value>, named: map<Bytes, Value>)
    requires Peek(ts, pos) == Punct(RPAREN)
    ensures ArgsRead(plat, cs, [], ts, pos, args, named, pos)
  {
    assert args + [] == args;
  }

  lemma ArgsUnfold(plat: Json.Platform, cs: Classes, items: seq<Item>)
    requires items != []
    ensures var v, a := Denote(plat, cs, items[0].value), ArgsOf(plat, cs, items[1..]);
      ArgsOf(plat, cs, items)
      == if v.None? || a.None? then None
         else if items[0].tag.None? then Some(([v.value] + a.value.0, a.value.1))
         else if a.value.0 != [] || NameOf(items[0].tag.value).None? then None
         else Some(([], [(NameOf(items[0].tag.value).value, v.value)] + a.value.1))
  {
    hide Denote, NameOf;
  }

  lemma {:induction false} ReadArgs(plat: Json.Platform, cs: Classes, items: seq<Item>, ts: seq<Tok>, pos: nat,
                                    args: seq<Value>, named: map<Bytes, Value>)
    requires ItemsOk(InCall, items) && At(ts, pos, ItemsToks(InCall, items) + [Punct(RPAREN)])
    ensures ArgsRead(plat, cs, items, ts, pos, args, named, pos + |ItemsToks(InCall, items)|)
    decreases items, 1
  {
    hide *;
    ItemsBegin(InCall, items, RPAREN, ts, pos);
    if items == [] {
      ItemsNone(InCall);
      NoMoreArgs(plat, cs, ts, pos, args, named);
    } else if items[0].tag.None? {
      PositionalTurn(plat, cs, items, ts, pos, args, named);
    } else {
      NamedTurn(plat, cs, items, ts, pos, args, named);
    }
  }

  /** A positional argument is never mistaken for a named one. */
  lemma {:induction false} NotNamedHere(items: seq<Item>, ts: seq<Tok>, pos: nat)
    requires items != [] && items[0].tag.None? && ItemsOk(InCall, items)
    requires At(ts, pos, ItemsToks(InCall, items) + [Punct(RPAREN)])
    ensures !((Peek(ts, pos).Ident? || Peek(ts, pos).Str?) && Peek(ts, pos + 1) == Punct(EQUALS))
  {
    hide ItemsToks, ItemsOk, NodeOk;
    var n, at := items[0].value, SpotOf(InCall, items[0], pos);
    ItemsSplit(InCall, items);
    ItemAt(InCall, items, Punct(RPAREN), ts, pos);
    PeekAt(ts, pos, NodeToks(n));
    match n
    case Lone(_) => BehindLone(items, ts, pos);
    case Call(name, lead, args) =>
      AtSplit(ts, pos, [Ident(name), Punct(LPAREN)], lead + (ItemsToks(InCall, args) + [Punct(RPAREN)]));
      AtHead(ts, pos, [Ident(name), Punct(LPAREN)]);
      PeekAt(ts, pos + 1, [Ident(name), Punct(LPAREN)][1..]);
    case Listed(_, _) =>
    case Record(_, _) =>
  }

  lemma BehindLone(items: seq<Item>, ts: seq<Tok>, pos: nat)
    requires items != [] && items[0].tag.None? && items[0].value.Lone? && ItemsOk(InCall, items)
    requires At(ts, pos, ItemsToks(InCall, items) + [Punct(RPAREN)])
    ensures Peek(ts, pos + 1) != Punct(EQUALS)
  {
    hide ItemsToks, ItemsOk, NodeOk, Begins;
    var it, at := items[0], SpotOf(InCall, items[0], pos);
    ItemsSplit(InCall, items);
    ItemAt(InCall, items, Punct(RPAREN), ts, pos);
    assert at.behind == pos + 1;
    if it.before != [] {
      PeekAt(ts, pos + 1, it.before);
      assert IsBreak(it.before[0]);
    } else if it.comma {
      CommaAt(it, ts, pos + 1);
    } else {
      ItemsBegin(InCall, items[1..], RPAREN, ts, pos + 1);
      if items[1..] != [] { BeginsNoBreak(Peek(ts, pos + 1)); }
    }
  }

  lemma {:induction false} PositionalTurn(plat: Json.Platform, cs: Classes, items: seq<Item>, ts: seq<Tok>, pos: nat,
                                          args: seq<Value>, named: map<Bytes, Value>)
    requires items != [] && items[0].tag.None? && ItemsOk(InCall, items) && Begins(Peek(ts, pos))
    requires At(ts, pos, ItemsToks(InCall, items) + [Punct(RPAREN)])
    ensures ArgsRead(plat, cs, items, ts, pos, args, named, pos + |ItemsToks(InCall, items)|)
    decreases items, 0
  {
    hide *;
    var it, at, end := items[0], SpotOf(InCall, items[0], pos), pos + |ItemsToks(InCall, items)|;
    ItemsSplit(InCall, items);
    ItemAt(InCall, items, Punct(RPAREN), ts, pos);
    Between(InCall, items, RPAREN, ts, pos);
    NotNamedHere(items, ts, pos);
    NoLabel(it, pos);
    SpotDef(InCall, it, pos);
    ReadNode(plat, cs, it.value, ts, pos);
    NodeIs(plat, cs, it.value, ts, pos, at.behind);
    PositionalStep(plat, cs, ts, pos, args, named);
    var v := Denote(plat, cs, it.value);
    if named == map[] && v.Some? {
      var args' := args + [v.value];
      if it.comma { SeparatorStep(plat, cs, ts, at.comma, args', named); }
      ReadArgs(plat, cs, items[1..], ts, at.next, args', named);
      PositionalJoined(plat, cs, items, ts, pos, at.next, args, end);
    } else {
      PositionalRefused(plat, cs, items, ts, pos, args, named, end);
    }
  }

  lemma NoLabel(it: Item, pos: nat)
    requires it.tag.None?
    ensures SpotOf(InCall, it, pos).value == pos
  {
    hide NodeToks;
  }

  lemma PositionalJoined(plat: Json.Platform, cs: Classes, items: seq<Item>, ts: seq<Tok>, pos: nat, next: nat,
                         args: seq<Value>, end: nat)
    requires items != [] && items[0].tag.None? && Denote(plat, cs, items[0].value).Some?
    requires var args' := args + [Denote(plat, cs, items[0].value).value];
      && ParseArgs(plat, cs, ts, pos, args, map[]) == ParseArgs(plat, cs, ts, next, args', map[])
      && ArgsRead(plat, cs, items[1..], ts, next, args', map[], end)
    ensures ArgsRead(plat, cs, items, ts, pos, args, map[], end)
  {
    hide Denote, ParseArgs, ArgsOf, Assigned;
    ArgsUnfold(plat, cs, items);
    var a := ArgsOf(plat, cs, items[1..]);
    if a.Some? { Regrouped(args, [Denote(plat, cs, items[0].value).value], a.value.0); }
  }

  lemma PositionalRefused(plat: Json.Platform, cs: Classes, items: seq<Item>, ts: seq<Tok>, pos: nat, args: seq<Value>,
                          named: map<Bytes, Value>, end: nat)
    requires items != [] && items[0].tag.None? && (named != map[] || Denote(plat, cs, items[0].value).None?)
    requires ParseArgs(plat, cs, ts, pos, args, named).Err?
    ensures ArgsRead(plat, cs, items, ts, pos, args, named, end)
  {
    hide Denote, ParseArgs, ArgsOf, Assigned;
    ArgsUnfold(plat, cs, items);
  }

  lemma {:induction false} NamedTurn(plat: Json.Platform, cs: Classes, items: seq<Item>, ts: seq<Tok>, pos: nat,
                                     args: seq<Value>, named: map<Bytes, Value>)
    requires items != [] && items[0].tag.Some? && ItemsOk(InCall, items)
    requires At(ts, pos, ItemsToks(InCall, items) + [Punct(RPAREN)])
    ensures ArgsRead(plat, cs, items, ts, pos, args, named, pos + |ItemsToks(InCall, items)|)
    decreases items, 0
  {
    hide *;
    var it, at, end := items[0], SpotOf(InCall, items[0], pos), pos + |ItemsToks(InCall, items)|;
    ItemsSplit(InCall, items);
    ItemAt(InCall, items, Punct(RPAREN), ts, pos);
    Between(InCall, items, RPAREN, ts, pos);
    Labelled(InCall, items, RPAREN, ts, pos);
    NameLabel(it);
    SpotDef(InCall, it, pos);
    ReadNode(plat, cs, it.value, ts, at.value);
    NodeIs(plat, cs, it.value, ts, at.value, at.behind);
    NamedStep(plat, cs, ts, pos, args, named);
    var k, v := NameOf(it.tag.value), Denote(plat, cs, it.value);
    if k.Some? && v.Some? {
      var named' := named[k.value := v.value];
      assert k.value in named';
      if it.comma { SeparatorStep(plat, cs, ts, at.comma, args, named'); }
      ReadArgs(plat, cs, items[1..], ts, at.next, args, named');
      NamedJoined(plat, cs, items, ts, pos, at.next, args, named, end);
    } else {
      NamedRefused(plat, cs, items, ts, pos, args, named, end);
    }
  }

  lemma NameLabel(it: Item)
    requires ItemOk(InCall, it) && it.tag.Some?
    ensures it.tag.value.Ident? || it.tag.value.Str?
    ensures Mark(InCall) == EQUALS
  {
  }

  lemma NamedJoined(plat: Json.Platform, cs: Classes, items: seq<Item>, ts: seq<Tok>, pos: nat, next: nat, args: seq<Value>,
                    named: map<Bytes, Value>, end: nat)
    requires items != [] && items[0].tag.Some? && NameOf(items[0].tag.value).Some? && Denote(plat, cs, items[0].value).Some?
    requires var named' := named[NameOf(items[0].tag.value).value := Denote(plat, cs, items[0].value).value];
      && ParseArgs(plat, cs, ts, pos, args, named) == ParseArgs(plat, cs, ts, next, args, named')
      && ArgsRead(plat, cs, items[1..], ts, next, args, named', end)
    ensures ArgsRead(plat, cs, items, ts, pos, args, named, end)
  {
    hide Denote, ParseArgs, ArgsOf, Assigned, NameOf;
    ArgsUnfold(plat, cs, items);
    var k, v, a := NameOf(items[0].tag.value).value, Denote(plat, cs, items[0].value).value, ArgsOf(plat, cs, items[1..]);
    assert k in named[k := v];
    if a.Some? { FirstAssigned(k, v, a.value.1, named); }
  }

  lemma FirstAssigned(k: Bytes, v: Value, ps: seq<(Bytes, Value)>, acc: map<Bytes, Value>)
    ensures Assigned([(k, v)] + ps, acc) == Assigned(ps, acc[k := v])
  {
    assert ([(k, v)] + ps)[1..] == ps;
  }

  lemma NamedRefused(plat: Json.Platform, cs: Classes, items: seq<Item>, ts: seq<Tok>, pos: nat, args: seq<Value>,
                     named: map<Bytes, Value>, end: nat)
    requires items != [] && items[0].tag.Some?
    requires NameOf(items[0].tag.value).None? || Denote(plat, cs, items[0].value).None?
    requires ParseArgs(plat, cs, ts, pos, args, named).Err?
    ensures ArgsRead(plat, cs, items, ts, pos, args, named, end)
  {
    hide Denote, ParseArgs, ArgsOf, Assigned, NameOf;
    ArgsUnfold(plat, cs, items);
  }

  /** Filling the properties one by one makes the instance. */
  lemma {:induction false} FillIs(props: seq<Bytes>, args: seq<Value>, named: map<Bytes, Value>, acc: map<Bytes, Value>)
    ensures var m := Build(Fill(props, args, named), acc);
      && m.Keys == acc.Keys + InstanceOf(props, args, named).Keys
      && forall k :: k in m ==> m[k] == if k in acc then acc[k] else InstanceOf(props, args, named)[k]
    decreases props
  {
    hide Fill, InstanceOf, Build;
    if props == [] {
      NothingToFill(args, named, acc);
    } else {
      var v := if args != [] then args[0] else if props[0] in named then named[props[0]] else Leaf(Null);
      var more := if args != [] then args[1..] else [];
      FillFirst(props, args, named);
      FirstPair(props[0], v, Fill(props[1..], more, named), acc);
      FillIs(props[1..], more, named, Emplace(acc, props[0], v));
      InstanceStep(props, args, named);
    }
  }

  lemma NothingToFill(args: seq<Value>, named: map<Bytes, Value>, acc: map<Bytes, Value>)
    ensures Build(Fill([], args, named), acc) == acc && InstanceOf([], args, named) == map[]
  {
  }

  lemma InstanceStep(props: seq<Bytes>, args: seq<Value>, named: map<Bytes, Value>)
    requires props != []
    ensures var v := if args != [] then args[0] else if props[0] in named then named[props[0]] else Leaf(Null);
      var more := InstanceOf(props[1..], if args != [] then args[1..] else [], named); var all := InstanceOf(props, args, named);
      && all.Keys == more.Keys + {props[0]} && all[props[0]] == v
      && forall k :: k in all && k != props[0] ==> k in more && all[k] == more[k]
  {
    assert forall k :: k in props <==> k == props[0] || k in props[1..];
  }

  lemma FillFirst(props: seq<Bytes>, args: seq<Value>, named: map<Bytes, Value>)
    requires props != []
    ensures Fill(props, args, named)
         == [(props[0], if args != [] then args[0] else if props[0] in named then named[props[0]] else Leaf(Null))]
            + Fill(props[1..], if args != [] then args[1..] else [], named)
  {
  }

  lemma Filled(props: seq<Bytes>, args: seq<Value>, named: map<Bytes, Value>)
    ensures Build(Fill(props, args, named), map[]) == InstanceOf(props, args, named)
  {
    hide Fill, Build;
    FillIs(props, args, named, map[]);
  }

  // ---------- Values ----------

  lemma LoneRead(plat: Json.Platform, cs: Classes, t: Tok, ts: seq<Tok>, pos: nat)
    requires NodeOk(Lone(t)) && Peek(ts, pos) == t
    ensures NodeRead(plat, cs, Lone(t), ts, pos, pos + 1)
  {
    hide ReadString, ReadNumber, Unescape, ParseArgs, ParseObject, ParseArray;
    SkipNothing(ts, pos);
  }

  /** A value, however laid out, is read as what it denotes, and refused where it denotes nothing. */
  lemma {:induction false} ReadNode(plat: Json.Platform, cs: Classes, n: Node, ts: seq<Tok>, pos: nat)
    requires NodeOk(n) && At(ts, pos, NodeToks(n))
    ensures NodeRead(plat, cs, n, ts, pos, pos + |NodeToks(n)|)
    decreases n, 0
  {
    hide *;
    match n
    case Lone(t) =>
      LoneToks(t);
      PeekAt(ts, pos, [t]);
      LoneRead(plat, cs, t, ts, pos);
    case Listed(lead, items) => ReadListed(plat, cs, lead, items, ts, pos);
    case Record(lead, items) => ReadRecord(plat, cs, lead, items, ts, pos);
    case Call(name, lead, items) => ReadCall(plat, cs, name, lead, items, ts, pos);
  }

  lemma LoneToks(t: Tok)
    ensures NodeToks(Lone(t)) == [t]
  {
  }

  /** Behind an opening bracket. */
  lemma Opened(place: Place, open: seq<Tok>, lead: seq<Tok>, items: seq<Item>, close: Byte, ts: seq<Tok>, pos: nat)
    requires Breaks(lead) && ItemsOk(place, items) && (close == RBRACKET || close == RBRACE || close == RPAREN)
    requires At(ts, pos, open + (lead + (ItemsToks(place, items) + [Punct(close)])))
    ensures var p, q := pos + |open|, pos + |open| + |lead|;
      && At(ts, pos, open) && SkipLines(ts, p) == q && At(ts, q, ItemsToks(place, items) + [Punct(close)])
      && Peek(ts, q + |ItemsToks(place, items)|) == Punct(close)
      && (items == [] ==> Peek(ts, q) == Punct(close)) && (items != [] ==> Begins(Peek(ts, q)))
  {
    hide *;
    var body, p := ItemsToks(place, items) + [Punct(close)], pos + |open|;
    AtSplit(ts, pos, open, lead + body);
    AtSplit(ts, p, lead, body);
    AtSplit(ts, p + |lead|, ItemsToks(place, items), [Punct(close)]);
    PeekAt(ts, p + |lead| + |ItemsToks(place, items)|, [Punct(close)]);
    ItemsBegin(place, items, close, ts, p + |lead|);
    SkipBreaks(ts, p, lead);
  }

  lemma {:induction false} ReadListed(plat: Json.Platform, cs: Classes, lead: seq<Tok>, items: seq<Item>, ts: seq<Tok>,
                                      pos: nat)
    requires NodeOk(Listed(lead, items)) && At(ts, pos, NodeToks(Listed(lead, items)))
    ensures NodeRead(plat, cs, Listed(lead, items), ts, pos, pos + |NodeToks(Listed(lead, items))|)
    decreases items, 2
  {
    hide *;
    ListedIs(plat, cs, lead, items);
    Opened(InList, [Punct(LBRACKET)], lead, items, RBRACKET, ts, pos);
    AtHead(ts, pos, [Punct(LBRACKET)]);
    var q := pos + 1 + |lead|;
    ReadElements(plat, cs, items, ts, q, []);
    if items == [] { ItemsNone(InList); } else { BeginsNoBreak(Peek(ts, q)); }
    ListedClosed(plat, cs, lead, items, ts, pos, q, q + |ItemsToks(InList, items)|);
  }

  lemma ListedIs(plat: Json.Platform, cs: Classes, lead: seq<Tok>, items: seq<Item>)
    requires NodeOk(Listed(lead, items))
    ensures NodeToks(Listed(lead, items)) == [Punct(LBRACKET)] + (lead + (ItemsToks(InList, items) + [Punct(RBRACKET)]))
    ensures Breaks(lead) && ItemsOk(InList, items)
    ensures |NodeToks(Listed(lead, items))| == 1 + |lead| + |ItemsToks(InList, items)| + 1
  {
    hide ItemsToks, ItemsOk;
  }

  lemma ListedClosed(plat: Json.Platform, cs: Classes, lead: seq<Tok>, items: seq<Item>, ts: seq<Tok>, pos: nat, q: nat,
                     end: nat)
    requires pos < |ts| && ts[pos] == Punct(LBRACKET) && SkipLines(ts, pos + 1) == q && Peek(ts, end) == Punct(RBRACKET)
    requires Peek(ts, q) == Punct(RBRACKET) <==> items == []
    requires items == [] ==> end == q
    requires ElementsRead(plat, cs, items, ts, q, [], end)
    ensures NodeRead(plat, cs, Listed(lead, items), ts, pos, end + 1)
  {
    hide ParseElements, ElementsOf, SkipLines, ParseValue;
    StepListing(plat, cs, ts, pos);
    var vs := ElementsOf(plat, cs, items);
    if vs.Some? { assert [] + vs.value == vs.value; }
    if items == [] { NoItems(plat, cs); }
  }

  lemma NoItems(plat: Json.Platform, cs: Classes)
    ensures ElementsOf(plat, cs, []) == Some([]) && MembersOf(plat, cs, []) == Some([])
  {
  }

  lemma {:induction false} ReadRecord(plat: Json.Platform, cs: Classes, lead: seq<Tok>, items: seq<Item>, ts: seq<Tok>,
                                      pos: nat)
    requires NodeOk(Record(lead, items)) && At(ts, pos, NodeToks(Record(lead, items)))
    ensures NodeRead(plat, cs, Record(lead, items), ts, pos, pos + |NodeToks(Record(lead, items))|)
    decreases items, 2
  {
    hide *;
    RecordIs(plat, cs, lead, items);
    Opened(InRecord, [Punct(LBRACE)], lead, items, RBRACE, ts, pos);
    AtHead(ts, pos, [Punct(LBRACE)]);
    var q := pos + 1 + |lead|;
    ReadMembers(plat, cs, items, ts, q, map[]);
    if items == [] { ItemsNone(InRecord); } else { BeginsNoBreak(Peek(ts, q)); }
    RecordClosed(plat, cs, lead, items, ts, pos, q, q + |ItemsToks(InRecord, items)|);
  }

  lemma RecordIs(plat: Json.Platform, cs: Classes, lead: seq<Tok>, items: seq<Item>)
    requires NodeOk(Record(lead, items))
    ensures NodeToks(Record(lead, items)) == [Punct(LBRACE)] + (lead + (ItemsToks(InRecord, items) + [Punct(RBRACE)]))
    ensures Breaks(lead) && ItemsOk(InRecord, items)
    ensures |NodeToks(Record(lead, items))| == 1 + |lead| + |ItemsToks(InRecord, items)| + 1
  {
    hide ItemsToks, ItemsOk;
  }

  lemma RecordClosed(plat: Json.Platform, cs: Classes, lead: seq<Tok>, items: seq<Item>, ts: seq<Tok>, pos: nat, q: nat,
                     end: nat)
    requires pos < |ts| && ts[pos] == Punct(LBRACE) && SkipLines(ts, pos + 1) == q && Peek(ts, end) == Punct(RBRACE)
    requires Peek(ts, q) == Punct(RBRACE) <==> items == []
    requires items == [] ==> end == q
    requires MembersRead(plat, cs, items, ts, q, map[], end)
    ensures NodeRead(plat, cs, Record(lead, items), ts, pos, end + 1)
  {
    hide ParseMembers, MembersOf, SkipLines, ParseValue, Build;
    StepPlain(plat, cs, ts, pos);
    if items == [] {
      NoItems(plat, cs);
      BuildNothing(map[]);
    }
  }

  lemma {:induction false} ReadCall(plat: Json.Platform, cs: Classes, name: Bytes, lead: seq<Tok>, items: seq<Item>,
                                    ts: seq<Tok>, pos: nat)
    requires NodeOk(Call(name, lead, items)) && At(ts, pos, NodeToks(Call(name, lead, items)))
    ensures NodeRead(plat, cs, Call(name, lead, items), ts, pos, pos + |NodeToks(Call(name, lead, items))|)
    decreases items, 2
  {
    hide *;
    CallIs(plat, cs, name, lead, items);
    var open := [Ident(name), Punct(LPAREN)];
    Opened(InCall, open, lead, items, RPAREN, ts, pos);
    AtHead(ts, pos, open);
    PeekAt(ts, pos, open);
    PeekAt(ts, pos + 1, open[1..]);
    var q := pos + 2 + |lead|;
    ReadArgs(plat, cs, items, ts, q, [], map[]);
    StepInstance(plat, cs, ts, pos, name);
    CallClosed(plat, cs, name, lead, items, ts, pos, q, q + |ItemsToks(InCall, items)|);
  }

  lemma CallIs(plat: Json.Platform, cs: Classes, name: Bytes, lead: seq<Tok>, items: seq<Item>)
    requires NodeOk(Call(name, lead, items))
    ensures NodeToks(Call(name, lead, items))
         == [Ident(name), Punct(LPAREN)] + (lead + (ItemsToks(InCall, items) + [Punct(RPAREN)]))
    ensures Breaks(lead) && ItemsOk(InCall, items)
    ensures |NodeToks(Call(name, lead, items))| == 2 + |lead| + |ItemsToks(InCall, items)| + 1
  {
    hide ItemsToks, ItemsOk;
  }

  lemma CallClosed(plat: Json.Platform, cs: Classes, name: Bytes, lead: seq<Tok>, items: seq<Item>, ts: seq<Tok>, pos: nat,
                   q: nat, end: nat)
    requires Peek(ts, pos) == Ident(name) && Peek(ts, pos + 1) == Punct(LPAREN)
    requires SkipLines(ts, pos + 2) == q && Peek(ts, end) == Punct(RPAREN)
    requires ArgsRead(plat, cs, items, ts, q, [], map[], end)
    ensures NodeRead(plat, cs, Call(name, lead, items), ts, pos, end + 1)
  {
    hide ParseArgs, ArgsOf, SkipLines, ParseValue, Build, Fill, InstanceOf, Assigned;
    StepInstance(plat, cs, ts, pos, name);
    var a := ArgsOf(plat, cs, items);
    if a.Some? && name in cs {
      assert [] + a.value.0 == a.value.0;
      Filled(cs[name], a.value.0, Assigned(a.value.1, map[]));
    }
  }
}
