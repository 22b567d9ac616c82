/** JSON text: what the compact and the pretty printer write, and what the parser reads. */
module Json {
  import opened Bytes
  import opened Values
  import opened Text
  import opened Regexes
  import Base64

  /** The platform's date and floating-point conversions, and whether the parser takes NaN and Infinity. */
  datatype Platform = Platform(
    allowNaNInfinity: bool,
    parseDateTime: Bytes -> Option<(Int64, int)>,
    formatDateTime: (Int64, int) -> Bytes,
    parseDouble: Bytes -> Option<UInt64>,   // None where out of range
    formatDouble: UInt64 -> Bytes,          // "null" for a non-finite double
    widen: UInt32 -> UInt64)

  // ---------- Reserved keys of MongoDB Extended JSON ----------

  const OID: Bytes := [36, 111, 105, 100]                                      // $oid
  const TIMESTAMP: Bytes := [36, 116, 105, 109, 101, 115, 116, 97, 109, 112]   // $timestamp
  const BINARY: Bytes := [36, 98, 105, 110, 97, 114, 121]                      // $binary
  const REGEX: Bytes := [36, 114, 101, 103, 101, 120]                          // $regex
  const OPTIONS: Bytes := [36, 111, 112, 116, 105, 111, 110, 115]              // $options
  const SECONDS: Bytes := [116]                                                // t
  const BASE64: Bytes := [98, 97, 115, 101, 54, 52]                            // base64
  const SUBTYPE: Bytes := [115, 117, 98, 84, 121, 112, 101]                    // subType

  const NULL_TEXT: Bytes := [110, 117, 108, 108]
  const TRUE_TEXT: Bytes := [116, 114, 117, 101]
  const FALSE_TEXT: Bytes := [102, 97, 108, 115, 101]

  // ---------- Printer ----------

  function Quoted(s: Bytes): (r: Bytes)
    ensures |r| >= 2
  {
    [QUOTE] + Escape(s) + [QUOTE]
  }

  function Hex(s: Bytes): (r: Bytes)
    ensures |r| == 2 * |s|
  {
    if s == [] then [] else [HexDigit(s[0] / 16), HexDigit(s[0] % 16)] + Hex(s[1..])
  }

  predicate IsWrapper(s: Scalar)
  {
    s.Binary? || s.ObjectId? || s.Regex? || s.Timestamp? || s.Extension?
  }

  function BinaryDoc(data: Bytes, subType: Byte): (r: Doc)
  {
    Table([Entry(BINARY, Table([
      Entry(BASE64, Atom(Text(Base64.Encode(Base64.Default(), data), false))),
      Entry(SUBTYPE, Atom(Text(Hex([subType]), false)))]))])
  }

  /** The Extended JSON object a special scalar is written as. */
  function WrapperDoc(s: Scalar): (r: Doc)
    requires IsWrapper(s)
  {
    match s
    case Binary(data) => BinaryDoc(data, 0)
    case Extension(t, payload) => BinaryDoc(payload, t % 256)
    case ObjectId(oid) => Table([Entry(OID, Atom(Text(Hex(oid), false)))])
    case Timestamp(n) => Table([Entry(TIMESTAMP, Table([Entry(SECONDS, Atom(Int(n)))]))])
    case Regex(source) =>
      var p, o := PatternOf(source), OptionsOf(source);
      Table([Entry(REGEX, Atom(Text(p, false)))] + (if o == [] then [] else [Entry(OPTIONS, Atom(Text(o, false)))]))
  }

  function PlainToken(plat: Platform, s: Scalar): (r: Bytes)
    requires !IsWrapper(s)
  {
    match s
    case Null => NULL_TEXT
    case Bool(flag) => if flag then TRUE_TEXT else FALSE_TEXT
    case Int(n) => Decimal(n)
    case Double(bits) => plat.formatDouble(bits)
    case Float32(bits) => plat.formatDouble(plat.widen(bits))
    case Text(text, raw) => if raw then text else Quoted(text)
    case DateTime(ts, ms) => [QUOTE] + plat.formatDateTime(ts, ms) + [QUOTE]
  }

  function Spaces(n: nat): (r: Bytes)
    ensures |r| == n
  {
    if n == 0 then [] else [SPACE] + Spaces(n - 1)
  }

  /** The line break and indentation before an item; nothing in compact text. */
  function Break(pretty: bool, indent: nat): (r: Bytes)
  {
    if pretty then [NEWLINE] + Spaces(4 * indent) else []
  }

  /** 1 if special scalars remain to be unfolded; their wrapper objects hold none. */
  function Rank(d: Doc): (r: nat)
    decreases d
  {
    match d
    case Atom(s) => if IsWrapper(s) then 1 else 0
    case List(items) => ItemsRank(items)
    case Table(es) => EntriesRank(es)
  }

  function ItemsRank(ds: seq<Doc>): (r: nat)
    decreases ds
  {
    if ds == [] then 0 else Max(Rank(ds[0]), ItemsRank(ds[1..]))
  }

  function EntriesRank(es: seq<Entry>): (r: nat)
    decreases es
  {
    if es == [] then 0 else Max(Rank(es[0].doc), EntriesRank(es[1..]))
  }

  lemma WrapperRank(s: Scalar)
    requires IsWrapper(s)
    ensures Rank(WrapperDoc(s)) == 0
  {
    match s
    case Binary(data) => BinaryRank(data, 0);
    case Extension(t, payload) => BinaryRank(payload, t % 256);
    case ObjectId(oid) => SingleRank(OID, Atom(Text(Hex(oid), false)));
    case Timestamp(n) =>
      SingleRank(SECONDS, Atom(Int(n)));
      SingleRank(TIMESTAMP, Table([Entry(SECONDS, Atom(Int(n)))]));
    case Regex(source) =>
      var p, o := Entry(REGEX, Atom(Text(PatternOf(source), false))), Entry(OPTIONS, Atom(Text(OptionsOf(source), false)));
      PairRank(p, o);
      SingleRank(REGEX, p.doc);
      assert [p] + [] == [p] && [p] + [o] == [p, o];
  }

  lemma SingleRank(key: Bytes, d: Doc)
    ensures Rank(Table([Entry(key, d)])) == Rank(d)
  {
    assert [Entry(key, d)][1..] == [];
    assert EntriesRank([]) == 0;
    assert EntriesRank([Entry(key, d)]) == Max(Rank(d), 0);
  }

  lemma PairRank(a: Entry, b: Entry)
    ensures Rank(Table([a, b])) == Max(Rank(a.doc), Rank(b.doc))
  {
    assert [a, b][1..] == [b] && [b][1..] == [];
    assert EntriesRank([]) == 0;
    assert EntriesRank([b]) == Max(Rank(b.doc), 0);
    assert EntriesRank([a, b]) == Max(Rank(a.doc), EntriesRank([b]));
  }

  lemma BinaryRank(data: Bytes, subType: Byte)
    ensures Rank(BinaryDoc(data, subType)) == 0
  {
    var a := Entry(BASE64, Atom(Text(Base64.Encode(Base64.Default(), data), false)));
    var b := Entry(SUBTYPE, Atom(Text(Hex([subType]), false)));
    PairRank(a, b);
    SingleRank(BINARY, Table([a, b]));
  }

  /** serialize and serializePretty; special scalars stay on one line in both. */
  function Render(plat: Platform, d: Doc, pretty: bool, indent: nat): (r: Bytes)
    decreases Rank(d), d, 0
  {
    match d
    case Atom(s) =>
      if IsWrapper(s) then WrapperRank(s); Render(plat, WrapperDoc(s), false, 0) else PlainToken(plat, s)
    case List(items) =>
      if items == [] then [LBRACKET, RBRACKET]
      else [LBRACKET] + (RenderItems(plat, items, pretty, indent + 1) + (Break(pretty, indent) + [RBRACKET]))
    case Table(es) =>
      if es == [] then [LBRACE, RBRACE]
      else [LBRACE] + (RenderMembers(plat, es, pretty, indent + 1) + (Break(pretty, indent) + [RBRACE]))
  }

  function RenderItems(plat: Platform, ds: seq<Doc>, pretty: bool, indent: nat): (r: Bytes)
    requires ds != []
    decreases ItemsRank(ds), ds, 1
  {
    Break(pretty, indent) + (Render(plat, ds[0], pretty, indent)
    + (if |ds| == 1 then [] else [COMMA] + RenderItems(plat, ds[1..], pretty, indent)))
  }

  /** A member is the quoted key, a colon and the value. */
  function Member(plat: Platform, e: Entry, pretty: bool, indent: nat): (r: Bytes)
    decreases Rank(e.doc), e, 1
  {
    Quoted(e.key) + ([COLON] + ((if pretty then [SPACE] else []) + Render(plat, e.doc, pretty, indent)))
  }

  function RenderMembers(plat: Platform, es: seq<Entry>, pretty: bool, indent: nat): (r: Bytes)
    requires es != []
    decreases EntriesRank(es), es, 2
  {
    Break(pretty, indent) + (Member(plat, es[0], pretty, indent)
    + (if |es| == 1 then [] else [COMMA] + RenderMembers(plat, es[1..], pretty, indent)))
  }

  // ---------- Blanks and comments ----------

  /** The character at the cursor; NUL past the end. */
  function Cur(json: Bytes, pos: nat): (r: Byte)
  {
    if pos < |json| then json[pos] else 0
  }

  predicate IsBlank(b: Byte) { b == SPACE || b == TAB || b == NEWLINE || b == RETURN }

  const STAR: Byte := 42
  const HASH: Byte := 35

  function LineEnd(json: Bytes, pos: nat): (r: nat)
    ensures pos <= r && (pos <= |json| ==> r <= |json|)
    decreases Remaining(json, pos)
  {
    if pos < |json| && json[pos] != NEWLINE && json[pos] != RETURN then LineEnd(json, pos + 1) else pos
  }

  /** The position of the closing star and slash; None if the comment never closes. */
  function CommentEnd(json: Bytes, pos: nat): (r: Option<nat>)
    ensures r.Some? ==> pos <= r.value && r.value + 2 <= |json|
    decreases Remaining(json, pos)
  {
    if pos + 1 >= |json| then None
    else if json[pos] == STAR && json[pos + 1] == SLASH then Some(pos)
    else CommentEnd(json, pos + 1)
  }

  /** skip(): past blanks and comments; None at an unclosed comment. */
  function Skip(json: Bytes, pos: nat): (r: Option<nat>)
    ensures r.Some? ==> pos <= r.value && (pos <= |json| ==> r.value <= |json|)
    decreases Remaining(json, pos)
  {
    if pos >= |json| then Some(pos)
    else if IsBlank(json[pos]) then Skip(json, pos + 1)
    else if json[pos] == SLASH && pos + 1 < |json| && json[pos + 1] == SLASH then Skip(json, LineEnd(json, pos + 2))
    else if json[pos] == SLASH && pos + 1 < |json| && json[pos + 1] == STAR then
      match CommentEnd(json, pos + 2)
      case None => None
      case Some(p) => Skip(json, p + 2)
    else if json[pos] == HASH then Skip(json, LineEnd(json, pos))
    else Some(pos)
  }

  // ---------- Strings ----------

  /** The closing quote of a string whose body starts at `pos`. */
  function ScanString(json: Bytes, pos: nat): (r: Option<nat>)
    ensures r.Some? ==> pos <= r.value < |json|
    decreases Remaining(json, pos)
  {
    if pos >= |json| then None
    else if json[pos] == QUOTE then Some(pos)
    else if json[pos] == BACKSLASH then if pos + 1 >= |json| then None else ScanString(json, pos + 2)
    else if json[pos] < 0x20 then None
    else ScanString(json, pos + 1)
  }

  function ReadRaw(json: Bytes, pos: nat): (r: Parsed<Bytes>)
    ensures r.Ok? ==> pos + 2 <= r.pos <= |json|
  {
    if Cur(json, pos) != QUOTE then Err(BadText)
    else
      match ScanString(json, pos + 1)
      case None => Err(BadText)
      case Some(e) => if e - (pos + 1) > MAX_STRING_LEN then Err(TooLarge) else Ok(json[pos + 1..e], e + 1)
  }

  function ReadKey(json: Bytes, pos: nat): (r: Parsed<Bytes>)
    ensures r.Ok? ==> pos + 2 <= r.pos <= |json|
  {
    match ReadRaw(json, pos)
    case Err(e) => Err(e)
    case Ok(raw, p) =>
      match Unescape(raw, 0)
      case None => Err(BadText)
      case Some(s) => Ok(s, p)
  }

  /** Only text laid out like an ISO date is offered to the date parser. */
  function ReadDate(plat: Platform, raw: Bytes): (r: Option<(Int64, int)>)
    ensures r.Some? ==> |raw| >= 20 && MINUS in raw
  {
    if |raw| >= 20 && raw[4] == MINUS && raw[7] == MINUS && raw[10] == 84 then plat.parseDateTime(raw) else None
  }

  /** A string that looks like a date-time is one; this is decided before unescaping. */
  function StringOrDateTime(plat: Platform, json: Bytes, pos: nat): (r: Parsed<Value>)
    ensures r.Ok? ==> pos + 2 <= r.pos <= |json|
  {
    match ReadRaw(json, pos)
    case Err(e) => Err(e)
    case Ok(raw, p) =>
      match ReadDate(plat, raw)
      case Some(t) => Ok(Leaf(DateTime(t.0, t.1)), p)
      case None =>
        match Unescape(raw, 0)
        case None => Err(BadText)
        case Some(s) => if |s| > MAX_STRING_LEN then Err(BadText) else Ok(Leaf(Text(s, false)), p)
  }

  // ---------- Numbers ----------

  function DigitsEnd(json: Bytes, pos: nat): (r: nat)
    ensures pos <= r && (pos <= |json| ==> r <= |json|)
    ensures forall i :: pos <= i < r ==> i < |json| && IsDigit(json[i])
    ensures !IsDigit(Cur(json, r))
    decreases Remaining(json, pos)
  {
    if IsDigit(Cur(json, pos)) then DigitsEnd(json, pos + 1) else pos
  }

  const DOT: Byte := 46
  const PLUS: Byte := 43

  predicate IsExponent(b: Byte) { b == 101 || b == 69 }

  /** Where the fraction that may start at `pos` ends; None if it has no digit. */
  function FractionEnd(json: Bytes, pos: nat): (r: Option<nat>)
    ensures r.Some? ==> pos <= r.value && (pos <= |json| ==> r.value <= |json|)
  {
    if Cur(json, pos) != DOT then Some(pos)
    else if !IsDigit(Cur(json, pos + 1)) then None
    else Some(DigitsEnd(json, pos + 1))
  }

  function ExponentEnd(json: Bytes, pos: nat): (r: Option<nat>)
    ensures r.Some? ==> pos <= r.value && (pos <= |json| ==> r.value <= |json|)
  {
    if !IsExponent(Cur(json, pos)) then Some(pos)
    else
      var p := if Cur(json, pos + 1) == PLUS || Cur(json, pos + 1) == MINUS then pos + 2 else pos + 1;
      if !IsDigit(Cur(json, p)) then None else Some(DigitsEnd(json, p))
  }

  /** Characters of a literal other than the leading sign, dot, exponent marks and signs. */
  function SignificantDigits(s: Bytes): (r: nat)
  {
    if s == [] then 0
    else (if s[0] == DOT || IsExponent(s[0]) || s[0] == PLUS || s[0] == MINUS then 0 else 1) + SignificantDigits(s[1..])
  }

  /** std::from_chars into a 64-bit integer; None out of range. */
  function Int64Of(s: Bytes): (r: Option<Int64>)
    requires forall i :: (if s != [] && s[0] == MINUS then 1 else 0) <= i < |s| ==> IsDigit(s[i])
  {
    var n: int := if s != [] && s[0] == MINUS then 0 - FromDigits(s[1..]) else FromDigits(s);
    if -TWO_63 <= n < TWO_63 then Some(n) else None
  }

  /** An integer beyond 64 bits, or a decimal beyond 17 digits, is kept as its exact literal. */
  function Number(plat: Platform, json: Bytes, pos: nat): (r: Parsed<Value>)
    ensures r.Ok? ==> pos < r.pos && (pos <= |json| ==> r.pos <= |json|)
  {
    var start := if Cur(json, pos) == MINUS then pos + 1 else pos;
    var intEnd := DigitsEnd(json, start);
    if intEnd == start then Err(BadText)
    else if intEnd > start + 1 && json[start] == ZERO then Err(BadText)
    else
      match FractionEnd(json, intEnd)
      case None => Err(BadText)
      case Some(fracEnd) =>
        match ExponentEnd(json, fracEnd)
        case None => Err(BadText)
        case Some(end) =>
          assert intEnd <= |json|;
          var literal := json[pos..end];
          if end > intEnd then
            match plat.parseDouble(literal)
            case None => Err(BadText)
            case Some(bits) =>
              if SignificantDigits(literal) <= 17 then Ok(Leaf(Double(bits)), end)
              else if |literal| > MAX_STRING_LEN then Err(TooLarge)
              else Ok(Leaf(Text(literal, true)), end)
          else
            match Int64Of(literal)
            case Some(n) => Ok(Leaf(Int(n)), end)
            case None => if |literal| > MAX_STRING_LEN then Err(TooLarge) else Ok(Leaf(Text(literal, true)), end)
  }

  // ---------- Extended JSON ----------

  predicate IsSpace(b: Byte) { 9 <= b <= 13 || b == SPACE }

  function SkipSpaces(s: Bytes): (r: Bytes)
    ensures |r| <= |s|
  {
    if s != [] && IsSpace(s[0]) then SkipSpaces(s[1..]) else s
  }

  /** The value of the leading run of hex digits. */
  function HexRun(s: Bytes, acc: nat): (r: nat)
  {
    if s == [] || HexValue(s[0]) < 0 then acc else HexRun(s[1..], acc * 16 + HexValue(s[0]))
  }

  /** strtol(s, nullptr, 16), saturating at the bounds of a 64-bit long. */
  function Strtol16(s: Bytes): (r: Int64)
  {
    var t := SkipSpaces(s);
    var negative := t != [] && t[0] == MINUS;
    var u := if t != [] && (t[0] == MINUS || t[0] == PLUS) then t[1..] else t;
    var v := if |u| >= 3 && u[0] == ZERO && (u[1] == 120 || u[1] == 88) && HexValue(u[2]) >= 0 then u[2..] else u;
    var n := HexRun(v, 0);
    if negative then (if n > TWO_63 then -TWO_63 else 0 - n) else (if n >= TWO_63 then TWO_63 - 1 else n)
  }

  /** Pairs of characters read as hexadecimal bytes. */
  function HexBytes(s: Bytes): (r: Bytes)
    requires |s| % 2 == 0
    ensures |r| == |s| / 2
  {
    if s == [] then [] else [Strtol16(s[..2]) % 256] + HexBytes(s[2..])
  }

  function TextAt(m: map<Bytes, Value>, k: Bytes): (r: Option<Bytes>)
  {
    if k in m && m[k].Leaf? && m[k].scalar.Text? then Some(m[k].scalar.text) else None
  }

  function ObjectAt(m: map<Bytes, Value>, k: Bytes): (r: Option<map<Bytes, Value>>)
  {
    if k in m && m[k].Object? then Some(m[k].fields) else None
  }

  /** A binary body; None where the base64 member is missing, malformed or empty. */
  function BinaryOf(m: map<Bytes, Value>): (r: Option<Value>)
  {
    match TextAt(m, BASE64)
    case None => None
    case Some(b64) =>
      match Base64.Decode(Base64.Default(), b64)
      case None => None
      case Some(data) =>
        if data == [] then None
        else
          var sub := match TextAt(m, SUBTYPE) case None => 0 case Some(hex) => Signed(Strtol16(hex) % TWO_32, TWO_32);
          if sub == 0 then Some(Leaf(Binary(data))) else Some(Leaf(Extension(Signed(sub % 256, 256), data)))
  }

  /** The special forms an object is recognised as, tried in order; None where the parser ends up with
      no value (a regular expression that cannot be made). */
  function Special(m: map<Bytes, Value>): (r: Option<Value>)
  {
    var oid, ts, bin, re := TextAt(m, OID), ObjectAt(m, TIMESTAMP), ObjectAt(m, BINARY), TextAt(m, REGEX);
    if |m| == 1 && oid.Some? && |oid.value| == 24 then Some(Leaf(ObjectId(HexBytes(oid.value))))
    else if |m| == 1 && ts.Some? && SECONDS in ts.value && ts.value[SECONDS].Leaf? && ts.value[SECONDS].scalar.Int?
      then Some(Leaf(Timestamp(ts.value[SECONDS].scalar.num)))
    else if |m| == 1 && bin.Some? && BinaryOf(bin.value).Some? then BinaryOf(bin.value)
    else if re.Some? then
      var o := TextAt(m, OPTIONS);
      match MakeRegex(re.value, if o.Some? then o.value else [])
      case None => None
      case Some(s) => Some(Leaf(s))
    else Some(Object(m))
  }

  // ---------- Values ----------

  predicate IsIdent(b: Byte)
  {
    97 <= b <= 122 || 65 <= b <= 90 || IsDigit(b) || b == 95
  }

  predicate Spells(json: Bytes, pos: nat, word: Bytes)
  {
    pos + |word| <= |json| && json[pos..pos + |word|] == word
  }

  function Literal(json: Bytes, pos: nat, word: Bytes, s: Scalar): (r: Parsed<Value>)
    ensures r.Ok? ==> r.pos == pos + |word| && (pos <= |json| ==> r.pos <= |json|)
  {
    if Spells(json, pos, word) && !IsIdent(Cur(json, pos + |word|))
    then Ok(Leaf(s), pos + |word|) else Err(BadText)
  }

  const NAN_TEXT: Bytes := [78, 97, 78]
  const INFINITY_TEXT: Bytes := [73, 110, 102, 105, 110, 105, 116, 121]
  const NAN_BITS: UInt64 := 0x7FF8_0000_0000_0000
  const INFINITY_BITS: UInt64 := 0x7FF0_0000_0000_0000
  const SIGN_BIT: UInt64 := TWO_63

  /** NaN or Infinity at `pos`, with a minus sign or without, and the bits it stands for. */
  function NonFinite(json: Bytes, pos: nat): (r: Option<(Bytes, UInt64)>)
    ensures r.Some? ==> |r.value.0| > 0
  {
    if Spells(json, pos, NAN_TEXT) then Some((NAN_TEXT, NAN_BITS))
    else if Spells(json, pos, INFINITY_TEXT) then Some((INFINITY_TEXT, INFINITY_BITS))
    else if Spells(json, pos, [MINUS] + INFINITY_TEXT) then Some(([MINUS] + INFINITY_TEXT, SIGN_BIT + INFINITY_BITS))
    else if Spells(json, pos, [MINUS] + NAN_TEXT) then Some(([MINUS] + NAN_TEXT, SIGN_BIT + NAN_BITS))
    else None
  }

  function ParseValue(plat: Platform, json: Bytes, pos: nat, depth: nat): (r: Parsed<Value>)
    ensures r.Ok? ==> pos < r.pos <= |json|
    decreases Remaining(json, pos), 0
  {
    match Skip(json, pos)
    case None => Err(BadText)
    case Some(p) =>
      if p >= |json| then Err(BadText)
      else
        var c := json[p];
        if c == LBRACE then
          if depth + 1 > MAX_NESTING_DEPTH then Err(TooDeep)
          else
            match ParseMembers(plat, json, p + 1, depth + 1, map[])
            case Err(e) => Err(e)
            case Ok(m, p2) =>
              match Special(m)
              case None => Err(BadText)
              case Some(v) => Ok(v, p2)
        else if c == LBRACKET then
          if depth + 1 > MAX_NESTING_DEPTH then Err(TooDeep)
          else
            match ParseElements(plat, json, p + 1, depth + 1, [])
            case Err(e) => Err(e)
            case Ok(items, p2) => Ok(Array(items), p2)
        else if c == QUOTE then StringOrDateTime(plat, json, p)
        else if c == TRUE_TEXT[0] then Literal(json, p, TRUE_TEXT, Bool(true))
        else if c == FALSE_TEXT[0] then Literal(json, p, FALSE_TEXT, Bool(false))
        else if c == NULL_TEXT[0] then Literal(json, p, NULL_TEXT, Null)
        else if plat.allowNaNInfinity && NonFinite(json, p).Some? then
          Literal(json, p, NonFinite(json, p).value.0, Double(NonFinite(json, p).value.1))
        else if c == MINUS || IsDigit(c) then Number(plat, json, p)
        else Err(BadText)
  }

  /** What follows a member or an element: a comma, or the closing bracket and the end. */
  function AfterItem(json: Bytes, pos: nat, close: Byte): (r: Parsed<bool>)
    requires close != COMMA
    ensures r.Ok? ==> pos < r.pos && (pos <= |json| ==> r.pos <= |json|)
  {
    match Skip(json, pos)
    case None => Err(BadText)
    case Some(p) =>
      if p >= |json| then Err(BadText)
      else if json[p] == close then Ok(true, p + 1)
      else if json[p] == COMMA then Ok(false, p + 1)
      else Err(BadText)
  }

  /** A key, a colon and a value. */
  function ParseMember(plat: Platform, json: Bytes, pos: nat, depth: nat): (r: Parsed<(Bytes, Value)>)
    ensures r.Ok? ==> pos < r.pos <= |json|
    decreases Remaining(json, pos), 1
  {
    match ReadKey(json, pos)
    case Err(e) => Err(e)
    case Ok(key, p) =>
      match Skip(json, p)
      case None => Err(BadText)
      case Some(p2) =>
        if Cur(json, p2) != COLON then Err(BadText)
        else
          match ParseValue(plat, json, p2 + 1, depth)
          case Err(e) => Err(e)
          case Ok(v, p3) => Ok((key, v), p3)
  }

  function ParseMembers(plat: Platform, json: Bytes, pos: nat, depth: nat, acc: map<Bytes, Value>)
    : (r: Parsed<map<Bytes, Value>>)
    ensures r.Ok? ==> pos < r.pos <= |json|
    decreases Remaining(json, pos), 2
  {
    match Skip(json, pos)
    case None => Err(BadText)
    case Some(p) =>
      if p >= |json| then Err(BadText)
      else if json[p] == RBRACE then Ok(acc, p + 1)
      else if |acc| + 1 > MAX_OBJECT_SIZE then Err(TooLarge)
      else
        match ParseMember(plat, json, p, depth)
        case Err(e) => Err(e)
        case Ok(kv, p2) =>
          var acc' := acc[kv.0 := kv.1];
          match AfterItem(json, p2, RBRACE)
          case Err(e) => Err(e)
          case Ok(closed, p3) => if closed then Ok(acc', p3) else ParseMembers(plat, json, p3, depth, acc')
  }

  function ParseElements(plat: Platform, json: Bytes, pos: nat, depth: nat, acc: seq<Value>)
    : (r: Parsed<seq<Value>>)
    ensures r.Ok? ==> pos < r.pos <= |json|
    decreases Remaining(json, pos), 2
  {
    match Skip(json, pos)
    case None => Err(BadText)
    case Some(p) =>
      if p >= |json| then Err(BadText)
      else if json[p] == RBRACKET then Ok(acc, p + 1)
      else if |acc| + 1 > MAX_ARRAY_SIZE then Err(TooLarge)
      else
        match ParseValue(plat, json, p, depth)
        case Err(e) => Err(e)
        case Ok(v, p2) =>
          match AfterItem(json, p2, RBRACKET)
          case Err(e) => Err(e)
          case Ok(closed, p3) => if closed then Ok(acc + [v], p3) else ParseElements(plat, json, p3, depth, acc + [v])
  }

  /** parse(): a byte-order mark, one value, and nothing but blanks and comments after it. */
  function ParseDocument(plat: Platform, text: Bytes): (r: Option<Value>)
  {
    var json := if |text| >= 3 && text[0] == 0xEF && text[1] == 0xBB && text[2] == 0xBF then text[3..] else text;
    match ParseValue(plat, json, 0, 0)
    case Err(_) => None
    case Ok(v, p) => if Skip(json, p) == Some(|json|) then Some(v) else None
  }
}
