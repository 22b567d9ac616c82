/** BSON: what the encoder writes and what the decoder reads. */
module Bson {
  import opened Bytes
  import opened Values
  import opened Text
  import opened Regexes

  const MAX_DOCUMENT: int := TWO_32 - 1

  // ---------- Encoder ----------

  /** The element type byte. */
  function TypeOf(d: Doc): (r: Byte)
  {
    match d
    case List(_) => 0x04
    case Table(_) => 0x03
    case Atom(s) =>
      match s
      case Double(_) => 0x01
      case Float32(_) => 0x01
      case Text(_, _) => 0x02
      case Binary(_) => 0x05
      case ObjectId(_) => 0x07
      case Bool(_) => 0x08
      case DateTime(_, _) => 0x09
      case Regex(_) => 0x0B
      case Int(n) => if -0x8000_0000 <= n < 0x8000_0000 then 0x10 else 0x12
      case Timestamp(_) => 0x11
      case _ => 0x0A
  }

  function Padded(oid: Bytes): (r: Bytes)
    ensures |r| == 12
  {
    if |oid| >= 12 then oid[..12] else oid + seq(12 - |oid|, _ => 0)
  }

  /** The bytes after the type and the key; `widen` is the platform's float-to-double conversion. */
  function ScalarPayload(widen: UInt32 -> UInt64, s: Scalar): (r: Bytes)
  {
    match s
    case Double(bits) => LittleEndian(bits, 8)
    case Float32(bits) => LittleEndian(widen(bits), 8)
    case Text(t, _) => LittleEndian((|t| + 1) % TWO_32, 4) + (t + [0])
    case Binary(data) => LittleEndian(|data| % TWO_32, 4) + ([0] + data)
    case ObjectId(oid) => Padded(oid)
    case Bool(flag) => [if flag then 1 else 0]
    case DateTime(ts, ms) => LittleEndian((ts * 1000 + ms) % TWO_64, 8)
    case Regex(source) => PatternOf(source) + ([0] + (OptionsOf(source) + [0]))
    case Int(n) => if -0x8000_0000 <= n < 0x8000_0000 then LittleEndian(n % TWO_32, 4) else LittleEndian(ToU64(n), 8)
    case Timestamp(n) => LittleEndian(0, 4) + LittleEndian(n % TWO_32, 4)
    case _ => []
  }

  function Payload(widen: UInt32 -> UInt64, d: Doc): (r: Bytes)
    decreases d, 2
  {
    match d
    case Atom(s) => ScalarPayload(widen, s)
    case List(items) => Document(ItemsBytes(widen, items, 0))
    case Table(es) => Document(EntriesBytes(widen, es))
  }

  /** The size of the whole, the elements, a terminator. */
  function Document(elements: Bytes): (r: Bytes)
    ensures |r| == |elements| + 5
  {
    LittleEndian((|elements| + 5) % TWO_32, 4) + (elements + [0])
  }

  function Element(widen: UInt32 -> UInt64, key: Bytes, d: Doc): (r: Bytes)
    decreases d, 3
  {
    [TypeOf(d)] + (key + ([0] + Payload(widen, d)))
  }

  function EntriesBytes(widen: UInt32 -> UInt64, es: seq<Entry>): (r: Bytes)
    decreases es, 0
  {
    if es == [] then [] else Element(widen, es[0].key, es[0].doc) + EntriesBytes(widen, es[1..])
  }

  /** Array elements are keyed by their decimal positions. */
  function ItemsBytes(widen: UInt32 -> UInt64, ds: seq<Doc>, i: nat): (r: Bytes)
    decreases ds, 0
  {
    if ds == [] then [] else Element(widen, Digits(i), ds[0]) + ItemsBytes(widen, ds[1..], i + 1)
  }

  // ---------- Decoder ----------

  /** The end of a NUL-terminated string: its NUL, or `end`. */
  function CStringEnd(data: Bytes, pos: nat, end: nat): (r: nat)
    requires end <= |data|
    ensures if pos <= end then pos <= r <= end else r == pos
    decreases if pos < end then end - pos else 0
  {
    if pos < end && data[pos] != 0 then CStringEnd(data, pos + 1, end) else pos
  }

  function ReadText(data: Bytes, pos: nat): (r: Parsed<Value>)
    ensures r.Ok? ==> pos < r.pos <= |data|
  {
    if pos + 4 > |data| then Err(UnexpectedEnd)
    else
      var len := ReadLittle(data, pos, 4);
      if len < 1 || pos + 4 + len > |data| then Err(BadLength)
      else
        match Take(data, pos + 4, len - 1)
        case Err(e) => Err(e)
        case Ok(s, p) => Ok(Leaf(Text(s, false)), p + 1)
  }

  function AsBinary(r: Parsed<Bytes>): Parsed<Value>
  {
    match r case Err(e) => Err(e) case Ok(s, p) => Ok(Leaf(Binary(s)), p)
  }

  function ReadBinary(data: Bytes, pos: nat): (r: Parsed<Value>)
    ensures r.Ok? ==> pos < r.pos <= |data|
  {
    if pos + 5 > |data| then Err(UnexpectedEnd)
    else
      var len, subtype := ReadLittle(data, pos, 4), data[pos + 4];
      if pos + 5 + len > |data| then Err(UnexpectedEnd)
      else if subtype == 0 || subtype == 5 || (subtype == 3 && len < 4) then AsBinary(Take(data, pos + 5, len))
      else if subtype == 3 then
        var inner := ReadLittle(data, pos + 5, 4);
        AsBinary(Take(data, pos + 9, inner))
      else
        match Take(data, pos + 5, len)
        case Err(e) => Err(e)
        case Ok(s, p) => Ok(Leaf(Extension(Signed(subtype, 256), s)), p)
  }

  function ReadRegex(data: Bytes, pos: nat, end: nat): (r: Parsed<Value>)
    requires pos <= end < |data|
    ensures r.Ok? ==> pos < r.pos <= |data| + 1
  {
    var a := CStringEnd(data, pos, end);
    var b := CStringEnd(data, a + 1, end);
    match MakeRegex(data[pos..a], data[a + 1..b])
    case None => Err(TooLarge)
    case Some(s) => Ok(Leaf(s), b + 1)
  }

  function ReadWord(data: Bytes, pos: nat): (r: Parsed<UInt64>)
    ensures r.Ok? ==> r.pos == pos + 8 <= |data|
  {
    if pos + 8 > |data| then Err(UnexpectedEnd) else Pow256Values(); Ok(ReadLittle(data, pos, 8), pos + 8)
  }

  /** Everything that is neither a document nor an array. */
  function ReadScalar(data: Bytes, pos: nat, end: nat, kind: Byte): (r: Parsed<Value>)
    requires pos <= end < |data|
    ensures r.Ok? ==> pos <= r.pos <= |data| + 1
  {
    if kind == 0x01 then
      match ReadWord(data, pos) case Err(e) => Err(e) case Ok(bits, p) => Ok(Leaf(Double(bits)), p)
    else if kind == 0x02 then ReadText(data, pos)
    else if kind == 0x05 then ReadBinary(data, pos)
    else if kind == 0x06 || kind == 0x0A then Ok(Leaf(Null), pos)
    else if kind == 0x07 then
      if pos + 12 > |data| then Err(UnexpectedEnd) else Ok(Leaf(ObjectId(data[pos..pos + 12])), pos + 12)
    else if kind == 0x08 then Ok(Leaf(Bool(data[pos] != 0)), pos + 1)
    else if kind == 0x09 then
      match ReadWord(data, pos) case Err(e) => Err(e) case Ok(ms, p) => Ok(Leaf(DateTime(ms / 1000, ms % 1000)), p)
    else if kind == 0x0B then ReadRegex(data, pos, end)
    else if kind == 0x10 then
      if pos + 4 > |data| then Err(UnexpectedEnd)
      else Pow256Values(); Ok(Leaf(Int(Signed(ReadLittle(data, pos, 4), TWO_32))), pos + 4)
    else if kind == 0x11 then
      if pos + 8 > |data| then Err(UnexpectedEnd)
      else Pow256Values(); Ok(Leaf(Timestamp(ReadLittle(data, pos, 4))), pos + 8)
    else if kind == 0x12 then
      match ReadWord(data, pos) case Err(e) => Err(e) case Ok(v, p) => Ok(Leaf(Int(ToI64(v))), p)
    else Err(BadHead)
  }

  /** The keys are exactly the decimal positions. */
  predicate Sequential(m: map<Bytes, Value>, n: nat)
  {
    n == 0 || (Digits(n - 1) in m && Sequential(m, n - 1))
  }

  function InOrder(m: map<Bytes, Value>, n: nat): (r: seq<Value>)
    requires Sequential(m, n)
    ensures |r| == n
  {
    if n == 0 then [] else InOrder(m, n - 1) + [m[Digits(n - 1)]]
  }

  /** An array document becomes an array if it is not empty and its keys are the positions. */
  function Rebuild(m: map<Bytes, Value>): (r: Result<Value>)
  {
    if m != map[] && Sequential(m, |m|) then
      if |m| > MAX_ARRAY_SIZE then Failure(TooLarge) else Success(Array(InOrder(m, |m|)))
    else Success(Object(m))
  }

  /** A document at `pos`; its end is kept in 32 bits. */
  function ReadDocument(data: Bytes, pos: nat, depth: nat): (r: Parsed<map<Bytes, Value>>)
    ensures r.Ok? ==> pos < r.pos <= |data| + 1
    decreases Remaining(data, pos), 0
  {
    if depth > MAX_NESTING_DEPTH then Err(TooDeep)
    else if pos + 4 > |data| then Err(UnexpectedEnd)
    else
      var size := ReadLittle(data, pos, 4);
      if size < 5 || pos + size > |data| then Err(BadLength)
      else
        match ReadElements(data, pos + 4, (pos + size - 1) % TWO_32, depth, map[])
        case Err(e) => Err(e)
        case Ok(m, p) => Ok(m, if p < |data| && data[p] == 0 then p + 1 else p)
  }

  function ReadElements(data: Bytes, pos: nat, end: nat, depth: nat, acc: map<Bytes, Value>): (r: Parsed<map<Bytes, Value>>)
    requires end < |data|
    ensures r.Ok? ==> pos <= r.pos && (pos <= |data| + 1 ==> r.pos <= |data| + 1)
    decreases Remaining(data, pos), 2
  {
    if pos >= end then Ok(acc, pos)
    else
      match ReadElement(data, pos, end, depth)
      case Err(e) => Err(e)
      case Ok(kv, p) => ReadElements(data, p, end, depth, Emplace(acc, kv.0, kv.1))
  }

  /** Type, key, value. */
  function ReadElement(data: Bytes, pos: nat, end: nat, depth: nat): (r: Parsed<(Bytes, Value)>)
    requires pos < end < |data|
    ensures r.Ok? ==> pos < r.pos <= |data| + 1
    decreases Remaining(data, pos), 1
  {
    var nul := CStringEnd(data, pos + 1, end);
    var key := data[pos + 1..nul];
    if nul >= end then Err(BadKey)
    else if |key| > MAX_STRING_LEN then Err(TooLarge)
    else if data[pos] == 0x03 then
      match ReadDocument(data, nul + 1, depth + 1) case Err(e) => Err(e) case Ok(m, p) => Ok((key, Object(m)), p)
    else if data[pos] == 0x04 then
      match ReadDocument(data, nul + 1, depth + 1)
      case Err(e) => Err(e)
      case Ok(m, p) => (match Rebuild(m) case Failure(e) => Err(e) case Success(v) => Ok((key, v), p))
    else
      match ReadScalar(data, nul + 1, end, data[pos]) case Err(e) => Err(e) case Ok(v, p) => Ok((key, v), p)
  }
}
