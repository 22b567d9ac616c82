/** CBOR (RFC 8949): what the encoder writes and what the decoder reads. */
module Cbor {
  import opened Bytes
  import opened Values

  /** Conversions of the platform's floating-point unit that the codec calls. */
  datatype Floats = Floats(
    epochBits: (Int64, int) -> UInt64,   // seconds and milliseconds to the bits of a double
    epochOf: UInt64 -> (Int64, int),     // and back, clamped to 0..999 milliseconds
    halfBits: nat -> UInt64,             // half-precision pattern to the bits of a double
    widen: UInt32 -> UInt64)             // single-precision pattern to the bits of a double

  /** A vector or string never exceeds PTRDIFF_MAX bytes. */
  type Input = d: Bytes | |d| < TWO_63

  const BREAK: Byte := 0xFF

  // ---------- Heads ----------

  /** Bytes that follow the initial byte for an argument. */
  function ArgWidth(val: UInt64): (r: nat)
  {
    if val <= 23 then 0 else if val <= 0xFF then 1 else if val <= 0xFFFF then 2
    else if val <= 0xFFFF_FFFF then 4 else 8
  }

  function ArgInfo(val: UInt64): (r: nat)
    ensures r <= 27
  {
    if val <= 23 then val else if val <= 0xFF then 24 else if val <= 0xFFFF then 25
    else if val <= 0xFFFF_FFFF then 26 else 27
  }

  function Head(major: nat, val: UInt64): (r: Bytes)
    requires major < 8
    ensures |r| == 1 + ArgWidth(val)
  {
    [major * 32 + ArgInfo(val)] + BigEndian(val, ArgWidth(val))
  }

  /** The argument announced by `info`, read at `pos`. */
  function ReadArg(data: Bytes, pos: nat, info: nat): (r: Parsed<UInt64>)
    requires info < 32
    ensures r.Ok? && pos <= |data| ==> pos <= r.pos <= |data|
  {
    if info <= 23 then Ok(info, pos)
    else if info == 24 then ReadWide(data, pos, 1)
    else if info == 25 then ReadWide(data, pos, 2)
    else if info == 26 then ReadWide(data, pos, 4)
    else if info == 27 then ReadWide(data, pos, 8)
    else Err(BadHead)
  }

  // ---------- Encoder ----------

  function IntBytes(n: Int64): (r: Bytes)
    ensures r != []
  {
    if n >= 0 then Head(0, n) else Head(1, -1 - n)
  }

  /** A length-prefixed string; the length is a size_t. */
  function StringBytes(major: nat, s: Bytes): (r: Bytes)
    requires major < 8
    ensures r != []
  {
    Head(major, |s| % TWO_64) + s
  }

  function EncodeScalar(fp: Floats, s: Scalar): (r: Bytes)
    ensures r != []
  {
    match s
    case Null => [0xF7]
    case Bool(flag) => [if flag then 0xF5 else 0xF4]
    case Int(n) => IntBytes(n)
    case Double(bits) => [0xFB] + BigEndian(bits, 8)
    case Float32(bits) => [0xFA] + BigEndian(bits, 4)
    case Text(text, _) => StringBytes(3, text)
    case Binary(data) => StringBytes(2, data)
    case ObjectId(oid) => if |oid| == 12 then StringBytes(2, oid) else [0xF7]
    case Extension(t, payload) =>
      if payload == [] then [0xF7]
      else [0xD9, 0x01, 0x01, 0x82] + Head(0, t % 256) + StringBytes(2, payload)
    case DateTime(ts, ms) => [0xC1, 0xFB] + BigEndian(fp.epochBits(ts, ms), 8)
    case Timestamp(n) => [0xC1] + IntBytes(n)
    case Regex(source) => [0xD8, 0x23] + StringBytes(3, source)
  }

  function Encode(fp: Floats, d: Doc): (r: Bytes)
    ensures r != []
    decreases d
  {
    match d
    case Atom(s) => EncodeScalar(fp, s)
    case List(items) => Head(4, |items| % TWO_64) + EncodeItems(fp, items)
    case Table(entries) => Head(5, |entries| % TWO_64) + EncodeEntries(fp, entries)
  }

  function EncodeItems(fp: Floats, ds: seq<Doc>): (r: Bytes)
    ensures |ds| <= |r|
    decreases ds
  {
    if ds == [] then [] else Encode(fp, ds[0]) + EncodeItems(fp, ds[1..])
  }

  function EncodeEntries(fp: Floats, es: seq<Entry>): (r: Bytes)
    ensures |es| <= |r|
    decreases es
  {
    if es == [] then []
    else StringBytes(3, es[0].key) + Encode(fp, es[0].doc) + EncodeEntries(fp, es[1..])
  }

  // ---------- Decoder ----------

  /** The `len` bytes at `pos`.  The bound is checked on 64-bit sizes, so the sum can wrap; a length
      that only passes by wrapping exceeds the string limit. */
  function ReadString(data: Input, pos: nat, len: UInt64): (r: Parsed<Bytes>)
    requires pos <= |data|
    ensures r.Ok? ==> r.pos == pos + len <= |data| && r.value == data[pos..pos + len] && len <= MAX_STRING_LEN
  {
    if (pos + len) % TWO_64 > |data| then Err(UnexpectedEnd)
    else if len > MAX_STRING_LEN then Err(TooLarge)
    else Ok(data[pos..pos + len], pos + len)
  }

  function Parse(fp: Floats, data: Input, pos: nat, depth: nat): (r: Parsed<Value>)
    ensures r.Ok? ==> pos < r.pos <= |data|
    decreases Remaining(data, pos), 0, 0
  {
    if depth > MAX_NESTING_DEPTH then Err(TooDeep)
    else if pos >= |data| then Err(UnexpectedEnd)
    else
      var major, info := data[pos] / 32, data[pos] % 32;
      if info == 31 then ParseIndefinite(fp, data, pos + 1, major, depth)
      else if major == 7 then ParseSimple(fp, data, pos + 1, info)
      else
        match ReadArg(data, pos + 1, info)
        case Err(e) => Err(e)
        case Ok(arg, p) =>
          if major == 0 then Ok(Leaf(Int(ToI64(arg))), p)
          else if major == 1 then Ok(Leaf(Int(-1 - ToI64(arg))), p)
          else if major == 2 then
            match ReadString(data, p, arg)
            case Err(e) => Err(e)
            case Ok(s, p2) => Ok(Leaf(Binary(s)), p2)
          else if major == 3 then
            match ReadString(data, p, arg)
            case Err(e) => Err(e)
            case Ok(s, p2) => Ok(Leaf(Text(s, false)), p2)
          else if major == 4 then
            if arg > MAX_ARRAY_SIZE then Err(TooLarge)
            else
              match ParseItems(fp, data, p, arg, depth + 1, [])
              case Err(e) => Err(e)
              case Ok(items, p2) => Ok(Array(items), p2)
          else if major == 5 then
            if arg > MAX_OBJECT_SIZE then Err(TooLarge)
            else
              match ParseEntries(fp, data, p, arg, depth + 1, map[])
              case Err(e) => Err(e)
              case Ok(fields, p2) => Ok(Object(fields), p2)
          else
            match Parse(fp, data, p, depth + 1)
            case Err(e) => Err(e)
            case Ok(v, p2) => Ok(Tagged(fp, arg, v), p2)
  }

  /** `n` items in a row. */
  function ParseItems(fp: Floats, data: Input, pos: nat, n: nat, depth: nat, acc: seq<Value>)
    : (r: Parsed<seq<Value>>)
    ensures r.Ok? ==> pos <= r.pos && (pos <= |data| ==> r.pos <= |data|)
    decreases Remaining(data, pos), 1, n
  {
    if n == 0 then Ok(acc, pos)
    else
      match Parse(fp, data, pos, depth)
      case Err(e) => Err(e)
      case Ok(v, p) => ParseItems(fp, data, p, n - 1, depth, acc + [v])
  }

  /** A text key and its value. */
  function ParsePair(fp: Floats, data: Input, pos: nat, depth: nat): (r: Parsed<(Bytes, Value)>)
    ensures r.Ok? ==> pos < r.pos <= |data|
    decreases Remaining(data, pos), 1, 0
  {
    match Parse(fp, data, pos, depth)
    case Err(e) => Err(e)
    case Ok(k, p) =>
      if !(k.Leaf? && k.scalar.Text?) then Err(BadKey)
      else
        match Parse(fp, data, p, depth)
        case Err(e) => Err(e)
        case Ok(v, p2) => Ok((k.scalar.text, v), p2)
  }

  function ParseEntries(fp: Floats, data: Input, pos: nat, n: nat, depth: nat, acc: map<Bytes, Value>)
    : (r: Parsed<map<Bytes, Value>>)
    ensures r.Ok? ==> pos <= r.pos && (pos <= |data| ==> r.pos <= |data|)
    decreases Remaining(data, pos), 2, n
  {
    if n == 0 then Ok(acc, pos)
    else
      match ParsePair(fp, data, pos, depth)
      case Err(e) => Err(e)
      case Ok(kv, p) => ParseEntries(fp, data, p, n - 1, depth, Emplace(acc, kv.0, kv.1))
  }

  // ---------- Indefinite lengths ----------

  function ParseIndefinite(fp: Floats, data: Input, pos: nat, major: nat, depth: nat): (r: Parsed<Value>)
    requires pos <= |data|
    ensures r.Ok? ==> pos <= r.pos <= |data|
    decreases Remaining(data, pos), 3, 0
  {
    if major == 4 then
      match ParseUntilBreak(fp, data, pos, depth + 1, [])
      case Err(e) => Err(e)
      case Ok(items, p) => Ok(Array(items), p)
    else if major == 5 then
      match ParseEntriesUntilBreak(fp, data, pos, depth + 1, 0, map[])
      case Err(e) => Err(e)
      case Ok(fields, p) => Ok(Object(fields), p)
    else if major == 2 || major == 3 then
      match ParseChunks(fp, data, pos, depth + 1, [])
      case Err(e) => Err(e)
      case Ok(s, p) => Ok(Leaf(if major == 2 then Binary(s) else Text(s, false)), p)
    else Err(BadHead)
  }

  /** Items up to a break byte; the end of the input also ends the list. */
  function ParseUntilBreak(fp: Floats, data: Input, pos: nat, depth: nat, acc: seq<Value>)
    : (r: Parsed<seq<Value>>)
    requires pos <= |data|
    ensures r.Ok? ==> pos <= r.pos <= |data|
    decreases Remaining(data, pos), 1, 0
  {
    if pos == |data| then Ok(acc, pos)
    else if data[pos] == BREAK then Ok(acc, pos + 1)
    else if |acc| >= MAX_ARRAY_SIZE then Err(TooLarge)
    else
      match Parse(fp, data, pos, depth)
      case Err(e) => Err(e)
      case Ok(v, p) => ParseUntilBreak(fp, data, p, depth, acc + [v])
  }

  /** Key/value pairs up to a break byte; `count` counts pairs, repeated keys included. */
  function ParseEntriesUntilBreak(fp: Floats, data: Input, pos: nat, depth: nat, count: nat,
                                  acc: map<Bytes, Value>): (r: Parsed<map<Bytes, Value>>)
    requires pos <= |data|
    ensures r.Ok? ==> pos <= r.pos <= |data|
    decreases Remaining(data, pos), 2, 0
  {
    if pos == |data| then Ok(acc, pos)
    else if data[pos] == BREAK then Ok(acc, pos + 1)
    else if count >= MAX_OBJECT_SIZE then Err(TooLarge)
    else
      match ParsePair(fp, data, pos, depth)
      case Err(e) => Err(e)
      case Ok(kv, p) => ParseEntriesUntilBreak(fp, data, p, depth, count + 1, Emplace(acc, kv.0, kv.1))
  }

  /** The bytes one chunk contributes.  An empty byte string has a null data pointer and is refused;
      an empty text is not. */
  function ChunkOf(v: Value): (r: Option<Bytes>)
  {
    if v.Leaf? && v.scalar.Binary? && v.scalar.data != [] then Some(v.scalar.data)
    else if v.Leaf? && v.scalar.Text? then Some(v.scalar.text)
    else None
  }

  function ParseChunks(fp: Floats, data: Input, pos: nat, depth: nat, acc: Bytes): (r: Parsed<Bytes>)
    requires pos <= |data|
    ensures r.Ok? ==> pos <= r.pos <= |data|
    decreases Remaining(data, pos), 1, 0
  {
    if pos == |data| then Ok(acc, pos)
    else if data[pos] == BREAK then Ok(acc, pos + 1)
    else
      match Parse(fp, data, pos, depth)
      case Err(e) => Err(e)
      case Ok(v, p) =>
        match ChunkOf(v)
        case None => Err(BadChunk)
        case Some(s) =>
          if |acc| + |s| > MAX_STRING_LEN then Err(TooLarge)
          else ParseChunks(fp, data, p, depth, acc + s)
  }

  // ---------- Tags and simple values ----------

  /** Tag 35: options after the last bar; the pattern is the whole text. */
  function RegexOf(s: Bytes): (r: Option<Scalar>)
  {
    var bar := LastIndexOf(s, '|' as int);
    MakeRegex(s, if bar >= 0 then s[bar + 1..] else [])
  }

  function Tagged(fp: Floats, tag: UInt64, v: Value): (r: Value)
  {
    if tag == 1 && v.Leaf? && v.scalar.Double? then
      var t := fp.epochOf(v.scalar.bits); Leaf(DateTime(t.0, t.1))
    else if tag == 1 && v.Leaf? && v.scalar.Float32? then
      var t := fp.epochOf(fp.widen(v.scalar.bits32)); Leaf(DateTime(t.0, t.1))
    else if tag == 1 && v.Leaf? && v.scalar.Int? then Leaf(DateTime(v.scalar.num, 0))
    else if tag == 35 && v.Leaf? && v.scalar.Text? then
      match RegexOf(v.scalar.text) case Some(re) => Leaf(re) case None => v
    else if tag == 257 && v.Array? && |v.items| == 2
         && v.items[0].Leaf? && v.items[0].scalar.Int? && v.items[1].Leaf? && v.items[1].scalar.Binary? then
      Leaf(Extension(Signed(v.items[0].scalar.num % 256, 256), v.items[1].scalar.data))
    else v
  }

  function ParseSimple(fp: Floats, data: Bytes, pos: nat, info: nat): (r: Parsed<Value>)
    requires pos <= |data|
    requires info < 31
    ensures r.Ok? ==> pos <= r.pos <= |data|
  {
    if info == 20 then Ok(Leaf(Bool(false)), pos)
    else if info == 21 then Ok(Leaf(Bool(true)), pos)
    else if info == 22 || info == 23 then Ok(Leaf(Null), pos)
    else if info == 24 then
      if pos == |data| then Err(UnexpectedEnd)
      else Ok(Leaf(if data[pos] == 20 then Bool(false) else if data[pos] == 21 then Bool(true) else Null), pos + 1)
    else if info == 25 then
      match ReadWide(data, pos, 2)
      case Err(e) => Err(e)
      case Ok(half, p) => Ok(Leaf(Double(fp.halfBits(half))), p)
    else if info == 26 then
      match ReadWide(data, pos, 4)
      case Err(e) => Err(e)
      case Ok(bits, p) =>
        assert bits < TWO_32 by { FromBigEndianBound(data[pos..pos + 4]); Pow256Values(); }
        Ok(Leaf(Float32(bits)), p)
    else if info == 27 then
      match ReadWide(data, pos, 8)
      case Err(e) => Err(e)
      case Ok(bits, p) => Ok(Leaf(Double(bits)), p)
    else Err(BadHead)
  }
}
