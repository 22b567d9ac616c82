/** MessagePack: what the encoder writes and what the decoder reads. */
module MsgPack {
  import opened Bytes
  import opened Values

  const TWO_34: int := 0x4_0000_0000
  const NANOS: int := 1_000_000_000

  // ---------- Encoder ----------

  function IntBytes(n: Int64): (r: Bytes)
    ensures r != []
  {
    if n >= 0 then
      if n <= 0x7F then [n] else if n <= 0xFF then [0xCC] + BigEndian(n, 1) else if n <= 0xFFFF then [0xCD] + BigEndian(n, 2)
      else if n <= 0xFFFF_FFFF then [0xCE] + BigEndian(n, 4) else [0xCF] + BigEndian(n, 8)
    else
      if n >= -32 then [n % 256] else if n >= -0x80 then [0xD0] + BigEndian(n % 0x100, 1)
      else if n >= -0x8000 then [0xD1] + BigEndian(n % 0x1_0000, 2)
      else if n >= -0x8000_0000 then [0xD2] + BigEndian(n % TWO_32, 4) else [0xD3] + BigEndian(ToU64(n), 8)
  }

  /** Lengths are cut to 32 bits when they are written. */
  function StrHead(len: nat): (r: Bytes)
    ensures r != []
  {
    if len <= 31 then [0xA0 + len] else if len <= 0xFF then [0xD9] + BigEndian(len, 1)
    else if len <= 0xFFFF then [0xDA] + BigEndian(len, 2) else [0xDB] + BigEndian(len % TWO_32, 4)
  }

  function BinHead(len: nat): (r: Bytes)
    ensures r != []
  {
    if len <= 0xFF then [0xC4] + BigEndian(len, 1) else if len <= 0xFFFF then [0xC5] + BigEndian(len, 2)
    else [0xC6] + BigEndian(len % TWO_32, 4)
  }

  /** An array or map head: `fix` with the count in it, or `wide` and a 16-bit or 32-bit count. */
  function CountHead(fix: Byte, wide: Byte, n: nat): (r: Bytes)
    requires fix <= 0x90 && wide <= 0xDE
    ensures r != []
  {
    if n <= 15 then [fix + n] else if n <= 0xFFFF then [wide] + BigEndian(n, 2) else [wide + 1] + BigEndian(n % TWO_32, 4)
  }

  function ExtHead(len: nat): (r: Bytes)
    ensures r != []
  {
    if len == 1 then [0xD4] else if len == 2 then [0xD5] else if len == 4 then [0xD6] else if len == 8 then [0xD7]
    else if len == 16 then [0xD8] else if len <= 0xFF then [0xC7] + BigEndian(len, 1)
    else if len <= 0xFFFF then [0xC8] + BigEndian(len, 2) else [0xC9] + BigEndian(len % TWO_32, 4)
  }

  function ExtBytes(t: Int8, data: Bytes): (r: Bytes)
    ensures r != []
  {
    ExtHead(|data|) + ([t % 256] + data)
  }

  /** Milliseconds as unsigned 32-bit nanoseconds, capped below one second. */
  function Nanos(ms: int): (r: nat)
    ensures r < NANOS
  {
    var ns := (ms % TWO_32) * 1_000_000 % TWO_32;
    if ns > 999_999_999 then 999_999_999 else ns
  }

  /** Three layouts: 32-bit seconds; 30-bit nanoseconds over 34-bit seconds; 32-bit nanoseconds and
      64-bit seconds. */
  function DateTimeBytes(ts: Int64, ms: int): (r: Bytes)
    ensures r != []
  {
    var ns := Nanos(ms);
    if 0 <= ts < TWO_32 && ns == 0 then [0xD6, 0xFF] + BigEndian(ts, 4)
    else if 0 <= ts < TWO_34 then [0xD7, 0xFF] + BigEndian(ns * TWO_34 + ts, 8)
    else [0xC7, 12, 0xFF] + (BigEndian(ns, 4) + BigEndian(ToU64(ts), 8))
  }

  function EncodeScalar(s: Scalar): (r: Bytes)
    ensures r != []
  {
    match s
    case Null => [0xC0]
    case Bool(flag) => [if flag then 0xC3 else 0xC2]
    case Int(n) => IntBytes(n)
    case Double(bits) => [0xCB] + BigEndian(bits, 8)
    case Float32(bits) => [0xCA] + BigEndian(bits, 4)
    case Text(text, _) => StrHead(|text|) + text
    case Binary(data) => BinHead(|data|) + data
    case DateTime(ts, ms) => DateTimeBytes(ts, ms)
    case Extension(t, payload) => ExtBytes(t, payload)
    case ObjectId(oid) => if |oid| == 12 then ExtBytes(1, oid) else [0xC0]
    case Timestamp(n) => [0xD7, 3] + BigEndian(ToU64(n), 8)
    case Regex(source) => if source == [] then [0xC0] else ExtBytes(2, source)
  }

  function Encode(d: Doc): (r: Bytes)
    ensures r != []
    decreases d
  {
    match d
    case Atom(s) => EncodeScalar(s)
    case List(items) => CountHead(0x90, 0xDC, |items|) + EncodeItems(items)
    case Table(entries) => CountHead(0x80, 0xDE, |entries|) + EncodeEntries(entries)
  }

  function EncodeItems(ds: seq<Doc>): (r: Bytes)
    decreases ds
  {
    if ds == [] then [] else Encode(ds[0]) + EncodeItems(ds[1..])
  }

  function KeyBytes(key: Bytes): (r: Bytes)
    ensures r != []
  {
    StrHead(|key|) + key
  }

  function EncodeEntries(es: seq<Entry>): (r: Bytes)
    decreases es
  {
    if es == [] then [] else KeyBytes(es[0].key) + (Encode(es[0].doc) + EncodeEntries(es[1..]))
  }

  // ---------- Decoder: scalars ----------

  /** A length of `w` bytes and as many bytes as it says. */
  function TakeCounted(data: Bytes, pos: nat, w: nat): (r: Parsed<Bytes>)
    requires w <= 4
    ensures r.Ok? ==> pos <= r.pos <= |data|
  {
    match ReadWide(data, pos, w)
    case Err(e) => Err(e)
    case Ok(len, p) => Take(data, p, len)
  }

  function AsText(r: Parsed<Bytes>): Parsed<Value>
  {
    match r case Err(e) => Err(e) case Ok(s, p) => Ok(Leaf(Text(s, false)), p)
  }

  function AsBinary(r: Parsed<Bytes>): Parsed<Value>
  {
    match r case Err(e) => Err(e) case Ok(s, p) => Ok(Leaf(Binary(s)), p)
  }

  /** An unsigned or two's-complement integer of `w` bytes. */
  function ReadInt(data: Bytes, pos: nat, w: nat, signed: bool): (r: Parsed<Value>)
    requires w == 1 || w == 2 || w == 4 || w == 8
    ensures r.Ok? ==> pos < r.pos <= |data|
  {
    match ReadWide(data, pos, w)
    case Err(e) => Err(e)
    case Ok(v, p) =>
      FromBigEndianBound(data[pos..pos + w]);
      Pow256Values();
      Ok(Leaf(Int(if signed || w == 8 then Signed(v, Pow256(w)) else v)), p)
  }

  function PackedDateTime(v: UInt64, p: nat): (r: Parsed<Value>)
    ensures r.Ok? ==> r.pos == p
  {
    var ns := v / TWO_34;
    if ns >= NANOS then Err(BadDateTime) else Ok(Leaf(DateTime(v % TWO_34, ns / 1_000_000)), p)
  }

  /** A fixed-size extension: type, then `len` bytes. */
  function ReadFixExt(data: Bytes, pos: nat, len: nat): (r: Parsed<Value>)
    requires len == 1 || len == 2 || len == 4 || len == 8 || len == 16
    ensures r.Ok? ==> pos < r.pos <= |data|
  {
    if pos >= |data| || pos + 1 + len > |data| then Err(UnexpectedEnd)
    else
      var t, payload, p := Signed(data[pos], 256), data[pos + 1..pos + 1 + len], pos + 1 + len;
      FromBigEndianBound(payload);
      Pow256Values();
      if len == 4 && t == -1 then Ok(Leaf(DateTime(FromBigEndian(payload), 0)), p)
      else if len == 8 && t == 3 then Ok(Leaf(Timestamp(ToI64(FromBigEndian(payload)))), p)
      else if len == 8 && t == -1 then PackedDateTime(FromBigEndian(payload), p)
      else Ok(Leaf(Extension(t, payload)), p)
  }

  /** Pattern up to the last bar, options after it; null where no regular expression can be made. */
  function RegexValue(s: Bytes): (r: Scalar)
  {
    var bar := LastIndexOf(s, 124);
    match if bar >= 0 then MakeRegex(s[..bar], s[bar + 1..]) else MakeRegex(s, [])
    case None => Null
    case Some(re) => re
  }

  /** A counted extension whose payload of `len` bytes lies at `pos`; an oversized timestamp is left
      unread past its first eight bytes. */
  function ExtValue(data: Bytes, pos: nat, len: nat, t: Int8, narrow: bool): (r: Parsed<Value>)
    requires pos + len <= |data|
    ensures r.Ok? ==> pos <= r.pos <= |data|
  {
    var payload, p := data[pos..pos + len], pos + len;
    if narrow && len == 12 && t == -1 then
      FromBigEndianBound(payload[4..]);
      Pow256Values();
      var ns := FromBigEndian(payload[..4]);
      if ns >= NANOS then Err(BadDateTime)
      else Ok(Leaf(DateTime(ToI64(FromBigEndian(payload[4..])), ns / 1_000_000)), p)
    else if t == 1 then Ok(Leaf(if len == 12 then ObjectId(payload) else Null), p)
    else if t == 2 then Ok(Leaf(if len == 0 then Null else RegexValue(payload)), p)
    else if t == 3 then
      if len < 8 then Ok(Leaf(Null), p)
      else
        FromBigEndianBound(payload[..8]);
        Pow256Values();
        Ok(Leaf(Timestamp(ToI64(FromBigEndian(payload[..8])))), pos + 8)
    else if len > MAX_STRING_LEN then Err(TooLarge)
    else Ok(Leaf(Extension(t, payload)), p)
  }

  /** Length of `w` bytes, type, payload. */
  function ReadExt(data: Bytes, pos: nat, w: nat): (r: Parsed<Value>)
    requires w <= 4
    ensures r.Ok? ==> pos < r.pos <= |data|
  {
    match ReadWide(data, pos, w)
    case Err(e) => Err(e)
    case Ok(len, p) =>
      if p >= |data| || p + 1 + len > |data| then Err(UnexpectedEnd)
      else ExtValue(data, p + 1, len, Signed(data[p], 256), w == 1)
  }

  /** Everything that is neither an array nor a map; `pos` is past the tag. */
  function ParseFlat(data: Bytes, pos: nat, tag: Byte): (r: Parsed<Value>)
    requires pos <= |data|
    ensures r.Ok? ==> pos <= r.pos <= |data|
  {
    if tag <= 0x7F then Ok(Leaf(Int(tag)), pos)
    else if tag >= 0xE0 then Ok(Leaf(Int(tag - 256)), pos)
    else if 0xA0 <= tag <= 0xBF then AsText(Take(data, pos, tag - 0xA0))
    else if tag == 0xC0 then Ok(Leaf(Null), pos)
    else if tag == 0xC2 then Ok(Leaf(Bool(false)), pos)
    else if tag == 0xC3 then Ok(Leaf(Bool(true)), pos)
    else if tag == 0xC4 then AsBinary(TakeCounted(data, pos, 1))
    else if tag == 0xC5 then AsBinary(TakeCounted(data, pos, 2))
    else if tag == 0xC6 then AsBinary(TakeCounted(data, pos, 4))
    else if tag == 0xC7 then ReadExt(data, pos, 1)
    else if tag == 0xC8 then ReadExt(data, pos, 2)
    else if tag == 0xC9 then ReadExt(data, pos, 4)
    else if tag == 0xCA then
      match ReadWide(data, pos, 4)
      case Err(e) => Err(e)
      case Ok(bits, p) =>
        assert bits < TWO_32 by { FromBigEndianBound(data[pos..pos + 4]); Pow256Values(); }
        Ok(Leaf(Float32(bits)), p)
    else if tag == 0xCB then
      match ReadWide(data, pos, 8) case Err(e) => Err(e) case Ok(bits, p) => Ok(Leaf(Double(bits)), p)
    else if tag == 0xCC then ReadInt(data, pos, 1, false)
    else if tag == 0xCD then ReadInt(data, pos, 2, false)
    else if tag == 0xCE then ReadInt(data, pos, 4, false)
    else if tag == 0xCF then ReadInt(data, pos, 8, false)
    else if tag == 0xD0 then ReadInt(data, pos, 1, true)
    else if tag == 0xD1 then ReadInt(data, pos, 2, true)
    else if tag == 0xD2 then ReadInt(data, pos, 4, true)
    else if tag == 0xD3 then ReadInt(data, pos, 8, true)
    else if tag == 0xD4 then ReadFixExt(data, pos, 1)
    else if tag == 0xD5 then ReadFixExt(data, pos, 2)
    else if tag == 0xD6 then ReadFixExt(data, pos, 4)
    else if tag == 0xD7 then ReadFixExt(data, pos, 8)
    else if tag == 0xD8 then ReadFixExt(data, pos, 16)
    else if tag == 0xD9 then AsText(TakeCounted(data, pos, 1))
    else if tag == 0xDA then AsText(TakeCounted(data, pos, 2))
    else if tag == 0xDB then AsText(TakeCounted(data, pos, 4))
    else Err(BadHead)
  }

  // ---------- Decoder: containers ----------

  predicate IsArrayTag(tag: Byte) { 0x90 <= tag <= 0x9F || tag == 0xDC || tag == 0xDD }

  predicate IsMapTag(tag: Byte) { 0x80 <= tag <= 0x8F || tag == 0xDE || tag == 0xDF }

  /** The count a container tag announces; only 32-bit counts are checked against the limit. */
  function ReadCount(data: Bytes, pos: nat, tag: Byte): (r: Parsed<nat>)
    requires pos <= |data| && (IsArrayTag(tag) || IsMapTag(tag))
    ensures r.Ok? ==> pos <= r.pos <= |data| && r.value <= MAX_ARRAY_SIZE
  {
    if tag <= 0x9F then Ok(tag % 16, pos)
    else if tag == 0xDC || tag == 0xDE then
      match ReadWide(data, pos, 2)
      case Err(e) => Err(e)
      case Ok(n, p) =>
        FromBigEndianBound(data[pos..pos + 2]);
        Pow256Values();
        Ok(n, p)
    else
      match ReadWide(data, pos, 4)
      case Err(e) => Err(e)
      case Ok(n, p) => if n > MAX_ARRAY_SIZE then Err(TooLarge) else Ok(n, p)
  }

  function Parse(data: Bytes, pos: nat, depth: nat): (r: Parsed<Value>)
    ensures r.Ok? ==> pos < r.pos <= |data|
    decreases Remaining(data, pos), 0, 0
  {
    if depth > MAX_NESTING_DEPTH then Err(TooDeep)
    else if pos >= |data| then Err(UnexpectedEnd)
    else if IsArrayTag(data[pos]) then
      match ReadCount(data, pos + 1, data[pos])
      case Err(e) => Err(e)
      case Ok(n, p) =>
        match ParseItems(data, p, n, depth + 1, [])
        case Err(e) => Err(e)
        case Ok(items, p2) => Ok(Array(items), p2)
    else if IsMapTag(data[pos]) then
      match ReadCount(data, pos + 1, data[pos])
      case Err(e) => Err(e)
      case Ok(n, p) =>
        match ParseEntries(data, p, n, depth + 1, map[])
        case Err(e) => Err(e)
        case Ok(fields, p2) => Ok(Object(fields), p2)
    else ParseFlat(data, pos + 1, data[pos])
  }

  function ParseItems(data: Bytes, pos: nat, n: nat, depth: nat, acc: seq<Value>): (r: Parsed<seq<Value>>)
    ensures r.Ok? ==> pos <= r.pos && (pos <= |data| ==> r.pos <= |data|)
    decreases Remaining(data, pos), 1, n
  {
    if n == 0 then Ok(acc, pos)
    else
      match Parse(data, pos, depth)
      case Err(e) => Err(e)
      case Ok(v, p) => ParseItems(data, p, n - 1, depth, acc + [v])
  }

  /** A string key and its value. */
  function ParsePair(data: Bytes, pos: nat, depth: nat): (r: Parsed<(Bytes, Value)>)
    ensures r.Ok? ==> pos < r.pos <= |data|
    decreases Remaining(data, pos), 1, 0
  {
    match Parse(data, pos, depth)
    case Err(e) => Err(e)
    case Ok(k, p) =>
      if !(k.Leaf? && k.scalar.Text?) then Err(BadKey)
      else
        match Parse(data, p, depth)
        case Err(e) => Err(e)
        case Ok(v, p2) => Ok((k.scalar.text, v), p2)
  }

  function ParseEntries(data: Bytes, pos: nat, n: nat, depth: nat, acc: map<Bytes, Value>): (r: Parsed<map<Bytes, Value>>)
    ensures r.Ok? ==> pos <= r.pos && (pos <= |data| ==> r.pos <= |data|)
    decreases Remaining(data, pos), 2, n
  {
    if n == 0 then Ok(acc, pos)
    else
      match ParsePair(data, pos, depth)
      case Err(e) => Err(e)
      case Ok(kv, p) => ParseEntries(data, p, n - 1, depth, Emplace(acc, kv.0, kv.1))
  }
}
