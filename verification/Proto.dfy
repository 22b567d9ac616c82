/** Schema-driven Protocol Buffers: schemas, the wire encoder and the wire decoder. */
module Proto {
  import opened Bytes
  import opened Values
  import opened Varint
  import opened Text

  /** What the codec calls and this model leaves open: conversions between integers and floating point, and the two
      ends of the mode without a schema, the encoding of an object and the renaming of members by a name map. */
  datatype Foreign = Foreign(
    truncate: UInt64 -> Int64,         // double to signed integer
    truncateUnsigned: UInt64 -> UInt64,
    fromSigned: Int64 -> UInt64,       // signed integer to the bits of a double
    fromUnsigned: UInt64 -> UInt64,
    narrow: UInt64 -> UInt32,          // double to single precision
    widen: UInt32 -> UInt64,
    bareBytes: seq<Entry> -> Bytes,    // protoEncodeMessage without a schema
    rename: map<Bytes, Value> -> map<Bytes, Value>)   // protoApplyNameMap

  // ---------- Schemas ----------

  /** Field types by how they are written; the 32-bit and 64-bit names of one wire form behave alike. */
  datatype Kind =
    | Signed64           // int32, int64, enum
    | Unsigned64         // uint32, uint64
    | ZigZag             // sint32, sint64
    | Boolean
    | Fixed64            // fixed64, sfixed64
    | Fixed32            // fixed32, sfixed32
    | Double64
    | Single
    | Str
    | Blob               // bytes
    | Message(schema: Schema)
    | Bare               // a message that is described without fields
    | Untyped            // no type name
    | Raw                // "binary": written as a number, read as bytes
    | Other              // a name the codec does not know: a plain integer

  datatype Field = Field(number: int, kind: Kind, repeated: bool, packed: bool)

  datatype Schema = Schema(fields: map<Bytes, Field>, names: map<int, Bytes>)

  function WireType(kind: Kind): (r: nat)
    ensures r in {0, 1, 2, 5}
  {
    match kind
    case Double64 => 1
    case Fixed64 => 1
    case Single => 5
    case Fixed32 => 5
    case Str => 2
    case Blob => 2
    case Message(_) => 2
    case Bare => 2
    case _ => 0
  }

  predicate Packable(kind: Kind)
  {
    WireType(kind) != 2
  }

  // ---------- Encoder ----------

  function Tag(number: int, wire: nat): (r: Bytes)
    ensures r != []
  {
    Write(ToU64(number) * 8 % TWO_64 + wire)
  }

  /** The number a scalar field takes from a value of another type. */
  function IntOf(fp: Foreign, d: Doc): (r: Int64)
  {
    if d.Atom? && d.scalar.Int? then d.scalar.num
    else if d.Atom? && d.scalar.Double? then fp.truncate(d.scalar.bits)
    else if d.Atom? && d.scalar.Float32? then fp.truncate(fp.widen(d.scalar.bits32))
    else 0
  }

  /** The number an unknown type takes: floating point counts as zero. */
  function PlainOf(d: Doc): (r: Int64)
  {
    if d.Atom? && d.scalar.Int? then d.scalar.num else 0
  }

  function UnsignedOf(fp: Foreign, d: Doc): (r: UInt64)
  {
    if d.Atom? && d.scalar.Double? then fp.truncateUnsigned(d.scalar.bits)
    else if d.Atom? && d.scalar.Float32? then fp.truncateUnsigned(fp.widen(d.scalar.bits32))
    else ToU64(IntOf(fp, d))
  }

  function DoubleOf(fp: Foreign, d: Doc): (r: UInt64)
  {
    if d.Atom? && d.scalar.Double? then d.scalar.bits
    else if d.Atom? && d.scalar.Float32? then fp.widen(d.scalar.bits32)
    else fp.fromSigned(if d.Atom? && d.scalar.Int? then d.scalar.num else if d.Atom? && d.scalar.Timestamp? then d.scalar.seconds else 0)
  }

  function ScalarBytes(fp: Foreign, kind: Kind, d: Doc): (r: Bytes)
    requires Packable(kind)
    ensures r != []
  {
    match kind
    case Signed64 => Write(ToU64(IntOf(fp, d)))
    case Unsigned64 => Write(UnsignedOf(fp, d))
    case ZigZag => Write(ZigZagEncode(IntOf(fp, d)))
    case Boolean => [if d.Atom? && d.scalar.Bool? && d.scalar.flag then 1 else 0]
    case Fixed64 => LittleEndian(ToU64(IntOf(fp, d)), 8)
    case Fixed32 => LittleEndian(IntOf(fp, d) % TWO_32, 4)
    case Double64 => LittleEndian(DoubleOf(fp, d), 8)
    case Single => LittleEndian(fp.narrow(DoubleOf(fp, d)), 4)
    case Untyped => Write(ToU64(PlainOf(d)))
    case Raw => Write(ToU64(PlainOf(d)))
    case Other => Write(ToU64(PlainOf(d)))
  }

  function Counted(s: Bytes): (r: Bytes)
    ensures r != []
  {
    Write(|s| % TWO_64) + s
  }

  function TextOf(d: Doc): (r: Bytes)
  {
    if d.Atom? && d.scalar.Text? then d.scalar.text else []
  }

  function BytesOf(d: Doc): (r: Bytes)
  {
    if d.Atom? && d.scalar.Binary? then d.scalar.data
    else if d.Atom? && d.scalar.Extension? then d.scalar.payload
    else TextOf(d)
  }

  /** A value after its tag. */
  function ValueBytes(fp: Foreign, kind: Kind, d: Doc): (r: Bytes)
    ensures r != []
    decreases d, 0
  {
    match kind
    case Str => Counted(TextOf(d))
    case Blob => Counted(BytesOf(d))
    case Message(schema) => Counted(if d.Table? then EncodeMessage(fp, schema, d.entries) else [])
    case Bare => Counted(if d.Table? then fp.bareBytes(d.entries) else [])
    case _ => ScalarBytes(fp, kind, d)
  }

  function ScalarsBytes(fp: Foreign, kind: Kind, ds: seq<Doc>): (r: Bytes)
    requires Packable(kind)
    ensures |ds| <= |r|
    decreases ds
  {
    if ds == [] then [] else ScalarBytes(fp, kind, ds[0]) + ScalarsBytes(fp, kind, ds[1..])
  }

  function TaggedBytes(fp: Foreign, f: Field, d: Doc): (r: Bytes)
    ensures r != []
    decreases d, 1
  {
    Tag(f.number, WireType(f.kind)) + ValueBytes(fp, f.kind, d)
  }

  function AllTagged(fp: Foreign, f: Field, ds: seq<Doc>): (r: Bytes)
    decreases ds, 0
  {
    if ds == [] then [] else TaggedBytes(fp, f, ds[0]) + AllTagged(fp, f, ds[1..])
  }

  function FieldBytes(fp: Foreign, f: Field, d: Doc): (r: Bytes)
    decreases d, 2
  {
    if f.repeated && d.List? then
      if f.packed && Packable(f.kind) && d.items != [] then
        Tag(f.number, 2) + Counted(ScalarsBytes(fp, f.kind, d.items))
      else AllTagged(fp, f, d.items)
    else TaggedBytes(fp, f, d)
  }

  /** protoEncodeMessage with a schema: fields the schema does not name are skipped. */
  function EncodeMessage(fp: Foreign, schema: Schema, es: seq<Entry>): (r: Bytes)
    decreases es, 0
  {
    if es == [] then []
    else
      (if es[0].key in schema.fields then FieldBytes(fp, schema.fields[es[0].key], es[0].doc) else [])
      + EncodeMessage(fp, schema, es[1..])
  }

  // ---------- Decoder ----------

  /** A value and the position after it, no value, or an exception. */
  datatype Outcome = Got(value: Value, pos: nat) | Nothing | Throws

  /** The element a raw varint stands for. */
  function FromVarint(fp: Foreign, kind: Kind, raw: UInt64): (r: Value)
  {
    match kind
    case ZigZag => Leaf(Int(ZigZagDecode(raw)))
    case Boolean => Leaf(Bool(raw != 0))
    case Double64 => Leaf(Double(fp.fromUnsigned(raw)))
    case Single => Leaf(Double(fp.fromUnsigned(raw)))
    case _ => Leaf(Int(ToI64(raw)))
  }

  function FromWord64(kind: Kind, raw: UInt64): (r: Value)
  {
    if kind.Double64? || kind.Single? then Leaf(Double(raw)) else Leaf(Int(ToI64(raw)))
  }

  /** Packed elements of four bytes keep their sign; single ones are read unsigned. */
  function FromWord32(fp: Foreign, kind: Kind, raw: UInt32, packed: bool): (r: Value)
  {
    if kind.Single? then Leaf(Double(fp.widen(raw)))
    else Leaf(Int(if packed then Signed(raw, TWO_32) else raw))
  }

  /** Packed elements up to `end`; varints may run on to `size`, and a rest shorter than a word stays unread. */
  function ReadPacked(fp: Foreign, data: Bytes, size: nat, end: nat, pos: nat, kind: Kind, acc: seq<Value>): (r: Outcome)
    requires pos <= size && end <= size <= |data| && Packable(kind)
    ensures r.Got? ==> pos <= r.pos <= size
    decreases size - pos
  {
    if WireType(kind) == 5 then
      if pos + 4 <= end then
        Pow256Values();
        ReadPacked(fp, data, size, end, pos + 4, kind, acc + [FromWord32(fp, kind, ReadLittle(data, pos, 4), true)])
      else Got(Array(acc), pos)
    else if WireType(kind) == 1 then
      if pos + 8 <= end then
        Pow256Values();
        ReadPacked(fp, data, size, end, pos + 8, kind, acc + [FromWord64(kind, ReadLittle(data, pos, 8))])
      else Got(Array(acc), pos)
    else if pos < end then
      match Read(data, size, pos)
      case Err(_) => Throws
      case Ok(raw, p) => ReadPacked(fp, data, size, end, p, kind, acc + [FromVarint(fp, kind, raw)])
    else Got(Array(acc), pos)
  }

  const NO_FIELDS: Schema := Schema(map[], map[])

  function BytesAt(data: Bytes, p: nat, end: nat): (r: Outcome)
    requires p <= end <= |data|
  {
    if end - p > MAX_STRING_LEN then Throws else Got(Leaf(Binary(data[p..end])), end)
  }

  /** The field number reserved for name maps. */
  const NAME_MAP: int := 19000

  /** The name a field number stands for, and its field; numbers the schema does not know name themselves and have no
      type, except that inside a message the name map is a string. */
  function FieldOf(schema: Schema, number: nat, root: bool): (r: (Bytes, Field))
  {
    var name := if number in schema.names then schema.names[number] else Digits(number);
    var known := number in schema.names && name in schema.fields;
    var field := if known then schema.fields[name] else Field(number, Untyped, false, true);
    (name, if field.kind.Untyped? && number == NAME_MAP && !root then field.(kind := Str) else field)
  }

  /** protoDecodeWireValue with a type and its schema, if it has one. */
  function DecodeValue(fp: Foreign, data: Bytes, size: nat, pos: nat, wire: nat, kind: Kind, depth: nat): (r: Outcome)
    requires pos <= size <= |data|
    ensures r.Got? ==> pos <= r.pos <= size
    decreases size - pos, 0
  {
    if wire == 0 then
      match Read(data, size, pos) case Err(_) => Throws case Ok(raw, p) => Got(FromVarint(fp, kind, raw), p)
    else if wire == 1 then
      if pos + 8 > size then Nothing
      else Pow256Values(); Got(FromWord64(kind, ReadLittle(data, pos, 8)), pos + 8)
    else if wire == 2 then
      match Read(data, size, pos)
      case Err(_) => Throws
      case Ok(len, p) =>
        if len > size - p then Nothing
        else
          Behind(fp, data, size, p, p + len, kind, depth)
    else if wire == 5 then
      if pos + 4 > size then Nothing
      else Pow256Values(); Got(FromWord32(fp, kind, ReadLittle(data, pos, 4), false), pos + 4)
    else Nothing
  }

  /** What lies behind a length, by the type announced for it. */
  function Behind(fp: Foreign, data: Bytes, size: nat, p: nat, end: nat, kind: Kind, depth: nat): (r: Outcome)
    requires p <= end <= size <= |data|
    ensures r.Got? ==> p <= r.pos <= size
    decreases size - p, 2
  {
    match kind
    case Message(schema) =>
      if depth > MAX_NESTING_DEPTH then Nothing
      else
        (match DecodeFields(fp, data, end, p, schema, depth, false, map[])
         case None => Throws
         case Some(obj) => Got(Object(obj), end))
    case Bare =>
      if depth > MAX_NESTING_DEPTH then Nothing
      else
        (match DecodeFields(fp, data, end, p, NO_FIELDS, depth, false, map[])
         case None => Throws
         case Some(obj) => Got(Object(obj), end))
    case Untyped =>
      if depth > MAX_NESTING_DEPTH then Nothing
      else
        (match DecodeFields(fp, data, end, p, NO_FIELDS, depth, false, map[])
         case None => Throws
         case Some(obj) =>
           if fp.rename(obj) != map[] then Got(Object(fp.rename(obj)), end) else BytesAt(data, p, end))
    case Str => if end - p > MAX_STRING_LEN then Throws else Got(Leaf(Text(data[p..end], false)), end)
    case Blob => BytesAt(data, p, end)
    case Raw => BytesAt(data, p, end)
    case _ => if end - p > MAX_ARRAY_SIZE then Throws else ReadPacked(fp, data, size, end, p, kind, [])
  }

  /** protoSetField: a second value for one key makes an array of both. */
  function SetField(obj: map<Bytes, Value>, key: Bytes, val: Value): (r: map<Bytes, Value>)
  {
    if key in obj then
      if obj[key].Array? then obj[key := Array(obj[key].items + [val])] else obj[key := Array([obj[key], val])]
    else obj[key := val]
  }

  /** Storing a decoded value: repeated fields collect, whether the elements come singly or packed. */
  function Store(obj: map<Bytes, Value>, name: Bytes, repeated: bool, val: Value): (r: map<Bytes, Value>)
  {
    if !repeated then SetField(obj, name, val)
    else if name != [] && name in obj && obj[name].Array? then
      obj[name := Array(obj[name].items + (if val.Array? then val.items else [val]))]
    else SetField(obj, name, if val.Array? then val else Array([val]))
  }

  /** static_cast<int>. */
  function ToInt32(u: nat): (r: int)
  {
    Signed(u % TWO_32, TWO_32)
  }

  /** The field loop of a message or of the root; None where it throws.  A nested message ends where a
      value cannot be read; the root goes on one byte after the tag. */
  function DecodeFields(fp: Foreign, data: Bytes, size: nat, pos: nat, schema: Schema, depth: nat, root: bool,
                        obj: map<Bytes, Value>): (r: Option<map<Bytes, Value>>)
    requires pos <= size <= |data|
    decreases size - pos, 1
  {
    if pos >= size then Some(obj)
    else
      match Read(data, size, pos)
      case Err(_) => None
      case Ok(tag, p) =>
        var wire, number := tag % 8, ToInt32(tag / 8);
        if wire > 5 || number <= 0 || wire == 3 || wire == 4 then Some(obj)
        else
          var (name, field) := FieldOf(schema, number, root);
          match DecodeValue(fp, data, size, p, wire, field.kind, depth + 1)
          case Throws => None
          case Nothing =>
            if root && p < size then DecodeFields(fp, data, size, p + 1, schema, depth, root, obj) else Some(obj)
          case Got(val, q) =>
            DecodeFields(fp, data, size, q, schema, depth, root, Store(obj, name, field.repeated, val))
  }

  /** protoDecodeRoot. */
  function DecodeRoot(fp: Foreign, data: Bytes, schema: Schema): (r: Option<map<Bytes, Value>>)
  {
    DecodeFields(fp, data, |data|, 0, schema, 0, true, map[])
  }
}
