/** What each type name of a schema description means on the wire: the bytes of a field, and the value of bytes. */
module ProtoTypes {
  import opened Bytes
  import opened Values
  import opened Varint
  import opened Proto
  import opened ProtoSchemas
  import opened ProtoImage
  import Text

  // ---------- The wire format, outright ----------

  function Ascii(s: string): (r: Bytes)
    ensures |r| == |s|
  {
    seq(|s|, i requires 0 <= i < |s| => s[i] as int % 256)
  }

  /** How many groups of seven bits a number takes. */
  function Groups(n: nat): (r: nat)
    ensures r > 0
  {
    if n < 128 then 1 else 1 + Groups(n / 128)
  }

  /** Base 128: the group of 128^i in byte i, its top bit set in every byte but the last. */
  function Base128(n: nat): (r: Bytes)
  {
    seq(Groups(n), i requires 0 <= i < Groups(n) => n / Pow128(i) % 128 + (if i + 1 < Groups(n) then 128 else 0))
  }

  function WireNumber(t: string): (r: nat)
  {
    if t in {"double", "fixed64", "sfixed64"} then 1
    else if t in {"float", "fixed32", "sfixed32"} then 5
    else if t in {"string", "bytes", "message"} then 2
    else 0
  }

  /** The integer an integer field takes: floating point is truncated, anything else counts as zero. */
  function Whole(fp: Foreign, v: Doc): (r: Int64)
  {
    match v
    case Atom(Int(n)) => n
    case Atom(Double(bits)) => fp.truncate(bits)
    case Atom(Float32(bits)) => fp.truncate(fp.widen(bits))
    case _ => 0
  }

  function Natural(fp: Foreign, v: Doc): (r: UInt64)
  {
    match v
    case Atom(Double(bits)) => fp.truncateUnsigned(bits)
    case Atom(Float32(bits)) => fp.truncateUnsigned(fp.widen(bits))
    case _ => Whole(fp, v) % TWO_64
  }

  function Real(fp: Foreign, v: Doc): (r: UInt64)
  {
    match v
    case Atom(Double(bits)) => bits
    case Atom(Float32(bits)) => fp.widen(bits)
    case Atom(Int(n)) => fp.fromSigned(n)
    case Atom(Timestamp(n)) => fp.fromSigned(n)
    case _ => fp.fromSigned(0)
  }

  /** The payload of a scalar field of this type. */
  function Payload(fp: Foreign, t: string, v: Doc): (r: Bytes)
  {
    var n: int := Whole(fp, v);
    if t in {"int32", "int64", "enum"} then Base128(n % TWO_64)
    else if t in {"uint32", "uint64"} then Base128(Natural(fp, v))
    else if t in {"sint32", "sint64"} then Base128(if n < 0 then -2 * n - 1 else 2 * n)
    else if t == "bool" then [if v == Atom(Bool(true)) then 1 else 0]
    else if t in {"fixed64", "sfixed64"} then Little(n % TWO_64, 8)
    else if t in {"fixed32", "sfixed32"} then Little(n % TWO_32, 4)
    else if t == "double" then Little(Real(fp, v), 8)
    else if t == "float" then Little(fp.narrow(Real(fp, v)), 4)
    else Base128(if v.Atom? && v.scalar.Int? then v.scalar.num % TWO_64 else 0)
  }

  /** The content of a field of bytes or text. */
  function Content(t: string, v: Doc): (r: Bytes)
  {
    match v
    case Atom(Text(s, _)) => s
    case Atom(Binary(data)) => if t == "bytes" then data else []
    case Atom(Extension(_, data)) => if t == "bytes" then data else []
    case _ => []
  }

  function SignedWord(raw: nat, modulus: nat): (r: int)
  {
    if 2 * raw < modulus then raw else raw - modulus
  }

  /** The value of a varint. */
  function OfVarint(fp: Foreign, t: string, raw: UInt64): (r: Scalar)
  {
    if t in {"sint32", "sint64"} then Int(if raw % 2 == 0 then raw / 2 else -(raw + 1) / 2)
    else if t == "bool" then Bool(raw != 0)
    else if t in {"double", "float"} then Double(fp.fromUnsigned(raw))
    else Int(SignedWord(raw, TWO_64))
  }

  function OfEightBytes(t: string, raw: UInt64): (r: Scalar)
  {
    if t in {"double", "float"} then Double(raw) else Int(SignedWord(raw, TWO_64))
  }

  /** Four bytes on their own are read without a sign. */
  function OfFourBytes(fp: Foreign, t: string, raw: UInt32): (r: Scalar)
  {
    if t == "float" then Double(fp.widen(raw)) else Int(raw)
  }

  /** The value of a packed element. */
  function OfPacked(fp: Foreign, t: string, raw: nat): (r: Scalar)
    requires raw < if WireNumber(t) == 5 then TWO_32 else TWO_64
  {
    if t == "float" then Double(fp.widen(raw))
    else if WireNumber(t) == 5 then Int(SignedWord(raw, TWO_32))
    else if WireNumber(t) == 1 then OfEightBytes(t, raw)
    else OfVarint(fp, t, raw)
  }

  // ---------- The model's numbers are these ----------

  lemma {:induction false} VarintIs(n: nat)
    ensures Write(n) == Base128(n)
  {
    if n < 128 {
      assert Pow128(0) == 1 && Groups(n) == 1;
      assert Base128(n) == [n];
    } else {
      VarintIs(n / 128);
      assert Groups(n) == 1 + Groups(n / 128) && |Write(n)| == Groups(n);
      forall i | 0 <= i < Groups(n) ensures Write(n)[i] == Base128(n)[i] {
        if i == 0 { assert Pow128(0) == 1; } else { NextGroup(n, i); }
      }
    }
  }

  lemma NextGroup(n: nat, i: nat)
    requires i > 0
    ensures n / Pow128(i) == n / 128 / Pow128(i - 1)
  {
    DivideAgain(n, 128, Pow128(i - 1));
  }

  // ---------- Descriptions ----------

  /** A field described by its number and type name. */
  ghost predicate Describes(es: seq<Entry>, n: int, t: string)
    requires -TWO_63 <= n < TWO_63
  {
    DistinctKeys(es) && Entry(Ascii("id"), Atom(Int(n))) in es && Entry(Ascii("type"), Atom(Text(Ascii(t), false))) in es
  }

  ghost predicate Repeats(es: seq<Entry>)
  {
    Entry(Ascii("repeated"), Atom(Bool(true))) in es
  }

  lemma {:induction false} GetIs(es: seq<Entry>, key: Bytes, d: Doc)
    requires DistinctKeys(es)
    ensures Entry(key, d) in es <==> Get(es, key) == Some(d)
    decreases |es|
  {
    if es != [] {
      GetIs(es[1..], key, d);
      assert es == [es[0]] + es[1..];
      if es[0].key == key {
        forall i | 0 <= i < |es[1..]| ensures es[1..][i].key != key { assert es[1..][i] == es[i + 1]; }
      }
    }
  }

  lemma KeyNames()
    ensures Ascii("id") == ID && Ascii("type") == TYPE && Ascii("repeated") == REPEATED && Ascii("fields") == FIELDS
  {
  }

  lemma NumberNames()
    ensures Ascii("int32") == INT32 && Ascii("int64") == INT64 && Ascii("enum") == ENUM
    ensures Ascii("uint32") == UINT32 && Ascii("uint64") == UINT64 && Ascii("sint32") == SINT32 && Ascii("sint64") == SINT64
    ensures Ascii("bool") == BOOL
  {
  }

  lemma OtherNames()
    ensures Ascii("fixed32") == FIXED32 && Ascii("sfixed32") == SFIXED32 && Ascii("fixed64") == FIXED64
    ensures Ascii("sfixed64") == SFIXED64 && Ascii("double") == DOUBLE && Ascii("float") == FLOAT
    ensures Ascii("string") == STRING && Ascii("bytes") == BYTES && Ascii("message") == MESSAGE && Ascii("binary") == RAW
    ensures Ascii("") == []
  {
  }

  predicate Latin(t: string) { forall i :: 0 <= i < |t| ==> t[i] as int < 256 }

  lemma AsciiInjective(a: string, b: string)
    requires Latin(a) && Latin(b)
    ensures Ascii(a) == Ascii(b) <==> a == b
  {
    if Ascii(a) == Ascii(b) {
      forall i | 0 <= i < |a| ensures a[i] == b[i] { assert Ascii(a)[i] == Ascii(b)[i]; }
    }
  }

  // ---------- Type names ----------

  /** How the schema reader classes a type name. */
  ghost function KindOf(t: string): (r: Kind)
  {
    if t in {"int32", "int64", "enum"} then Signed64
    else if t in {"uint32", "uint64"} then Unsigned64
    else if t in {"sint32", "sint64"} then ZigZag
    else if t == "bool" then Boolean
    else if t in {"fixed32", "sfixed32"} then Fixed32
    else if t in {"fixed64", "sfixed64"} then Fixed64
    else if t == "double" then Double64
    else if t == "float" then Single
    else if t == "string" then Str
    else if t == "bytes" then Blob
    else if t == "binary" then Raw
    else if t == "" then Untyped
    else Other
  }

  lemma KindIs(t: string)
    requires Latin(t)
    ensures ScalarKind(Ascii(t)) == KindOf(t) && (Ascii(t) == MESSAGE <==> t == "message")
  {
    hide Ascii;
    NumberNames();
    OtherNames();
    AsciiInjective(t, "int32");
    AsciiInjective(t, "int64");
    AsciiInjective(t, "enum");
    AsciiInjective(t, "uint32");
    AsciiInjective(t, "uint64");
    AsciiInjective(t, "sint32");
    AsciiInjective(t, "sint64");
    AsciiInjective(t, "bool");
    AsciiInjective(t, "fixed32");
    AsciiInjective(t, "sfixed32");
    AsciiInjective(t, "fixed64");
    AsciiInjective(t, "sfixed64");
    AsciiInjective(t, "double");
    AsciiInjective(t, "float");
    OtherKinds(t);
  }

  lemma OtherKinds(t: string)
    requires Latin(t)
    ensures Ascii(t) == STRING <==> t == "string"
    ensures Ascii(t) == BYTES <==> t == "bytes"
    ensures Ascii(t) == MESSAGE <==> t == "message"
    ensures Ascii(t) == RAW <==> t == "binary"
    ensures Ascii(t) == [] <==> t == ""
  {
    hide Ascii;
    OtherNames();
    AsciiInjective(t, "string");
    AsciiInjective(t, "bytes");
    AsciiInjective(t, "message");
    AsciiInjective(t, "binary");
    AsciiInjective(t, "");
  }

  lemma WireIs(t: string)
    ensures t != "message" ==> WireType(KindOf(t)) == WireNumber(t)
    ensures Packable(KindOf(t)) <==> t !in {"string", "bytes"}
  {
  }

  lemma PayloadIs(fp: Foreign, t: string, v: Doc)
    requires WireNumber(t) != 2
    ensures Packable(KindOf(t)) && ScalarBytes(fp, KindOf(t), v) == Payload(fp, t, v)
  {
    hide Write, LittleEndian, Base128, Little, ZigZagEncode;
    var n := IntOf(fp, v);
    WireIs(t);
    VarintIs(ToU64(n));
    VarintIs(UnsignedOf(fp, v));
    VarintIs(ToU64(PlainOf(v)));
    VarintIs(ZigZagEncode(n));
    ZigZagIs(n);
    LittleIs(ToU64(n), 8);
    LittleIs(n % TWO_32, 4);
    LittleIs(DoubleOf(fp, v), 8);
    LittleIs(fp.narrow(DoubleOf(fp, v)), 4);
  }

  /** The number a description gives a field, wrapped to 32 bits; a number that is not positive makes no field. */
  lemma FieldDescribed(es: seq<Entry>, n: int, t: string)
    requires -TWO_63 <= n < TWO_63 && Latin(t) && Describes(es, n, t)
    ensures var f := ParseField(Table(es));
      && -0x8000_0000 <= f.number < 0x8000_0000 && (f.number - n) % TWO_32 == 0
      && (f.repeated <==> Repeats(es)) && (t != "message" ==> f.kind == KindOf(t))
  {
    hide *;
    ParseIs(es);
    TypeDescribed(es, n, t);
    KindIs(t);
    NumberDescribed(es, n, t);
    KeysApart(es, n, t);
    RepeatDescribed(es);
  }

  lemma ParseIs(es: seq<Entry>)
    ensures ParseField(Table(es)) == Field(NumberAt(es), KindAt(es), FlagAt(es, REPEATED, false), FlagAt(es, PACKED, true))
    ensures TypeAt(es) != MESSAGE ==> KindAt(es) == ScalarKind(TypeAt(es))
  {
    hide ScalarKind, SubSchema, NumberAt, FlagAt, TypeAt;
  }

  lemma KeysApart(es: seq<Entry>, n: int, t: string)
    requires -TWO_63 <= n < TWO_63 && Describes(es, n, t)
    ensures DistinctKeys(es)
  {
  }

  lemma TypeDescribed(es: seq<Entry>, n: int, t: string)
    requires -TWO_63 <= n < TWO_63 && Describes(es, n, t)
    ensures TypeAt(es) == Ascii(t)
  {
    hide Ascii;
    KeyNames();
    GetIs(es, TYPE, Atom(Text(Ascii(t), false)));
  }

  lemma NumberDescribed(es: seq<Entry>, n: int, t: string)
    requires -TWO_63 <= n < TWO_63 && Describes(es, n, t)
    ensures -0x8000_0000 <= NumberAt(es) < 0x8000_0000 && (NumberAt(es) - n) % TWO_32 == 0
  {
    hide Ascii, Signed;
    KeyNames();
    GetIs(es, ID, Atom(Int(n)));
    assert NumberAt(es) == Signed(n % TWO_32, TWO_32);
    Wrapped32(n);
  }

  lemma Wrapped32(n: int)
    ensures var m := Signed(n % TWO_32, TWO_32); -0x8000_0000 <= m < 0x8000_0000 && (m - n) % TWO_32 == 0
  {
    var q := n / TWO_32;
    assert n == TWO_32 * q + n % TWO_32;
    Multiple(0 - q);
    Multiple(0 - q - 1);
  }

  lemma Multiple(k: int)
    ensures TWO_32 * k % TWO_32 == 0
  {
  }

  lemma RepeatDescribed(es: seq<Entry>)
    requires DistinctKeys(es)
    ensures FlagAt(es, REPEATED, false) <==> Repeats(es)
  {
    hide Ascii;
    KeyNames();
    GetIs(es, REPEATED, Atom(Bool(true)));
  }

  /** A schema of one field. */
  ghost function SchemaWith(name: Bytes, es: seq<Entry>): (r: Schema)
  {
    ParseSchema([Entry(name, Table(es))])
  }

  lemma {:induction false} OneField(name: Bytes, es: seq<Entry>)
    ensures var f := ParseField(Table(es));
      SchemaWith(name, es) == if f.number > 0 then Schema(map[name := f], map[f.number := name]) else Schema(map[], map[])
  {
    hide ParseField;
    var all := [Entry(name, Table(es))];
    assert all[..0] == [];
    assert ParseSchema([]) == Schema(map[], map[]);
    LastField(all);
  }

  lemma {:induction false} OneMember(fp: Foreign, schema: Schema, name: Bytes, v: Doc)
    requires name in schema.fields
    ensures EncodeMessage(fp, schema, [Entry(name, v)]) == FieldBytes(fp, schema.fields[name], v)
  {
    hide FieldBytes;
    var es := [Entry(name, v)];
    assert es[1..] == [];
    assert EncodeMessage(fp, schema, []) == [];
  }

  lemma TagIs(n: int, wire: nat)
    requires 0 < n < 0x8000_0000 && wire < 8
    ensures Tag(n, wire) == Base128(8 * n + wire)
  {
    hide Write, Base128;
    VarintIs(8 * n + wire);
  }

  // ---------- Writing ----------

  /** The bytes of a scalar field: its tag, the number and the wire type of its type name, and the payload. */
  lemma ScalarWritten(fp: Foreign, name: Bytes, es: seq<Entry>, n: int, t: string, v: Doc)
    requires 0 < n < 0x8000_0000 && Latin(t) && Describes(es, n, t) && WireNumber(t) != 2
    requires Repeats(es) ==> !v.List?
    ensures EncodeMessage(fp, SchemaWith(name, es), [Entry(name, v)]) == Base128(8 * n + WireNumber(t)) + Payload(fp, t, v)
  {
    hide *;
    Written(fp, name, es, n, t, v);
    WireIs(t);
    WireIsNot(t);
    PayloadIs(fp, t, v);
    ScalarIs(fp, KindOf(t), v);
    TagIs(n, WireNumber(t));
  }

  lemma WireIsNot(t: string)
    ensures WireNumber(t) < 8 && WireNumber("string") == 2 && WireNumber("bytes") == 2
    ensures WireNumber(t) != 2 ==> t != "message"
  {
  }

  lemma ScalarIs(fp: Foreign, kind: Kind, v: Doc)
    requires Packable(kind)
    ensures ValueBytes(fp, kind, v) == ScalarBytes(fp, kind, v)
  {
    hide ScalarBytes;
  }

  lemma Written(fp: Foreign, name: Bytes, es: seq<Entry>, n: int, t: string, v: Doc)
    requires 0 < n < 0x8000_0000 && Latin(t) && Describes(es, n, t) && (Repeats(es) ==> !v.List?)
    ensures var f := ParseField(Table(es));
      && f.number == n && SchemaWith(name, es) == Schema(map[name := f], map[n := name])
      && (t != "message" ==> f.kind == KindOf(t)) && f.repeated == Repeats(es)
      && EncodeMessage(fp, SchemaWith(name, es), [Entry(name, v)]) == Tag(n, WireType(f.kind)) + ValueBytes(fp, f.kind, v)
  {
    hide Tag, ValueBytes, ParseField, ParseSchema, Describes, Repeats, KindOf, Latin, EncodeMessage, Ascii, SchemaWith, WireType;
    var f := ParseField(Table(es));
    FieldDescribed(es, n, t);
    OneField(name, es);
    OneMember(fp, SchemaWith(name, es), name, v);
    assert f.number == n;
  }

  /** Text and bytes: the tag, the length and the content. */
  lemma ContentWritten(fp: Foreign, name: Bytes, es: seq<Entry>, n: int, t: string, v: Doc)
    requires 0 < n < 0x8000_0000 && t in {"string", "bytes"} && Describes(es, n, t) && |Content(t, v)| < TWO_63
    requires Repeats(es) ==> !v.List?
    ensures EncodeMessage(fp, SchemaWith(name, es), [Entry(name, v)])
         == Base128(8 * n + 2) + (Base128(|Content(t, v)|) + Content(t, v))
  {
    hide *;
    ContentIs(fp, t, v);
    Written(fp, name, es, n, t, v);
    TagIs(n, 2);
    VarintIs(|Content(t, v)|);
  }

  lemma ContentIs(fp: Foreign, t: string, v: Doc)
    requires t in {"string", "bytes"} && |Content(t, v)| < TWO_63
    ensures Latin(t) && t != "message" && WireType(KindOf(t)) == 2
    ensures ValueBytes(fp, KindOf(t), v) == Write(|Content(t, v)|) + Content(t, v)
  {
    hide Write;
  }

  /** A message: the tag, the length, and the members written by the schema under "fields". */
  lemma MessageWritten(fp: Foreign, name: Bytes, es: seq<Entry>, n: int, sub: seq<Entry>, ves: seq<Entry>)
    requires 0 < n < 0x8000_0000 && Describes(es, n, "message") && Entry(Ascii("fields"), Table(sub)) in es
    requires |EncodeMessage(fp, ParseSchema(sub), ves)| < TWO_63
    ensures var m := EncodeMessage(fp, ParseSchema(sub), ves);
      EncodeMessage(fp, SchemaWith(name, es), [Entry(name, Table(ves))]) == Base128(8 * n + 2) + (Base128(|m|) + m)
  {
    hide Base128, Tag, Describes, Repeats, EncodeMessage, SchemaWith, ParseField, Write, ParseSchema;
    Written(fp, name, es, n, "message", Table(ves));
    SubIs(es, n, sub);
    TagIs(n, 2);
    VarintIs(|EncodeMessage(fp, ParseSchema(sub), ves)|);
  }

  lemma SubIs(es: seq<Entry>, n: int, sub: seq<Entry>)
    requires 0 < n < 0x8000_0000 && Describes(es, n, "message") && Entry(Ascii("fields"), Table(sub)) in es
    ensures ParseField(Table(es)).kind == Message(ParseSchema(sub))
  {
    hide Ascii, ParseSchema, SubSchema;
    KeyNames();
    OtherNames();
    GetIs(es, TYPE, Atom(Text(Ascii("message"), false)));
    GetIs(es, FIELDS, Table(sub));
    SubFound(es);
  }

  lemma {:induction false} SubFound(es: seq<Entry>)
    ensures SubSchema(es)
         == match Get(es, FIELDS) case Some(d) => if d.Table? then Some(ParseSchema(d.entries)) else None case None => None
    decreases |es|
  {
    hide ParseSchema;
    if es != [] { SubFound(es[1..]); }
  }

  // ---------- Reading ----------

  /** A repeated field stores an array, even of one value. */
  function Stored(repeated: bool, v: Value): (r: Value)
  {
    if repeated && !v.Array? then Array([v]) else v
  }

  /** The root loop on one field. */
  lemma RootOne(fp: Foreign, name: Bytes, f: Field, wire: nat, payload: Bytes, v: Value)
    requires 0 < f.number < 0x8000_0000 && wire in {0, 1, 2, 5}
    requires var data, p := Base128(8 * f.number + wire) + payload, |Base128(8 * f.number + wire)|;
      DecodeValue(fp, data, |data|, p, wire, f.kind, 1) == Got(v, |data|)
    ensures DecodeRoot(fp, Base128(8 * f.number + wire) + payload, Schema(map[name := f], map[f.number := name]))
         == Some(map[name := Stored(f.repeated, v)])
  {
    hide *;
    var tag := Base128(8 * f.number + wire);
    var data := tag + payload;
    var schema := Schema(map[name := f], map[f.number := name]);
    VarintIs(8 * f.number + wire);
    Lies(tag, payload);
    TagFits(f.number, wire);
    ReadWrite(data, |data|, 0, 8 * f.number + wire);
    assert (8 * f.number + wire) / 8 == f.number && (8 * f.number + wire) % 8 == wire;
    RootStep(fp, name, f, wire, data, |tag|, v);
    FieldsEnd(fp, data, |data|, schema, 0, true, map[name := Stored(f.repeated, v)]);
  }

  lemma TagFits(n: int, wire: nat)
    requires 0 < n < 0x8000_0000 && wire < 8
    ensures 8 * n + wire < TWO_64
  {
  }

  lemma Lies(tag: Bytes, payload: Bytes)
    ensures At(tag + payload, 0, tag) && At(tag + payload, |tag|, payload) && |tag + payload| == |tag| + |payload|
  {
    assert (tag + payload)[0..|tag|] == tag;
  }

  lemma RootStep(fp: Foreign, name: Bytes, f: Field, wire: nat, data: Bytes, p: nat, v: Value)
    requires 0 < f.number < 0x8000_0000 && wire in {0, 1, 2, 5} && 0 < p <= |data|
    requires var r := Read(data, |data|, 0); r.Ok? && r.pos == p && r.value / 8 == f.number && r.value % 8 == wire
    requires DecodeValue(fp, data, |data|, p, wire, f.kind, 1) == Got(v, |data|)
    ensures var schema := Schema(map[name := f], map[f.number := name]);
      DecodeRoot(fp, data, schema) == DecodeFields(fp, data, |data|, |data|, schema, 0, true, map[name := Stored(f.repeated, v)])
  {
    hide Read, DecodeValue;
  }

  /** A field read from a varint, whatever the type name. */
  lemma VarintField(fp: Foreign, name: Bytes, es: seq<Entry>, n: int, t: string, raw: UInt64)
    requires 0 < n < 0x8000_0000 && Latin(t) && t != "message" && Describes(es, n, t)
    ensures DecodeRoot(fp, Base128(8 * n) + Base128(raw), SchemaWith(name, es))
         == Some(map[name := Stored(Repeats(es), Leaf(OfVarint(fp, t, raw)))])
  {
    hide *;
    var f, tag := ParseField(Table(es)), Base128(8 * n + 0);
    Written(fp, name, es, n, t, Atom(Null));
    VarintIs(raw);
    Lies(tag, Base128(raw));
    ReadWrite(tag + Base128(raw), |tag + Base128(raw)|, |tag|, raw);
    VarintOf(fp, t, raw);
    DecodeVarint(fp, tag + Base128(raw), |tag|, f.kind, raw);
    RootOne(fp, name, f, 0, Base128(raw), Leaf(OfVarint(fp, t, raw)));
  }

  lemma VarintOf(fp: Foreign, t: string, raw: UInt64)
    ensures FromVarint(fp, KindOf(t), raw) == Leaf(OfVarint(fp, t, raw))
  {
  }

  lemma DecodeVarint(fp: Foreign, data: Bytes, p: nat, kind: Kind, raw: UInt64)
    requires p <= |data| && Read(data, |data|, p) == Ok(raw, |data|)
    ensures DecodeValue(fp, data, |data|, p, 0, kind, 1) == Got(FromVarint(fp, kind, raw), |data|)
  {
    hide Read;
  }

  /** A field read from eight bytes. */
  lemma EightByteField(fp: Foreign, name: Bytes, es: seq<Entry>, n: int, t: string, raw: UInt64)
    requires 0 < n < 0x8000_0000 && Latin(t) && t != "message" && Describes(es, n, t)
    ensures DecodeRoot(fp, Base128(8 * n + 1) + Little(raw, 8), SchemaWith(name, es))
         == Some(map[name := Stored(Repeats(es), Leaf(OfEightBytes(t, raw)))])
  {
    hide *;
    var f, tag := ParseField(Table(es)), Base128(8 * n + 1);
    Written(fp, name, es, n, t, Atom(Null));
    LittleIs(raw, 8);
    Pow256Values();
    Lies(tag, Little(raw, 8));
    LittleAt(tag + Little(raw, 8), |tag|, raw, 8);
    DecodeWords(fp, tag + Little(raw, 8), |tag|, f.kind);
    WordsOf(fp, t, raw);
    RootOne(fp, name, f, 1, Little(raw, 8), Leaf(OfEightBytes(t, raw)));
  }

  /** A field read from four bytes. */
  lemma FourByteField(fp: Foreign, name: Bytes, es: seq<Entry>, n: int, t: string, raw: UInt32)
    requires 0 < n < 0x8000_0000 && Latin(t) && t != "message" && Describes(es, n, t)
    ensures DecodeRoot(fp, Base128(8 * n + 5) + Little(raw, 4), SchemaWith(name, es))
         == Some(map[name := Stored(Repeats(es), Leaf(OfFourBytes(fp, t, raw)))])
  {
    hide *;
    var f, tag := ParseField(Table(es)), Base128(8 * n + 5);
    Written(fp, name, es, n, t, Atom(Null));
    LittleIs(raw, 4);
    Pow256Values();
    Lies(tag, Little(raw, 4));
    LittleAt(tag + Little(raw, 4), |tag|, raw, 4);
    DecodeWords(fp, tag + Little(raw, 4), |tag|, f.kind);
    WordsOf(fp, t, raw);
    RootOne(fp, name, f, 5, Little(raw, 4), Leaf(OfFourBytes(fp, t, raw)));
  }

  lemma DecodeWords(fp: Foreign, data: Bytes, p: nat, kind: Kind)
    requires p <= |data|
    ensures p + 8 == |data| ==>
      ReadLittle(data, p, 8) < TWO_64
      && DecodeValue(fp, data, |data|, p, 1, kind, 1) == Got(FromWord64(kind, ReadLittle(data, p, 8)), |data|)
    ensures p + 4 == |data| ==>
      ReadLittle(data, p, 4) < TWO_32
      && DecodeValue(fp, data, |data|, p, 5, kind, 1) == Got(FromWord32(fp, kind, ReadLittle(data, p, 4), false), |data|)
  {
    hide ReadLittle;
    Pow256Values();
  }

  lemma WordsOf(fp: Foreign, t: string, raw: nat)
    ensures raw < TWO_64 ==> FromWord64(KindOf(t), raw) == Leaf(OfEightBytes(t, raw))
    ensures raw < TWO_32 ==> FromWord32(fp, KindOf(t), raw, false) == Leaf(OfFourBytes(fp, t, raw))
  {
  }

  /** Text and bytes; a "binary" field is read as bytes, too. */
  lemma ContentField(fp: Foreign, name: Bytes, es: seq<Entry>, n: int, t: string, s: Bytes)
    requires 0 < n < 0x8000_0000 && t in {"string", "bytes", "binary"} && Describes(es, n, t) && |s| <= MAX_STRING_LEN
    ensures DecodeRoot(fp, Base128(8 * n + 2) + (Base128(|s|) + s), SchemaWith(name, es))
         == Some(map[name := Stored(Repeats(es), Leaf(if t == "string" then Text(s, false) else Binary(s)))])
  {
    hide *;
    var f, tag := ParseField(Table(es)), Base128(8 * n + 2);
    var v := Leaf(if t == "string" then Text(s, false) else Binary(s));
    LatinContent(t);
    SizesFit();
    Written(fp, name, es, n, t, Atom(Null));
    CountRead(tag, s);
    DecodeContent(fp, tag + (Base128(|s|) + s), |tag|, t, s);
    RootOne(fp, name, f, 2, Base128(|s|) + s, v);
  }

  lemma LatinContent(t: string)
    requires t in {"string", "bytes", "binary"}
    ensures Latin(t) && t != "message"
  {
  }

  /** The count behind a tag, and the counted bytes up to the end. */
  lemma CountRead(tag: Bytes, s: Bytes)
    requires |s| < TWO_63
    ensures var data, p := tag + (Base128(|s|) + s), |tag| + |Base128(|s|)|;
      |data| == p + |s| && Read(data, |data|, |tag|) == Ok(|s|, p) && At(data, p, s) && data[p..|data|] == s
  {
    hide Write, Read, Base128;
    var data := tag + (Base128(|s|) + s);
    VarintIs(|s|);
    Lies(tag, Base128(|s|) + s);
    AtSplit(data, |tag|, Base128(|s|), s);
    ReadWrite(data, |data|, |tag|, |s|);
  }

  lemma DecodeContent(fp: Foreign, data: Bytes, p: nat, t: string, s: Bytes)
    requires t in {"string", "bytes", "binary"} && |s| <= MAX_STRING_LEN && |s| <= |data| && p <= |data|
    requires Read(data, |data|, p) == Ok(|s|, |data| - |s|) && data[|data| - |s|..|data|] == s
    ensures DecodeValue(fp, data, |data|, p, 2, KindOf(t), 1)
         == Got(Leaf(if t == "string" then Text(s, false) else Binary(s)), |data|)
  {
    hide Read, DecodeFields;
  }

  /** A message: the object its members make by the schema under "fields". */
  lemma MessageField(fp: Foreign, name: Bytes, es: seq<Entry>, n: int, sub: seq<Entry>, m: Bytes, obj: map<Bytes, Value>)
    requires 0 < n < 0x8000_0000 && Describes(es, n, "message") && Entry(Ascii("fields"), Table(sub)) in es && |m| < TWO_63
    requires var data := Base128(8 * n + 2) + (Base128(|m|) + m);
      DecodeFields(fp, data, |data|, |data| - |m|, ParseSchema(sub), 1, false, map[]) == Some(obj)
    ensures DecodeRoot(fp, Base128(8 * n + 2) + (Base128(|m|) + m), SchemaWith(name, es))
         == Some(map[name := Stored(Repeats(es), Object(obj))])
  {
    hide *;
    var f, tag := ParseField(Table(es)), Base128(8 * n + 2);
    MessageLatin();
    Written(fp, name, es, n, "message", Atom(Null));
    SubIs(es, n, sub);
    CountRead(tag, m);
    DecodeMessage(fp, tag + (Base128(|m|) + m), |tag|, ParseSchema(sub), |m|, obj);
    RootOne(fp, name, f, 2, Base128(|m|) + m, Object(obj));
  }

  lemma MessageLatin()
    ensures Latin("message")
  {
  }

  lemma DecodeMessage(fp: Foreign, data: Bytes, p: nat, schema: Schema, len: nat, obj: map<Bytes, Value>)
    requires len <= |data| && p <= |data| && len < TWO_63 && Read(data, |data|, p) == Ok(len, |data| - len)
    requires DecodeFields(fp, data, |data|, |data| - len, schema, 1, false, map[]) == Some(obj)
    ensures DecodeValue(fp, data, |data|, p, 2, Message(schema), 1) == Got(Object(obj), |data|)
  {
    hide Read, DecodeFields;
  }

  // ---------- Packed fields ----------

  /** One element behind the length, by the wire type of its type name. */
  function Element(t: string, raw: nat): (r: Bytes)
  {
    if WireNumber(t) == 0 then Base128(raw) else if WireNumber(t) == 1 then Little(raw, 8) else Little(raw, 4)
  }

  function Elements(t: string, raws: seq<nat>): (r: Bytes)
  {
    if raws == [] then [] else Element(t, raws[0]) + Elements(t, raws[1..])
  }

  predicate InRange(t: string, raws: seq<nat>)
  {
    forall i :: 0 <= i < |raws| ==> raws[i] < if WireNumber(t) == 5 then TWO_32 else TWO_64
  }

  function PackedValues(fp: Foreign, t: string, raws: seq<nat>): (r: seq<Value>)
    requires InRange(t, raws)
  {
    if raws == [] then [] else [Leaf(OfPacked(fp, t, raws[0]))] + PackedValues(fp, t, raws[1..])
  }

  lemma ElementRead(fp: Foreign, t: string, raw: nat, data: Bytes, end: nat, pos: nat, acc: seq<Value>)
    requires WireNumber(t) != 2 && raw < (if WireNumber(t) == 5 then TWO_32 else TWO_64) && Packable(KindOf(t))
    requires At(data, pos, Element(t, raw)) && pos + |Element(t, raw)| <= end <= |data|
    ensures ReadPacked(fp, data, |data|, end, pos, KindOf(t), acc)
         == ReadPacked(fp, data, |data|, end, pos + |Element(t, raw)|, KindOf(t), acc + [Leaf(OfPacked(fp, t, raw))])
  {
    hide *;
    WireIs(t);
    WireIsNot(t);
    ElementIs(t, raw);
    Pow256Values();
    ElementOf(fp, t, raw);
    if WireNumber(t) == 0 {
      VarintIs(raw);
      ReadWrite(data, |data|, pos, raw);
      PackedStep(fp, data, end, pos, KindOf(t), acc);
    } else {
      LittleIs(raw, if WireNumber(t) == 1 then 8 else 4);
      LittleAt(data, pos, raw, if WireNumber(t) == 1 then 8 else 4);
      PackedStep(fp, data, end, pos, KindOf(t), acc);
    }
  }

  lemma ElementIs(t: string, raw: nat)
    ensures WireNumber(t) == 0 ==> Element(t, raw) == Base128(raw) && |Base128(raw)| > 0
    ensures WireNumber(t) == 1 ==> Element(t, raw) == Little(raw, 8)
    ensures WireNumber(t) == 5 ==> Element(t, raw) == Little(raw, 4)
    ensures WireNumber(t) in {0, 1, 2, 5}
  {
  }

  lemma ElementOf(fp: Foreign, t: string, raw: nat)
    requires raw < if WireNumber(t) == 5 then TWO_32 else TWO_64
    ensures WireNumber(t) == 0 ==> FromVarint(fp, KindOf(t), raw) == Leaf(OfPacked(fp, t, raw))
    ensures WireNumber(t) == 1 ==> FromWord64(KindOf(t), raw) == Leaf(OfPacked(fp, t, raw))
    ensures WireNumber(t) == 5 ==> FromWord32(fp, KindOf(t), raw, true) == Leaf(OfPacked(fp, t, raw))
  {
  }

  lemma PackedStep(fp: Foreign, data: Bytes, end: nat, pos: nat, kind: Kind, acc: seq<Value>)
    requires pos < end <= |data| && Packable(kind)
    ensures WireType(kind) == 0 && Read(data, |data|, pos).Ok? ==>
      var r := Read(data, |data|, pos);
      ReadPacked(fp, data, |data|, end, pos, kind, acc)
      == ReadPacked(fp, data, |data|, end, r.pos, kind, acc + [FromVarint(fp, kind, r.value)])
    ensures WireType(kind) == 1 && pos + 8 <= end ==>
      ReadLittle(data, pos, 8) < TWO_64 &&
      ReadPacked(fp, data, |data|, end, pos, kind, acc)
      == ReadPacked(fp, data, |data|, end, pos + 8, kind, acc + [FromWord64(kind, ReadLittle(data, pos, 8))])
    ensures WireType(kind) == 5 && pos + 4 <= end ==>
      ReadLittle(data, pos, 4) < TWO_32 &&
      ReadPacked(fp, data, |data|, end, pos, kind, acc)
      == ReadPacked(fp, data, |data|, end, pos + 4, kind, acc + [FromWord32(fp, kind, ReadLittle(data, pos, 4), true)])
  {
    hide Read, ReadLittle, FromVarint, FromWord32, FromWord64;
    Pow256Values();
  }

  lemma {:induction false} ElementsRead(fp: Foreign, t: string, raws: seq<nat>, data: Bytes, pos: nat, acc: seq<Value>)
    requires WireNumber(t) != 2 && InRange(t, raws) && Packable(KindOf(t))
    requires At(data, pos, Elements(t, raws)) && |data| == pos + |Elements(t, raws)|
    ensures ReadPacked(fp, data, |data|, |data|, pos, KindOf(t), acc) == Got(Array(acc + PackedValues(fp, t, raws)), |data|)
    decreases |raws|
  {
    hide Element, ReadPacked, OfPacked, KindOf, Packable, WireNumber;
    if raws == [] {
      assert acc + [] == acc;
      PackedEnd(fp, data, KindOf(t), acc);
    } else {
      var v := Leaf(OfPacked(fp, t, raws[0]));
      AtSplit(data, pos, Element(t, raws[0]), Elements(t, raws[1..]));
      ElementRead(fp, t, raws[0], data, |data|, pos, acc);
      ElementsRead(fp, t, raws[1..], data, pos + |Element(t, raws[0])|, acc + [v]);
      Regrouped(acc, [v], PackedValues(fp, t, raws[1..]));
    }
  }

  lemma PackedEnd(fp: Foreign, data: Bytes, kind: Kind, acc: seq<Value>)
    requires Packable(kind)
    ensures ReadPacked(fp, data, |data|, |data|, |data|, kind, acc) == Got(Array(acc), |data|)
  {
  }

  /** Packed elements: the tag, the length and the elements one after the other, read by their type name. */
  lemma PackedField(fp: Foreign, name: Bytes, es: seq<Entry>, n: int, t: string, raws: seq<nat>)
    requires 0 < n < 0x8000_0000 && Latin(t) && WireNumber(t) != 2 && t != "" && t != "binary" && Describes(es, n, t)
    requires InRange(t, raws) && |Elements(t, raws)| <= MAX_ARRAY_SIZE
    ensures var body := Elements(t, raws);
      DecodeRoot(fp, Base128(8 * n + 2) + (Base128(|body|) + body), SchemaWith(name, es))
      == Some(map[name := Array(PackedValues(fp, t, raws))])
  {
    hide *;
    var f, tag, body := ParseField(Table(es)), Base128(8 * n + 2), Elements(t, raws);
    var data := tag + (Base128(|body|) + body);
    WireIsNot(t);
    Written(fp, name, es, n, t, Atom(Null));
    WireIs(t);
    SizesFit();
    CountRead(tag, body);
    ElementsRead(fp, t, raws, data, |tag| + |Base128(|body|)|, []);
    assert [] + PackedValues(fp, t, raws) == PackedValues(fp, t, raws);
    DecodePacked(fp, data, |tag|, t, |body|, PackedValues(fp, t, raws));
    RootOne(fp, name, f, 2, Base128(|body|) + body, Array(PackedValues(fp, t, raws)));
    StoredArray(Repeats(es), PackedValues(fp, t, raws));
  }

  lemma SizesFit()
    ensures MAX_ARRAY_SIZE < TWO_63 && MAX_STRING_LEN < TWO_63
  {
  }

  lemma StoredArray(repeated: bool, vs: seq<Value>)
    ensures Stored(repeated, Array(vs)) == Array(vs)
  {
  }

  lemma DecodePacked(fp: Foreign, data: Bytes, p: nat, t: string, len: nat, vs: seq<Value>)
    requires t !in {"", "binary", "message"} && Packable(KindOf(t)) && len <= MAX_ARRAY_SIZE && len <= |data| && p <= |data|
    requires Read(data, |data|, p) == Ok(len, |data| - len)
    requires ReadPacked(fp, data, |data|, |data|, |data| - len, KindOf(t), []) == Got(Array(vs), |data|)
    ensures DecodeValue(fp, data, |data|, p, 2, KindOf(t), 1) == Got(Array(vs), |data|)
  {
    hide Read, DecodeFields, ReadPacked;
  }

  // ---------- The same field again, and fields that are not described ----------

  function VarintFields(n: nat, raws: seq<UInt64>): (r: Bytes)
  {
    if raws == [] then [] else Base128(8 * n) + (Base128(raws[0]) + VarintFields(n, raws[1..]))
  }

  function VarintValues(fp: Foreign, t: string, raws: seq<UInt64>): (r: seq<Value>)
    ensures |r| == |raws|
  {
    if raws == [] then [] else [Leaf(OfVarint(fp, t, raws[0]))] + VarintValues(fp, t, raws[1..])
  }

  /** One value stands for itself unless the field is repeated; several make an array in either case. */
  function Gathered(repeated: bool, vs: seq<Value>): (r: Value)
    requires vs != []
  {
    if |vs| == 1 && !repeated then vs[0] else Array(vs)
  }

  ghost predicate Holds(obj: map<Bytes, Value>, name: Bytes, repeated: bool, vs: seq<Value>)
  {
    obj == if vs == [] then map[] else map[name := Gathered(repeated, vs)]
  }

  lemma GatherMore(obj: map<Bytes, Value>, name: Bytes, repeated: bool, vs: seq<Value>, s: Scalar)
    requires Holds(obj, name, repeated, vs) && name != [] && forall i :: 0 <= i < |vs| ==> vs[i].Leaf?
    ensures Holds(Store(obj, name, repeated, Leaf(s)), name, repeated, vs + [Leaf(s)])
  {
    var v := Leaf(s);
    if vs == [] {
      assert vs + [v] == [v];
      assert Store(obj, name, repeated, v) == map[name := Gathered(repeated, [v])];
    } else {
      var was := Gathered(repeated, vs);
      assert obj[name] == was;
      if |vs| == 1 && !repeated {
        assert [vs[0], v] == vs + [v];
        assert Store(obj, name, repeated, v) == map[name := Array([vs[0], v])];
      } else {
        assert Store(obj, name, repeated, v) == map[name := Array(vs + [v])];
      }
    }
  }

  lemma VarintTurn(fp: Foreign, name: Bytes, f: Field, data: Bytes, pos: nat, raw: UInt64, obj: map<Bytes, Value>)
    requires 0 < f.number < 0x8000_0000 && At(data, pos, Base128(8 * f.number) + Base128(raw))
    ensures var schema := Schema(map[name := f], map[f.number := name]);
      DecodeFields(fp, data, |data|, pos, schema, 0, true, obj)
      == DecodeFields(fp, data, |data|, pos + |Base128(8 * f.number)| + |Base128(raw)|, schema, 0, true,
                      Store(obj, name, f.repeated, FromVarint(fp, f.kind, raw)))
  {
    hide *;
    VarintIs(8 * f.number);
    VarintIs(raw);
    TagFits(f.number, 0);
    var p := pos + |Base128(8 * f.number)|;
    AtSplit(data, pos, Base128(8 * f.number), Base128(raw));
    ReadWrite(data, |data|, pos, 8 * f.number);
    ReadWrite(data, |data|, p, raw);
    assert 8 * f.number / 8 == f.number && 8 * f.number % 8 == 0;
    VarintTaken(fp, name, f, data, pos, p, raw, obj);
  }

  lemma VarintTaken(fp: Foreign, name: Bytes, f: Field, data: Bytes, pos: nat, p: nat, raw: UInt64, obj: map<Bytes, Value>)
    requires 0 < f.number < 0x8000_0000 && pos < p <= |data| && Read(data, |data|, p).Ok? && Read(data, |data|, p).value == raw
    requires var r := Read(data, |data|, pos); r.Ok? && r.pos == p && r.value / 8 == f.number && r.value % 8 == 0
    ensures var schema := Schema(map[name := f], map[f.number := name]);
      DecodeFields(fp, data, |data|, pos, schema, 0, true, obj)
      == DecodeFields(fp, data, |data|, Read(data, |data|, p).pos, schema, 0, true,
                      Store(obj, name, f.repeated, FromVarint(fp, f.kind, raw)))
  {
    hide Read, Store, FromVarint;
    assert FieldOf(Schema(map[name := f], map[f.number := name]), f.number, true) == (name, f);
    DecodeVarintHere(fp, data, p, f.kind);
  }

  lemma DecodeVarintHere(fp: Foreign, data: Bytes, p: nat, kind: Kind)
    requires p <= |data| && Read(data, |data|, p).Ok?
    ensures var r := Read(data, |data|, p);
      DecodeValue(fp, data, |data|, p, 0, kind, 1) == Got(FromVarint(fp, kind, r.value), r.pos)
  {
    hide Read, FromVarint;
  }

  lemma {:induction false} FieldsGather(fp: Foreign, name: Bytes, f: Field, t: string, raws: seq<UInt64>, data: Bytes, pos: nat,
                                        obj: map<Bytes, Value>, vs: seq<Value>)
    requires 0 < f.number < 0x8000_0000 && f.kind == KindOf(t) && name != []
    requires At(data, pos, VarintFields(f.number, raws)) && |data| == pos + |VarintFields(f.number, raws)|
    requires Holds(obj, name, f.repeated, vs) && forall i :: 0 <= i < |vs| ==> vs[i].Leaf?
    ensures var schema := Schema(map[name := f], map[f.number := name]);
      var r := DecodeFields(fp, data, |data|, pos, schema, 0, true, obj);
      r.Some? && Holds(r.value, name, f.repeated, vs + VarintValues(fp, t, raws))
    decreases |raws|
  {
    hide DecodeFields, Store, FromVarint, OfVarint, Base128, Holds, KindOf;
    if raws == [] {
      assert vs + [] == vs;
      FieldsEnd(fp, data, |data|, Schema(map[name := f], map[f.number := name]), 0, true, obj);
    } else {
      var tag, head, rest := Base128(8 * f.number), Base128(raws[0]), VarintFields(f.number, raws[1..]);
      var s := OfVarint(fp, t, raws[0]);
      Regrouped(tag, head, rest);
      AtSplit(data, pos, tag + head, rest);
      VarintTurn(fp, name, f, data, pos, raws[0], obj);
      VarintOf(fp, t, raws[0]);
      GatherMore(obj, name, f.repeated, vs, s);
      FieldsGather(fp, name, f, t, raws[1..], data, pos + |tag| + |head|, Store(obj, name, f.repeated, Leaf(s)), vs + [Leaf(s)]);
      Regrouped(vs, [Leaf(s)], VarintValues(fp, t, raws[1..]));
    }
  }

  /** However often a field comes, its values are gathered in order. */
  lemma ManyFields(fp: Foreign, name: Bytes, es: seq<Entry>, n: int, t: string, raws: seq<UInt64>)
    requires 0 < n < 0x8000_0000 && Latin(t) && t != "message" && Describes(es, n, t) && name != [] && raws != []
    ensures DecodeRoot(fp, VarintFields(n, raws), SchemaWith(name, es))
         == Some(map[name := Gathered(Repeats(es), VarintValues(fp, t, raws))])
  {
    hide VarintFields, SchemaWith, ParseField, Describes, Repeats, VarintValues, Latin, DecodeFields, KindOf;
    var f, data := ParseField(Table(es)), VarintFields(n, raws);
    Written(fp, name, es, n, t, Atom(Null));
    assert data[0..|data|] == data;
    FieldsGather(fp, name, f, t, raws, data, 0, map[], []);
    assert [] + VarintValues(fp, t, raws) == VarintValues(fp, t, raws);
  }

  /** A number the schema does not know names itself, in decimal; its varint is read as a signed integer. */
  lemma UnknownNumber(fp: Foreign, n: int, raw: UInt64)
    requires 0 < n < 0x8000_0000
    ensures DecodeRoot(fp, Base128(8 * n) + Base128(raw), Schema(map[], map[]))
         == Some(map[Text.Decimal(n) := Leaf(Int(SignedWord(raw, TWO_64)))])
  {
    hide *;
    var data, p := Base128(8 * n) + Base128(raw), |Base128(8 * n)|;
    VarintIs(8 * n);
    VarintIs(raw);
    TagFits(n, 0);
    Lies(Base128(8 * n), Base128(raw));
    ReadWrite(data, |data|, 0, 8 * n);
    ReadWrite(data, |data|, p, raw);
    assert 8 * n / 8 == n && 8 * n % 8 == 0;
    UnknownTaken(fp, data, p, n, raw);
  }

  lemma UnknownTaken(fp: Foreign, data: Bytes, p: nat, n: int, raw: UInt64)
    requires 0 < n < 0x8000_0000 && 0 < p <= |data| && Read(data, |data|, p) == Ok(raw, |data|)
    requires var r := Read(data, |data|, 0); r.Ok? && r.pos == p && r.value / 8 == n && r.value % 8 == 0
    ensures DecodeRoot(fp, data, Schema(map[], map[])) == Some(map[Text.Decimal(n) := Leaf(Int(SignedWord(raw, TWO_64)))])
  {
    hide Read, Text.Digits;
    var schema, v := Schema(map[], map[]), Leaf(Int(SignedWord(raw, TWO_64)));
    assert FieldOf(schema, n, true) == (Text.Digits(n), Field(n, Untyped, false, true));
    assert DecodeValue(fp, data, |data|, p, 0, Untyped, 1) == Got(v, |data|);
    assert Store(map[], Text.Digits(n), false, v) == map[Text.Decimal(n) := v];
    FieldsEnd(fp, data, |data|, schema, 0, true, map[Text.Decimal(n) := v]);
  }
}
