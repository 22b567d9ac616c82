/** What any value comes back as from the schema-driven Protobuf encoder and decoder, whether it fits its type or not. */
module ProtoImage {
  import opened Bytes
  import opened Values
  import opened Varint
  import opened Text
  import opened Proto

  // ---------- Usable schemas ----------

  /** Behind a length the codec reads elements of this kind. */
  predicate Unpacks(kind: Kind)
  {
    Packable(kind) && !kind.Untyped? && !kind.Raw?
  }

  /** A name and a positive number that lead to each other, and a type that is read the way it is written. */
  ghost predicate FieldOk(schema: Schema, name: Bytes)
    requires name in schema.fields
  {
    var f := schema.fields[name];
    && name != [] && 0 < f.number < 0x8000_0000
    && f.number in schema.names && schema.names[f.number] == name
    && !f.kind.Bare? && (f.repeated && f.packed && Packable(f.kind) ==> Unpacks(f.kind))
  }

  /** All fields are usable, at every level. */
  ghost predicate SchemaOk(schema: Schema)
    decreases schema
  {
    forall name :: name in schema.fields ==>
      FieldOk(schema, name) && (schema.fields[name].kind.Message? ==> SchemaOk(schema.fields[name].kind.schema))
  }

  // ---------- Images ----------

  /** What a scalar of any type comes back as from a field of this kind, on its own or packed. */
  function ScalarImage(fp: Foreign, kind: Kind, d: Doc, packed: bool): (r: Scalar)
    requires Packable(kind)
  {
    match kind
    case Signed64 => Int(IntOf(fp, d))
    case Unsigned64 => Int(ToI64(UnsignedOf(fp, d)))
    case ZigZag => Int(IntOf(fp, d))
    case Boolean => Bool(d.Atom? && d.scalar.Bool? && d.scalar.flag)
    case Fixed64 => Int(IntOf(fp, d))
    case Fixed32 => Int(if packed then Signed(IntOf(fp, d) % TWO_32, TWO_32) else IntOf(fp, d) % TWO_32)
    case Double64 => Double(DoubleOf(fp, d))
    case Single => Double(fp.widen(fp.narrow(DoubleOf(fp, d))))
    case Untyped => Int(PlainOf(d))
    case Raw => Int(PlainOf(d))
    case Other => Int(PlainOf(d))
  }

  function ScalarImages(fp: Foreign, kind: Kind, ds: seq<Doc>): (r: seq<Value>)
    requires Packable(kind)
    ensures |r| == |ds|
  {
    if ds == [] then [] else [Leaf(ScalarImage(fp, kind, ds[0], true))] + ScalarImages(fp, kind, ds[1..])
  }

  /** A value comes back as a value, cannot be read, or makes the decoder throw. */
  datatype Return = Back(value: Value) | Unread | Thrown

  /** The field loop goes on with an object, ends with one, or throws. */
  datatype Run = Going(obj: map<Bytes, Value>) | Ended(last: map<Bytes, Value>) | Failed

  function ValueImage(fp: Foreign, kind: Kind, d: Doc, depth: nat): (r: Return)
    requires !kind.Bare?
    ensures r.Back? ==> !r.value.Array?
    ensures r.Unread? ==> depth > MAX_NESTING_DEPTH
    decreases d, 0
  {
    if Packable(kind) then Back(Leaf(ScalarImage(fp, kind, d, false)))
    else
      match kind
      case Str => if |TextOf(d)| > MAX_STRING_LEN then Thrown else Back(Leaf(Text(TextOf(d), false)))
      case Blob => if |BytesOf(d)| > MAX_STRING_LEN then Thrown else Back(Leaf(Binary(BytesOf(d))))
      case Message(schema) =>
        if depth > MAX_NESTING_DEPTH then Unread
        else if !d.Table? then Back(Object(map[]))
        else
          match FieldsImage(fp, schema, d.entries, depth, map[])
          case None => Thrown
          case Some(obj) => Back(Object(obj))
  }

  function Stored(name: Bytes, f: Field, r: Return, obj: map<Bytes, Value>): (run: Run)
  {
    match r
    case Thrown => Failed
    case Unread => Ended(obj)
    case Back(v) => Going(Store(obj, name, f.repeated, v))
  }

  /** Values one by one, each stored under the name. */
  function ElementsImage(fp: Foreign, name: Bytes, f: Field, ds: seq<Doc>, depth: nat, obj: map<Bytes, Value>): (r: Run)
    requires !f.kind.Bare?
    ensures r.Ended? ==> depth >= MAX_NESTING_DEPTH
    decreases ds, 0
  {
    if ds == [] then Going(obj)
    else
      match ValueImage(fp, f.kind, ds[0], depth + 1)
      case Thrown => Failed
      case Unread => Ended(obj)
      case Back(v) => ElementsImage(fp, name, f, ds[1..], depth, Store(obj, name, f.repeated, v))
  }

  function FieldImage(fp: Foreign, name: Bytes, f: Field, d: Doc, depth: nat, obj: map<Bytes, Value>): (r: Run)
    requires !f.kind.Bare?
    ensures r.Ended? ==> depth >= MAX_NESTING_DEPTH
    decreases d, 2
  {
    if f.repeated && d.List? then
      if f.packed && Packable(f.kind) && d.items != [] then
        if |ScalarsBytes(fp, f.kind, d.items)| > MAX_ARRAY_SIZE then Failed
        else Going(Store(obj, name, true, Array(ScalarImages(fp, f.kind, d.items))))
      else ElementsImage(fp, name, f, d.items, depth, obj)
    else
      Stored(name, f, ValueImage(fp, f.kind, d, depth + 1), obj)
  }

  /** The object a written message is read as, added to what is there; None where the decoder throws. */
  function FieldsImage(fp: Foreign, schema: Schema, es: seq<Entry>, depth: nat, obj: map<Bytes, Value>): (r: Option<map<Bytes, Value>>)
    decreases es, 0
  {
    if es == [] then Some(obj)
    else if es[0].key !in schema.fields || schema.fields[es[0].key].kind.Bare? then
      FieldsImage(fp, schema, es[1..], depth, obj)
    else
      match FieldImage(fp, es[0].key, schema.fields[es[0].key], es[0].doc, depth, obj)
      case Failed => None
      case Ended(last) => Some(last)
      case Going(more) => FieldsImage(fp, schema, es[1..], depth, more)
  }

  // ---------- Scalars ----------

  lemma IntInverse(n: Int64)
    ensures ToI64(ToU64(n)) == n && ZigZagDecode(ZigZagEncode(n)) == n
  {
    ZigZagBijection(n, 0);
  }

  lemma VarintValue(fp: Foreign, kind: Kind, d: Doc, data: Bytes, size: nat, pos: nat)
    requires WireType(kind) == 0
    requires size <= |data| && At(data, pos, ScalarBytes(fp, kind, d)) && pos + |ScalarBytes(fp, kind, d)| <= size
    ensures var r := Read(data, size, pos);
      r.Ok? && r.pos == pos + |ScalarBytes(fp, kind, d)| && FromVarint(fp, kind, r.value) == Leaf(ScalarImage(fp, kind, d, false))
    ensures ScalarImage(fp, kind, d, true) == ScalarImage(fp, kind, d, false)
  {
    hide Write, Read, ZigZagEncode, ZigZagDecode, ToU64, IntOf, UnsignedOf, PlainOf;
    if kind.Boolean? {
      var flag := d.Atom? && d.scalar.Bool? && d.scalar.flag;
      FlagBytes(flag);
      ReadWrite(data, size, pos, if flag then 1 else 0);
    } else if kind.Unsigned64? {
      ReadWrite(data, size, pos, UnsignedOf(fp, d));
    } else if kind.ZigZag? {
      IntInverse(IntOf(fp, d));
      ReadWrite(data, size, pos, ZigZagEncode(IntOf(fp, d)));
    } else {
      var n := if kind.Signed64? then IntOf(fp, d) else PlainOf(d);
      IntInverse(n);
      ReadWrite(data, size, pos, ToU64(n));
    }
  }

  lemma FlagBytes(flag: bool)
    ensures Write(if flag then 1 else 0) == [if flag then 1 else 0]
  {
  }

  lemma WordValue(fp: Foreign, kind: Kind, d: Doc, data: Bytes, pos: nat, packed: bool)
    requires (WireType(kind) == 1 || WireType(kind) == 5) && At(data, pos, ScalarBytes(fp, kind, d))
    ensures var w := if WireType(kind) == 1 then 8 else 4; var v := Leaf(ScalarImage(fp, kind, d, packed));
      && |ScalarBytes(fp, kind, d)| == w && pos + w <= |data|
      && (w == 8 ==> ReadLittle(data, pos, 8) < TWO_64 && FromWord64(kind, ReadLittle(data, pos, 8)) == v)
      && (w == 4 ==> ReadLittle(data, pos, 4) < TWO_32 && FromWord32(fp, kind, ReadLittle(data, pos, 4), packed) == v)
  {
    hide LittleEndian, ReadLittle, IntOf, DoubleOf;
    Pow256Values();
    match kind
    case Fixed64 => IntInverse(IntOf(fp, d)); LittleAt(data, pos, ToU64(IntOf(fp, d)), 8);
    case Double64 => LittleAt(data, pos, DoubleOf(fp, d), 8);
    case Fixed32 => LittleAt(data, pos, IntOf(fp, d) % TWO_32, 4);
    case Single => LittleAt(data, pos, fp.narrow(DoubleOf(fp, d)), 4);
  }

  // ---------- Packed elements ----------

  /** Packed elements are read as their images, whatever they are. */
  lemma {:induction false} PackedRead(fp: Foreign, kind: Kind, ds: seq<Doc>, data: Bytes, size: nat, end: nat, pos: nat, acc: seq<Value>)
    requires Packable(kind)
    requires At(data, pos, ScalarsBytes(fp, kind, ds)) && end == pos + |ScalarsBytes(fp, kind, ds)| <= size <= |data|
    ensures ReadPacked(fp, data, size, end, pos, kind, acc) == Got(Array(acc + ScalarImages(fp, kind, ds)), end)
    decreases ds
  {
    hide ScalarBytes, ScalarImage, Read, ReadLittle, FromVarint, FromWord64, FromWord32;
    if ds == [] {
      assert acc + [] == acc;
    } else {
      var head := ScalarBytes(fp, kind, ds[0]);
      AtSplit(data, pos, head, ScalarsBytes(fp, kind, ds[1..]));
      var v := Leaf(ScalarImage(fp, kind, ds[0], true));
      assert acc + [v] + ScalarImages(fp, kind, ds[1..]) == acc + ScalarImages(fp, kind, ds);
      if WireType(kind) == 0 { PackedVarint(fp, kind, ds[0], data, size, end, pos, acc); }
      else { PackedWord(fp, kind, ds[0], data, size, end, pos, acc); }
      PackedRead(fp, kind, ds[1..], data, size, end, pos + |head|, acc + [v]);
    }
  }

  lemma PackedVarint(fp: Foreign, kind: Kind, d: Doc, data: Bytes, size: nat, end: nat, pos: nat, acc: seq<Value>)
    requires WireType(kind) == 0
    requires At(data, pos, ScalarBytes(fp, kind, d)) && pos + |ScalarBytes(fp, kind, d)| <= end <= size <= |data|
    ensures ReadPacked(fp, data, size, end, pos, kind, acc)
         == ReadPacked(fp, data, size, end, pos + |ScalarBytes(fp, kind, d)|, kind, acc + [Leaf(ScalarImage(fp, kind, d, true))])
  {
    hide ScalarBytes, ScalarImage, Read, FromVarint, Write;
    VarintValue(fp, kind, d, data, size, pos);
  }

  lemma PackedWord(fp: Foreign, kind: Kind, d: Doc, data: Bytes, size: nat, end: nat, pos: nat, acc: seq<Value>)
    requires WireType(kind) in {1, 5}
    requires At(data, pos, ScalarBytes(fp, kind, d)) && pos + |ScalarBytes(fp, kind, d)| <= end <= size <= |data|
    ensures ReadPacked(fp, data, size, end, pos, kind, acc)
         == ReadPacked(fp, data, size, end, pos + |ScalarBytes(fp, kind, d)|, kind, acc + [Leaf(ScalarImage(fp, kind, d, true))])
  {
    hide ScalarBytes, ScalarImage, ReadLittle, FromWord64, FromWord32, LittleEndian;
    WordValue(fp, kind, d, data, pos, true);
  }

  // ---------- Values ----------

  lemma CountedAt(data: Bytes, size: nat, pos: nat, s: Bytes)
    requires size <= |data| < TWO_63 && At(data, pos, Counted(s)) && pos + |Counted(s)| <= size
    ensures Read(data, size, pos) == Ok(|s|, pos + |Counted(s)| - |s|)
    ensures At(data, pos + |Counted(s)| - |s|, s)
  {
    hide Write, Read;
    AtSplit(data, pos, Write(|s| % TWO_64), s);
    ReadWrite(data, size, pos, |s| % TWO_64);
  }

  /** An outcome at `end`, in the terms of the image. */
  ghost predicate Brings(o: Outcome, r: Return, end: nat)
  {
    match r
    case Back(v) => o == Got(v, end)
    case Unread => o == Nothing
    case Thrown => o == Throws
  }

  /** A written value is read as its image, whatever it is. */
  lemma {:induction false} ValueRead(fp: Foreign, kind: Kind, d: Doc, data: Bytes, size: nat, pos: nat, depth: nat)
    requires !kind.Bare? && (kind.Message? ==> SchemaOk(kind.schema))
    requires size <= |data| < TWO_63 && At(data, pos, ValueBytes(fp, kind, d)) && pos + |ValueBytes(fp, kind, d)| <= size
    ensures Brings(DecodeValue(fp, data, size, pos, WireType(kind), kind, depth), ValueImage(fp, kind, d, depth),
                   pos + |ValueBytes(fp, kind, d)|)
    decreases d, 1
  {
    hide ScalarBytes, ScalarImage, Read, ReadLittle, FromVarint, FromWord64, FromWord32, LittleEndian, EncodeMessage, Counted,
         DecodeFields, SchemaOk, ReadPacked, TextOf, BytesOf, FieldsImage;
    if kind.Message? {
      if d.Table? { MessageRead(fp, kind.schema, d.entries, data, size, pos, depth); }
      else { NothingRead(fp, kind.schema, data, size, pos, depth); }
    } else if kind.Str? || kind.Blob? {
      CountedAt(data, size, pos, if kind.Str? then TextOf(d) else BytesOf(d));
    } else if WireType(kind) == 0 {
      VarintValue(fp, kind, d, data, size, pos);
    } else {
      WordValue(fp, kind, d, data, pos, false);
    }
  }

  lemma NothingRead(fp: Foreign, schema: Schema, data: Bytes, size: nat, pos: nat, depth: nat)
    requires size <= |data| < TWO_63 && At(data, pos, Counted([])) && pos + |Counted([])| <= size
    ensures Brings(DecodeValue(fp, data, size, pos, 2, Message(schema), depth),
                   if depth > MAX_NESTING_DEPTH then Unread else Back(Object(map[])), pos + |Counted([])|)
  {
    hide Read, Counted, DecodeFields;
    CountedAt(data, size, pos, []);
    FieldsEnd(fp, data, pos + |Counted([])|, schema, depth, false, map[]);
  }

  lemma {:induction false} MessageRead(fp: Foreign, schema: Schema, es: seq<Entry>, data: Bytes, size: nat, pos: nat, depth: nat)
    requires SchemaOk(schema) && size <= |data| < TWO_63
    requires At(data, pos, Counted(EncodeMessage(fp, schema, es))) && pos + |Counted(EncodeMessage(fp, schema, es))| <= size
    ensures var image := FieldsImage(fp, schema, es, depth, map[]);
      Brings(DecodeValue(fp, data, size, pos, 2, Message(schema), depth),
             if depth > MAX_NESTING_DEPTH then Unread else if image.None? then Thrown else Back(Object(image.value)),
             pos + |Counted(EncodeMessage(fp, schema, es))|)
    decreases es, 4
  {
    hide Read, EncodeMessage, Counted, DecodeFields, SchemaOk, FieldsImage;
    var sub := EncodeMessage(fp, schema, es);
    CountedAt(data, size, pos, sub);
    var p := pos + |Counted(sub)| - |sub|;
    if depth <= MAX_NESTING_DEPTH {
      FieldsRead(fp, schema, es, data, p + |sub|, p, depth, false, map[]);
    }
  }

  // ---------- Fields ----------

  lemma TagRead(data: Bytes, size: nat, pos: nat, number: int, wire: nat)
    requires 0 < number < 0x8000_0000 && wire < 8
    requires size <= |data| && At(data, pos, Tag(number, wire)) && pos + |Tag(number, wire)| <= size
    ensures var r := Read(data, size, pos);
      r.Ok? && r.pos == pos + |Tag(number, wire)| && r.value % 8 == wire && ToInt32(r.value / 8) == number
  {
    hide Write, Read;
    ReadWrite(data, size, pos, number * 8 + wire);
  }

  lemma NumbersAlike(fp: Foreign, data: Bytes, size: nat, pos: nat, depth: nat)
    requires pos <= size <= |data|
    ensures DecodeValue(fp, data, size, pos, 0, Str, depth) == DecodeValue(fp, data, size, pos, 0, Untyped, depth)
  {
    hide Read;
  }

  /** One turn of the field loop, by what is read behind the tag. */
  lemma StepField(fp: Foreign, data: Bytes, size: nat, pos: nat, schema: Schema, depth: nat, root: bool, obj: map<Bytes, Value>,
                  name: Bytes, wire: nat, o: Outcome)
    requires name in schema.fields && FieldOk(schema, name) && wire in {0, 1, 2, 5} && size <= |data|
    requires schema.fields[name].kind.Untyped? ==> wire == 0
    requires At(data, pos, Tag(schema.fields[name].number, wire)) && pos + |Tag(schema.fields[name].number, wire)| <= size
    requires o == DecodeValue(fp, data, size, pos + |Tag(schema.fields[name].number, wire)|, wire, schema.fields[name].kind, depth + 1)
    ensures o.Throws? ==> DecodeFields(fp, data, size, pos, schema, depth, root, obj) == None
    ensures o.Nothing? && !root ==> DecodeFields(fp, data, size, pos, schema, depth, root, obj) == Some(obj)
    ensures o.Got? ==> o.pos <= size
    ensures o.Got? ==>
      DecodeFields(fp, data, size, pos, schema, depth, root, obj)
      == DecodeFields(fp, data, size, o.pos, schema, depth, root, Store(obj, name, schema.fields[name].repeated, o.value))
  {
    hide DecodeValue, Read, Store, Tag, Digits;
    TagRead(data, size, pos, schema.fields[name].number, wire);
    if wire == 0 { NumbersAlike(fp, data, size, pos + |Tag(schema.fields[name].number, wire)|, depth + 1); }
  }

  /** The field loop over a stretch of the input does what the image says. */
  ghost predicate Follows(fp: Foreign, data: Bytes, size: nat, start: nat, end: nat, schema: Schema, depth: nat, root: bool,
                          obj: map<Bytes, Value>, run: Run)
    requires start <= size <= |data| && end <= size
  {
    match run
    case Going(more) =>
      DecodeFields(fp, data, size, start, schema, depth, root, obj) == DecodeFields(fp, data, size, end, schema, depth, root, more)
    case Ended(last) => root || DecodeFields(fp, data, size, start, schema, depth, root, obj) == Some(last)
    case Failed => DecodeFields(fp, data, size, start, schema, depth, root, obj) == None
  }

  lemma {:induction false} TaggedFollows(fp: Foreign, schema: Schema, name: Bytes, d: Doc, data: Bytes, size: nat, pos: nat,
                                         depth: nat, root: bool, obj: map<Bytes, Value>)
    requires SchemaOk(schema) && name in schema.fields && FieldOk(schema, name) && size <= |data| < TWO_63
    requires At(data, pos, TaggedBytes(fp, schema.fields[name], d)) && pos + |TaggedBytes(fp, schema.fields[name], d)| <= size
    ensures var f := schema.fields[name];
      Follows(fp, data, size, pos, pos + |TaggedBytes(fp, f, d)|, schema, depth, root, obj,
              Stored(name, f, ValueImage(fp, f.kind, d, depth + 1), obj))
    decreases d, 2
  {
    hide DecodeFields, DecodeValue, ValueBytes, Tag, Store, ValueImage;
    var f := schema.fields[name];
    var tag := Tag(f.number, WireType(f.kind));
    AtSplit(data, pos, tag, ValueBytes(fp, f.kind, d));
    var p := pos + |tag|;
    ValueRead(fp, f.kind, d, data, size, p, depth + 1);
    StepField(fp, data, size, pos, schema, depth, root, obj, name, WireType(f.kind),
              DecodeValue(fp, data, size, p, WireType(f.kind), f.kind, depth + 1));
  }

  /** Elements one by one, each behind its own tag. */
  lemma {:induction false} AllFollow(fp: Foreign, schema: Schema, name: Bytes, ds: seq<Doc>, data: Bytes, size: nat,
                                     pos: nat, depth: nat, root: bool, obj: map<Bytes, Value>)
    requires SchemaOk(schema) && name in schema.fields && FieldOk(schema, name) && size <= |data| < TWO_63
    requires var chunk := AllTagged(fp, schema.fields[name], ds); At(data, pos, chunk) && pos + |chunk| <= size
    ensures var f := schema.fields[name];
      Follows(fp, data, size, pos, pos + |AllTagged(fp, f, ds)|, schema, depth, root, obj, ElementsImage(fp, name, f, ds, depth, obj))
    decreases ds, 3
  {
    hide DecodeFields, Store, TaggedBytes, ValueImage, SchemaOk, FieldOk;
    NeverBare(schema, name);
    if ds != [] {
      var f := schema.fields[name];
      var chunk := TaggedBytes(fp, f, ds[0]);
      AtSplit(data, pos, chunk, AllTagged(fp, f, ds[1..]));
      TaggedFollows(fp, schema, name, ds[0], data, size, pos, depth, root, obj);
      var r := ValueImage(fp, f.kind, ds[0], depth + 1);
      if r.Back? {
        AllFollow(fp, schema, name, ds[1..], data, size, pos + |chunk|, depth, root, Store(obj, name, f.repeated, r.value));
      }
    }
  }

  lemma NeverBare(schema: Schema, name: Bytes)
    requires name in schema.fields && FieldOk(schema, name)
    ensures !schema.fields[name].kind.Bare?
  {
  }

  /** Elements packed behind one length. */
  lemma PackedFollows(fp: Foreign, schema: Schema, name: Bytes, ds: seq<Doc>, data: Bytes, size: nat, pos: nat,
                      depth: nat, root: bool, obj: map<Bytes, Value>)
    requires name in schema.fields && FieldOk(schema, name) && Unpacks(schema.fields[name].kind) && size <= |data| < TWO_63
    requires var f := schema.fields[name]; var chunk := Tag(f.number, 2) + Counted(ScalarsBytes(fp, f.kind, ds));
      At(data, pos, chunk) && pos + |chunk| <= size
    ensures var f := schema.fields[name]; var body := ScalarsBytes(fp, f.kind, ds);
      Follows(fp, data, size, pos, pos + |Tag(f.number, 2) + Counted(body)|, schema, depth, root, obj,
              if |body| > MAX_ARRAY_SIZE then Failed else Going(Store(obj, name, f.repeated, Array(ScalarImages(fp, f.kind, ds)))))
  {
    hide DecodeFields, Read, Counted, Tag, Store, ScalarImages, ScalarsBytes, ReadPacked;
    var f := schema.fields[name];
    var tag, body := Tag(f.number, 2), ScalarsBytes(fp, f.kind, ds);
    AtSplit(data, pos, tag, Counted(body));
    CountedAt(data, size, pos + |tag|, body);
    var end := pos + |tag| + |Counted(body)|;
    PackedRead(fp, f.kind, ds, data, size, end, end - |body|, []);
    assert [] + ScalarImages(fp, f.kind, ds) == ScalarImages(fp, f.kind, ds);
    StepField(fp, data, size, pos, schema, depth, root, obj, name, 2,
              DecodeValue(fp, data, size, pos + |tag|, 2, f.kind, depth + 1));
  }

  /** One member of the written object. */
  lemma {:induction false} FieldFollows(fp: Foreign, schema: Schema, name: Bytes, d: Doc, data: Bytes, size: nat, pos: nat,
                                        depth: nat, root: bool, obj: map<Bytes, Value>)
    requires SchemaOk(schema) && name in schema.fields && FieldOk(schema, name) && size <= |data| < TWO_63
    requires var chunk := FieldBytes(fp, schema.fields[name], d); At(data, pos, chunk) && pos + |chunk| <= size
    ensures var f := schema.fields[name];
      Follows(fp, data, size, pos, pos + |FieldBytes(fp, f, d)|, schema, depth, root, obj, FieldImage(fp, name, f, d, depth, obj))
    decreases d, 3
  {
    hide DecodeFields, AllTagged, TaggedBytes, Counted, Tag, ScalarsBytes, ScalarImages, ValueImage, ElementsImage, Follows, Store, SchemaOk;
    var f := schema.fields[name];
    if !f.repeated || !d.List? {
      TaggedFollows(fp, schema, name, d, data, size, pos, depth, root, obj);
    } else if f.packed && Packable(f.kind) && d.items != [] {
      PackedFollows(fp, schema, name, d.items, data, size, pos, depth, root, obj);
    } else {
      AllFollow(fp, schema, name, d.items, data, size, pos, depth, root, obj);
    }
  }

  /** The field loop over a written message gives the image of what was written, whatever that is. */
  lemma {:induction false} FieldsRead(fp: Foreign, schema: Schema, es: seq<Entry>, data: Bytes, size: nat, pos: nat,
                                      depth: nat, root: bool, obj: map<Bytes, Value>)
    requires SchemaOk(schema) && (root ==> depth < MAX_NESTING_DEPTH)
    requires size <= |data| < TWO_63 && At(data, pos, EncodeMessage(fp, schema, es))
    requires size == pos + |EncodeMessage(fp, schema, es)|
    ensures DecodeFields(fp, data, size, pos, schema, depth, root, obj) == FieldsImage(fp, schema, es, depth, obj)
    decreases es, 3
  {
    hide FieldBytes, FieldImage, SchemaOk, DecodeFields;
    if es == [] {
      FieldsEnd(fp, data, size, schema, depth, root, obj);
    } else {
      var e := es[0];
      var chunk := if e.key in schema.fields then FieldBytes(fp, schema.fields[e.key], e.doc) else [];
      AtSplit(data, pos, chunk, EncodeMessage(fp, schema, es[1..]));
      if e.key !in schema.fields {
        FieldsRead(fp, schema, es[1..], data, size, pos + |chunk|, depth, root, obj);
      } else {
        FieldUsable(schema, e.key);
        FieldFollows(fp, schema, e.key, e.doc, data, size, pos, depth, root, obj);
        var run := FieldImage(fp, e.key, schema.fields[e.key], e.doc, depth, obj);
        if run.Going? { FieldsRead(fp, schema, es[1..], data, size, pos + |chunk|, depth, root, run.obj); }
      }
    }
  }

  lemma FieldUsable(schema: Schema, name: Bytes)
    requires SchemaOk(schema) && name in schema.fields
    ensures FieldOk(schema, name) && !schema.fields[name].kind.Bare?
  {
  }

  lemma FieldsEnd(fp: Foreign, data: Bytes, size: nat, schema: Schema, depth: nat, root: bool, obj: map<Bytes, Value>)
    requires size <= |data|
    ensures DecodeFields(fp, data, size, size, schema, depth, root, obj) == Some(obj)
  {
  }
}
