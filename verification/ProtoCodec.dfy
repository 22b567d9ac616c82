/** The schema-driven Protobuf codec as the library runs it. */
module ProtoCodec {
  import opened Bytes
  import opened Values
  import opened Varint
  import opened Text
  import opened Proto

  // ---------- Encoder ----------

  method WriteVarint(out: Buffer, val0: UInt64)
    modifies out
    ensures out.bytes == old(out.bytes) + Write(val0)
  {
    var val := val0;
    while val >= 0x80
      invariant out.bytes + Write(val) == old(out.bytes) + Write(val0)
    {
      assert out.bytes + Write(val) == (out.bytes + [val % 128 + 128]) + Write(val / 128);
      out.Push(val % 128 + 128);
      val := val / 128;
    }
    out.Push(val);
  }

  method WriteTag(out: Buffer, number: int, wire: nat)
    requires wire < 8
    modifies out
    ensures out.bytes == old(out.bytes) + Tag(number, wire)
  {
    WriteVarint(out, ToU64(number) * 8 % TWO_64 + wire);
  }

  method WriteCounted(out: Buffer, s: Bytes)
    modifies out
    ensures out.bytes == old(out.bytes) + Counted(s)
  {
    hide Write;
    WriteVarint(out, |s| % TWO_64);
    out.Append(s);
  }

  method WriteScalar(fp: Foreign, kind: Kind, d: Doc, out: Buffer)
    requires Packable(kind)
    modifies out
    ensures out.bytes == old(out.bytes) + ScalarBytes(fp, kind, d)
  {
    hide Write, LittleEndian, IntOf, UnsignedOf, DoubleOf, PlainOf;
    match kind
    case Signed64 => WriteVarint(out, ToU64(IntOf(fp, d)));
    case Unsigned64 => WriteVarint(out, UnsignedOf(fp, d));
    case ZigZag => WriteVarint(out, ZigZagEncode(IntOf(fp, d)));
    case Boolean => out.Push(if d.Atom? && d.scalar.Bool? && d.scalar.flag then 1 else 0);
    case Fixed64 => out.PushLittleEndian(ToU64(IntOf(fp, d)), 8);
    case Fixed32 => out.PushLittleEndian(IntOf(fp, d) % TWO_32, 4);
    case Double64 => out.PushLittleEndian(DoubleOf(fp, d), 8);
    case Single => out.PushLittleEndian(fp.narrow(DoubleOf(fp, d)), 4);
    case Untyped => WriteVarint(out, ToU64(PlainOf(d)));
    case Raw => WriteVarint(out, ToU64(PlainOf(d)));
    case Other => WriteVarint(out, ToU64(PlainOf(d)));
  }

  /** The value after a tag; a message is first written to a buffer of its own. */
  method WriteValue(fp: Foreign, kind: Kind, d: Doc, out: Buffer)
    modifies out
    ensures out.bytes == old(out.bytes) + ValueBytes(fp, kind, d)
    decreases d, 0
  {
    hide Counted, ScalarBytes, EncodeMessage;
    match kind
    case Str => WriteCounted(out, TextOf(d));
    case Blob => WriteCounted(out, BytesOf(d));
    case Message(schema) =>
      var sub := new Buffer();
      if d.Table? {
        WriteMessage(fp, schema, d.entries, sub);
        assert [] + EncodeMessage(fp, schema, d.entries) == EncodeMessage(fp, schema, d.entries);
      }
      WriteCounted(out, sub.bytes);
    case Bare =>
      var sub: Bytes := [];
      if d.Table? { sub := fp.bareBytes(d.entries); }
      WriteCounted(out, sub);
    case _ => WriteScalar(fp, kind, d, out);
  }

  method WriteTagged(fp: Foreign, f: Field, d: Doc, out: Buffer)
    modifies out
    ensures out.bytes == old(out.bytes) + TaggedBytes(fp, f, d)
    decreases d, 1
  {
    hide Tag, ValueBytes;
    WriteTag(out, f.number, WireType(f.kind));
    WriteValue(fp, f.kind, d, out);
  }

  method WriteScalars(fp: Foreign, kind: Kind, ds: seq<Doc>, out: Buffer)
    requires Packable(kind)
    modifies out
    ensures out.bytes == old(out.bytes) + ScalarsBytes(fp, kind, ds)
  {
    hide ScalarBytes;
    for i := 0 to |ds|
      invariant out.bytes + ScalarsBytes(fp, kind, ds[i..]) == old(out.bytes) + ScalarsBytes(fp, kind, ds)
    {
      ghost var before := out.bytes;
      WriteScalar(fp, kind, ds[i], out);
      assert ds[i..][1..] == ds[i + 1..];
      assert before + ScalarsBytes(fp, kind, ds[i..]) == out.bytes + ScalarsBytes(fp, kind, ds[i + 1..]);
    }
    assert out.bytes + [] == out.bytes;
  }

  method WriteAllTagged(fp: Foreign, f: Field, ds: seq<Doc>, out: Buffer)
    modifies out
    ensures out.bytes == old(out.bytes) + AllTagged(fp, f, ds)
    decreases ds, 0
  {
    hide TaggedBytes;
    for i := 0 to |ds|
      invariant out.bytes + AllTagged(fp, f, ds[i..]) == old(out.bytes) + AllTagged(fp, f, ds)
    {
      ghost var before := out.bytes;
      WriteTagged(fp, f, ds[i], out);
      assert ds[i..][1..] == ds[i + 1..];
      assert before + AllTagged(fp, f, ds[i..]) == out.bytes + AllTagged(fp, f, ds[i + 1..]);
    }
    assert out.bytes + [] == out.bytes;
  }

  method WriteField(fp: Foreign, f: Field, d: Doc, out: Buffer)
    modifies out
    ensures out.bytes == old(out.bytes) + FieldBytes(fp, f, d)
    decreases d, 2
  {
    hide Tag, Counted, ScalarsBytes, AllTagged, TaggedBytes;
    if f.repeated && d.List? {
      if f.packed && Packable(f.kind) && d.items != [] {
        var packed := new Buffer();
        WriteScalars(fp, f.kind, d.items, packed);
        assert [] + ScalarsBytes(fp, f.kind, d.items) == ScalarsBytes(fp, f.kind, d.items);
        if packed.bytes != [] {
          ghost var before := out.bytes;
          WriteTag(out, f.number, 2);
          WriteCounted(out, packed.bytes);
          assert out.bytes == before + (Tag(f.number, 2) + Counted(packed.bytes));
        }
      } else {
        WriteAllTagged(fp, f, d.items, out);
      }
    } else {
      WriteTagged(fp, f, d, out);
    }
  }

  method WriteMessage(fp: Foreign, schema: Schema, es: seq<Entry>, out: Buffer)
    modifies out
    ensures out.bytes == old(out.bytes) + EncodeMessage(fp, schema, es)
    decreases es, 0
  {
    hide FieldBytes;
    for i := 0 to |es|
      invariant out.bytes + EncodeMessage(fp, schema, es[i..]) == old(out.bytes) + EncodeMessage(fp, schema, es)
    {
      ghost var before := out.bytes;
      if es[i].key in schema.fields { WriteField(fp, schema.fields[es[i].key], es[i].doc, out); }
      assert es[i..][1..] == es[i + 1..];
      assert before + EncodeMessage(fp, schema, es[i..]) == out.bytes + EncodeMessage(fp, schema, es[i + 1..]);
    }
    assert out.bytes + [] == out.bytes;
  }

  // ---------- Decoder ----------

  class Reader {
    const fp: Foreign
    const data: Bytes
    var pos: nat

    constructor (fp: Foreign, data: Bytes)
      ensures this.fp == fp && this.data == data && pos == 0
    {
      this.fp := fp;
      this.data := data;
      pos := 0;
    }

    /** protoReadVarint: seven bits a turn, at most ten turns. */
    method ReadVarint(size: nat) returns (r: Result<UInt64>)
      requires size <= |data|
      modifies this
      ensures Agrees(Read(data, size, old(pos)), r, pos)
    {
      hide Pow128;
      var val: UInt64, k, place := 0, 0, 1;
      assert Pow128(0) == 1 by { FirstPlace(); }
      while pos < size
        invariant 0 <= k <= 9 && place == Pow128(k)
        invariant ReadFrom(data, size, pos, k, val) == Read(data, size, old(pos))
        decreases 10 - k
      {
        var b: int := data[pos];
        pos := pos + 1;
        val := (val + b % 128 * place) % TWO_64;
        if b < 128 { return Success(val); }
        if k == 9 { return Failure(BadVarint); }
        NextPlace(k);
        k, place := k + 1, 128 * place;
      }
      r := Failure(BadVarint);
    }

    method ReadWord(w: nat) returns (n: nat)
      requires pos + w <= |data|
      modifies this
      ensures n == ReadLittle(data, old(pos), w) && pos == old(pos) + w
    {
      var i := w;
      n := 0;
      ghost var chunk := data[pos..pos + w];
      while i > 0
        invariant 0 <= i <= w && pos == old(pos) && n == FromLittleEndian(chunk[i..])
      {
        i := i - 1;
        assert chunk[i..][1..] == chunk[i + 1..];
        n := data[pos + i] + 256 * n;
      }
      assert chunk[0..] == chunk;
      pos := pos + w;
    }

    /** One packed element of a word type. */
    method ReadElements(size: nat, end: nat, kind: Kind) returns (r: Outcome)
      requires pos <= end <= size <= |data| && Packable(kind)
      modifies this
      ensures r == ReadPacked(fp, data, size, end, old(pos), kind, [])
    {
      hide Read, ReadLittle, FromVarint, FromWord32, FromWord64;
      var arr: seq<Value> := [];
      Pow256Values();
      if WireType(kind) == 5 {
        while pos + 4 <= end
          invariant old(pos) <= pos <= size
          invariant ReadPacked(fp, data, size, end, pos, kind, arr) == ReadPacked(fp, data, size, end, old(pos), kind, [])
          decreases size - pos
        {
          var raw := ReadWord(4);
          arr := arr + [FromWord32(fp, kind, raw, true)];
        }
      } else if WireType(kind) == 1 {
        while pos + 8 <= end
          invariant old(pos) <= pos <= size
          invariant ReadPacked(fp, data, size, end, pos, kind, arr) == ReadPacked(fp, data, size, end, old(pos), kind, [])
          decreases size - pos
        {
          var raw := ReadWord(8);
          arr := arr + [FromWord64(kind, raw)];
        }
      } else {
        while pos < end
          invariant old(pos) <= pos <= size
          invariant ReadPacked(fp, data, size, end, pos, kind, arr) == ReadPacked(fp, data, size, end, old(pos), kind, [])
          decreases size - pos
        {
          var raw := ReadVarint(size);
          if raw.Failure? { return Throws; }
          arr := arr + [FromVarint(fp, kind, raw.value)];
        }
      }
      r := Got(Array(arr), pos);
    }

    method ReadValue(size: nat, wire: nat, kind: Kind, depth: nat) returns (r: Outcome)
      requires pos <= size <= |data|
      modifies this
      ensures r == DecodeValue(fp, data, size, old(pos), wire, kind, depth)
      decreases size - pos, 0
    {
      hide Read, ReadLittle, FromVarint, FromWord32, FromWord64, DecodeFields, ReadPacked;
      Pow256Values();
      if wire == 0 {
        var raw := ReadVarint(size);
        return if raw.Failure? then Throws else Got(FromVarint(fp, kind, raw.value), pos);
      }
      if wire == 1 {
        if pos + 8 > size { return Nothing; }
        var raw := ReadWord(8);
        return Got(FromWord64(kind, raw), pos);
      }
      if wire == 2 {
        var len := ReadVarint(size);
        if len.Failure? { return Throws; }
        if len.value > size - pos { return Nothing; }
        r := ReadCounted(size, len.value, kind, depth);
        return;
      }
      if wire == 5 {
        if pos + 4 > size { return Nothing; }
        var raw := ReadWord(4);
        return Got(FromWord32(fp, kind, raw, false), pos);
      }
      r := Nothing;
    }

    /** What follows a length, by the type announced for it. */
    method ReadCounted(size: nat, len: nat, kind: Kind, depth: nat) returns (r: Outcome)
      requires pos + len <= size <= |data|
      modifies this
      ensures r == Behind(fp, data, size, old(pos), old(pos) + len, kind, depth)
      decreases size - pos, 2
    {
      hide DecodeFields, ReadPacked;
      var start, end := pos, pos + len;
      if kind.Message? || kind.Bare? || kind.Untyped? {
        if depth > MAX_NESTING_DEPTH { return Nothing; }
        var obj := ReadFields(end, if kind.Message? then kind.schema else NO_FIELDS, depth, false);
        if obj.None? { return Throws; }
        pos := end;
        if !kind.Untyped? { return Got(Object(obj.value), end); }
        var named := fp.rename(obj.value);
        if named != map[] { return Got(Object(named), end); }
      }
      if kind.Str? {
        pos := end;
        return if len > MAX_STRING_LEN then Throws else Got(Leaf(Text(data[start..end], false)), end);
      }
      if kind.Blob? || kind.Raw? || kind.Untyped? {
        pos := end;
        return if len > MAX_STRING_LEN then Throws else Got(Leaf(Binary(data[start..end])), end);
      }
      if len > MAX_ARRAY_SIZE { return Throws; }
      r := ReadElements(size, end, kind);
    }

    /** The field loop of a message or of the root. */
    method ReadFields(size: nat, schema: Schema, depth: nat, root: bool) returns (r: Option<map<Bytes, Value>>)
      requires pos <= size <= |data|
      modifies this
      ensures r == DecodeFields(fp, data, size, old(pos), schema, depth, root, map[])
      decreases size - pos, 1
    {
      hide Read, DecodeValue, Store;
      var obj: map<Bytes, Value> := map[];
      while pos < size
        invariant old(pos) <= pos <= size
        invariant DecodeFields(fp, data, size, pos, schema, depth, root, obj)
               == DecodeFields(fp, data, size, old(pos), schema, depth, root, map[])
        decreases size - pos
      {
        var tag := ReadVarint(size);
        if tag.Failure? { return None; }
        var wire, number := tag.value % 8, ToInt32(tag.value / 8);
        if wire > 5 || number <= 0 || wire == 3 || wire == 4 { return Some(obj); }
        var name, field := Digits(number), Field(number, Untyped, false, true);
        if number in schema.names {
          name := schema.names[number];
          if name in schema.fields { field := schema.fields[name]; }
        }
        if field.kind.Untyped? && number == NAME_MAP && !root { field := field.(kind := Str); }
        var beforePos := pos;
        var val := ReadValue(size, wire, field.kind, depth + 1);
        match val {
          case Throws => return None;
          case Nothing =>
            if !root || beforePos >= size { return Some(obj); }
            pos := beforePos + 1;
          case Got(v, q) =>
            pos := q;
            obj := Store(obj, name, field.repeated, v);
        }
      }
      r := Some(obj);
    }
  }

  lemma FirstPlace()
    ensures Pow128(0) == 1
  {
  }

  lemma NextPlace(k: nat)
    ensures Pow128(k + 1) == 128 * Pow128(k)
  {
  }

  /** protoEncodeRoot on an object. */
  method EncodeRoot(fp: Foreign, schema: Schema, es: seq<Entry>) returns (bytes: Bytes)
    ensures bytes == EncodeMessage(fp, schema, es)
  {
    hide EncodeMessage;
    var out := new Buffer();
    WriteMessage(fp, schema, es, out);
    bytes := out.bytes;
    assert [] + EncodeMessage(fp, schema, es) == EncodeMessage(fp, schema, es);
  }

  /** protoDecodeRoot. */
  method DecodeBytes(fp: Foreign, data: Bytes, schema: Schema) returns (r: Option<map<Bytes, Value>>)
    ensures r == DecodeRoot(fp, data, schema)
  {
    hide DecodeFields;
    var reader := new Reader(fp, data);
    r := reader.ReadFields(|data|, schema, 0, true);
  }
}
