/** The CBOR encoder and decoder as the library runs them: bytes pushed onto a vector, a position
    advanced by reference, loops over elements. */
module CborCodec {
  import opened Bytes
  import opened Values
  import opened Cbor

  // ---------- Encoder ----------

  method WriteUint(out: Buffer, major: nat, val: UInt64)
    requires major < 8
    modifies out
    ensures out.bytes == old(out.bytes) + Head(major, val)
  {
    if val <= 23 {
      out.Push(major * 32 + val);
    } else if val <= 0xFF {
      out.Push(major * 32 + 24);
      out.PushBigEndian(val, 1);
    } else if val <= 0xFFFF {
      out.Push(major * 32 + 25);
      out.PushBigEndian(val, 2);
    } else if val <= 0xFFFF_FFFF {
      out.Push(major * 32 + 26);
      out.PushBigEndian(val, 4);
    } else {
      out.Push(major * 32 + 27);
      out.PushBigEndian(val, 8);
    }
  }

  method WriteInt(out: Buffer, n: Int64)
    modifies out
    ensures out.bytes == old(out.bytes) + IntBytes(n)
  {
    if n >= 0 { WriteUint(out, 0, n); } else { WriteUint(out, 1, -1 - n); }
  }

  method WriteString(out: Buffer, major: nat, s: Bytes)
    requires major < 8
    modifies out
    ensures out.bytes == old(out.bytes) + StringBytes(major, s)
  {
    WriteUint(out, major, |s| % TWO_64);
    out.Append(s);
  }

  /** Tag 257 around the array of the type and the payload. */
  method WriteExtension(out: Buffer, t: Int8, payload: Bytes)
    modifies out
    ensures out.bytes
         == old(out.bytes) + ([0xD9, 0x01, 0x01, 0x82] + Head(0, t % 256) + StringBytes(2, payload))
  {
    hide Head, StringBytes;
    out.Push(0xD9); out.Push(0x01); out.Push(0x01);
    out.Push(0x82);
    assert out.bytes == old(out.bytes) + [0xD9, 0x01, 0x01, 0x82];
    WriteUint(out, 0, t % 256);
    WriteString(out, 2, payload);
  }

  method WriteScalar(fp: Floats, s: Scalar, out: Buffer)
    modifies out
    ensures out.bytes == old(out.bytes) + EncodeScalar(fp, s)
  {
    hide Head, StringBytes, IntBytes, BigEndian;
    match s
    case Null => out.Push(0xF7);
    case Bool(flag) => out.Push(if flag then 0xF5 else 0xF4);
    case Int(n) => WriteInt(out, n);
    case Double(bits) => out.Push(0xFB); out.PushBigEndian(bits, 8);
    case Float32(bits) => out.Push(0xFA); out.PushBigEndian(bits, 4);
    case Text(text, _) => WriteString(out, 3, text);
    case Binary(data) => WriteString(out, 2, data);
    case ObjectId(oid) => if |oid| == 12 { WriteString(out, 2, oid); } else { out.Push(0xF7); }
    case Extension(t, payload) =>
      if payload != [] { WriteExtension(out, t, payload); } else { out.Push(0xF7); }
    case _ => WriteTagged(fp, s, out);
  }

  method WriteTagged(fp: Floats, s: Scalar, out: Buffer)
    requires s.DateTime? || s.Timestamp? || s.Regex?
    modifies out
    ensures out.bytes == old(out.bytes) + EncodeScalar(fp, s)
  {
    hide StringBytes, IntBytes, BigEndian;
    match s
    case DateTime(ts, ms) =>
      out.Push(0xC1); out.Push(0xFB);
      assert out.bytes == old(out.bytes) + [0xC1, 0xFB];
      out.PushBigEndian(fp.epochBits(ts, ms), 8);
    case Timestamp(n) => out.Push(0xC1); WriteInt(out, n);
    case Regex(source) =>
      out.Push(0xD8); out.Push(0x23);
      assert out.bytes == old(out.bytes) + [0xD8, 0x23];
      WriteString(out, 3, source);
  }

  /** Appends exactly the encoding of the document. */
  method ToCbor(fp: Floats, d: Doc, out: Buffer)
    modifies out
    ensures out.bytes == old(out.bytes) + Encode(fp, d)
    decreases d, 1
  {
    hide Head, EncodeScalar, EncodeItems, EncodeEntries;
    match d
    case Atom(s) => WriteScalar(fp, s, out);
    case List(items) =>
      WriteUint(out, 4, |items| % TWO_64);
      WriteItems(fp, items, out);
    case Table(entries) =>
      WriteUint(out, 5, |entries| % TWO_64);
      WriteEntries(fp, entries, out);
  }

  method WriteItems(fp: Floats, items: seq<Doc>, out: Buffer)
    modifies out
    ensures out.bytes == old(out.bytes) + EncodeItems(fp, items)
    decreases items, 0
  {
    hide Encode;
    for i := 0 to |items|
      invariant out.bytes + EncodeItems(fp, items[i..]) == old(out.bytes) + EncodeItems(fp, items)
    {
      ghost var before := out.bytes;
      ToCbor(fp, items[i], out);
      assert items[i..][1..] == items[i + 1..];
      assert before + EncodeItems(fp, items[i..]) == out.bytes + EncodeItems(fp, items[i + 1..]);
    }
    assert out.bytes + [] == out.bytes;
  }

  method WriteEntries(fp: Floats, entries: seq<Entry>, out: Buffer)
    modifies out
    ensures out.bytes == old(out.bytes) + EncodeEntries(fp, entries)
    decreases entries, 0
  {
    hide Encode, StringBytes;
    for i := 0 to |entries|
      invariant out.bytes + EncodeEntries(fp, entries[i..]) == old(out.bytes) + EncodeEntries(fp, entries)
    {
      ghost var before := out.bytes;
      WriteString(out, 3, entries[i].key);
      ToCbor(fp, entries[i].doc, out);
      assert entries[i..][1..] == entries[i + 1..];
      assert before + EncodeEntries(fp, entries[i..]) == out.bytes + EncodeEntries(fp, entries[i + 1..]);
    }
    assert out.bytes + [] == out.bytes;
  }

  // ---------- Decoder ----------

  class Reader {
    const data: Input
    const fp: Floats
    var pos: nat

    constructor (fp: Floats, data: Input)
      ensures this.data == data && this.fp == fp && pos == 0
    {
      this.data := data;
      this.fp := fp;
      pos := 0;
    }

    method ReadArg(info: nat) returns (r: Result<UInt64>)
      requires info < 32
      modifies this
      ensures Agrees(Cbor.ReadArg(data, old(pos), info), r, pos)
    {
      if info <= 23 { return Success(info); }
      if info == 24 { r, pos := AccumulateWide(data, pos, 1); }
      else if info == 25 { r, pos := AccumulateWide(data, pos, 2); }
      else if info == 26 { r, pos := AccumulateWide(data, pos, 4); }
      else if info == 27 { r, pos := AccumulateWide(data, pos, 8); }
      else { r := Failure(BadHead); }
    }

    method ReadString(len: UInt64) returns (r: Result<Bytes>)
      requires pos <= |data|
      modifies this
      ensures Agrees(Cbor.ReadString(data, old(pos), len), r, pos)
    {
      if (pos + len) % TWO_64 > |data| { return Failure(UnexpectedEnd); }
      if len > MAX_STRING_LEN { return Failure(TooLarge); }
      r := Success(data[pos..pos + len]);
      pos := pos + len;
    }

    /** One item at the cursor. */
    method ParseValue(depth: nat) returns (r: Result<Value>)
      modifies this
      ensures Agrees(Cbor.Parse(fp, data, old(pos), depth), r, pos)
      decreases Remaining(data, pos), 0
    {
      if depth > MAX_NESTING_DEPTH { return Failure(TooDeep); }
      if pos >= |data| { return Failure(UnexpectedEnd); }
      var major, info := data[pos] / 32, data[pos] % 32;
      pos := pos + 1;
      if info == 31 {
        r := Indefinite(major, depth);
        return;
      }
      if major == 7 {
        r := Simple(info);
        return;
      }
      var a := ReadArg(info);
      if a.Failure? { return Failure(a.error); }
      if major <= 3 { r := Flat(major, a.value); } else { r := Nested(major, a.value, depth); }
    }

    /** Integers and strings, after their argument. */
    method Flat(major: nat, arg: UInt64) returns (r: Result<Value>)
      requires major <= 3 && pos <= |data|
      modifies this
      ensures major == 0 ==> r == Success(Leaf(Int(ToI64(arg)))) && pos == old(pos)
      ensures major == 1 ==> r == Success(Leaf(Int(-1 - ToI64(arg)))) && pos == old(pos)
      ensures major >= 2 ==>
        match Cbor.ReadString(data, old(pos), arg)
        case Err(e) => r == Failure(e)
        case Ok(s, p) => r == Success(Leaf(if major == 2 then Binary(s) else Text(s, false))) && pos == p
    {
      if major == 0 { return Success(Leaf(Int(ToI64(arg)))); }
      if major == 1 { return Success(Leaf(Int(-1 - ToI64(arg)))); }
      var s := ReadString(arg);
      if s.Failure? { return Failure(s.error); }
      r := Success(Leaf(if major == 2 then Binary(s.value) else Text(s.value, false)));
    }

    /** Arrays, maps and tags, after their argument. */
    method Nested(major: nat, arg: UInt64, depth: nat) returns (r: Result<Value>)
      requires 4 <= major <= 6
      modifies this
      ensures major == 4 ==> Agrees(
        if arg > MAX_ARRAY_SIZE then Err(TooLarge)
        else match Cbor.ParseItems(fp, data, old(pos), arg, depth + 1, [])
             case Err(e) => Err(e)
             case Ok(items, p) => Ok(Array(items), p), r, pos)
      ensures major == 5 ==> Agrees(
        if arg > MAX_OBJECT_SIZE then Err(TooLarge)
        else match Cbor.ParseEntries(fp, data, old(pos), arg, depth + 1, map[])
             case Err(e) => Err(e)
             case Ok(fields, p) => Ok(Object(fields), p), r, pos)
      ensures major == 6 ==> Agrees(
        match Cbor.Parse(fp, data, old(pos), depth + 1)
        case Err(e) => Err(e)
        case Ok(v, p) => Ok(Tagged(fp, arg, v), p), r, pos)
      decreases Remaining(data, pos), 3
    {
      if major == 4 {
        if arg > MAX_ARRAY_SIZE { return Failure(TooLarge); }
        var items := Items(arg, depth + 1);
        r := if items.Failure? then Failure(items.error) else Success(Array(items.value));
      } else if major == 5 {
        if arg > MAX_OBJECT_SIZE { return Failure(TooLarge); }
        var fields := Entries(arg, depth + 1);
        r := if fields.Failure? then Failure(fields.error) else Success(Object(fields.value));
      } else {
        var v := ParseValue(depth + 1);
        r := if v.Failure? then v else Success(Tagged(fp, arg, v.value));
      }
    }

    method Items(n: nat, depth: nat) returns (r: Result<seq<Value>>)
      modifies this
      ensures Agrees(Cbor.ParseItems(fp, data, old(pos), n, depth, []), r, pos)
      decreases Remaining(data, pos), 1
    {
      var acc: seq<Value> := [];
      for i := 0 to n
        invariant old(pos) <= pos && (old(pos) <= |data| ==> pos <= |data|)
        invariant Cbor.ParseItems(fp, data, pos, n - i, depth, acc) == Cbor.ParseItems(fp, data, old(pos), n, depth, [])
      {
        hide Cbor.Parse;
        var v := ParseValue(depth);
        if v.Failure? { return Failure(v.error); }
        acc := acc + [v.value];
      }
      r := Success(acc);
    }

    method Pair(depth: nat) returns (r: Result<(Bytes, Value)>)
      modifies this
      ensures Agrees(Cbor.ParsePair(fp, data, old(pos), depth), r, pos)
      decreases Remaining(data, pos), 1
    {
      hide Cbor.Parse;
      var k := ParseValue(depth);
      if k.Failure? { return Failure(k.error); }
      if !(k.value.Leaf? && k.value.scalar.Text?) { return Failure(BadKey); }
      var v := ParseValue(depth);
      if v.Failure? { return Failure(v.error); }
      r := Success((k.value.scalar.text, v.value));
    }

    method Entries(n: nat, depth: nat) returns (r: Result<map<Bytes, Value>>)
      modifies this
      ensures Agrees(Cbor.ParseEntries(fp, data, old(pos), n, depth, map[]), r, pos)
      decreases Remaining(data, pos), 2
    {
      var acc: map<Bytes, Value> := map[];
      for i := 0 to n
        invariant old(pos) <= pos && (old(pos) <= |data| ==> pos <= |data|)
        invariant Cbor.ParseEntries(fp, data, pos, n - i, depth, acc)
               == Cbor.ParseEntries(fp, data, old(pos), n, depth, map[])
      {
        hide Cbor.ParsePair;
        var kv := Pair(depth);
        if kv.Failure? { return Failure(kv.error); }
        acc := Emplace(acc, kv.value.0, kv.value.1);
      }
      r := Success(acc);
    }

    // ---------- Indefinite lengths ----------

    method Indefinite(major: nat, depth: nat) returns (r: Result<Value>)
      requires pos <= |data|
      modifies this
      ensures Agrees(ParseIndefinite(fp, data, old(pos), major, depth), r, pos)
      decreases Remaining(data, pos), 3
    {
      if major == 4 {
        var items := ItemsUntilBreak(depth + 1);
        r := if items.Failure? then Failure(items.error) else Success(Array(items.value));
      } else if major == 5 {
        var fields := EntriesUntilBreak(depth + 1);
        r := if fields.Failure? then Failure(fields.error) else Success(Object(fields.value));
      } else if major == 2 || major == 3 {
        var s := Chunks(depth + 1);
        r := if s.Failure? then Failure(s.error)
             else Success(Leaf(if major == 2 then Binary(s.value) else Text(s.value, false)));
      } else {
        r := Failure(BadHead);
      }
    }

    method ItemsUntilBreak(depth: nat) returns (r: Result<seq<Value>>)
      requires pos <= |data|
      modifies this
      ensures Agrees(ParseUntilBreak(fp, data, old(pos), depth, []), r, pos)
      decreases Remaining(data, pos), 1
    {
      hide Cbor.Parse;
      var acc: seq<Value> := [];
      while pos < |data|
        invariant old(pos) <= pos <= |data|
        invariant ParseUntilBreak(fp, data, pos, depth, acc) == ParseUntilBreak(fp, data, old(pos), depth, [])
        decreases |data| - pos
      {
        if data[pos] == BREAK {
          pos := pos + 1;
          return Success(acc);
        }
        if |acc| >= MAX_ARRAY_SIZE { return Failure(TooLarge); }
        var v := ParseValue(depth);
        if v.Failure? { return Failure(v.error); }
        acc := acc + [v.value];
      }
      r := Success(acc);
    }

    method EntriesUntilBreak(depth: nat) returns (r: Result<map<Bytes, Value>>)
      requires pos <= |data|
      modifies this
      ensures Agrees(ParseEntriesUntilBreak(fp, data, old(pos), depth, 0, map[]), r, pos)
      decreases Remaining(data, pos), 2
    {
      hide Cbor.ParsePair;
      var acc: map<Bytes, Value>, count := map[], 0;
      while pos < |data|
        invariant old(pos) <= pos <= |data| && count >= 0
        invariant ParseEntriesUntilBreak(fp, data, pos, depth, count, acc)
               == ParseEntriesUntilBreak(fp, data, old(pos), depth, 0, map[])
        decreases |data| - pos
      {
        if data[pos] == BREAK {
          pos := pos + 1;
          return Success(acc);
        }
        if count >= MAX_OBJECT_SIZE { return Failure(TooLarge); }
        var kv := Pair(depth);
        if kv.Failure? { return Failure(kv.error); }
        acc, count := Emplace(acc, kv.value.0, kv.value.1), count + 1;
      }
      r := Success(acc);
    }

    method Chunks(depth: nat) returns (r: Result<Bytes>)
      requires pos <= |data|
      modifies this
      ensures Agrees(ParseChunks(fp, data, old(pos), depth, []), r, pos)
      decreases Remaining(data, pos), 1
    {
      hide Cbor.Parse;
      var acc: Bytes := [];
      while pos < |data|
        invariant old(pos) <= pos <= |data|
        invariant ParseChunks(fp, data, pos, depth, acc) == ParseChunks(fp, data, old(pos), depth, [])
        decreases |data| - pos
      {
        if data[pos] == BREAK {
          pos := pos + 1;
          return Success(acc);
        }
        var v := ParseValue(depth);
        if v.Failure? { return Failure(v.error); }
        var s := ChunkOf(v.value);
        if s.None? { return Failure(BadChunk); }
        if |acc| + |s.value| > MAX_STRING_LEN { return Failure(TooLarge); }
        acc := acc + s.value;
      }
      r := Success(acc);
    }

    // ---------- Simple values ----------

    method Simple(info: nat) returns (r: Result<Value>)
      requires pos <= |data| && info < 31
      modifies this
      ensures Agrees(ParseSimple(fp, data, old(pos), info), r, pos)
    {
      if info == 20 { return Success(Leaf(Bool(false))); }
      if info == 21 { return Success(Leaf(Bool(true))); }
      if info == 22 || info == 23 { return Success(Leaf(Null)); }
      if info == 24 {
        if pos >= |data| { return Failure(UnexpectedEnd); }
        var sv := data[pos];
        pos := pos + 1;
        return Success(Leaf(if sv == 20 then Bool(false) else if sv == 21 then Bool(true) else Null));
      }
      if info < 25 || info > 27 { return Failure(BadHead); }
      ghost var w := if info == 25 then 2 else if info == 26 then 4 else 8;
      assert pos + w <= |data| ==> FromBigEndian(data[pos..pos + w]) < Pow256(w) by {
        if pos + w <= |data| { FromBigEndianBound(data[pos..pos + w]); }
      }
      Pow256Values();
      var bits: Result<UInt64>;
      bits, pos := AccumulateWide(data, pos, if info == 25 then 2 else if info == 26 then 4 else 8);
      if bits.Failure? { return Failure(bits.error); }
      r := Success(Leaf(
        if info == 25 then Double(fp.halfBits(bits.value))
        else if info == 26 then Float32(bits.value)
        else Double(bits.value)));
    }
  }

  /** fromCBOR: the whole input must be one item. */
  method FromCbor(fp: Floats, data: Input) returns (r: Result<Value>)
    ensures match Parse(fp, data, 0, 0)
      case Err(e) => r == Failure(e)
      case Ok(v, p) => r == if p == |data| then Success(v) else Failure(TrailingBytes)
  {
    var reader := new Reader(fp, data);
    r := reader.ParseValue(0);
    if r.Success? && reader.pos != |data| { r := Failure(TrailingBytes); }
  }
}
