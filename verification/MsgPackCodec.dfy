/** The MessagePack encoder and decoder as the library runs them. */
module MsgPackCodec {
  import opened Bytes
  import opened Values
  import opened MsgPack

  // ---------- Encoder ----------

  method WriteInt(out: Buffer, n: Int64)
    modifies out
    ensures out.bytes == old(out.bytes) + IntBytes(n)
  {
    if n >= 0 { WriteUnsigned(out, n); } else { WriteNegative(out, n); }
  }

  method WriteUnsigned(out: Buffer, n: Int64)
    requires n >= 0
    modifies out
    ensures out.bytes == old(out.bytes) + IntBytes(n)
  {
    hide BigEndian;
    if n <= 0x7F { out.Push(n); }
    else if n <= 0xFF { out.Push(0xCC); out.PushBigEndian(n, 1); }
    else if n <= 0xFFFF { out.Push(0xCD); out.PushBigEndian(n, 2); }
    else if n <= 0xFFFF_FFFF { out.Push(0xCE); out.PushBigEndian(n, 4); }
    else { out.Push(0xCF); out.PushBigEndian(n, 8); }
  }

  method WriteNegative(out: Buffer, n: Int64)
    requires n < 0
    modifies out
    ensures out.bytes == old(out.bytes) + IntBytes(n)
  {
    hide BigEndian;
    if n >= -32 { out.Push(n % 256); }
    else if n >= -0x80 { out.Push(0xD0); out.PushBigEndian(n % 0x100, 1); }
    else if n >= -0x8000 { out.Push(0xD1); out.PushBigEndian(n % 0x1_0000, 2); }
    else if n >= -0x8000_0000 { out.Push(0xD2); out.PushBigEndian(n % TWO_32, 4); }
    else { out.Push(0xD3); out.PushBigEndian(ToU64(n), 8); }
  }

  method WriteStrHead(out: Buffer, len: nat)
    modifies out
    ensures out.bytes == old(out.bytes) + StrHead(len)
  {
    hide BigEndian;
    if len <= 31 { out.Push(0xA0 + len); }
    else if len <= 0xFF { out.Push(0xD9); out.PushBigEndian(len, 1); }
    else if len <= 0xFFFF { out.Push(0xDA); out.PushBigEndian(len, 2); }
    else { out.Push(0xDB); out.PushBigEndian(len % TWO_32, 4); }
  }

  method WriteBinHead(out: Buffer, len: nat)
    modifies out
    ensures out.bytes == old(out.bytes) + BinHead(len)
  {
    hide BigEndian;
    if len <= 0xFF { out.Push(0xC4); out.PushBigEndian(len, 1); }
    else if len <= 0xFFFF { out.Push(0xC5); out.PushBigEndian(len, 2); }
    else { out.Push(0xC6); out.PushBigEndian(len % TWO_32, 4); }
  }

  method WriteCount(out: Buffer, fix: Byte, wide: Byte, n: nat)
    requires fix <= 0x90 && wide <= 0xDE
    modifies out
    ensures out.bytes == old(out.bytes) + CountHead(fix, wide, n)
  {
    hide BigEndian;
    if n <= 15 { out.Push(fix + n); }
    else if n <= 0xFFFF { out.Push(wide); out.PushBigEndian(n, 2); }
    else { out.Push(wide + 1); out.PushBigEndian(n % TWO_32, 4); }
  }

  method WriteExt(out: Buffer, t: Int8, data: Bytes)
    modifies out
    ensures out.bytes == old(out.bytes) + ExtBytes(t, data)
  {
    hide BigEndian;
    ghost var before := out.bytes;
    var len := |data|;
    if len == 1 { out.Push(0xD4); }
    else if len == 2 { out.Push(0xD5); }
    else if len == 4 { out.Push(0xD6); }
    else if len == 8 { out.Push(0xD7); }
    else if len == 16 { out.Push(0xD8); }
    else if len <= 0xFF { out.Push(0xC7); out.PushBigEndian(len, 1); }
    else if len <= 0xFFFF { out.Push(0xC8); out.PushBigEndian(len, 2); }
    else { out.Push(0xC9); out.PushBigEndian(len % TWO_32, 4); }
    assert out.bytes == before + ExtHead(len);
    out.Push(t % 256);
    out.Append(data);
  }

  method WriteDateTime(out: Buffer, ts: Int64, ms: int)
    modifies out
    ensures out.bytes == old(out.bytes) + DateTimeBytes(ts, ms)
  {
    hide BigEndian;
    ghost var before := out.bytes;
    var ns := (ms % TWO_32) * 1_000_000 % TWO_32;
    if ns > 999_999_999 { ns := 999_999_999; }
    assert ns == Nanos(ms);
    if 0 <= ts < TWO_32 && ns == 0 {
      out.Push(0xD6);
      out.Push(0xFF);
      out.PushBigEndian(ts, 4);
      assert out.bytes == before + ([0xD6, 0xFF] + BigEndian(ts, 4));
    } else if 0 <= ts < TWO_34 {
      out.Push(0xD7);
      out.Push(0xFF);
      out.PushBigEndian(ns * TWO_34 + ts, 8);
      assert out.bytes == before + ([0xD7, 0xFF] + BigEndian(ns * TWO_34 + ts, 8));
    } else {
      out.Push(0xC7);
      out.Push(12);
      out.Push(0xFF);
      out.PushBigEndian(ns, 4);
      out.PushBigEndian(ToU64(ts), 8);
      assert out.bytes == before + ([0xC7, 12, 0xFF] + (BigEndian(ns, 4) + BigEndian(ToU64(ts), 8)));
    }
  }

  method WriteScalar(s: Scalar, out: Buffer)
    modifies out
    ensures out.bytes == old(out.bytes) + EncodeScalar(s)
  {
    hide BigEndian, IntBytes, StrHead, BinHead, ExtBytes, DateTimeBytes;
    ghost var before := out.bytes;
    match s
    case Null => out.Push(0xC0);
    case Bool(flag) => out.Push(if flag then 0xC3 else 0xC2);
    case Int(n) => WriteInt(out, n);
    case Double(bits) => out.Push(0xCB); out.PushBigEndian(bits, 8);
    case Float32(bits) => out.Push(0xCA); out.PushBigEndian(bits, 4);
    case Text(text, _) => WriteStrHead(out, |text|); out.Append(text);
    case Binary(data) => WriteBinHead(out, |data|); out.Append(data);
    case DateTime(ts, ms) => WriteDateTime(out, ts, ms);
    case Extension(t, payload) => WriteExt(out, t, payload);
    case ObjectId(oid) => if |oid| == 12 { WriteExt(out, 1, oid); } else { out.Push(0xC0); }
    case Timestamp(n) =>
      out.Push(0xD7);
      out.Push(3);
      out.PushBigEndian(ToU64(n), 8);
      assert out.bytes == before + ([0xD7, 3] + BigEndian(ToU64(n), 8));
    case Regex(source) => if source == [] { out.Push(0xC0); } else { WriteExt(out, 2, source); }
  }

  /** Appends exactly the encoding of the document. */
  method ToMessagePack(d: Doc, out: Buffer)
    modifies out
    ensures out.bytes == old(out.bytes) + Encode(d)
    decreases d, 1
  {
    hide CountHead, EncodeScalar, EncodeItems, EncodeEntries;
    match d
    case Atom(s) => WriteScalar(s, out);
    case List(items) =>
      WriteCount(out, 0x90, 0xDC, |items|);
      WriteItems(items, out);
    case Table(entries) =>
      WriteCount(out, 0x80, 0xDE, |entries|);
      WriteEntries(entries, out);
  }

  method WriteItems(items: seq<Doc>, out: Buffer)
    modifies out
    ensures out.bytes == old(out.bytes) + EncodeItems(items)
    decreases items, 0
  {
    hide Encode;
    for i := 0 to |items|
      invariant out.bytes + EncodeItems(items[i..]) == old(out.bytes) + EncodeItems(items)
    {
      ghost var before := out.bytes;
      ToMessagePack(items[i], out);
      assert items[i..][1..] == items[i + 1..];
      assert before + EncodeItems(items[i..]) == out.bytes + EncodeItems(items[i + 1..]);
    }
    assert out.bytes + [] == out.bytes;
  }

  method WriteEntries(entries: seq<Entry>, out: Buffer)
    modifies out
    ensures out.bytes == old(out.bytes) + EncodeEntries(entries)
    decreases entries, 0
  {
    hide Encode, StrHead;
    for i := 0 to |entries|
      invariant out.bytes + EncodeEntries(entries[i..]) == old(out.bytes) + EncodeEntries(entries)
    {
      ghost var before := out.bytes;
      var e := entries[i];
      WriteStrHead(out, |e.key|);
      out.Append(e.key);
      assert out.bytes == before + KeyBytes(e.key);
      ToMessagePack(e.doc, out);
      assert entries[i..][1..] == entries[i + 1..];
      assert before + (KeyBytes(e.key) + (Encode(e.doc) + EncodeEntries(entries[i + 1..])))
          == out.bytes + EncodeEntries(entries[i + 1..]);
    }
    assert out.bytes + [] == out.bytes;
  }

  // ---------- Decoder ----------

  class Reader {
    const data: Bytes
    var pos: nat

    constructor (data: Bytes)
      ensures this.data == data && pos == 0
    {
      this.data := data;
      pos := 0;
    }

    method TakeBytes(len: nat) returns (r: Result<Bytes>)
      modifies this
      ensures Agrees(Take(data, old(pos), len), r, pos)
    {
      if pos + len > |data| { return Failure(UnexpectedEnd); }
      if len > MAX_STRING_LEN { return Failure(TooLarge); }
      r := Success(data[pos..pos + len]);
      pos := pos + len;
    }

    method TakeCountedBytes(w: nat) returns (r: Result<Bytes>)
      requires w <= 4
      modifies this
      ensures Agrees(TakeCounted(data, old(pos), w), r, pos)
    {
      hide Take, ReadWide;
      var len: Result<UInt64>;
      len, pos := AccumulateWide(data, pos, w);
      if len.Failure? { return Failure(len.error); }
      r := TakeBytes(len.value);
    }

    method ReadNumber(w: nat, signed: bool) returns (r: Result<Value>)
      requires w == 1 || w == 2 || w == 4 || w == 8
      modifies this
      ensures Agrees(ReadInt(data, old(pos), w, signed), r, pos)
    {
      hide ReadWide, Pow256;
      var v: Result<UInt64>;
      v, pos := AccumulateWide(data, pos, w);
      if v.Failure? { return Failure(v.error); }
      Pow256Values();
      InRange(data, old(pos), w);
      if signed || w == 8 {
        r := Success(Leaf(Int(Signed(v.value, Pow256(w)))));
      } else {
        r := Success(Leaf(Int(v.value)));
      }
    }

    method ReadFixed(len: nat) returns (r: Result<Value>)
      requires len == 1 || len == 2 || len == 4 || len == 8 || len == 16
      modifies this
      ensures Agrees(ReadFixExt(data, old(pos), len), r, pos)
    {
      hide FromBigEndian;
      if pos >= |data| { return Failure(UnexpectedEnd); }
      var t := Signed(data[pos], 256);
      pos := pos + 1;
      if pos + len > |data| { return Failure(UnexpectedEnd); }
      var payload := data[pos..pos + len];
      pos := pos + len;
      FromBigEndianBound(payload);
      Pow256Values();
      if len == 4 && t == -1 { return Success(Leaf(DateTime(FromBigEndian(payload), 0))); }
      if len == 8 && t == 3 { return Success(Leaf(Timestamp(ToI64(FromBigEndian(payload))))); }
      if len == 8 && t == -1 {
        var data64 := FromBigEndian(payload);
        var sec, ns := data64 % TWO_34, data64 / TWO_34;
        if ns >= NANOS { return Failure(BadDateTime); }
        return Success(Leaf(DateTime(sec, ns / 1_000_000)));
      }
      r := Success(Leaf(Extension(t, payload)));
    }

    /** A counted extension: type, then the payload it announces. */
    method ReadCounted(w: nat) returns (r: Result<Value>)
      requires w == 1 || w == 2 || w == 4
      modifies this
      ensures Agrees(ReadExt(data, old(pos), w), r, pos)
    {
      hide ReadWide, ExtValue;
      var len: Result<UInt64>;
      len, pos := AccumulateWide(data, pos, w);
      if len.Failure? { return Failure(len.error); }
      if pos >= |data| { return Failure(UnexpectedEnd); }
      var t := Signed(data[pos], 256);
      pos := pos + 1;
      if pos + len.value > |data| { return Failure(UnexpectedEnd); }
      r := Interpret(len.value, t, w == 1);
    }

    method Interpret(len: nat, t: Int8, narrow: bool) returns (r: Result<Value>)
      requires pos + len <= |data|
      modifies this
      ensures Agrees(ExtValue(data, old(pos), len, t, narrow), r, pos)
    {
      hide FromBigEndian, RegexValue;
      var payload := data[pos..pos + len];
      Pow256Values();
      if narrow && len == 12 && t == -1 {
        var ns := FromBigEndian(payload[..4]);
        FromBigEndianBound(payload[4..]);
        var sec := FromBigEndian(payload[4..]);
        pos := pos + 12;
        if ns >= NANOS { return Failure(BadDateTime); }
        return Success(Leaf(DateTime(ToI64(sec), ns / 1_000_000)));
      }
      if t == 1 {
        pos := pos + len;
        return Success(Leaf(if len == 12 then ObjectId(payload) else Null));
      }
      if t == 2 {
        pos := pos + len;
        return Success(Leaf(if len == 0 then Null else RegexValue(payload)));
      }
      if t == 3 {
        if len < 8 { pos := pos + len; return Success(Leaf(Null)); }
        FromBigEndianBound(payload[..8]);
        pos := pos + 8;
        return Success(Leaf(Timestamp(ToI64(FromBigEndian(payload[..8])))));
      }
      if len > MAX_STRING_LEN { return Failure(TooLarge); }
      pos := pos + len;
      r := Success(Leaf(Extension(t, payload)));
    }

    method ReadFloat(w: nat) returns (r: Result<Value>)
      requires (w == 4 || w == 8) && pos <= |data|
      modifies this
      ensures Agrees(ParseFlat(data, old(pos), if w == 4 then 0xCA else 0xCB), r, pos)
    {
      hide ReadWide;
      var bits: Result<UInt64>;
      bits, pos := AccumulateWide(data, pos, w);
      if bits.Failure? { return Failure(bits.error); }
      if w == 4 {
        InRange(data, old(pos), 4);
        Pow256Values();
        r := Success(Leaf(Float32(bits.value)));
      } else {
        r := Success(Leaf(Double(bits.value)));
      }
    }

    method ReadText(s: Result<Bytes>) returns (r: Result<Value>)
      ensures r == if s.Failure? then Failure(s.error) else Success(Leaf(Text(s.value, false)))
    {
      r := if s.Failure? then Failure(s.error) else Success(Leaf(Text(s.value, false)));
    }

    method ReadFlat(tag: Byte) returns (r: Result<Value>)
      requires pos <= |data|
      modifies this
      ensures Agrees(ParseFlat(data, old(pos), tag), r, pos)
    {
      hide ReadWide, Take, TakeCounted, ReadInt, ReadExt, ReadFixExt;
      if tag <= 0x7F { return Success(Leaf(Int(tag))); }
      if tag >= 0xE0 { return Success(Leaf(Int(tag - 256))); }
      if 0xA0 <= tag <= 0xBF { var s := TakeBytes(tag - 0xA0); r := ReadText(s); return; }
      if tag == 0xC0 { return Success(Leaf(Null)); }
      if tag == 0xC2 { return Success(Leaf(Bool(false))); }
      if tag == 0xC3 { return Success(Leaf(Bool(true))); }
      if 0xC4 <= tag <= 0xC6 {
        var s := TakeCountedBytes(if tag == 0xC4 then 1 else if tag == 0xC5 then 2 else 4);
        return if s.Failure? then Failure(s.error) else Success(Leaf(Binary(s.value)));
      }
      if 0xC7 <= tag <= 0xC9 { r := ReadCounted(if tag == 0xC7 then 1 else if tag == 0xC8 then 2 else 4); return; }
      if tag == 0xCA { r := ReadFloat(4); return; }
      if tag == 0xCB { r := ReadFloat(8); return; }
      if 0xCC <= tag <= 0xD3 {
        r := ReadNumber(if tag % 4 == 0 then 1 else if tag % 4 == 1 then 2 else if tag % 4 == 2 then 4 else 8, tag >= 0xD0);
        return;
      }
      if 0xD4 <= tag <= 0xD8 {
        r := ReadFixed(if tag == 0xD4 then 1 else if tag == 0xD5 then 2 else if tag == 0xD6 then 4 else if tag == 0xD7 then 8 else 16);
        return;
      }
      if 0xD9 <= tag <= 0xDB {
        var s := TakeCountedBytes(if tag == 0xD9 then 1 else if tag == 0xDA then 2 else 4);
        r := ReadText(s);
        return;
      }
      r := Failure(BadHead);
    }

    method ReadLength(tag: Byte) returns (r: Result<nat>)
      requires pos <= |data| && (IsArrayTag(tag) || IsMapTag(tag))
      modifies this
      ensures Agrees(ReadCount(data, old(pos), tag), r, pos)
    {
      hide ReadWide;
      if tag <= 0x9F { return Success(tag % 16); }
      var n: Result<UInt64>;
      n, pos := AccumulateWide(data, pos, if tag == 0xDC || tag == 0xDE then 2 else 4);
      if n.Failure? { return Failure(n.error); }
      if (tag == 0xDD || tag == 0xDF) && n.value > MAX_ARRAY_SIZE { return Failure(TooLarge); }
      r := Success(n.value);
    }

    /** One value at the cursor. */
    method ParseValue(depth: nat) returns (r: Result<Value>)
      modifies this
      ensures Agrees(Parse(data, old(pos), depth), r, pos)
      decreases Remaining(data, pos), 0
    {
      hide ParseFlat, ReadCount;
      if depth > MAX_NESTING_DEPTH { return Failure(TooDeep); }
      if pos >= |data| { return Failure(UnexpectedEnd); }
      var tag := data[pos];
      pos := pos + 1;
      if IsArrayTag(tag) {
        var n := ReadLength(tag);
        if n.Failure? { return Failure(n.error); }
        var items := Items(n.value, depth + 1);
        return if items.Failure? then Failure(items.error) else Success(Array(items.value));
      }
      if IsMapTag(tag) {
        var n := ReadLength(tag);
        if n.Failure? { return Failure(n.error); }
        var fields := Entries(n.value, depth + 1);
        return if fields.Failure? then Failure(fields.error) else Success(Object(fields.value));
      }
      r := ReadFlat(tag);
    }

    method Items(n: nat, depth: nat) returns (r: Result<seq<Value>>)
      modifies this
      ensures Agrees(ParseItems(data, old(pos), n, depth, []), r, pos)
      decreases Remaining(data, pos), 1
    {
      var acc: seq<Value> := [];
      for i := 0 to n
        invariant old(pos) <= pos && (old(pos) <= |data| ==> pos <= |data|)
        invariant ParseItems(data, pos, n - i, depth, acc) == ParseItems(data, old(pos), n, depth, [])
      {
        hide Parse;
        var v := ParseValue(depth);
        if v.Failure? { return Failure(v.error); }
        acc := acc + [v.value];
      }
      r := Success(acc);
    }

    method Pair(depth: nat) returns (r: Result<(Bytes, Value)>)
      modifies this
      ensures Agrees(ParsePair(data, old(pos), depth), r, pos)
      decreases Remaining(data, pos), 1
    {
      hide Parse;
      var k := ParseValue(depth);
      if k.Failure? { return Failure(k.error); }
      if !(k.value.Leaf? && k.value.scalar.Text?) { return Failure(BadKey); }
      var v := ParseValue(depth);
      if v.Failure? { return Failure(v.error); }
      r := Success((k.value.scalar.text, v.value));
    }

    method Entries(n: nat, depth: nat) returns (r: Result<map<Bytes, Value>>)
      modifies this
      ensures Agrees(ParseEntries(data, old(pos), n, depth, map[]), r, pos)
      decreases Remaining(data, pos), 2
    {
      var acc: map<Bytes, Value> := map[];
      for i := 0 to n
        invariant old(pos) <= pos && (old(pos) <= |data| ==> pos <= |data|)
        invariant ParseEntries(data, pos, n - i, depth, acc) == ParseEntries(data, old(pos), n, depth, map[])
      {
        hide ParsePair;
        var kv := Pair(depth);
        if kv.Failure? { return Failure(kv.error); }
        acc := Emplace(acc, kv.value.0, kv.value.1);
      }
      r := Success(acc);
    }
  }

  lemma InRange(data: Bytes, pos: nat, w: nat)
    requires w <= 8
    ensures ReadWide(data, pos, w).Ok? ==> ReadWide(data, pos, w).value < Pow256(w)
  {
    if ReadWide(data, pos, w).Ok? { FromBigEndianBound(data[pos..pos + w]); }
  }

  /** fromMessagePack's use of the decoder: one value from the start of the input. */
  method FromMessagePack(data: Bytes) returns (r: Result<Value>, end: nat)
    ensures Agrees(Parse(data, 0, 0), r, end)
  {
    hide Parse;
    var reader := new Reader(data);
    r := reader.ParseValue(0);
    end := reader.pos;
  }
}
