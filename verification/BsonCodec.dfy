/** The BSON encoder and decoder as the library runs them: sub-buffers patched in place, arrays rebuilt by
    moving elements. */
module BsonCodec {
  import opened Bytes
  import opened Values
  import opened Text
  import opened Regexes
  import opened Bson

  // ---------- Encoder ----------

  /** The bytes of a value as it is first built: its type, then its payload, no key yet. */
  function Bare(widen: UInt32 -> UInt64, d: Doc): (r: Bytes)
  {
    [TypeOf(d)] + Payload(widen, d)
  }

  /** Whether a document fits its 32-bit size; the size of an outer document bounds the inner ones. */
  predicate Fits(widen: UInt32 -> UInt64, d: Doc)
  {
    d.Atom? || |Payload(widen, d)| <= MAX_DOCUMENT
  }

  /** The size written at the front once it is known, byte by byte. */
  method PatchSize(sub: array<Byte>)
    requires 5 <= sub.Length <= MAX_DOCUMENT
    modifies sub
    ensures sub[..] == LittleEndian(sub.Length, 4) + old(sub[4..])
  {
    var n := sub.Length;
    sub[0] := n % 256;
    sub[1] := n / 0x100 % 256;
    sub[2] := n / 0x1_0000 % 256;
    sub[3] := n / 0x100_0000 % 256;
    FourBytes(n);
    assert sub[..4] == LittleEndian(n, 4);
    assert sub[4..] == old(sub[4..]);
    assert sub[..] == sub[..4] + sub[4..];
  }

  lemma FourBytes(n: nat)
    ensures LittleEndian(n, 4) == [n % 256, n / 0x100 % 256, n / 0x1_0000 % 256, n / 0x100_0000 % 256]
  {
    assert LittleEndian(n / 0x100_0000, 1) == [n / 0x100_0000 % 256] + LittleEndian(n / 0x100_0000 / 256, 0);
    assert LittleEndian(n / 0x1_0000, 2) == [n / 0x1_0000 % 256] + LittleEndian(n / 0x1_0000 / 256, 1);
    assert LittleEndian(n / 0x100, 3) == [n / 0x100 % 256] + LittleEndian(n / 0x100 / 256, 2);
    assert LittleEndian(n, 4) == [n % 256] + LittleEndian(n / 256, 3);
  }

  /** A document around its elements: room for the size, the elements, a terminator; then the size is
      patched in.  None where the document is too large. */
  method Wrap(elements: Bytes) returns (r: Option<Bytes>)
    ensures r == if |elements| + 5 <= MAX_DOCUMENT then Some(Document(elements)) else None
  {
    hide LittleEndian;
    var whole := [0, 0, 0, 0] + (elements + [0]);
    var size := |whole|;
    if size > MAX_DOCUMENT { return None; }
    var sub := new Byte[size](i requires 0 <= i < size => whole[i]);
    assert sub[..] == whole;
    assert sub[4..] == whole[4..] == elements + [0];
    PatchSize(sub);
    r := Some(sub[..]);
  }

  /** The key and its NUL are inserted behind the type byte. */
  method InsertKey(elem: Bytes, key: Bytes) returns (r: Bytes)
    requires elem != []
    ensures r == [elem[0]] + (key + ([0] + elem[1..]))
  {
    r := elem[..1] + key + elem[1..];
    r := r[..1 + |key|] + [0] + r[1 + |key|..];
  }

  method WriteScalar(widen: UInt32 -> UInt64, s: Scalar, out: Buffer)
    modifies out
    ensures out.bytes == old(out.bytes) + Bare(widen, Atom(s))
  {
    hide LittleEndian, LastIndexOf;
    ghost var before := out.bytes;
    match s {
      case Double(bits) => out.Push(0x01); out.PushLittleEndian(bits, 8);
      case Float32(bits) => out.Push(0x01); out.PushLittleEndian(widen(bits), 8);
      case Text(t, _) =>
        out.Push(0x02);
        out.PushLittleEndian((|t| + 1) % TWO_32, 4);
        out.Append(t);
        out.Push(0);
        assert out.bytes == before + ([0x02] + (LittleEndian((|t| + 1) % TWO_32, 4) + (t + [0])));
      case Binary(data) =>
        out.Push(0x05);
        out.PushLittleEndian(|data| % TWO_32, 4);
        out.Push(0);
        out.Append(data);
        assert out.bytes == before + ([0x05] + (LittleEndian(|data| % TWO_32, 4) + ([0] + data)));
      case ObjectId(oid) => WriteObjectId(oid, out);
      case Bool(flag) => out.Push(0x08); out.Push(if flag then 1 else 0);
      case DateTime(ts, ms) => out.Push(0x09); out.PushLittleEndian((ts * 1000 + ms) % TWO_64, 8);
      case Regex(source) => WriteRegex(source, out);
      case Int(n) =>
        if -0x8000_0000 <= n < 0x8000_0000 {
          out.Push(0x10);
          out.PushLittleEndian(n % TWO_32, 4);
        } else {
          out.Push(0x12);
          out.PushLittleEndian(ToU64(n), 8);
        }
      case Timestamp(n) =>
        out.Push(0x11);
        out.PushLittleEndian(0, 4);
        out.PushLittleEndian(n % TWO_32, 4);
        assert out.bytes == before + ([0x11] + (LittleEndian(0, 4) + LittleEndian(n % TWO_32, 4)));
      case Null => out.Push(0x0A);
      case Extension(_, _) => out.Push(0x0A);
    }
  }

  method WriteRegex(source: Bytes, out: Buffer)
    modifies out
    ensures out.bytes == old(out.bytes) + ([0x0B] + (PatternOf(source) + ([0] + (OptionsOf(source) + [0]))))
  {
    hide LastIndexOf;
    ghost var before := out.bytes;
    var sep := LastIndexOf(source, 0);
    var p, o := if sep >= 0 then source[..sep] else source, if sep >= 0 then source[sep + 1..] else [];
    out.Push(0x0B);
    out.Append(p);
    out.Push(0);
    out.Append(o);
    out.Push(0);
    assert out.bytes == before + ([0x0B] + (p + ([0] + (o + [0]))));
  }

  method WriteObjectId(oid: Bytes, out: Buffer)
    modifies out
    ensures out.bytes == old(out.bytes) + ([0x07] + Padded(oid))
  {
    ghost var before := out.bytes;
    out.Push(0x07);
    if |oid| >= 12 {
      out.Append(oid[..12]);
    } else {
      out.Append(oid);
      ghost var filled := out.bytes;
      for i := |oid| to 12
        invariant out.bytes == filled + seq(i - |oid|, _ => 0)
      {
        out.Push(0);
      }
    }
    assert out.bytes == before + ([0x07] + Padded(oid));
  }

  /** Appends the type and the payload; false where a document is too large. */
  method ToBson(widen: UInt32 -> UInt64, d: Doc, out: Buffer) returns (ok: bool)
    modifies out
    ensures ok == Fits(widen, d)
    ensures ok ==> out.bytes == old(out.bytes) + Bare(widen, d)
    decreases d, 1
  {
    hide Document, EntriesBytes, ItemsBytes, ScalarPayload;
    match d {
      case Atom(s) =>
        WriteScalar(widen, s, out);
        ok := true;
      case Table(es) =>
        out.Push(0x03);
        var elements := Members(widen, es);
        if elements.None? { return false; }
        var doc := Wrap(elements.value);
        if doc.None? { return false; }
        out.Append(doc.value);
        ok := true;
      case List(items) =>
        out.Push(0x04);
        var elements := Elements(widen, items);
        if elements.None? { return false; }
        var doc := Wrap(elements.value);
        if doc.None? { return false; }
        out.Append(doc.value);
        ok := true;
    }
  }

  /** A document inside the elements is smaller than they are. */
  lemma InnerFits(widen: UInt32 -> UInt64, key: Bytes, d: Doc, rest: Bytes)
    ensures |Payload(widen, d)| <= |Element(widen, key, d) + rest|
  {
    hide Payload;
  }

  /** The members one after the other, each in a buffer of its own; None if one of them is too large. */
  method Members(widen: UInt32 -> UInt64, es: seq<Entry>) returns (r: Option<Bytes>)
    ensures r.Some? ==> r.value == EntriesBytes(widen, es)
    ensures r.None? ==> |EntriesBytes(widen, es)| > MAX_DOCUMENT
    decreases es, 0
  {
    hide Payload, TypeOf;
    var sub: Bytes := [];
    assert es[0..] == es;
    for i := 0 to |es|
      invariant sub + EntriesBytes(widen, es[i..]) == EntriesBytes(widen, es)
    {
      var elem := new Buffer();
      var e := es[i];
      var ok := ToBson(widen, e.doc, elem);
      assert es[i..][1..] == es[i + 1..];
      ghost var chunk, rest := Element(widen, e.key, e.doc), EntriesBytes(widen, es[i + 1..]);
      assert EntriesBytes(widen, es[i..]) == chunk + rest;
      if !ok { InnerFits(widen, e.key, e.doc, rest); return None; }
      assert elem.bytes == Bare(widen, e.doc);
      var keyed := InsertKey(elem.bytes, e.key);
      assert elem.bytes[1..] == Payload(widen, e.doc);
      assert sub + (chunk + rest) == (sub + chunk) + rest;
      sub := sub + keyed;
    }
    assert sub + [] == sub;
    r := Some(sub);
  }

  method Elements(widen: UInt32 -> UInt64, ds: seq<Doc>) returns (r: Option<Bytes>)
    ensures r.Some? ==> r.value == ItemsBytes(widen, ds, 0)
    ensures r.None? ==> |ItemsBytes(widen, ds, 0)| > MAX_DOCUMENT
    decreases ds, 0
  {
    hide Payload, TypeOf, Digits;
    var sub: Bytes := [];
    assert ds[0..] == ds;
    for i := 0 to |ds|
      invariant sub + ItemsBytes(widen, ds[i..], i) == ItemsBytes(widen, ds, 0)
    {
      var elem := new Buffer();
      var ok := ToBson(widen, ds[i], elem);
      assert ds[i..][1..] == ds[i + 1..];
      ghost var chunk, rest := Element(widen, Digits(i), ds[i]), ItemsBytes(widen, ds[i + 1..], i + 1);
      assert ItemsBytes(widen, ds[i..], i) == chunk + rest;
      if !ok { InnerFits(widen, Digits(i), ds[i], rest); return None; }
      assert elem.bytes == Bare(widen, ds[i]);
      var keyed := InsertKey(elem.bytes, Digits(i));
      assert elem.bytes[1..] == Payload(widen, ds[i]);
      assert sub + (chunk + rest) == (sub + chunk) + rest;
      sub := sub + keyed;
    }
    assert sub + [] == sub;
    r := Some(sub);
  }

  /** The root object as a document; the empty string where it is too large. */
  method EncodeRoot(widen: UInt32 -> UInt64, es: seq<Entry>) returns (r: Option<Bytes>)
    ensures var doc := Document(EntriesBytes(widen, es)); r == if |doc| <= MAX_DOCUMENT then Some(doc) else None
  {
    hide EntriesBytes;
    var elements := Members(widen, es);
    if elements.None? { return None; }
    r := Wrap(elements.value);
  }

  // ---------- Decoder ----------

  class Reader {
    const data: Bytes
    var pos: nat

    constructor (data: Bytes)
      ensures this.data == data && pos == 0
    {
      this.data := data;
      pos := 0;
    }

    method ReadLE(w: nat) returns (n: nat)
      requires pos + w <= |data|
      modifies this
      ensures n == ReadLittle(data, old(pos), w) && pos == old(pos) + w
    {
      var i := w;
      n := 0;
      ghost var chunk := data[pos..pos + w];
      while i > 0
        invariant 0 <= i <= w && pos == old(pos) && n == FromLittleEndian(chunk[i..])
      {
        i := i - 1;
        assert chunk[i..][1..] == chunk[i + 1..];
        n := data[pos + i] + 256 * n;
      }
      assert chunk[0..] == chunk;
      pos := pos + w;
    }

    /** To the NUL, or to `end`. */
    method SkipCString(end: nat)
      requires end <= |data|
      modifies this
      ensures pos == CStringEnd(data, old(pos), end)
    {
      while pos < end && data[pos] != 0
        invariant CStringEnd(data, pos, end) == CStringEnd(data, old(pos), end)
        decreases end - pos
      {
        pos := pos + 1;
      }
    }

    method TakeBytes(len: nat) returns (r: Result<Bytes>)
      modifies this
      ensures Agrees(Take(data, old(pos), len), r, pos)
    {
      if pos + len > |data| { return Failure(UnexpectedEnd); }
      if len > MAX_STRING_LEN { return Failure(TooLarge); }
      r := Success(data[pos..pos + len]);
      pos := pos + len;
    }

    method ParseText() returns (r: Result<Value>)
      modifies this
      ensures Agrees(ReadText(data, old(pos)), r, pos)
    {
      hide ReadLittle, Take;
      if pos + 4 > |data| { return Failure(UnexpectedEnd); }
      var slen := ReadLE(4);
      if slen < 1 || pos + slen > |data| { return Failure(BadLength); }
      var s := TakeBytes(slen - 1);
      if s.Failure? { return Failure(s.error); }
      pos := pos + 1;
      r := Success(Leaf(Text(s.value, false)));
    }

    method ParseBinary() returns (r: Result<Value>)
      modifies this
      ensures Agrees(ReadBinary(data, old(pos)), r, pos)
    {
      hide ReadLittle, Take;
      if pos + 5 > |data| { return Failure(UnexpectedEnd); }
      var blen := ReadLE(4);
      var subtype := data[pos];
      pos := pos + 1;
      if pos + blen > |data| { return Failure(UnexpectedEnd); }
      if subtype == 3 && blen >= 4 {
        var oldLen := ReadLE(4);
        var s := TakeBytes(oldLen);
        return if s.Failure? then Failure(s.error) else Success(Leaf(Binary(s.value)));
      }
      var s := TakeBytes(blen);
      if s.Failure? { return Failure(s.error); }
      if subtype == 0 || subtype == 5 || subtype == 3 { return Success(Leaf(Binary(s.value))); }
      r := Success(Leaf(Extension(Signed(subtype, 256), s.value)));
    }

    method ParseRegex(end: nat) returns (r: Result<Value>)
      requires pos <= end < |data|
      modifies this
      ensures Agrees(ReadRegex(data, old(pos), end), r, pos)
    {
      hide CStringEnd, MakeRegex;
      var patStart := pos;
      SkipCString(end);
      var pattern := data[patStart..pos];
      pos := pos + 1;
      var optStart := pos;
      SkipCString(end);
      var options := data[optStart..pos];
      pos := pos + 1;
      var s := MakeRegex(pattern, options);
      r := if s.None? then Failure(TooLarge) else Success(Leaf(s.value));
    }

    method ParseWord() returns (r: Result<UInt64>)
      modifies this
      ensures Agrees(ReadWord(data, old(pos)), r, pos)
    {
      hide ReadLittle;
      if pos + 8 > |data| { return Failure(UnexpectedEnd); }
      var v := ReadLE(8);
      Pow256Values();
      r := Success(v);
    }

    method ParseScalar(end: nat, kind: Byte) returns (r: Result<Value>)
      requires pos <= end < |data|
      modifies this
      ensures Agrees(ReadScalar(data, old(pos), end, kind), r, pos)
    {
      hide ReadLittle, ReadWord, ReadText, ReadBinary, ReadRegex;
      Pow256Values();
      if kind == 0x02 { r := ParseText(); return; }
      if kind == 0x05 { r := ParseBinary(); return; }
      if kind == 0x06 || kind == 0x0A { return Success(Leaf(Null)); }
      if kind == 0x07 {
        if pos + 12 > |data| { return Failure(UnexpectedEnd); }
        pos := pos + 12;
        return Success(Leaf(ObjectId(data[pos - 12..pos])));
      }
      if kind == 0x08 { pos := pos + 1; return Success(Leaf(Bool(data[pos - 1] != 0))); }
      if kind == 0x0B { r := ParseRegex(end); return; }
      if kind == 0x10 {
        if pos + 4 > |data| { return Failure(UnexpectedEnd); }
        var v := ReadLE(4);
        return Success(Leaf(Int(Signed(v, TWO_32))));
      }
      if kind == 0x11 {
        if pos + 8 > |data| { return Failure(UnexpectedEnd); }
        var ts := ReadLE(4);
        pos := pos + 4;
        return Success(Leaf(Timestamp(ts)));
      }
      if kind != 0x01 && kind != 0x09 && kind != 0x12 { return Failure(BadHead); }
      var v := ParseWord();
      if v.Failure? { return Failure(v.error); }
      r := Success(Leaf(if kind == 0x01 then Double(v.value)
                        else if kind == 0x09 then DateTime(v.value / 1000, v.value % 1000) else Int(ToI64(v.value))));
    }

    /** An array is rebuilt element by element from the members found under its positions. */
    method RebuildArray(m: map<Bytes, Value>) returns (r: Result<Value>)
      ensures r == Rebuild(m)
    {
      hide Digits;
      if m == map[] { return Success(Object(m)); }
      var n := |m|;
      var i := 0;
      while i < n && Digits(i) in m
        invariant 0 <= i <= n && Sequential(m, i)
      {
        i := i + 1;
      }
      if i < n {
        GapFound(m, i, n);
        return Success(Object(m));
      }
      if n > MAX_ARRAY_SIZE { return Failure(TooLarge); }
      var items: seq<Value> := [];
      for j := 0 to n
        invariant Sequential(m, j) && items == InOrder(m, j)
      {
        AllFound(m, j + 1, n);
        items := items + [m[Digits(j)]];
      }
      r := Success(Array(items));
    }

    method ParseDocument(depth: nat) returns (r: Result<map<Bytes, Value>>)
      modifies this
      ensures Agrees(ReadDocument(data, old(pos), depth), r, pos)
      decreases Remaining(data, pos), 0
    {
      hide ReadElements, ReadLittle;
      if depth > MAX_NESTING_DEPTH { return Failure(TooDeep); }
      if pos + 4 > |data| { return Failure(UnexpectedEnd); }
      var docStart := pos;
      var docSize := ReadLE(4);
      if docSize < 5 || docStart + docSize > |data| { return Failure(BadLength); }
      var docEnd := (docStart + docSize - 1) % TWO_32;
      var m := ParseElements(docEnd, depth);
      if m.Failure? { return m; }
      if pos < |data| && data[pos] == 0 { pos := pos + 1; }
      r := m;
    }

    method ParseElements(docEnd: nat, depth: nat) returns (r: Result<map<Bytes, Value>>)
      requires docEnd < |data|
      modifies this
      ensures Agrees(ReadElements(data, old(pos), docEnd, depth, map[]), r, pos)
      decreases Remaining(data, pos), 2
    {
      hide ReadElement;
      var obj: map<Bytes, Value> := map[];
      while pos < docEnd
        invariant old(pos) <= pos
        invariant ReadElements(data, pos, docEnd, depth, obj) == ReadElements(data, old(pos), docEnd, depth, map[])
        decreases Remaining(data, pos)
      {
        var kv := ParseElement(docEnd, depth);
        if kv.Failure? { return Failure(kv.error); }
        obj := Emplace(obj, kv.value.0, kv.value.1);
      }
      r := Success(obj);
    }

    method ParseElement(docEnd: nat, depth: nat) returns (r: Result<(Bytes, Value)>)
      requires pos < docEnd < |data|
      modifies this
      ensures Agrees(ReadElement(data, old(pos), docEnd, depth), r, pos)
      decreases Remaining(data, pos), 1
    {
      hide ReadDocument, ReadScalar, Rebuild, CStringEnd;
      var elemType := data[pos];
      pos := pos + 1;
      var keyStart := pos;
      SkipCString(docEnd);
      if pos >= docEnd { return Failure(BadKey); }
      var key := data[keyStart..pos];
      pos := pos + 1;
      if |key| > MAX_STRING_LEN { return Failure(TooLarge); }
      if elemType == 0x03 || elemType == 0x04 {
        var m := ParseDocument(depth + 1);
        if m.Failure? { return Failure(m.error); }
        if elemType == 0x03 { return Success((key, Object(m.value))); }
        var v := RebuildArray(m.value);
        return if v.Failure? then Failure(v.error) else Success((key, v.value));
      }
      var v := ParseScalar(docEnd, elemType);
      r := if v.Failure? then Failure(v.error) else Success((key, v.value));
    }
  }

  lemma {:induction false} GapFound(m: map<Bytes, Value>, i: nat, n: nat)
    requires i < n && Digits(i) !in m
    ensures !Sequential(m, n)
  {
    if i < n - 1 { GapFound(m, i, n - 1); }
  }

  lemma {:induction false} AllFound(m: map<Bytes, Value>, i: nat, n: nat)
    requires i <= n && Sequential(m, n)
    ensures Sequential(m, i)
  {
    if i < n { AllFound(m, i, n - 1); }
  }
}
