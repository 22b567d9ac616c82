/** What CBOR keeps: decoding inverts encoding before any suffix, and the decoder's own laws. */
module CborProofs {
  import opened Bytes
  import opened Values
  import opened Cbor

  // ---------- Heads ----------

  /** Reading back a head: same major type, same argument, stopping where the head stops. */
  lemma HeadInverse(data: Bytes, pos: nat, major: nat, val: UInt64)
    requires major < 8
    requires At(data, pos, Head(major, val))
    ensures data[pos] / 32 == major && data[pos] % 32 == ArgInfo(val)
    ensures ReadArg(data, pos + 1, ArgInfo(val)) == Ok(val, pos + |Head(major, val)|)
  {
    AtHead(data, pos, Head(major, val));
    var w := ArgWidth(val);
    assert Head(major, val)[1..] == BigEndian(val, w);
    if w > 0 {
      Pow256Values();
      BigEndianInverse(val, w);
    }
  }

  // ---------- Round trip ----------

  /** What a scalar comes back as. */
  function ScalarImage(fp: Floats, s: Scalar): (r: Scalar)
  {
    match s
    case Text(text, _) => Text(text, false)
    case ObjectId(oid) => if |oid| == 12 then Binary(oid) else Null
    case Extension(_, payload) => if payload == [] then Null else s
    case DateTime(ts, ms) => var t := fp.epochOf(fp.epochBits(ts, ms)); DateTime(t.0, t.1)
    case Timestamp(n) => DateTime(n, 0)
    case Regex(source) => (match RegexOf(source) case Some(re) => re case None => Text(source, false))
    case _ => s
  }

  function Lossy(fp: Floats): (r: Scalar -> Value) { s => Leaf(ScalarImage(fp, s)) }

  /** Levels of nesting the decoder spends on a scalar: tags and the extension's array. */
  function Levels(s: Scalar): (r: nat)
  {
    match s
    case Extension(_, payload) => if payload == [] then 0 else 2
    case DateTime(_, _) => 1
    case Timestamp(_) => 1
    case Regex(_) => 1
    case _ => 0
  }

  function ByteLength(s: Scalar): (r: nat)
  {
    match s
    case Text(text, _) => |text|
    case Binary(data) => |data|
    case Extension(_, payload) => |payload|
    case Regex(source) => |source|
    case _ => 0
  }

  /** The decoder's limits, read off the document itself. */
  ghost predicate Fits(d: Doc, depth: nat)
    decreases d
  {
    match d
    case Atom(s) => depth + Levels(s) <= MAX_NESTING_DEPTH && ByteLength(s) <= MAX_STRING_LEN
    case List(items) => depth <= MAX_NESTING_DEPTH && |items| <= MAX_ARRAY_SIZE && ItemsFit(items, depth + 1)
    case Table(entries) => depth <= MAX_NESTING_DEPTH && |entries| <= MAX_OBJECT_SIZE && EntriesFit(entries, depth + 1)
  }

  ghost predicate ItemsFit(ds: seq<Doc>, depth: nat)
    decreases ds
  {
    ds == [] || (Fits(ds[0], depth) && ItemsFit(ds[1..], depth))
  }

  ghost predicate EntriesFit(es: seq<Entry>, depth: nat)
    decreases es
  {
    es == [] || (depth <= MAX_NESTING_DEPTH && |es[0].key| <= MAX_STRING_LEN
                 && Fits(es[0].doc, depth) && EntriesFit(es[1..], depth))
  }

  lemma ReadStringInverse(data: Input, pos: nat, s: Bytes)
    requires At(data, pos, s)
    ensures ReadString(data, pos, |s| % TWO_64)
         == if |s| <= MAX_STRING_LEN then Ok(s, pos + |s|) else Err(TooLarge)
  {
  }

  lemma IntInverse(fp: Floats, data: Input, pos: nat, depth: nat, n: Int64)
    requires At(data, pos, IntBytes(n)) && depth <= MAX_NESTING_DEPTH
    ensures Parse(fp, data, pos, depth) == Ok(Leaf(Int(n)), pos + |IntBytes(n)|)
  {
    if n >= 0 { HeadInverse(data, pos, 0, n); } else { HeadInverse(data, pos, 1, -1 - n); }
  }

  lemma StringInverse(fp: Floats, data: Input, pos: nat, depth: nat, major: nat, s: Bytes)
    requires major == 2 || major == 3
    requires At(data, pos, StringBytes(major, s)) && depth <= MAX_NESTING_DEPTH
    ensures Parse(fp, data, pos, depth)
         == if |s| <= MAX_STRING_LEN
            then Ok(Leaf(if major == 2 then Binary(s) else Text(s, false)), pos + |StringBytes(major, s)|)
            else Err(TooLarge)
  {
    AtSplit(data, pos, Head(major, |s| % TWO_64), s);
    HeadInverse(data, pos, major, |s| % TWO_64);
    ReadStringInverse(data, pos + |Head(major, |s| % TWO_64)|, s);
  }

  // ---------- One step of the decoder ----------

  ghost predicate HeadAt(data: Input, pos: nat, major: nat, arg: UInt64, p: nat)
  {
    pos < |data| && data[pos] / 32 == major && data[pos] % 32 != 31
    && ReadArg(data, pos + 1, data[pos] % 32) == Ok(arg, p)
  }

  lemma HeadIsAt(data: Input, pos: nat, major: nat, val: UInt64)
    requires major < 8 && At(data, pos, Head(major, val))
    ensures HeadAt(data, pos, major, val, pos + |Head(major, val)|)
  {
    HeadInverse(data, pos, major, val);
  }

  lemma StepArray(fp: Floats, data: Input, pos: nat, depth: nat, n: UInt64, p: nat)
    requires depth <= MAX_NESTING_DEPTH && HeadAt(data, pos, 4, n, p)
    ensures Parse(fp, data, pos, depth)
      == if n > MAX_ARRAY_SIZE then Err(TooLarge)
         else match ParseItems(fp, data, p, n, depth + 1, [])
              case Err(e) => Err(e)
              case Ok(items, p2) => Ok(Array(items), p2)
  {
  }

  lemma StepMap(fp: Floats, data: Input, pos: nat, depth: nat, n: UInt64, p: nat)
    requires depth <= MAX_NESTING_DEPTH && HeadAt(data, pos, 5, n, p)
    ensures Parse(fp, data, pos, depth)
      == if n > MAX_OBJECT_SIZE then Err(TooLarge)
         else match ParseEntries(fp, data, p, n, depth + 1, map[])
              case Err(e) => Err(e)
              case Ok(fields, p2) => Ok(Object(fields), p2)
  {
  }

  lemma StepTag(fp: Floats, data: Input, pos: nat, depth: nat, tag: UInt64, p: nat)
    requires depth <= MAX_NESTING_DEPTH && HeadAt(data, pos, 6, tag, p)
    ensures Parse(fp, data, pos, depth)
      == match Parse(fp, data, p, depth + 1)
         case Err(e) => Err(e)
         case Ok(v, p2) => Ok(Tagged(fp, tag, v), p2)
  {
  }

  lemma StepSimple(fp: Floats, data: Input, pos: nat, depth: nat)
    requires depth <= MAX_NESTING_DEPTH && pos < |data| && data[pos] / 32 == 7 && data[pos] % 32 != 31
    ensures Parse(fp, data, pos, depth) == ParseSimple(fp, data, pos + 1, data[pos] % 32)
  {
  }

  lemma StepTooDeep(fp: Floats, data: Input, pos: nat, depth: nat)
    requires depth > MAX_NESTING_DEPTH
    ensures Parse(fp, data, pos, depth) == Err(TooDeep)
  {
  }

  /** The whole behaviour of the decoder on encoder output, whatever follows it: within the limits it
      returns the document's image and stops exactly at the end of the encoding; beyond them it fails. */
  lemma {:induction false} RoundTrip(fp: Floats, d: Doc, data: Input, pos: nat, depth: nat)
    requires At(data, pos, Encode(fp, d))
    ensures Fits(d, depth) ==>
      Parse(fp, data, pos, depth) == Ok(Image(Lossy(fp), d), pos + |Encode(fp, d)|)
    ensures !Fits(d, depth) ==> Parse(fp, data, pos, depth).Err?
    decreases d
  {
    hide Parse, Head, EncodeScalar, ScalarImage, EncodeItems, EncodeEntries, ItemsFit, EntriesFit, Levels, ByteLength;
    if depth > MAX_NESTING_DEPTH {
      StepTooDeep(fp, data, pos, depth);
    } else {
      match d
      case Atom(s) => ScalarRoundTrip(fp, s, data, pos, depth);
      case List(items) => ListRoundTrip(fp, items, data, pos, depth);
      case Table(entries) => TableRoundTrip(fp, entries, data, pos, depth);
    }
  }

  lemma {:induction false} ListRoundTrip(fp: Floats, items: seq<Doc>, data: Input, pos: nat, depth: nat)
    requires depth <= MAX_NESTING_DEPTH
    requires At(data, pos, Head(4, |items| % TWO_64) + EncodeItems(fp, items))
    ensures |items| <= MAX_ARRAY_SIZE && ItemsFit(items, depth + 1) ==>
      Parse(fp, data, pos, depth)
      == Ok(Array(Images(Lossy(fp), items)), pos + |Head(4, |items| % TWO_64) + EncodeItems(fp, items)|)
    ensures !(|items| <= MAX_ARRAY_SIZE && ItemsFit(items, depth + 1)) ==> Parse(fp, data, pos, depth).Err?
    decreases items, 1
  {
    hide Parse, ParseItems, Head, ItemsFit, Images;
    var head := Head(4, |items| % TWO_64);
    AtSplit(data, pos, head, EncodeItems(fp, items));
    HeadIsAt(data, pos, 4, |items| % TWO_64);
    StepArray(fp, data, pos, depth, |items| % TWO_64, pos + |head|);
    if |items| <= MAX_ARRAY_SIZE {
      ItemsRoundTrip(fp, items, data, pos + |head|, depth + 1, []);
      assert [] + Images(Lossy(fp), items) == Images(Lossy(fp), items);
    }
  }

  lemma {:induction false} TableRoundTrip(fp: Floats, es: seq<Entry>, data: Input, pos: nat, depth: nat)
    requires depth <= MAX_NESTING_DEPTH
    requires At(data, pos, Head(5, |es| % TWO_64) + EncodeEntries(fp, es))
    ensures |es| <= MAX_OBJECT_SIZE && EntriesFit(es, depth + 1) ==>
      Parse(fp, data, pos, depth)
      == Ok(Object(Build(ImagePairs(Lossy(fp), es), map[])),
            pos + |Head(5, |es| % TWO_64) + EncodeEntries(fp, es)|)
    ensures !(|es| <= MAX_OBJECT_SIZE && EntriesFit(es, depth + 1)) ==> Parse(fp, data, pos, depth).Err?
    decreases es, 1
  {
    hide Parse, ParseEntries, Head, EntriesFit, ImagePairs, Build, EncodeEntries, Image;
    var head := Head(5, |es| % TWO_64);
    AtSplit(data, pos, head, EncodeEntries(fp, es));
    HeadIsAt(data, pos, 5, |es| % TWO_64);
    StepMap(fp, data, pos, depth, |es| % TWO_64, pos + |head|);
    if |es| <= MAX_OBJECT_SIZE {
      EntriesRoundTrip(fp, es, data, pos + |head|, depth + 1, map[]);
    }
  }

  lemma {:induction false} ItemsRoundTrip(fp: Floats, ds: seq<Doc>, data: Input, pos: nat, depth: nat, acc: seq<Value>)
    requires At(data, pos, EncodeItems(fp, ds))
    ensures ItemsFit(ds, depth) ==>
      ParseItems(fp, data, pos, |ds|, depth, acc) == Ok(acc + Images(Lossy(fp), ds), pos + |EncodeItems(fp, ds)|)
    ensures !ItemsFit(ds, depth) ==> ParseItems(fp, data, pos, |ds|, depth, acc).Err?
    decreases ds, 0
  {
    hide Parse, Encode, Fits, Image;
    if ds == [] {
      assert acc + [] == acc;
    } else {
      AtSplit(data, pos, Encode(fp, ds[0]), EncodeItems(fp, ds[1..]));
      RoundTrip(fp, ds[0], data, pos, depth);
      if Fits(ds[0], depth) {
        var v := Image(Lossy(fp), ds[0]);
        ItemsRoundTrip(fp, ds[1..], data, pos + |Encode(fp, ds[0])|, depth, acc + [v]);
        assert acc + [v] + Images(Lossy(fp), ds[1..]) == acc + Images(Lossy(fp), ds);
      }
    }
  }

  lemma {:induction false} EntriesRoundTrip(fp: Floats, es: seq<Entry>, data: Input, pos: nat, depth: nat,
                                            acc: map<Bytes, Value>)
    requires At(data, pos, EncodeEntries(fp, es))
    ensures EntriesFit(es, depth) ==>
      ParseEntries(fp, data, pos, |es|, depth, acc)
      == Ok(Build(ImagePairs(Lossy(fp), es), acc), pos + |EncodeEntries(fp, es)|)
    ensures !EntriesFit(es, depth) ==> ParseEntries(fp, data, pos, |es|, depth, acc).Err?
    decreases es, 0
  {
    hide Parse, Encode, Fits, Image, StringBytes;
    if es != [] {
      var key, value, rest := StringBytes(3, es[0].key), Encode(fp, es[0].doc), EncodeEntries(fp, es[1..]);
      AtSplit(data, pos, key + value, rest);
      AtSplit(data, pos, key, value);
      if depth <= MAX_NESTING_DEPTH {
        StringInverse(fp, data, pos, depth, 3, es[0].key);
        RoundTrip(fp, es[0].doc, data, pos + |key|, depth);
        if |es[0].key| <= MAX_STRING_LEN && Fits(es[0].doc, depth) {
          var v := Image(Lossy(fp), es[0].doc);
          EntriesRoundTrip(fp, es[1..], data, pos + |key| + |value|, depth, Emplace(acc, es[0].key, v));
        }
      } else {
        StepTooDeep(fp, data, pos, depth);
      }
    }
  }

  lemma ScalarRoundTrip(fp: Floats, s: Scalar, data: Input, pos: nat, depth: nat)
    requires At(data, pos, EncodeScalar(fp, s)) && depth <= MAX_NESTING_DEPTH
    ensures Fits(Atom(s), depth) ==>
      Parse(fp, data, pos, depth) == Ok(Leaf(ScalarImage(fp, s)), pos + |EncodeScalar(fp, s)|)
    ensures !Fits(Atom(s), depth) ==> Parse(fp, data, pos, depth).Err?
  {
    hide Parse, StringBytes, IntBytes, Head, BigEndian, RegexOf;
    match s
    case Null => FlatRead(fp, s, data, pos, depth);
    case Bool(_) => FlatRead(fp, s, data, pos, depth);
    case Double(_) => FlatRead(fp, s, data, pos, depth);
    case Float32(_) => FlatRead(fp, s, data, pos, depth);
    case Int(n) => IntInverse(fp, data, pos, depth, n);
    case Text(text, _) => StringInverse(fp, data, pos, depth, 3, text);
    case Binary(b) => StringInverse(fp, data, pos, depth, 2, b);
    case ObjectId(oid) =>
      if |oid| == 12 { StringInverse(fp, data, pos, depth, 2, oid); } else { NullRead(fp, data, pos, depth); }
    case Extension(t, payload) =>
      if payload != [] { ExtensionRoundTrip(fp, t, payload, data, pos, depth); } else { NullRead(fp, data, pos, depth); }
    case DateTime(ts, ms) => DateTimeRoundTrip(fp, ts, ms, data, pos, depth);
    case Timestamp(n) => TimestampRoundTrip(fp, n, data, pos, depth);
    case Regex(source) => RegexRoundTrip(fp, source, data, pos, depth);
  }

  lemma NullRead(fp: Floats, data: Input, pos: nat, depth: nat)
    requires At(data, pos, [0xF7]) && depth <= MAX_NESTING_DEPTH
    ensures Parse(fp, data, pos, depth) == Ok(Leaf(Null), pos + 1)
  {
    hide Parse;
    AtHead(data, pos, [0xF7]);
    StepSimple(fp, data, pos, depth);
  }

  /** Scalars of one byte, or of one byte and the bits of a number. */
  lemma FlatRead(fp: Floats, s: Scalar, data: Input, pos: nat, depth: nat)
    requires s.Null? || s.Bool? || s.Double? || s.Float32?
    requires At(data, pos, EncodeScalar(fp, s)) && depth <= MAX_NESTING_DEPTH
    ensures Parse(fp, data, pos, depth) == Ok(Leaf(s), pos + |EncodeScalar(fp, s)|)
  {
    hide Parse, BigEndian;
    var e := EncodeScalar(fp, s);
    AtHead(data, pos, e);
    Pow256Values();
    StepSimple(fp, data, pos, depth);
    match s
    case Double(bits) => WideInverse(data, pos + 1, bits, 8, e[1..]);
    case Float32(bits) => WideInverse(data, pos + 1, bits, 4, e[1..]);
    case _ =>
  }

  /** Tag 1 around the seconds: a timestamp comes back as a date-time. */
  lemma TimestampRoundTrip(fp: Floats, n: Int64, data: Input, pos: nat, depth: nat)
    requires At(data, pos, EncodeScalar(fp, Timestamp(n))) && depth <= MAX_NESTING_DEPTH
    ensures Parse(fp, data, pos, depth)
      == if depth + 1 <= MAX_NESTING_DEPTH then Ok(Leaf(DateTime(n, 0)), pos + 1 + |IntBytes(n)|) else Err(TooDeep)
  {
    hide Parse;
    assert EncodeScalar(fp, Timestamp(n)) == Head(6, 1) + IntBytes(n);
    AtSplit(data, pos, Head(6, 1), IntBytes(n));
    HeadIsAt(data, pos, 6, 1);
    StepTag(fp, data, pos, depth, 1, pos + 1);
    if depth + 1 <= MAX_NESTING_DEPTH { IntInverse(fp, data, pos + 1, depth + 1, n); }
    else { StepTooDeep(fp, data, pos + 1, depth + 1); }
  }

  lemma RegexBytes(fp: Floats, source: Bytes)
    ensures EncodeScalar(fp, Regex(source)) == Head(6, 35) + StringBytes(3, source) && |Head(6, 35)| == 2
  {
    hide StringBytes;
    assert BigEndian(35, 1) == [35];
  }

  lemma RegexRoundTrip(fp: Floats, source: Bytes, data: Input, pos: nat, depth: nat)
    requires At(data, pos, EncodeScalar(fp, Regex(source))) && depth <= MAX_NESTING_DEPTH
    ensures Fits(Atom(Regex(source)), depth) ==>
      Parse(fp, data, pos, depth)
      == Ok(Leaf(ScalarImage(fp, Regex(source))), pos + |EncodeScalar(fp, Regex(source))|)
    ensures !Fits(Atom(Regex(source)), depth) ==> Parse(fp, data, pos, depth).Err?
  {
    hide Parse, RegexOf, Head, StringBytes, EncodeScalar;
    RegexBytes(fp, source);
    AtSplit(data, pos, Head(6, 35), StringBytes(3, source));
    HeadIsAt(data, pos, 6, 35);
    StepTag(fp, data, pos, depth, 35, pos + 2);
    if depth + 1 <= MAX_NESTING_DEPTH { StringInverse(fp, data, pos + 2, depth + 1, 3, source); }
    else { StepTooDeep(fp, data, pos + 2, depth + 1); }
  }

  lemma DateTimeBytes(fp: Floats, ts: Int64, ms: int)
    ensures EncodeScalar(fp, DateTime(ts, ms)) == Head(6, 1) + ([0xFB] + BigEndian(fp.epochBits(ts, ms), 8))
    ensures |Head(6, 1)| == 1
  {
  }

  lemma DateTimeRoundTrip(fp: Floats, ts: Int64, ms: int, data: Input, pos: nat, depth: nat)
    requires At(data, pos, EncodeScalar(fp, DateTime(ts, ms))) && depth <= MAX_NESTING_DEPTH
    ensures var t := fp.epochOf(fp.epochBits(ts, ms));
      Parse(fp, data, pos, depth)
      == if depth + 1 <= MAX_NESTING_DEPTH then Ok(Leaf(DateTime(t.0, t.1)), pos + 10) else Err(TooDeep)
  {
    hide Parse, Head, BigEndian, EncodeScalar;
    var bits := fp.epochBits(ts, ms);
    var inner := [0xFB] + BigEndian(bits, 8);
    DateTimeBytes(fp, ts, ms);
    AtSplit(data, pos, Head(6, 1), inner);
    HeadIsAt(data, pos, 6, 1);
    StepTag(fp, data, pos, depth, 1, pos + 1);
    if depth + 1 <= MAX_NESTING_DEPTH {
      AtHead(data, pos + 1, inner);
      StepSimple(fp, data, pos + 1, depth + 1);
      Pow256Values();
      WideInverse(data, pos + 2, bits, 8, inner[1..]);
    } else {
      StepTooDeep(fp, data, pos + 1, depth + 1);
    }
  }

  /** An extension is tag 257 around the two-element array of its type and its payload. */
  lemma ExtensionRoundTrip(fp: Floats, t: Int8, payload: Bytes, data: Input, pos: nat, depth: nat)
    requires payload != []
    requires At(data, pos, EncodeScalar(fp, Extension(t, payload))) && depth <= MAX_NESTING_DEPTH
    ensures Fits(Atom(Extension(t, payload)), depth) ==>
      Parse(fp, data, pos, depth)
      == Ok(Leaf(Extension(t, payload)), pos + |EncodeScalar(fp, Extension(t, payload))|)
    ensures !Fits(Atom(Extension(t, payload)), depth) ==> Parse(fp, data, pos, depth).Err?
  {
    hide Parse, Head, StringBytes, EncodeScalar, BigEndian;
    ExtensionLayout(fp, t, payload);
    var inner := Head(4, 2) + (Head(0, t % 256) + StringBytes(2, payload));
    AtSplit(data, pos, Head(6, 257), inner);
    HeadIsAt(data, pos, 6, 257);
    StepTag(fp, data, pos, depth, 257, pos + 3);
    if depth + 1 <= MAX_NESTING_DEPTH { ExtensionArray(fp, t, payload, data, pos + 3, depth + 1); }
    else { StepTooDeep(fp, data, pos + 3, depth + 1); }
  }

  lemma ExtensionArray(fp: Floats, t: Int8, payload: Bytes, data: Input, pos: nat, depth: nat)
    requires payload != [] && depth <= MAX_NESTING_DEPTH
    requires At(data, pos, Head(4, 2) + (Head(0, t % 256) + StringBytes(2, payload)))
    ensures Parse(fp, data, pos, depth).Err? <==> depth + 1 > MAX_NESTING_DEPTH || |payload| > MAX_STRING_LEN
    ensures Parse(fp, data, pos, depth).Ok? ==>
      Parse(fp, data, pos, depth)
      == Ok(Array([Leaf(Int(t % 256)), Leaf(Binary(payload))]),
            pos + |Head(4, 2) + (Head(0, t % 256) + StringBytes(2, payload))|)
  {
    hide Parse, ParseItems, Head, StringBytes, BigEndian;
    var kind, body := Head(0, t % 256), StringBytes(2, payload);
    AtSplit(data, pos, Head(4, 2), kind + body);
    HeadIsAt(data, pos, 4, 2);
    var p := pos + |Head(4, 2)|;
    StepArray(fp, data, pos, depth, 2, p);
    AtSplit(data, p, kind, body);
    PairOfItems(fp, data, p, depth + 1);
    if depth + 1 <= MAX_NESTING_DEPTH {
      assert IntBytes(t % 256) == kind;
      IntInverse(fp, data, p, depth + 1, t % 256);
      StringInverse(fp, data, p + |kind|, depth + 1, 2, payload);
    } else {
      StepTooDeep(fp, data, p, depth + 1);
    }
  }

  lemma ExtensionLayout(fp: Floats, t: Int8, payload: Bytes)
    requires payload != []
    ensures EncodeScalar(fp, Extension(t, payload))
         == Head(6, 257) + (Head(4, 2) + (Head(0, t % 256) + StringBytes(2, payload)))
    ensures |Head(6, 257)| == 3 && |Head(4, 2)| == 1
  {
    assert BigEndian(1, 1) == [1];
    assert BigEndian(257, 2) == [1, 1];
    assert BigEndian(2, 0) == [];
    assert Head(6, 257) == [0xD9, 0x01, 0x01];
    assert Head(4, 2) == [0x82];
  }

  /** Reading two items in a row. */
  lemma PairOfItems(fp: Floats, data: Input, pos: nat, depth: nat)
    ensures ParseItems(fp, data, pos, 2, depth, [])
      == match Parse(fp, data, pos, depth)
         case Err(e) => Err(e)
         case Ok(a, p) => match Parse(fp, data, p, depth)
           case Err(e) => Err(e)
           case Ok(b, p2) => Ok([a, b], p2)
  {
    hide Parse;
    match Parse(fp, data, pos, depth)
    case Err(_) =>
    case Ok(a, p) =>
      assert [] + [a] == [a];
      match Parse(fp, data, p, depth)
      case Err(_) =>
      case Ok(b, p2) =>
        assert [a] + [b] == [a, b];
        assert ParseItems(fp, data, p, 1, depth, [a]) == ParseItems(fp, data, p2, 0, depth, [a, b]);
  }
}
