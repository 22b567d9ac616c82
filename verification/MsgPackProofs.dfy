/** Which documents MessagePack preserves, and the laws of its decoder on arbitrary bytes. */
module MsgPackProofs {
  import opened Bytes
  import opened Values
  import opened MsgPack
  import opened MsgPackScalars
  import CborLaws

  // ---------- The condition ----------

  ghost predicate ScalarKept(s: Scalar)
  {
    match s
    case Text(text, raw) => !raw && |text| <= MAX_STRING_LEN
    case Binary(data) => |data| <= MAX_STRING_LEN
    case DateTime(_, ms) => 0 <= ms < 1000
    case ObjectId(oid) => |oid| == 12
    case Regex(source) => RegexKept(source)
    case Extension(t, payload) => ExtensionKept(t, |payload|)
    case _ => true
  }

  ghost predicate Kept(d: Doc, depth: nat)
    decreases d
  {
    depth <= MAX_NESTING_DEPTH &&
    match d
    case Atom(s) => ScalarKept(s)
    case List(items) => |items| <= MAX_ARRAY_SIZE && ItemsKept(items, depth + 1)
    case Table(es) => |es| <= MAX_OBJECT_SIZE && EntriesKept(es, depth + 1)
  }

  ghost predicate ItemsKept(ds: seq<Doc>, depth: nat)
    decreases ds
  {
    ds == [] || (Kept(ds[0], depth) && ItemsKept(ds[1..], depth))
  }

  ghost predicate EntriesKept(es: seq<Entry>, depth: nat)
    decreases es
  {
    es == []
    || (depth <= MAX_NESTING_DEPTH && |es[0].key| <= MAX_STRING_LEN && Kept(es[0].doc, depth) && EntriesKept(es[1..], depth))
  }

  // ---------- Steps of the decoder ----------

  lemma StepFlat(data: Bytes, pos: nat, depth: nat)
    requires depth <= MAX_NESTING_DEPTH && pos < |data| && !IsArrayTag(data[pos]) && !IsMapTag(data[pos])
    ensures Parse(data, pos, depth) == ParseFlat(data, pos + 1, data[pos])
  {
    hide ParseFlat;
  }

  lemma StepTooDeep(data: Bytes, pos: nat, depth: nat)
    requires depth > MAX_NESTING_DEPTH
    ensures Parse(data, pos, depth) == Err(TooDeep)
  {
  }

  lemma StepArray(data: Bytes, pos: nat, depth: nat)
    requires depth <= MAX_NESTING_DEPTH && pos < |data| && IsArrayTag(data[pos])
    ensures Parse(data, pos, depth)
         == match ReadCount(data, pos + 1, data[pos])
            case Err(e) => Err(e)
            case Ok(n, p) =>
              match ParseItems(data, p, n, depth + 1, [])
              case Err(e) => Err(e)
              case Ok(items, p2) => Ok(Array(items), p2)
  {
    hide ParseItems, ReadCount;
  }

  lemma StepMap(data: Bytes, pos: nat, depth: nat)
    requires depth <= MAX_NESTING_DEPTH && pos < |data| && IsMapTag(data[pos])
    ensures Parse(data, pos, depth)
         == match ReadCount(data, pos + 1, data[pos])
            case Err(e) => Err(e)
            case Ok(n, p) =>
              match ParseEntries(data, p, n, depth + 1, map[])
              case Err(e) => Err(e)
              case Ok(fields, p2) => Ok(Object(fields), p2)
  {
    hide ParseEntries, ReadCount;
  }

  /** A container head announces its count; one beyond 32 bits or the limit fails or announces fewer. */
  lemma CountAt(data: Bytes, pos: nat, fix: Byte, wide: Byte, n: nat)
    requires (fix == 0x90 && wide == 0xDC) || (fix == 0x80 && wide == 0xDE)
    requires At(data, pos, CountHead(fix, wide, n))
    ensures pos < |data| && (if fix == 0x90 then IsArrayTag(data[pos]) else IsMapTag(data[pos]))
    ensures var r := ReadCount(data, pos + 1, data[pos]);
      if n <= MAX_ARRAY_SIZE then r == Ok(n, pos + |CountHead(fix, wide, n)|) else r.Err? || r.value < n
  {
    hide BigEndian, ReadWide;
    Pow256Values();
    if n <= 15 {
      AtHead(data, pos, [fix + n]);
    } else if n <= 0xFFFF {
      AtSplit(data, pos, [wide], BigEndian(n, 2));
      AtHead(data, pos, [wide]);
      WideAt(data, pos + 1, n, 2);
    } else {
      AtSplit(data, pos, [wide + 1], BigEndian(n % TWO_32, 4));
      AtHead(data, pos, [wide + 1]);
      WideAt(data, pos + 1, n % TWO_32, 4);
    }
  }

  // ---------- Scalars ----------

  lemma ScalarRead(data: Bytes, pos: nat, s: Scalar)
    requires At(data, pos, EncodeScalar(s))
    ensures FlatReads(data, pos, Leaf(s), pos + |EncodeScalar(s)|, ScalarKept(s))
  {
    hide ParseFlat, IntBytes, StrHead, BinHead, ExtBytes, BigEndian, DateTimeBytes, ExtensionKept, RegexKept;
    match s
    case Null => NullRead(data, pos);
    case Bool(flag) => BoolRead(data, pos, flag);
    case Int(n) => IntRead(data, pos, n);
    case Double(bits) => FloatRead(data, pos, bits);
    case Float32(bits) => Float32Read(data, pos, bits);
    case Text(text, raw) => StringRead(data, pos, text); TextRead(data, pos, text, raw);
    case Binary(b) => BinaryRead(data, pos, b);
    case DateTime(ts, ms) => DateTimeRead(data, pos, ts, ms);
    case Extension(t, payload) => ExtensionRead(data, pos, t, payload);
    case ObjectId(oid) => if |oid| == 12 { ObjectIdRead(data, pos, oid); } else { NullRead(data, pos); }
    case Timestamp(n) => TimestampRead(data, pos, n);
    case Regex(source) => if source == [] { NullRead(data, pos); NothingBare(); } else { RegexRead(data, pos, source); }
  }

  lemma NothingBare()
    ensures !RegexKept([])
  {
  }

  lemma NullRead(data: Bytes, pos: nat)
    requires At(data, pos, [0xC0])
    ensures FlatReads(data, pos, Leaf(Null), pos + 1, true)
  {
    AtHead(data, pos, [0xC0]);
  }

  lemma BoolRead(data: Bytes, pos: nat, flag: bool)
    requires At(data, pos, [if flag then 0xC3 else 0xC2])
    ensures FlatReads(data, pos, Leaf(Bool(flag)), pos + 1, true)
  {
    AtHead(data, pos, [if flag then 0xC3 else 0xC2]);
  }

  /** A string never comes back as an exact numeric literal. */
  lemma TextRead(data: Bytes, pos: nat, s: Bytes, raw: bool)
    requires At(data, pos, StrHead(|s|) + s)
    ensures FlatReads(data, pos, Leaf(Text(s, raw)), pos + |StrHead(|s|) + s|, !raw && |s| <= MAX_STRING_LEN)
  {
    hide BigEndian, TakeCounted, Take;
    StringRead(data, pos, s);
    if raw { StringTag(data, pos, s); }
  }

  lemma StringTag(data: Bytes, pos: nat, s: Bytes)
    requires At(data, pos, StrHead(|s|) + s)
    ensures pos < |data| && (0xA0 <= data[pos] <= 0xBF || 0xD9 <= data[pos] <= 0xDB)
    ensures var r := ParseFlat(data, pos + 1, data[pos]); r.Ok? ==> r.value.Leaf? && r.value.scalar.Text? && !r.value.scalar.rawNumber
  {
    hide BigEndian, TakeCounted, Take;
    AtHead(data, pos, StrHead(|s|) + s);
  }

  // ---------- Trees ----------

  /** The decoder returns the meaning of a document exactly when the document is kept, and then stops
      exactly at the end of its encoding, whatever bytes follow. */
  lemma {:induction false} RoundTrip(d: Doc, data: Bytes, pos: nat, depth: nat)
    requires WellFormed(d) && At(data, pos, Encode(d))
    ensures Reads(Parse(data, pos, depth), Meaning(d), pos + |Encode(d)|, Kept(d, depth))
    decreases d
  {
    hide Parse, EncodeScalar, ScalarKept, EncodeItems, EncodeEntries, ItemsKept, EntriesKept, ParseFlat, CountHead;
    if depth > MAX_NESTING_DEPTH {
      StepTooDeep(data, pos, depth);
    } else {
      match d
      case Atom(s) => ScalarRead(data, pos, s); StepFlat(data, pos, depth);
      case List(items) => ListRoundTrip(items, data, pos, depth);
      case Table(es) => TableRoundTrip(es, data, pos, depth);
    }
  }

  lemma {:induction false} ListRoundTrip(items: seq<Doc>, data: Bytes, pos: nat, depth: nat)
    requires AllWellFormed(items) && depth <= MAX_NESTING_DEPTH
    requires At(data, pos, CountHead(0x90, 0xDC, |items|) + EncodeItems(items))
    ensures Reads(Parse(data, pos, depth), Array(Images(Same(), items)),
                  pos + |CountHead(0x90, 0xDC, |items|) + EncodeItems(items)|,
                  |items| <= MAX_ARRAY_SIZE && ItemsKept(items, depth + 1))
    decreases items, 1
  {
    hide Parse, EncodeItems, ItemsKept, CountHead, ParseItems, ReadCount, Images;
    var head := CountHead(0x90, 0xDC, |items|);
    AtSplit(data, pos, head, EncodeItems(items));
    CountAt(data, pos, 0x90, 0xDC, |items|);
    StepArray(data, pos, depth);
    var r := ReadCount(data, pos + 1, data[pos]);
    if |items| <= MAX_ARRAY_SIZE {
      ItemsRoundTrip(items, data, pos + |head|, depth + 1, []);
      assert [] + Images(Same(), items) == Images(Same(), items);
    } else if r.Ok? {
      ItemsExtend(data, r.pos, r.value, depth + 1, []);
    }
  }

  /** Reading items only appends. */
  lemma {:induction false} ItemsExtend(data: Bytes, pos: nat, n: nat, depth: nat, acc: seq<Value>)
    ensures var r := ParseItems(data, pos, n, depth, acc); r.Ok? ==> acc <= r.value && |r.value| == |acc| + n
    decreases n
  {
    hide Parse;
    if n > 0 {
      var r := Parse(data, pos, depth);
      if r.Ok? {
        ItemsExtend(data, r.pos, n - 1, depth, acc + [r.value]);
      }
    }
  }

  lemma {:induction false} ItemsRoundTrip(ds: seq<Doc>, data: Bytes, pos: nat, depth: nat, acc: seq<Value>)
    requires AllWellFormed(ds) && At(data, pos, EncodeItems(ds))
    ensures var r := ParseItems(data, pos, |ds|, depth, acc);
      if ItemsKept(ds, depth) then r == Ok(acc + Images(Same(), ds), pos + |EncodeItems(ds)|)
      else r.Err? || r.value != acc + Images(Same(), ds)
    decreases ds, 0
  {
    hide Parse, Encode, Kept, Meaning, Image;
    if ds == [] {
      assert acc + [] == acc;
    } else {
      AtSplit(data, pos, Encode(ds[0]), EncodeItems(ds[1..]));
      RoundTrip(ds[0], data, pos, depth);
      var r, v := Parse(data, pos, depth), Meaning(ds[0]);
      MeaningIsImage(ds[0]);
      assert acc + Images(Same(), ds) == acc + [v] + Images(Same(), ds[1..]);
      if Kept(ds[0], depth) {
        ItemsRoundTrip(ds[1..], data, pos + |Encode(ds[0])|, depth, acc + [v]);
      } else if r.Ok? {
        ItemsExtend(data, r.pos, |ds| - 1, depth, acc + [r.value]);
        assert (acc + [r.value])[|acc|] == r.value && (acc + Images(Same(), ds))[|acc|] == v;
      }
    }
  }

  lemma MeaningIsImage(d: Doc)
    ensures Meaning(d) == Image(Same(), d)
  {
  }

  lemma {:induction false} TableRoundTrip(es: seq<Entry>, data: Bytes, pos: nat, depth: nat)
    requires EntriesWellFormed(es) && DistinctKeys(es) && depth <= MAX_NESTING_DEPTH
    requires At(data, pos, CountHead(0x80, 0xDE, |es|) + EncodeEntries(es))
    ensures Reads(Parse(data, pos, depth), Object(Build(ImagePairs(Same(), es), map[])),
                  pos + |CountHead(0x80, 0xDE, |es|) + EncodeEntries(es)|,
                  |es| <= MAX_OBJECT_SIZE && EntriesKept(es, depth + 1))
    decreases es, 1
  {
    hide Parse, EncodeEntries, EntriesKept, CountHead, ParseEntries, ReadCount, ImagePairs, Build, DistinctKeys, ShortKeys;
    var head := CountHead(0x80, 0xDE, |es|);
    AtSplit(data, pos, head, EncodeEntries(es));
    CountAt(data, pos, 0x80, 0xDE, |es|);
    StepMap(data, pos, depth);
    var r := ReadCount(data, pos + 1, data[pos]);
    NoKeys();
    if |es| <= MAX_OBJECT_SIZE {
      EntriesRoundTrip(es, data, pos + |head|, depth + 1, map[]);
    } else if r.Ok? {
      EntriesExtend(data, r.pos, r.value, depth + 1, map[]);
      MemberCount(es);
    }
  }

  lemma NoKeys()
    ensures ShortKeys(map[])
  {
  }

  lemma MemberCount(es: seq<Entry>)
    requires DistinctKeys(es)
    ensures |Build(ImagePairs(Same(), es), map[])| == |es|
  {
    hide ImagePairs, Build;
    KeysKept(Same(), es);
    BuildStores(ImagePairs(Same(), es), map[]);
  }

  /** Every string the decoder returns is within the limit. */
  lemma TextShort(data: Bytes, pos: nat, depth: nat)
    ensures var r := Parse(data, pos, depth);
      r.Ok? && r.value.Leaf? && r.value.scalar.Text? ==> |r.value.scalar.text| <= MAX_STRING_LEN
  {
    hide ParseItems, ParseEntries, ReadCount, ReadWide;
    if depth <= MAX_NESTING_DEPTH && pos < |data| && !IsArrayTag(data[pos]) && !IsMapTag(data[pos]) {
      FlatTextShort(data, pos + 1, data[pos]);
    }
  }

  lemma FlatTextShort(data: Bytes, pos: nat, tag: Byte)
    requires pos <= |data|
    ensures var r := ParseFlat(data, pos, tag);
      r.Ok? && r.value.Leaf? && r.value.scalar.Text? ==> |r.value.scalar.text| <= MAX_STRING_LEN
  {
    hide ReadWide, FromBigEndian, ReadFixExt, ReadExt, ReadInt, Take, TakeCounted;
    if tag in {0xC7, 0xC8, 0xC9} {
      ExtNotText(data, pos, if tag == 0xC7 then 1 else if tag == 0xC8 then 2 else 4);
    } else if 0xD4 <= tag <= 0xD8 {
      FixExtNotText(data, pos, if tag == 0xD4 then 1 else if tag == 0xD5 then 2 else if tag == 0xD6 then 4 else if tag == 0xD7 then 8 else 16);
    } else if 0xCC <= tag <= 0xD3 {
      IntNotText(data, pos, if tag % 4 == 0 then 1 else if tag % 4 == 1 then 2 else if tag % 4 == 2 then 4 else 8, tag >= 0xD0);
    } else if 0xA0 <= tag <= 0xBF {
      TakenShort(data, pos, tag - 0xA0);
    } else if 0xD9 <= tag <= 0xDB {
      CountedShort(data, pos, if tag == 0xD9 then 1 else if tag == 0xDA then 2 else 4);
    }
  }

  lemma TakenShort(data: Bytes, pos: nat, len: nat)
    ensures Take(data, pos, len).Ok? ==> |Take(data, pos, len).value| <= MAX_STRING_LEN
  {
  }

  lemma CountedShort(data: Bytes, pos: nat, w: nat)
    requires w <= 4
    ensures TakeCounted(data, pos, w).Ok? ==> |TakeCounted(data, pos, w).value| <= MAX_STRING_LEN
  {
    hide ReadWide;
  }

  lemma IntNotText(data: Bytes, pos: nat, w: nat, signed: bool)
    requires w == 1 || w == 2 || w == 4 || w == 8
    ensures ReadInt(data, pos, w, signed).Ok? ==> !ReadInt(data, pos, w, signed).value.scalar.Text?
  {
    hide ReadWide, Pow256;
  }

  lemma FixExtNotText(data: Bytes, pos: nat, len: nat)
    requires len == 1 || len == 2 || len == 4 || len == 8 || len == 16
    ensures var r := ReadFixExt(data, pos, len); r.Ok? ==> r.value.Leaf? && !r.value.scalar.Text?
  {
    hide FromBigEndian;
  }

  lemma ExtNotText(data: Bytes, pos: nat, w: nat)
    requires w <= 4
    ensures var r := ReadExt(data, pos, w); r.Ok? ==> r.value.Leaf? && !r.value.scalar.Text?
  {
    hide ReadWide, FromBigEndian, LastIndexOf, CString;
  }

  ghost predicate ShortKeys(m: map<Bytes, Value>)
  {
    forall k :: k in m ==> |k| <= MAX_STRING_LEN
  }

  lemma PairShort(data: Bytes, pos: nat, depth: nat)
    ensures ParsePair(data, pos, depth).Ok? ==> |ParsePair(data, pos, depth).value.0| <= MAX_STRING_LEN
  {
    hide Parse;
    TextShort(data, pos, depth);
  }

  /** Reading entries keeps what is stored and adds at most one member each. */
  lemma {:induction false} EntriesExtend(data: Bytes, pos: nat, n: nat, depth: nat, acc: map<Bytes, Value>)
    requires ShortKeys(acc)
    ensures var r := ParseEntries(data, pos, n, depth, acc);
      r.Ok? ==> |r.value| <= |acc| + n && ShortKeys(r.value) && forall k :: k in acc ==> k in r.value && r.value[k] == acc[k]
    decreases n
  {
    hide ParsePair;
    if n > 0 {
      var r := ParsePair(data, pos, depth);
      PairShort(data, pos, depth);
      if r.Ok? {
        EmplaceHas(acc, r.value.0, r.value.1);
        EntriesExtend(data, r.pos, n - 1, depth, Emplace(acc, r.value.0, r.value.1));
      }
    }
  }

  lemma PairRead(e: Entry, data: Bytes, pos: nat, depth: nat, r: Parsed<Value>)
    requires At(data, pos, KeyBytes(e.key) + Encode(e.doc)) && r == Parse(data, pos + |KeyBytes(e.key)|, depth)
    ensures var pair := ParsePair(data, pos, depth);
      if depth <= MAX_NESTING_DEPTH && |e.key| <= MAX_STRING_LEN then
        pair == (match r case Err(err) => Err(err) case Ok(v, p) => Ok((e.key, v), p))
      else pair.Err? || (pair.value.0 != e.key && |e.key| > MAX_STRING_LEN)
  {
    hide Parse, ParseFlat, Encode, StrHead;
    AtSplit(data, pos, KeyBytes(e.key), Encode(e.doc));
    if depth <= MAX_NESTING_DEPTH {
      StringRead(data, pos, e.key);
      StringTag(data, pos, e.key);
      StepFlat(data, pos, depth);
    } else {
      StepTooDeep(data, pos, depth);
    }
  }

  /** The members are read back into their object exactly when they are kept. */
  ghost predicate EntriesRead(es: seq<Entry>, data: Bytes, pos: nat, depth: nat, acc: map<Bytes, Value>)
  {
    var r, m := ParseEntries(data, pos, |es|, depth, acc), Build(ImagePairs(Same(), es), acc);
    if EntriesKept(es, depth) then r == Ok(m, pos + |EncodeEntries(es)|) else r.Err? || r.value != m
  }

  lemma {:induction false} EntriesRoundTrip(es: seq<Entry>, data: Bytes, pos: nat, depth: nat, acc: map<Bytes, Value>)
    requires EntriesWellFormed(es) && DistinctKeys(es) && At(data, pos, EncodeEntries(es))
    requires ShortKeys(acc) && forall i :: 0 <= i < |es| ==> es[i].key !in acc
    ensures EntriesRead(es, data, pos, depth, acc)
    decreases es, 0
  {
    hide *;
    if es == [] {
      NoEntries(data, pos, depth, acc);
    } else {
      var e, v := es[0], Meaning(es[0].doc);
      var p, rest := pos + |KeyBytes(e.key)|, EncodeEntries(es[1..]);
      EntriesText(es);
      AtSplit(data, pos, KeyBytes(e.key) + Encode(e.doc), rest);
      AtSplit(data, pos, KeyBytes(e.key), Encode(e.doc));
      RoundTrip(e.doc, data, p, depth);
      PairRead(e, data, pos, depth, Parse(data, p, depth));
      if depth <= MAX_NESTING_DEPTH && |e.key| <= MAX_STRING_LEN && Kept(e.doc, depth) {
        ReadsKept(Parse(data, p, depth), v, p + |Encode(e.doc)|);
        LaterKeys(es, acc, v);
        EntriesRoundTrip(es[1..], data, p + |Encode(e.doc)|, depth, acc[e.key := v]);
        MoreEntries(es, data, pos, p + |Encode(e.doc)|, depth, acc, v);
      } else {
        ReadsLost(Parse(data, p, depth), v, p + |Encode(e.doc)|, Kept(e.doc, depth));
        EntryLost(es, data, pos, depth, acc, v);
      }
    }
  }

  lemma EntriesText(es: seq<Entry>)
    requires es != [] && EntriesWellFormed(es)
    ensures EncodeEntries(es) == (KeyBytes(es[0].key) + Encode(es[0].doc)) + EncodeEntries(es[1..])
    ensures WellFormed(es[0].doc) && EntriesWellFormed(es[1..])
  {
    hide Encode, KeyBytes, WellFormed;
  }

  lemma NoEntries(data: Bytes, pos: nat, depth: nat, acc: map<Bytes, Value>)
    ensures EntriesRead([], data, pos, depth, acc)
  {
    NoPairs(acc);
  }

  lemma LaterKeys(es: seq<Entry>, acc: map<Bytes, Value>, v: Value)
    requires es != [] && DistinctKeys(es) && |es[0].key| <= MAX_STRING_LEN
    requires ShortKeys(acc) && forall i :: 0 <= i < |es| ==> es[i].key !in acc
    ensures DistinctKeys(es[1..]) && ShortKeys(acc[es[0].key := v])
    ensures forall i :: 0 <= i < |es[1..]| ==> es[1..][i].key !in acc[es[0].key := v]
  {
  }

  lemma MoreEntries(es: seq<Entry>, data: Bytes, pos: nat, q: nat, depth: nat, acc: map<Bytes, Value>, v: Value)
    requires es != [] && es[0].key !in acc && v == Meaning(es[0].doc)
    requires depth <= MAX_NESTING_DEPTH && |es[0].key| <= MAX_STRING_LEN && Kept(es[0].doc, depth)
    requires ParsePair(data, pos, depth) == Ok((es[0].key, v), q) && q == pos + |KeyBytes(es[0].key)| + |Encode(es[0].doc)|
    requires EntriesRead(es[1..], data, q, depth, acc[es[0].key := v])
    ensures EntriesRead(es, data, pos, depth, acc)
  {
    hide ParsePair, Kept, Encode, KeyBytes, Image, Build, ImagePairs;
    MeaningIsImage(es[0].doc);
    FirstPair(es, acc);
  }

  lemma ReadsKept(r: Parsed<Value>, v: Value, end: nat)
    requires Reads(r, v, end, true)
    ensures r == Ok(v, end)
  {
  }

  lemma ReadsLost(r: Parsed<Value>, v: Value, end: nat, kept: bool)
    requires Reads(r, v, end, kept)
    ensures !kept ==> r.Err? || r.value != v
  {
  }

  lemma NoPairs(acc: map<Bytes, Value>)
    ensures Build([], acc) == acc
  {
  }

  lemma FirstPair(es: seq<Entry>, acc: map<Bytes, Value>)
    requires es != [] && es[0].key !in acc
    ensures var v := Image(Same(), es[0].doc);
      Emplace(acc, es[0].key, v) == acc[es[0].key := v]
      && Build(ImagePairs(Same(), es), acc) == Build(ImagePairs(Same(), es[1..]), acc[es[0].key := v])
  {
    hide Image;
    var ps := ImagePairs(Same(), es);
    assert ps[1..] == ImagePairs(Same(), es[1..]);
  }

  /** Once a member is read as something else, the object is not the one that was written. */
  lemma EntryLost(es: seq<Entry>, data: Bytes, pos: nat, depth: nat, acc: map<Bytes, Value>, v: Value)
    requires es != [] && DistinctKeys(es) && (forall i :: 0 <= i < |es| ==> es[i].key !in acc) && ShortKeys(acc)
    requires v == Meaning(es[0].doc)
    requires !(depth <= MAX_NESTING_DEPTH && |es[0].key| <= MAX_STRING_LEN && Kept(es[0].doc, depth))
    requires var pair := ParsePair(data, pos, depth);
      pair.Err? || (pair.value.0 != es[0].key && |es[0].key| > MAX_STRING_LEN) || (pair.value.0 == es[0].key && pair.value.1 != v)
    ensures EntriesRead(es, data, pos, depth, acc)
  {
    hide ParsePair, Build, Image, ImagePairs, Emplace, Kept;
    var pair, m := ParsePair(data, pos, depth), Build(ImagePairs(Same(), es), acc);
    KeysKept(Same(), es);
    BuildStores(ImagePairs(Same(), es), acc);
    FirstImage(es);
    MeaningIsImage(es[0].doc);
    if pair.Ok? {
      PairShort(data, pos, depth);
      EmplaceHas(acc, pair.value.0, pair.value.1);
      EmplaceShort(acc, pair.value.0, pair.value.1);
      EntriesExtend(data, pair.pos, |es| - 1, depth, Emplace(acc, pair.value.0, pair.value.1));
      assert m[es[0].key] == v;
    }
  }

  lemma FirstImage(es: seq<Entry>)
    requires es != []
    ensures ImagePairs(Same(), es)[0] == (es[0].key, Image(Same(), es[0].doc))
  {
    hide Image;
  }

  lemma EmplaceShort(acc: map<Bytes, Value>, k: Bytes, v: Value)
    requires ShortKeys(acc) && |k| <= MAX_STRING_LEN
    ensures ShortKeys(Emplace(acc, k, v))
  {
  }

  lemma EmplaceHas(acc: map<Bytes, Value>, k: Bytes, v: Value)
    ensures k in Emplace(acc, k, v) && (k !in acc ==> Emplace(acc, k, v)[k] == v)
    ensures |Emplace(acc, k, v)| <= |acc| + 1 && (k in acc ==> Emplace(acc, k, v) == acc)
  {
    if k !in acc {
      assert acc[k := v].Keys == acc.Keys + {k};
      assert |acc[k := v].Keys| == |acc.Keys| + 1;
    }
  }

  // ---------- Consequences ----------

  /** Encodings of preserved documents are prefix-free: if one text starts with another, they are the same
      document's meaning and the same length. */
  lemma PrefixFree(a: Doc, b: Doc, rest: Bytes)
    requires WellFormed(a) && WellFormed(b) && Kept(a, 0) && Kept(b, 0)
    requires Encode(a) + rest == Encode(b)
    ensures rest == [] && Meaning(a) == Meaning(b)
  {
    hide Parse, Encode, Kept, Meaning, WellFormed;
    var data := Encode(b);
    assert data[0..0 + |Encode(a)|] == Encode(a) && data[0..0 + |data|] == data;
    RoundTrip(a, data, 0, 0);
    RoundTrip(b, data, 0, 0);
    assert |Encode(a)| + |rest| == |data|;
  }

  /** Whatever the bytes, a successful call has moved forward, stays inside the input and returns a tree
      within the depth and size limits. */
  lemma {:induction false} DecodedIsBounded(data: Bytes, pos: nat, depth: nat)
    requires Parse(data, pos, depth).Ok?
    ensures pos < Parse(data, pos, depth).pos <= |data|
    ensures Bounded(Parse(data, pos, depth).value, MAX_NESTING_DEPTH - depth)
    decreases Remaining(data, pos), 0, 0
  {
    hide ParseFlat, ReadCount;
    if IsArrayTag(data[pos]) {
      var c := ReadCount(data, pos + 1, data[pos]);
      ItemsBounded(data, c.pos, c.value, depth + 1, []);
    } else if IsMapTag(data[pos]) {
      var c := ReadCount(data, pos + 1, data[pos]);
      EntriesBounded(data, c.pos, c.value, depth + 1, map[]);
    } else {
      FlatIsLeaf(data, pos + 1, data[pos]);
    }
  }

  lemma FlatIsLeaf(data: Bytes, pos: nat, tag: Byte)
    requires pos <= |data|
    ensures ParseFlat(data, pos, tag).Ok? ==> ParseFlat(data, pos, tag).value.Leaf?
  {
    hide ReadWide, RegexValue, FromBigEndian;
  }

  lemma {:induction false} ItemsBounded(data: Bytes, pos: nat, n: nat, depth: nat, acc: seq<Value>)
    requires ParseItems(data, pos, n, depth, acc).Ok?
    requires CborLaws.AllBounded(acc, MAX_NESTING_DEPTH - depth)
    ensures CborLaws.AllBounded(ParseItems(data, pos, n, depth, acc).value, MAX_NESTING_DEPTH - depth)
    ensures |ParseItems(data, pos, n, depth, acc).value| == |acc| + n
    decreases Remaining(data, pos), 1, n
  {
    hide Parse, Bounded;
    if n > 0 {
      DecodedIsBounded(data, pos, depth);
      var r := Parse(data, pos, depth);
      ItemsBounded(data, r.pos, n - 1, depth, acc + [r.value]);
    }
  }

  lemma {:induction false} EntriesBounded(data: Bytes, pos: nat, n: nat, depth: nat, acc: map<Bytes, Value>)
    requires ParseEntries(data, pos, n, depth, acc).Ok?
    requires CborLaws.FieldsBounded(acc, MAX_NESTING_DEPTH - depth)
    ensures CborLaws.FieldsBounded(ParseEntries(data, pos, n, depth, acc).value, MAX_NESTING_DEPTH - depth)
    ensures |ParseEntries(data, pos, n, depth, acc).value| <= |acc| + n
    decreases Remaining(data, pos), 2, n
  {
    hide Parse, Bounded;
    if n > 0 {
      PairBounded(data, pos, depth);
      var r := ParsePair(data, pos, depth);
      EmplaceHas(acc, r.value.0, r.value.1);
      EntriesBounded(data, r.pos, n - 1, depth, Emplace(acc, r.value.0, r.value.1));
    }
  }

  lemma {:induction false} PairBounded(data: Bytes, pos: nat, depth: nat)
    requires ParsePair(data, pos, depth).Ok?
    ensures Bounded(ParsePair(data, pos, depth).value.1, MAX_NESTING_DEPTH - depth)
    decreases Remaining(data, pos), 1, 0
  {
    hide Parse, Bounded;
    DecodedIsBounded(data, Parse(data, pos, depth).pos, depth);
  }
}
