/** Which documents BSON preserves. */
module BsonProofs {
  import opened Bytes
  import opened Values
  import opened Text
  import opened Regexes
  import opened Bson
  import opened BsonArrays

  type Widen = UInt32 -> UInt64

  // ---------- The condition ----------

  ghost predicate ScalarKept(s: Scalar)
  {
    match s
    case Text(t, raw) => !raw && |t| <= MAX_STRING_LEN
    case Binary(data) => |data| <= MAX_STRING_LEN
    case ObjectId(oid) => |oid| == 12
    case DateTime(ts, ms) => 0 <= ts && 0 <= ms < 1000 && ts * 1000 + ms < TWO_64
    case Regex(source) => RegexSource(source) && |source| <= MAX_STRING_LEN - 1
    case Timestamp(n) => n == 0
    case Float32(_) => false
    case Extension(_, _) => false
    case _ => true
  }

  ghost predicate KeyKept(key: Bytes)
  {
    0 !in key && |key| <= MAX_STRING_LEN
  }

  /** `d` is a value in a document at nesting `depth`. */
  ghost predicate Kept(d: Doc, depth: nat)
    decreases d
  {
    match d
    case Atom(s) => ScalarKept(s)
    case List(items) => items != [] && |items| <= MAX_ARRAY_SIZE && depth + 1 <= MAX_NESTING_DEPTH && ItemsKept(items, depth + 1)
    case Table(es) => depth + 1 <= MAX_NESTING_DEPTH && EntriesKept(es, depth + 1)
  }

  ghost predicate ItemsKept(ds: seq<Doc>, depth: nat)
    decreases ds
  {
    ds == [] || (Kept(ds[0], depth) && ItemsKept(ds[1..], depth))
  }

  ghost predicate EntriesKept(es: seq<Entry>, depth: nat)
    decreases es
  {
    es == [] || (KeyKept(es[0].key) && Kept(es[0].doc, depth) && EntriesKept(es[1..], depth))
  }

  /** Returns the value and stops at `end` if it is kept; otherwise fails or returns something else. */
  ghost predicate Reads<T(!new)>(r: Parsed<T>, v: T, end: nat, kept: bool)
  {
    if kept then r == Ok(v, end) else r.Err? || r.value != v
  }

  // ---------- Scalars ----------

  lemma WordAt(data: Bytes, pos: nat, n: UInt64)
    requires At(data, pos, LittleEndian(n, 8))
    ensures ReadWord(data, pos) == Ok(n, pos + 8)
  {
    Pow256Values();
    LittleAt(data, pos, n, 8);
  }

  lemma IntRead(data: Bytes, pos: nat, end: nat, n: Int64, widen: Widen)
    requires pos <= end < |data| && At(data, pos, ScalarPayload(widen, Int(n)))
    ensures ReadScalar(data, pos, end, TypeOf(Atom(Int(n)))) == Ok(Leaf(Int(n)), pos + |ScalarPayload(widen, Int(n))|)
  {
    hide LittleEndian, ReadLittle;
    Pow256Values();
    if -0x8000_0000 <= n < 0x8000_0000 {
      LittleAt(data, pos, n % TWO_32, 4);
    } else {
      WordAt(data, pos, ToU64(n));
      TwosComplement64(n);
    }
  }

  lemma TextRead(data: Bytes, pos: nat, t: Bytes)
    requires At(data, pos, LittleEndian((|t| + 1) % TWO_32, 4) + (t + [0]))
    ensures Reads(ReadText(data, pos), Leaf(Text(t, false)), pos + 5 + |t|, |t| <= MAX_STRING_LEN)
  {
    hide LittleEndian, ReadText, At, Pow256;
    Pow256Values();
    TextCounted(data, pos, t, (|t| + 1) % TWO_32);
  }

  lemma TextCounted(data: Bytes, pos: nat, t: Bytes, len: nat)
    requires len <= |t| + 1 && len < Pow256(4) && (|t| <= MAX_STRING_LEN ==> len == |t| + 1)
    requires At(data, pos, LittleEndian(len, 4) + (t + [0]))
    ensures Reads(ReadText(data, pos), Leaf(Text(t, false)), pos + 5 + |t|, |t| <= MAX_STRING_LEN)
  {
    hide LittleEndian, ReadLittle, Take, Pow256;
    AtSplit(data, pos, LittleEndian(len, 4), t + [0]);
    LittleAt(data, pos, len, 4);
    AtSplit(data, pos + 4, t, [0]);
    if len > 0 { TakeAt(data, pos + 4, t, len - 1); }
  }

  lemma BinaryRead(data: Bytes, pos: nat, b: Bytes)
    requires At(data, pos, LittleEndian(|b| % TWO_32, 4) + ([0] + b))
    ensures Reads(ReadBinary(data, pos), Leaf(Binary(b)), pos + 5 + |b|, |b| <= MAX_STRING_LEN)
  {
    hide LittleEndian, ReadBinary, At, Pow256;
    Pow256Values();
    BinaryCounted(data, pos, b, |b| % TWO_32);
  }

  lemma BinaryCounted(data: Bytes, pos: nat, b: Bytes, len: nat)
    requires len <= |b| && len < Pow256(4) && (|b| <= MAX_STRING_LEN ==> len == |b|)
    requires At(data, pos, LittleEndian(len, 4) + ([0] + b))
    ensures Reads(ReadBinary(data, pos), Leaf(Binary(b)), pos + 5 + |b|, |b| <= MAX_STRING_LEN)
  {
    hide LittleEndian, ReadLittle, Take, Pow256, ReadBinary;
    AtSplit(data, pos, LittleEndian(len, 4), [0] + b);
    AtSplit(data, pos + 4, [0], b);
    AtHead(data, pos + 4, [0]);
    LittleAt(data, pos, len, 4);
    TakeAt(data, pos + 5, b, len);
    PlainBinary(data, pos, len);
  }

  lemma PlainBinary(data: Bytes, pos: nat, len: nat)
    requires pos + 5 + len <= |data| && ReadLittle(data, pos, 4) == len && data[pos + 4] == 0
    ensures ReadBinary(data, pos) == AsBinary(Take(data, pos + 5, len))
  {
    hide ReadLittle, Take;
  }

  lemma ObjectIdRead(data: Bytes, pos: nat, oid: Bytes)
    requires At(data, pos, Padded(oid))
    ensures pos + 12 <= |data| && (data[pos..pos + 12] == oid <==> |oid| == 12)
  {
    if |oid| == 12 { assert Padded(oid) == oid; }
  }

  lemma DateTimeRead(data: Bytes, pos: nat, end: nat, ts: Int64, ms: int)
    requires pos <= end < |data| && At(data, pos, LittleEndian((ts * 1000 + ms) % TWO_64, 8))
    ensures Reads(ReadScalar(data, pos, end, 0x09), Leaf(DateTime(ts, ms)), pos + 8, ScalarKept(DateTime(ts, ms)))
  {
    hide LittleEndian, ReadWord;
    var u := (ts * 1000 + ms) % TWO_64;
    WordAt(data, pos, u);
    if 0 <= ts && 0 <= ms < 1000 {
      if ts * 1000 + ms < TWO_64 { Split1000(ts, ms); } else { assert u < ts * 1000 + ms; }
    }
  }

  lemma Split1000(ts: nat, ms: nat)
    requires ms < 1000
    ensures (ts * 1000 + ms) / 1000 == ts && (ts * 1000 + ms) % 1000 == ms
  {
  }

  lemma {:induction false} CStringEndIs(data: Bytes, pos: nat, end: nat, s: Bytes)
    requires end <= |data| && At(data, pos, s + [0]) && 0 !in s && pos + |s| < end
    ensures CStringEnd(data, pos, end) == pos + |s|
    decreases |s|
  {
    if s == [] {
      AtHead(data, pos, [] + [0]);
    } else {
      AtHead(data, pos, s + [0]);
      assert (s + [0])[1..] == s[1..] + [0];
      CStringEndIs(data, pos + 1, end, s[1..]);
    }
  }

  lemma {:induction false} CStringEndFree(data: Bytes, pos: nat, end: nat)
    requires end <= |data| && pos <= end
    ensures var e := CStringEnd(data, pos, end); 0 !in data[pos..e] && (e < end ==> data[e] == 0)
    decreases end - pos
  {
    if pos < end && data[pos] != 0 {
      CStringEndFree(data, pos + 1, end);
      var e := CStringEnd(data, pos, end);
      assert data[pos..e] == [data[pos]] + data[pos + 1..e];
    }
  }

  lemma TwoStringsAt(data: Bytes, pos: nat, p: Bytes, o: Bytes)
    requires At(data, pos, p + ([0] + (o + [0])))
    ensures At(data, pos, p + [0]) && At(data, pos + |p| + 1, o + [0])
    ensures data[pos..pos + |p|] == p && data[pos + |p| + 1..pos + |p| + 1 + |o|] == o
  {
    assert p + ([0] + (o + [0])) == (p + [0]) + (o + [0]);
    AtSplit(data, pos, p + [0], o + [0]);
    AtSplit(data, pos, p, [0]);
    AtSplit(data, pos + |p| + 1, o, [0]);
  }

  /** A regular expression whose two parts hold no further NUL comes back; any other does not. */
  lemma RegexRead(data: Bytes, pos: nat, end: nat, source: Bytes, widen: Widen)
    requires pos <= end < |data| && At(data, pos, ScalarPayload(widen, Regex(source)))
    requires pos + |ScalarPayload(widen, Regex(source))| <= end
    ensures Reads(ReadScalar(data, pos, end, 0x0B), Leaf(Regex(source)), pos + |ScalarPayload(widen, Regex(source))|,
                  ScalarKept(Regex(source)))
  {
    hide LastIndexOf, CStringEnd, MakeRegex, PatternOf, OptionsOf, RegexSource;
    var p, o := PatternOf(source), OptionsOf(source);
    RegexSplit(source);
    RegexRebuilt(source);
    SourceParts(source);
    TwoStringsAt(data, pos, p, o);
    if 0 !in p {
      CStringEndIs(data, pos, end, p);
      CStringEndIs(data, pos + |p| + 1, end, o);
      SourceFrom(source);
    } else {
      RegexNotRead(data, pos, end, source);
    }
  }

  lemma SourceFrom(source: Bytes)
    ensures |PatternOf(source)| + |OptionsOf(source)| <= |source|
    ensures RegexSource(source) ==> |PatternOf(source)| + 1 + |OptionsOf(source)| == |source|
  {
    hide LastIndexOf;
    LastIndexFound(source, 0);
  }

  /** The parts of a source hold no NUL exactly where the source has one at most. */
  lemma SourceParts(source: Bytes)
    ensures 0 !in OptionsOf(source)
    ensures RegexSource(source) ==> 0 !in PatternOf(source)
  {
    hide LastIndexOf;
    LastIndexFound(source, 0);
    if RegexSource(source) {
      var k :| 0 < k < |source| && source[k] == 0 && forall i :: 0 <= i < |source| && i != k ==> source[i] != 0;
      assert LastIndexOf(source, 0) == k;
    }
  }

  lemma RegexNotRead(data: Bytes, pos: nat, end: nat, source: Bytes)
    requires pos <= end < |data| && 0 in PatternOf(source)
    ensures ReadRegex(data, pos, end).Ok? ==> ReadRegex(data, pos, end).value != Leaf(Regex(source))
  {
    hide LastIndexOf, CStringEnd, CString;
    var a := CStringEnd(data, pos, end);
    var b := CStringEnd(data, a + 1, end);
    var r := MakeRegex(data[pos..a], data[a + 1..b]);
    if r == Some(Regex(source)) {
      OneNul(data[pos..a], data[a + 1..b], source);
    }
  }

  /** What is made of two C strings holds one NUL; a source with one in its pattern holds two. */
  lemma OneNul(p: Bytes, o: Bytes, source: Bytes)
    requires source == CString(p) + [0] + CString(o)
    ensures 0 !in PatternOf(source)
  {
    hide LastIndexOf;
    CStringFree(p);
    CStringFree(o);
    var k := |CString(p)|;
    assert source[k] == 0;
    forall i | k < i < |source| ensures source[i] != 0 { assert source[i] == CString(o)[i - k - 1]; }
    LastIndexIs(source, 0, k);
    assert source[..k] == CString(p);
  }

  lemma ScalarRead(widen: Widen, data: Bytes, pos: nat, end: nat, s: Scalar)
    requires pos <= end < |data| && At(data, pos, ScalarPayload(widen, s)) && pos + |ScalarPayload(widen, s)| <= end
    ensures Reads(ReadScalar(data, pos, end, TypeOf(Atom(s))), Leaf(s), pos + |ScalarPayload(widen, s)|, ScalarKept(s))
  {
    hide LittleEndian, ReadLittle, RegexSource, MakeRegex, PatternOf, OptionsOf, ReadRegex, ReadText, ReadBinary, ReadWord, CStringEnd;
    match s
    case Int(n) => IntRead(data, pos, end, n, widen);
    case Double(bits) => WordAt(data, pos, bits);
    case Float32(bits) => WordAt(data, pos, widen(bits));
    case Text(t, raw) => TextRead(data, pos, t); PlainText(data, pos);
    case Binary(b) => BinaryRead(data, pos, b);
    case DateTime(ts, ms) => DateTimeRead(data, pos, end, ts, ms);
    case Regex(source) => RegexRead(data, pos, end, source, widen);
    case Timestamp(n) => TimestampRead(widen, data, pos, end, n);
    case ObjectId(oid) => ObjectIdRead(data, pos, oid);
    case Bool(flag) => AtHead(data, pos, [if flag then 1 else 0]);
    case Null =>
    case Extension(_, _) =>
  }

  lemma PlainText(data: Bytes, pos: nat)
    ensures ReadText(data, pos).Ok? ==> ReadText(data, pos).value.Leaf? && ReadText(data, pos).value.scalar.Text?
                                        && !ReadText(data, pos).value.scalar.rawNumber
  {
    hide ReadLittle;
  }

  /** The two words of a timestamp are read in the other order: only zero comes back. */
  lemma TimestampRead(widen: Widen, data: Bytes, pos: nat, end: nat, n: Int64)
    requires pos <= end < |data| && At(data, pos, ScalarPayload(widen, Timestamp(n)))
    ensures Reads(ReadScalar(data, pos, end, 0x11), Leaf(Timestamp(n)), pos + 8, n == 0)
  {
    hide LittleEndian, ReadLittle;
    Pow256Values();
    AtSplit(data, pos, LittleEndian(0, 4), LittleEndian(n % TWO_32, 4));
    LittleAt(data, pos, 0, 4);
  }

  // ---------- Sizes, as a termination measure ----------

  ghost function Weight(d: Doc): (r: nat)
    decreases d
  {
    match d
    case Atom(_) => 0
    case List(items) => 1 + ItemsWeight(items)
    case Table(es) => 1 + EntriesWeight(es)
  }

  ghost function ItemsWeight(ds: seq<Doc>): (r: nat)
    decreases ds
  {
    if ds == [] then 0 else 1 + Weight(ds[0]) + ItemsWeight(ds[1..])
  }

  ghost function EntriesWeight(es: seq<Entry>): (r: nat)
    decreases es
  {
    if es == [] then 0 else 1 + Weight(es[0].doc) + EntriesWeight(es[1..])
  }

  // ---------- Arrays as documents ----------

  /** The members an array is written as. */
  function Positions(ds: seq<Doc>, i: nat): (r: seq<Entry>)
    ensures |r| == |ds|
    ensures forall j :: 0 <= j < |ds| ==> r[j] == Entry(Digits(i + j), ds[j])
  {
    if ds == [] then [] else [Entry(Digits(i), ds[0])] + Positions(ds[1..], i + 1)
  }

  lemma {:induction false} ItemsAsEntries(widen: Widen, ds: seq<Doc>, i: nat)
    ensures ItemsBytes(widen, ds, i) == EntriesBytes(widen, Positions(ds, i))
    ensures EntriesWeight(Positions(ds, i)) == ItemsWeight(ds)
    ensures AllWellFormed(ds) ==> EntriesWellFormed(Positions(ds, i))
    decreases ds
  {
    hide Element, WellFormed, Weight;
    if ds != [] {
      ItemsAsEntries(widen, ds[1..], i + 1);
      assert Positions(ds, i)[1..] == Positions(ds[1..], i + 1);
    }
  }

  lemma PositionsDistinct(ds: seq<Doc>, i: nat)
    ensures DistinctKeys(Positions(ds, i))
  {
    hide Digits;
    var es := Positions(ds, i);
    forall a, b | 0 <= a < b < |es| ensures es[a].key != es[b].key { DigitsDistinct(i + a, i + b); }
  }

  lemma {:induction false} DigitsShort(n: nat, k: nat)
    requires n < Pow10(k) && k > 0
    ensures |Digits(n)| <= k && 0 !in Digits(n)
    decreases k
  {
    if n >= 10 {
      assert k > 1 by { assert Pow10(1) == 10 * Pow10(0) == 10; }
      DigitsShort(n / 10, k - 1);
    }
  }

  function Pow10(k: nat): (r: nat) { if k == 0 then 1 else 10 * Pow10(k - 1) }

  lemma PositionKept(n: nat)
    requires n < MAX_ARRAY_SIZE
    ensures KeyKept(Digits(n))
  {
    assert Pow10(3) == 1000;
    assert Pow10(7) == 10_000_000;
    DigitsShort(n, 7);
  }

  lemma {:induction false} ItemsKeptAsEntries(ds: seq<Doc>, i: nat, depth: nat)
    requires i + |ds| <= MAX_ARRAY_SIZE
    ensures EntriesKept(Positions(ds, i), depth) <==> ItemsKept(ds, depth)
    decreases ds
  {
    hide Kept, KeyKept, Digits;
    if ds != [] {
      PositionKept(i);
      ItemsKeptAsEntries(ds[1..], i + 1, depth);
      assert Positions(ds, i)[1..] == Positions(ds[1..], i + 1);
    }
  }

  /** The object an array's members make holds its elements under their positions. */
  lemma PositionsMeaning(ds: seq<Doc>)
    ensures Build(ImagePairs(Same(), Positions(ds, 0)), map[]) == Indexed(Images(Same(), ds))
  {
    hide Digits, Build, ImagePairs, Images, Indexed, Image;
    var es, vs := Positions(ds, 0), Images(Same(), ds);
    var ps := ImagePairs(Same(), es);
    PositionsDistinct(ds, 0);
    PairsAt(es);
    ImagesAt(ds);
    SamePositions(ps, vs);
  }

  lemma SamePositions(ps: seq<(Bytes, Value)>, vs: seq<Value>)
    requires |ps| == |vs| && forall i :: 0 <= i < |ps| ==> ps[i] == (Digits(i), vs[i])
    ensures Build(ps, map[]) == Indexed(vs)
  {
    hide Digits, Build, Indexed;
    forall i, j | 0 <= i < j < |ps| ensures ps[i].0 != ps[j].0 { DigitsDistinct(i, j); }
    BuildHas(ps);
    IndexedHas(vs);
    var a, b := Build(ps, map[]), Indexed(vs);
    forall k | k in a ensures k in b && b[k] == a[k] {
      assert (k, a[k]) in ps;
      var i :| 0 <= i < |ps| && ps[i] == (k, a[k]);
      assert Digits(i) in b;
    }
    forall k | k in b ensures k in a {
      var i :| 0 <= i < |vs| && k == Digits(i);
      assert (k, vs[i]) == ps[i];
      assert (k, vs[i]) in ps;
    }
    assert a == b;
  }

  lemma {:induction false} PairsAt(es: seq<Entry>)
    ensures forall i :: 0 <= i < |es| ==> ImagePairs(Same(), es)[i] == (es[i].key, Image(Same(), es[i].doc))
  {
    hide Image;
    if es != [] { PairsAt(es[1..]); }
  }

  lemma {:induction false} ImagesAt(ds: seq<Doc>)
    ensures forall i :: 0 <= i < |ds| ==> Images(Same(), ds)[i] == Image(Same(), ds[i])
  {
    hide Image;
    if ds != [] { ImagesAt(ds[1..]); }
  }

  // ---------- Elements ----------

  /** The element is read back exactly when its value is kept; with a key that cannot be kept, under another key. */
  ghost predicate ElementReads(widen: Widen, data: Bytes, pos: nat, end: nat, depth: nat, key: Bytes, d: Doc)
    requires pos < end < |data|
  {
    var r := ReadElement(data, pos, end, depth);
    if KeyKept(key) then
      if Kept(d, depth) then r == Ok((key, Meaning(d)), pos + |Element(widen, key, d)|)
      else r.Err? || (r.value.0 == key && r.value.1 != Meaning(d))
    else r.Err? || r.value.0 != key
  }

  lemma StepElement(data: Bytes, pos: nat, end: nat, depth: nat, key: Bytes, kind: Byte, nul: nat)
    requires pos < end < |data| && data[pos] == kind && nul == CStringEnd(data, pos + 1, end) && nul < end
    requires data[pos + 1..nul] == key && |key| <= MAX_STRING_LEN
    ensures ReadElement(data, pos, end, depth)
         == if kind == 0x03 then
              (match ReadDocument(data, nul + 1, depth + 1) case Err(e) => Err(e) case Ok(m, p) => Ok((key, Object(m)), p))
            else if kind == 0x04 then
              (match ReadDocument(data, nul + 1, depth + 1)
               case Err(e) => Err(e)
               case Ok(m, p) => (match Rebuild(m) case Failure(e) => Err(e) case Success(v) => Ok((key, v), p)))
            else (match ReadScalar(data, nul + 1, end, kind) case Err(e) => Err(e) case Ok(v, p) => Ok((key, v), p))
  {
    hide ReadDocument, ReadScalar, Rebuild, CStringEnd;
  }

  /** No key that is read holds a NUL or is too long. */
  lemma KeyClean(data: Bytes, pos: nat, end: nat, depth: nat)
    requires pos < end < |data|
    ensures ReadElement(data, pos, end, depth).Ok? ==> KeyKept(ReadElement(data, pos, end, depth).value.0)
  {
    hide ReadDocument, ReadScalar, Rebuild, CStringEnd;
    CStringEndFree(data, pos + 1, end);
  }

  lemma {:induction false} ElementRead(widen: Widen, data: Bytes, pos: nat, end: nat, depth: nat, key: Bytes, d: Doc)
    requires WellFormed(d) && end < TWO_32 && At(data, pos, Element(widen, key, d))
    requires pos + |Element(widen, key, d)| <= end < |data|
    ensures ElementReads(widen, data, pos, end, depth, key, d)
    decreases Weight(d), 3
  {
    hide ReadElement, Payload, Kept, Meaning, KeyKept, CStringEnd, WellFormed, Weight, TypeOf;
    KeyClean(data, pos, end, depth);
    KeyRule(key);
    if KeyKept(key) {
      var payload := Payload(widen, d);
      AtSplit(data, pos, [TypeOf(d)], key + ([0] + payload));
      AtHead(data, pos, [TypeOf(d)]);
      assert key + ([0] + payload) == (key + [0]) + payload;
      AtSplit(data, pos + 1, key + [0], payload);
      CStringEndIs(data, pos + 1, end, key);
      var nul := pos + 1 + |key|;
      AtSplit(data, pos + 1, key, [0]);
      StepElement(data, pos, end, depth, key, TypeOf(d), nul);
      ValueRead(widen, data, nul + 1, end, depth, key, d, ReadElement(data, pos, end, depth));
    }
  }

  lemma KeyRule(key: Bytes)
    ensures KeyKept(key) ==> 0 !in key && |key| <= MAX_STRING_LEN
  {
  }

  /** The value behind the key, given how the element is put together from it. */
  lemma {:induction false} ValueRead(widen: Widen, data: Bytes, pos: nat, end: nat, depth: nat, key: Bytes, d: Doc, r: Parsed<(Bytes, Value)>)
    requires WellFormed(d) && end < TWO_32 && At(data, pos, Payload(widen, d)) && pos + |Payload(widen, d)| <= end < |data|
    requires r == if TypeOf(d) == 0x03 then
                    (match ReadDocument(data, pos, depth + 1) case Err(e) => Err(e) case Ok(m, p) => Ok((key, Object(m)), p))
                  else if TypeOf(d) == 0x04 then
                    (match ReadDocument(data, pos, depth + 1)
                     case Err(e) => Err(e)
                     case Ok(m, p) => (match Rebuild(m) case Failure(e) => Err(e) case Success(v) => Ok((key, v), p)))
                  else (match ReadScalar(data, pos, end, TypeOf(d)) case Err(e) => Err(e) case Ok(v, p) => Ok((key, v), p))
    ensures if Kept(d, depth) then r == Ok((key, Meaning(d)), pos + |Payload(widen, d)|)
            else r.Err? || (r.value.0 == key && r.value.1 != Meaning(d))
    decreases Weight(d), 2
  {
    hide ReadDocument, ReadScalar, Rebuild, ScalarPayload, ScalarKept, Document, EntriesKept, ItemsKept, Images, ImagePairs, Build,
         EntriesBytes, ItemsBytes;
    match d
    case Atom(s) => ScalarRead(widen, data, pos, end, s);
    case Table(es) => DocumentRead(widen, data, pos, depth + 1, es);
    case List(items) =>
      var es := Positions(items, 0);
      ItemsAsEntries(widen, items, 0);
      PositionsDistinct(items, 0);
      DocumentRead(widen, data, pos, depth + 1, es);
      PositionsMeaning(items);
      ListRebuilt(items, depth + 1, ReadDocument(data, pos, depth + 1), pos + |Payload(widen, d)|);
  }

  lemma ListRebuilt(items: seq<Doc>, depth: nat, r: Parsed<map<Bytes, Value>>, end: nat)
    requires Reads(r, Indexed(Images(Same(), items)), end, depth <= MAX_NESTING_DEPTH && EntriesKept(Positions(items, 0), depth))
    ensures var vs := Images(Same(), items);
      if items != [] && |items| <= MAX_ARRAY_SIZE && depth <= MAX_NESTING_DEPTH && ItemsKept(items, depth)
      then r.Ok? && Rebuild(r.value) == Success(Array(vs)) && r.pos == end
      else r.Err? || Rebuild(r.value) != Success(Array(vs))
  {
    hide Rebuild, EntriesKept, ItemsKept, Indexed;
    if |items| <= MAX_ARRAY_SIZE { ItemsKeptAsEntries(items, 0, depth); }
    if r.Ok? { RebuildIs(r.value, Images(Same(), items)); }
  }

  // ---------- Documents ----------

  /** A document is read back as its members exactly when every member is kept, and then up to its end. */
  lemma {:induction false} DocumentRead(widen: Widen, data: Bytes, pos: nat, depth: nat, es: seq<Entry>)
    requires EntriesWellFormed(es) && DistinctKeys(es)
    requires At(data, pos, Document(EntriesBytes(widen, es))) && pos + |Document(EntriesBytes(widen, es))| < TWO_32
    ensures Reads(ReadDocument(data, pos, depth), Build(ImagePairs(Same(), es), map[]),
                  pos + |Document(EntriesBytes(widen, es))|, depth <= MAX_NESTING_DEPTH && EntriesKept(es, depth))
    decreases EntriesWeight(es), 1
  {
    hide EntriesBytes, LittleEndian, ReadLittle, ReadElements, ReadDocument, Build, ImagePairs, EntriesKept;
    var elements := EntriesBytes(widen, es);
    if depth > MAX_NESTING_DEPTH {
      DocumentTooDeep(data, pos, depth);
    } else {
      var size := |elements| + 5;
      Pow256Values();
      AtSplit(data, pos, LittleEndian(size % TWO_32, 4), elements + [0]);
      AtSplit(data, pos + 4, elements, [0]);
      var end := pos + 4 + |elements|;
      AtHead(data, end, [0]);
      LittleAt(data, pos, size % TWO_32, 4);
      ElementsRead(widen, data, pos + 4, end, depth, es, map[]);
      DocumentStep(data, pos, depth, size);
    }
  }

  lemma DocumentTooDeep(data: Bytes, pos: nat, depth: nat)
    requires depth > MAX_NESTING_DEPTH
    ensures ReadDocument(data, pos, depth).Err?
  {
  }

  lemma DocumentStep(data: Bytes, pos: nat, depth: nat, size: nat)
    requires depth <= MAX_NESTING_DEPTH && 5 <= size && pos + size <= |data| && pos + size < TWO_32
    requires ReadLittle(data, pos, 4) == size && data[pos + size - 1] == 0
    ensures var r := ReadElements(data, pos + 4, pos + size - 1, depth, map[]);
      && (r.Err? ==> ReadDocument(data, pos, depth).Err?)
      && (r.Ok? ==> ReadDocument(data, pos, depth)
                    == Ok(r.value, if r.pos < |data| && data[r.pos] == 0 then r.pos + 1 else r.pos))
  {
    hide ReadElements, ReadLittle;
  }

  ghost predicate CleanKeys(m: map<Bytes, Value>)
  {
    forall k :: k in m ==> KeyKept(k)
  }

  lemma EmplaceClean(acc: map<Bytes, Value>, k: Bytes, v: Value)
    requires CleanKeys(acc) && KeyKept(k)
    ensures CleanKeys(Emplace(acc, k, v)) && k in Emplace(acc, k, v) && (k !in acc ==> Emplace(acc, k, v)[k] == v)
    ensures forall x :: x in acc ==> x in Emplace(acc, k, v) && Emplace(acc, k, v)[x] == acc[x]
  {
  }

  /** Reading elements keeps what is stored, and no key holds a NUL. */
  lemma {:induction false} ElementsExtend(data: Bytes, pos: nat, end: nat, depth: nat, acc: map<Bytes, Value>)
    requires end < |data| && CleanKeys(acc)
    ensures var r := ReadElements(data, pos, end, depth, acc);
      r.Ok? ==> CleanKeys(r.value) && forall k :: k in acc ==> k in r.value && r.value[k] == acc[k]
    decreases Remaining(data, pos)
  {
    hide ReadElement, CleanKeys, Emplace;
    if pos < end {
      var r := ReadElement(data, pos, end, depth);
      KeyClean(data, pos, end, depth);
      if r.Ok? {
        EmplaceClean(acc, r.value.0, r.value.1);
        ElementsExtend(data, r.pos, end, depth, Emplace(acc, r.value.0, r.value.1));
      }
    }
  }

  /** The members of a document are read back exactly when all of them are kept. */
  ghost predicate MembersRead(widen: Widen, data: Bytes, pos: nat, end: nat, depth: nat, es: seq<Entry>, acc: map<Bytes, Value>)
    requires end < |data|
  {
    Reads(ReadElements(data, pos, end, depth, acc), Build(ImagePairs(Same(), es), acc), end, EntriesKept(es, depth))
  }

  lemma {:induction false} ElementsRead(widen: Widen, data: Bytes, pos: nat, end: nat, depth: nat, es: seq<Entry>, acc: map<Bytes, Value>)
    requires EntriesWellFormed(es) && DistinctKeys(es) && CleanKeys(acc) && forall i :: 0 <= i < |es| ==> es[i].key !in acc
    requires end < |data| && end < TWO_32 && At(data, pos, EntriesBytes(widen, es)) && end == pos + |EntriesBytes(widen, es)|
    ensures MembersRead(widen, data, pos, end, depth, es, acc)
    decreases EntriesWeight(es), 0
  {
    hide ReadElements, Build, ImagePairs, EntriesKept, Element, CleanKeys, DistinctKeys, ElementReads, Reads, WellFormed, Weight, MembersRead;
    if es == [] {
      NoMembers(widen, data, pos, depth, acc);
    } else {
      var e := es[0];
      var chunk := Element(widen, e.key, e.doc);
      AtSplit(data, pos, chunk, EntriesBytes(widen, es[1..]));
      NotNothing(widen, e.key, e.doc);
      ElementRead(widen, data, pos, end, depth, e.key, e.doc);
      if KeyKept(e.key) && Kept(e.doc, depth) {
        LaterKeys(es, acc, Meaning(e.doc));
        ElementsRead(widen, data, pos + |chunk|, end, depth, es[1..], acc[e.key := Meaning(e.doc)]);
        MoreMembers(widen, data, pos, end, depth, es, acc);
      } else {
        MemberLost(widen, data, pos, end, depth, es, acc);
      }
    }
  }

  lemma NotNothing(widen: Widen, key: Bytes, d: Doc)
    ensures |Element(widen, key, d)| > 0
  {
  }

  lemma NoMembers(widen: Widen, data: Bytes, pos: nat, depth: nat, acc: map<Bytes, Value>)
    requires pos < |data|
    ensures MembersRead(widen, data, pos, pos, depth, [], acc)
  {
    assert Build([], acc) == acc;
  }

  lemma LaterKeys(es: seq<Entry>, acc: map<Bytes, Value>, v: Value)
    requires es != [] && DistinctKeys(es) && KeyKept(es[0].key)
    requires CleanKeys(acc) && forall i :: 0 <= i < |es| ==> es[i].key !in acc
    ensures DistinctKeys(es[1..]) && CleanKeys(acc[es[0].key := v])
    ensures forall i :: 0 <= i < |es[1..]| ==> es[1..][i].key !in acc[es[0].key := v]
  {
    hide KeyKept;
  }

  lemma FirstMember(es: seq<Entry>, acc: map<Bytes, Value>)
    requires es != [] && es[0].key !in acc
    ensures var v := Meaning(es[0].doc);
      Emplace(acc, es[0].key, v) == acc[es[0].key := v]
      && Build(ImagePairs(Same(), es), acc) == Build(ImagePairs(Same(), es[1..]), acc[es[0].key := v])
  {
    hide Image;
    var ps := ImagePairs(Same(), es);
    assert ps[1..] == ImagePairs(Same(), es[1..]);
  }

  lemma MoreMembers(widen: Widen, data: Bytes, pos: nat, end: nat, depth: nat, es: seq<Entry>, acc: map<Bytes, Value>)
    requires es != [] && es[0].key !in acc && pos < end < |data| && KeyKept(es[0].key) && Kept(es[0].doc, depth)
    requires ElementReads(widen, data, pos, end, depth, es[0].key, es[0].doc)
    requires MembersRead(widen, data, pos + |Element(widen, es[0].key, es[0].doc)|, end, depth, es[1..], acc[es[0].key := Meaning(es[0].doc)])
    ensures MembersRead(widen, data, pos, end, depth, es, acc)
  {
    hide ReadElement, Build, ImagePairs, Kept, KeyKept, Element, Meaning, Emplace;
    FirstMember(es, acc);
  }

  /** Once a member is read as something else, the document is not the one that was written. */
  lemma MemberLost(widen: Widen, data: Bytes, pos: nat, end: nat, depth: nat, es: seq<Entry>, acc: map<Bytes, Value>)
    requires es != [] && DistinctKeys(es) && CleanKeys(acc) && (forall i :: 0 <= i < |es| ==> es[i].key !in acc)
    requires pos < end < |data| && !(KeyKept(es[0].key) && Kept(es[0].doc, depth))
    requires ElementReads(widen, data, pos, end, depth, es[0].key, es[0].doc)
    ensures MembersRead(widen, data, pos, end, depth, es, acc)
  {
    hide ReadElement, Build, ImagePairs, Kept, KeyKept, Element, Meaning, Emplace;
    var r, m := ReadElement(data, pos, end, depth), Build(ImagePairs(Same(), es), acc);
    KeysKept(Same(), es);
    BuildStores(ImagePairs(Same(), es), acc);
    FirstImage(es);
    KeyClean(data, pos, end, depth);
    if r.Ok? {
      EmplaceClean(acc, r.value.0, r.value.1);
      ElementsExtend(data, r.pos, end, depth, Emplace(acc, r.value.0, r.value.1));
      assert m[es[0].key] == Meaning(es[0].doc);
    }
  }

  lemma FirstImage(es: seq<Entry>)
    requires es != []
    ensures ImagePairs(Same(), es)[0] == (es[0].key, Meaning(es[0].doc))
  {
    hide Image;
  }

  // ---------- Results ----------

  /** Decoding an encoded root object, before any bytes: the object comes back exactly when every member is
      kept, and reading stops at the end of the document. */
  lemma RoundTrip(widen: Widen, es: seq<Entry>, rest: Bytes)
    requires WellFormed(Table(es)) && |Document(EntriesBytes(widen, es))| <= MAX_DOCUMENT
    ensures var doc := Document(EntriesBytes(widen, es));
      Reads(ReadDocument(doc + rest, 0, 0), Meaning(Table(es)).fields, |doc|, EntriesKept(es, 0))
  {
    hide Document, EntriesBytes, ReadDocument, EntriesKept, ImagePairs, Build;
    var doc := Document(EntriesBytes(widen, es));
    assert (doc + rest)[0..0 + |doc|] == doc;
    DocumentRead(widen, doc + rest, 0, 0, es);
  }

  /** An array document whose members lie in any order is read as the array in the order of its positions. */
  lemma OrderRestored(widen: Widen, data: Bytes, pos: nat, end: nat, depth: nat, key: Bytes, es: seq<Entry>, vs: seq<Value>)
    requires vs != [] && |vs| <= MAX_ARRAY_SIZE && Build(ImagePairs(Same(), es), map[]) == Indexed(vs)
    requires EntriesWellFormed(es) && DistinctKeys(es) && KeyKept(key) && depth < MAX_NESTING_DEPTH && EntriesKept(es, depth + 1)
    requires var chunk := [0x04] + (key + ([0] + Document(EntriesBytes(widen, es))));
      end < TWO_32 && At(data, pos, chunk) && pos + |chunk| <= end < |data|
    ensures ReadElement(data, pos, end, depth)
         == Ok((key, Array(vs)), pos + 2 + |key| + |Document(EntriesBytes(widen, es))|)
  {
    hide Document, EntriesBytes, ReadDocument, EntriesKept, ImagePairs, Build, Indexed, CStringEnd, ReadElement, Rebuild;
    var doc := Document(EntriesBytes(widen, es));
    AtSplit(data, pos, [0x04], key + ([0] + doc));
    AtHead(data, pos, [0x04]);
    assert key + ([0] + doc) == (key + [0]) + doc;
    AtSplit(data, pos + 1, key + [0], doc);
    CStringEndIs(data, pos + 1, end, key);
    AtSplit(data, pos + 1, key, [0]);
    StepElement(data, pos, end, depth, key, 0x04, pos + 1 + |key|);
    DocumentRead(widen, data, pos + 2 + |key|, depth + 1, es);
    RebuildIs(Build(ImagePairs(Same(), es), map[]), vs);
  }
}
