/** Exactly which documents survive being printed as JSON and parsed again. */
module JsonFaithful {
  import opened Bytes
  import opened Values
  import opened Text
  import opened Regexes
  import opened Json
  import opened JsonTokens
  import opened JsonProofs
  import Base64

  // ---------- The condition ----------

  /** A string the parser returns unchanged: it fits, and is not laid out as a date it can read. */
  predicate Plain(plat: Platform, s: Bytes)
  {
    |Escape(s)| <= MAX_STRING_LEN && ReadDate(plat, Escape(s)) == None
  }

  function Base64Length(data: Bytes): (r: nat)
  {
    (|data| + 2) / 3 * 4
  }

  ghost predicate FaithfulScalar(plat: Platform, s: Scalar, depth: nat)
  {
    match s
    case Text(t, false) => Plain(plat, t)
    case Text(t, true) => IntegerLiteral(t) && Int64Of(t) == None && |t| <= MAX_STRING_LEN
    case Binary(data) => depth + 2 <= MAX_NESTING_DEPTH && data != [] && Base64Length(data) <= MAX_STRING_LEN
    case Extension(t, payload) =>
      depth + 2 <= MAX_NESTING_DEPTH && t != 0 && payload != [] && Base64Length(payload) <= MAX_STRING_LEN
    case ObjectId(oid) => depth + 1 <= MAX_NESTING_DEPTH && |oid| == 12
    case Timestamp(_) => depth + 2 <= MAX_NESTING_DEPTH
    case Regex(source) =>
      depth + 1 <= MAX_NESTING_DEPTH && RegexSource(source) && |source| <= MAX_STRING_LEN - 1
      && Plain(plat, PatternOf(source)) && Plain(plat, OptionsOf(source))
    case _ => true
  }

  /** An object the parser takes for Extended JSON. */
  ghost predicate Lookalike(m: map<Bytes, Value>)
  {
    var oid, ts, bin := TextAt(m, OID), ObjectAt(m, TIMESTAMP), ObjectAt(m, BINARY);
    || (|m| == 1 && oid.Some? && |oid.value| == 24)
    || (|m| == 1 && ts.Some? && SECONDS in ts.value && ts.value[SECONDS].Leaf? && ts.value[SECONDS].scalar.Int?)
    || (|m| == 1 && bin.Some? && BinaryOf(bin.value).Some?)
    || TextAt(m, REGEX).Some?
  }

  ghost predicate Faithful(plat: Platform, d: Doc, depth: nat)
    decreases d
  {
    match d
    case Atom(s) => FaithfulScalar(plat, s, depth)
    case List(items) =>
      depth + 1 <= MAX_NESTING_DEPTH && |items| <= MAX_ARRAY_SIZE && FaithfulItems(plat, items, depth + 1)
    case Table(es) =>
      depth + 1 <= MAX_NESTING_DEPTH && |es| <= MAX_OBJECT_SIZE && FaithfulEntries(plat, es, depth + 1)
      && !Lookalike(Meaning(d).fields)
  }

  ghost predicate FaithfulItems(plat: Platform, ds: seq<Doc>, depth: nat)
    decreases ds
  {
    ds == [] || (Faithful(plat, ds[0], depth) && FaithfulItems(plat, ds[1..], depth))
  }

  ghost predicate FaithfulEntries(plat: Platform, es: seq<Entry>, depth: nat)
    decreases es
  {
    es == [] || (|Escape(es[0].key)| <= MAX_STRING_LEN && Faithful(plat, es[0].doc, depth)
                 && FaithfulEntries(plat, es[1..], depth))
  }

  /** Objects without the four reserved keys are never taken for Extended JSON. */
  lemma NotReserved(es: seq<Entry>)
    requires DistinctKeys(es)
    requires forall i :: 0 <= i < |es| ==> es[i].key !in {OID, TIMESTAMP, BINARY, REGEX}
    ensures !Lookalike(Meaning(Table(es)).fields)
  {
    var ps := ImagePairs(Same(), es);
    KeysKept(Same(), es);
    BuildStores(ps, map[]);
  }

  // ---------- Containers ----------

  /** What the parser makes of a printed document is its meaning exactly on the faithful ones. */
  lemma {:induction false} ExpectIsMeaning(plat: Platform, d: Doc, depth: nat)
    requires AllTextual(d) && WellFormed(d)
    ensures Expect(plat, d, depth) == Some(Meaning(d)) <==> Faithful(plat, d, depth)
    decreases d
  {
    hide Special, Lookalike, Build, FaithfulScalar;
    match d
    case Atom(s) => ScalarFaithful(plat, s, depth);
    case List(items) =>
      if depth + 1 <= MAX_NESTING_DEPTH && |items| <= MAX_ARRAY_SIZE { ItemsFaithful(plat, items, depth + 1); }
    case Table(es) =>
      if depth + 1 <= MAX_NESTING_DEPTH && |es| <= MAX_OBJECT_SIZE {
        EntriesFaithful(plat, es, depth + 1);
        TableFaithful(plat, es, depth);
      }
  }

  lemma TableFaithful(plat: Platform, es: seq<Entry>, depth: nat)
    requires EntriesTextual(es) && DistinctKeys(es)
    requires depth + 1 <= MAX_NESTING_DEPTH && |es| <= MAX_OBJECT_SIZE
    ensures var ps, m := ExpectPairs(plat, es, depth + 1), Meaning(Table(es));
      Expect(plat, Table(es), depth) == Some(m) <==> ps == Some(ImagePairs(Same(), es)) && !Lookalike(m.fields)
  {
    hide Build, Special, Lookalike, ExpectPairs;
    var ps, ms := ExpectPairs(plat, es, depth + 1), ImagePairs(Same(), es);
    if ps.Some? {
      KeysKept(Same(), es);
      BuildInjective(ps.value, ms, map[]);
      SpecialKeeps(Build(ps.value, map[]));
    }
  }

  /** Recognition as Extended JSON never yields another object. */
  lemma SpecialKeeps(m: map<Bytes, Value>)
    ensures Special(m).Some? && Special(m).value.Object? ==> Special(m).value == Object(m)
    ensures Special(m) == Some(Object(m)) <==> !Lookalike(m)
  {
    hide MakeRegex, HexBytes, BinaryOf;
    var bin := ObjectAt(m, BINARY);
    if bin.Some? { BinaryIsLeaf(bin.value); }
  }

  lemma BinaryIsLeaf(m: map<Bytes, Value>)
    ensures BinaryOf(m).Some? ==> BinaryOf(m).value.Leaf?
  {
    hide Base64.Decode, Strtol16;
  }

  lemma {:induction false} ItemsFaithful(plat: Platform, ds: seq<Doc>, depth: nat)
    requires ItemsTextual(ds) && AllWellFormed(ds)
    ensures ExpectItems(plat, ds, depth) == Some(Images(Same(), ds)) <==> FaithfulItems(plat, ds, depth)
    decreases ds
  {
    hide Expect, Faithful, Image, AllTextual, WellFormed;
    if ds != [] {
      ExpectIsMeaning(plat, ds[0], depth);
      ItemsFaithful(plat, ds[1..], depth);
      var v, vs := Expect(plat, ds[0], depth), ExpectItems(plat, ds[1..], depth);
      if v.Some? && vs.Some? {
        ConsEqual(v.value, vs.value, Image(Same(), ds[0]), Images(Same(), ds[1..]));
      }
    }
  }

  lemma {:induction false} EntriesFaithful(plat: Platform, es: seq<Entry>, depth: nat)
    requires EntriesTextual(es) && EntriesWellFormed(es)
    ensures ExpectPairs(plat, es, depth) == Some(ImagePairs(Same(), es)) <==> FaithfulEntries(plat, es, depth)
    decreases es
  {
    hide Expect, Faithful, Image, AllTextual, WellFormed, Escape;
    if es != [] {
      ExpectIsMeaning(plat, es[0].doc, depth);
      EntriesFaithful(plat, es[1..], depth);
      var v, ps := Expect(plat, es[0].doc, depth), ExpectPairs(plat, es[1..], depth);
      if v.Some? && ps.Some? {
        ConsEqual((es[0].key, v.value), ps.value, (es[0].key, Image(Same(), es[0].doc)), ImagePairs(Same(), es[1..]));
      }
    }
  }

  // ---------- Scalars ----------

  lemma ScalarFaithful(plat: Platform, s: Scalar, depth: nat)
    requires Textual(s)
    ensures Expect(plat, Atom(s), depth) == Some(Leaf(s)) <==> FaithfulScalar(plat, s, depth)
  {
    hide Expect, ExpectPlain, RegexSource, Base64Length, Escape, IntegerLiteral, Int64Of;
    StepAtom(plat, s, depth);
    match s
    case Binary(data) => BinaryFaithful(plat, data, 0, depth);
    case Extension(t, payload) => BinaryFaithful(plat, payload, t % 256, depth); ExtensionType(t);
    case ObjectId(oid) => ObjectIdFaithful(plat, oid, depth);
    case Timestamp(n) => TimestampFaithful(plat, n, depth);
    case Regex(source) => RegexFaithful(plat, source, depth);
    case _ => PlainFaithful(plat, s, depth);
  }

  lemma StepAtom(plat: Platform, s: Scalar, depth: nat)
    requires Textual(s)
    ensures if IsWrapper(s) then AllTextual(WrapperDoc(s)) && Expect(plat, Atom(s), depth) == Expect(plat, WrapperDoc(s), depth)
            else Expect(plat, Atom(s), depth) == ExpectPlain(plat, s)
  {
    hide WrapperDoc;
    if IsWrapper(s) { WrapperTextual(s); }
  }

  lemma PlainFaithful(plat: Platform, s: Scalar, depth: nat)
    requires Textual(s) && !IsWrapper(s)
    ensures ExpectPlain(plat, s) == Some(Leaf(s)) <==> FaithfulScalar(plat, s, depth)
  {
    hide Escape;
  }

  lemma ExtensionType(t: Int8)
    ensures Signed(t % 256, 256) == t && (t % 256 == 0 <==> t == 0)
  {
  }

  // ---------- Single-member wrappers ----------

  lemma Expect1(plat: Platform, key: Bytes, d: Doc, depth: nat)
    requires AllTextual(d) && |Escape(key)| <= MAX_STRING_LEN
    ensures AllTextual(Table([Entry(key, d)]))
    ensures Expect(plat, Table([Entry(key, d)]), depth)
         == if depth + 1 > MAX_NESTING_DEPTH then None
            else match Expect(plat, d, depth + 1) case None => None case Some(v) => Special(map[key := v])
  {
    hide Special, Build, Escape;
    var e := Entry(key, d);
    assert [e][1..] == [];
    assert EntriesTextual([]) && EntriesTextual([e]);
    if depth + 1 <= MAX_NESTING_DEPTH {
      assert ExpectPairs(plat, [], depth + 1) == Some([]);
      match Expect(plat, d, depth + 1)
      case None =>
      case Some(v) =>
        assert ExpectPairs(plat, [e], depth + 1) == Some([(key, v)] + []);
        FirstPair(key, v, [], map[]);
        NoPairs(Emplace(map[], key, v));
    }
  }

  lemma Expect2(plat: Platform, a: Entry, b: Entry, depth: nat)
    requires AllTextual(a.doc) && AllTextual(b.doc) && a.key != b.key
    requires |Escape(a.key)| <= MAX_STRING_LEN && |Escape(b.key)| <= MAX_STRING_LEN
    ensures AllTextual(Table([a, b]))
    ensures Expect(plat, Table([a, b]), depth)
         == if depth + 1 > MAX_NESTING_DEPTH then None
            else match (Expect(plat, a.doc, depth + 1), Expect(plat, b.doc, depth + 1))
                 case (Some(v), Some(w)) => Special(map[a.key := v, b.key := w])
                 case _ => None
  {
    hide Special, Build, Escape;
    assert [b][1..] == [] && [a, b][1..] == [b];
    assert EntriesTextual([]) && EntriesTextual([b]) && EntriesTextual([a, b]);
    if depth + 1 <= MAX_NESTING_DEPTH {
      assert ExpectPairs(plat, [], depth + 1) == Some([]);
      assert Expect(plat, b.doc, depth + 1) == None ==> ExpectPairs(plat, [b], depth + 1) == None;
      match (Expect(plat, a.doc, depth + 1), Expect(plat, b.doc, depth + 1))
      case (Some(v), Some(w)) =>
        assert ExpectPairs(plat, [b], depth + 1) == Some([(b.key, w)] + []);
        assert ExpectPairs(plat, [a, b], depth + 1) == Some([(a.key, v)] + ([(b.key, w)] + []));
        FirstPair(a.key, v, [(b.key, w)] + [], map[]);
        FirstPair(b.key, w, [], Emplace(map[], a.key, v));
        NoPairs(Emplace(Emplace(map[], a.key, v), b.key, w));
        assert Emplace(Emplace(map[], a.key, v), b.key, w) == map[a.key := v, b.key := w];
      case _ => assert ExpectPairs(plat, [a, b], depth + 1) == None;
    }
  }

  // ---------- Text that escaping leaves alone ----------

  predicate Verbatim(b: Byte) { b >= 0x20 && b != QUOTE && b != BACKSLASH }

  ghost predicate AllVerbatim(s: Bytes)
  {
    forall i :: 0 <= i < |s| ==> Verbatim(s[i])
  }

  lemma {:induction false} EscapeVerbatim(s: Bytes)
    requires AllVerbatim(s)
    ensures Escape(s) == s
  {
    if s != [] {
      EscapeVerbatim(s[1..]);
      assert EscapeByte(s[0]) == [s[0]];
    }
  }

  lemma ExpectVerbatim(plat: Platform, s: Bytes, depth: nat)
    requires AllVerbatim(s) && MINUS !in s
    ensures Expect(plat, Atom(Text(s, false)), depth)
         == if |s| > MAX_STRING_LEN then None else Some(Leaf(Text(s, false)))
  {
    EscapeVerbatim(s);
  }

  lemma {:induction false} HexVerbatim(s: Bytes)
    ensures AllVerbatim(Hex(s)) && MINUS !in Hex(s)
  {
    if s != [] { HexVerbatim(s[1..]); }
  }

  lemma DefaultVerbatim(i: nat)
    requires i < 64
    ensures Verbatim(Base64.Default()[i]) && Base64.Default()[i] != MINUS
  {
  }

  lemma {:induction false} EncodedVerbatim(d: Bytes)
    ensures AllVerbatim(Base64.Encode(Base64.Default(), d)) && MINUS !in Base64.Encode(Base64.Default(), d)
    decreases |d|
  {
    hide Base64.Quad, Base64.Default;
    if d != [] {
      QuadVerbatim(if |d| < 3 then d else d[..3]);
      if |d| >= 3 { EncodedVerbatim(d[3..]); }
    }
  }

  lemma QuadVerbatim(d: Bytes)
    requires d != []
    ensures AllVerbatim(Base64.Quad(Base64.Default(), d)) && MINUS !in Base64.Quad(Base64.Default(), d)
  {
    hide Base64.Word, Base64.Default;
    var v := Base64.Word(d);
    DefaultVerbatim(v / 0x4_0000);
    DefaultVerbatim(v / 0x1000 % 64);
    DefaultVerbatim(v / 64 % 64);
    DefaultVerbatim(v % 64);
  }

  // ---------- Object identifiers and timestamps ----------

  lemma {:induction false} HexInverts(s: Bytes)
    ensures HexBytes(Hex(s)) == s
  {
    if s != [] {
      HexInverts(s[1..]);
      var a, b := HexDigit(s[0] / 16), HexDigit(s[0] % 16);
      assert Hex(s)[..2] == [a, b] && Hex(s)[2..] == Hex(s[1..]);
      HexPair(s[0]);
    }
  }

  lemma HexPair(b: Byte)
    ensures Strtol16([HexDigit(b / 16), HexDigit(b % 16)]) == b
  {
    var s := [HexDigit(b / 16), HexDigit(b % 16)];
    HexInverse(b / 16);
    HexInverse(b % 16);
    assert s[1..][1..] == [];
    assert HexRun(s[1..][1..], b) == b;
    assert HexRun(s[1..], b / 16) == HexRun(s[1..][1..], b / 16 * 16 + b % 16);
  }

  lemma ObjectIdFaithful(plat: Platform, oid: Bytes, depth: nat)
    ensures AllTextual(WrapperDoc(ObjectId(oid)))
    ensures Expect(plat, WrapperDoc(ObjectId(oid)), depth) == Some(Leaf(ObjectId(oid)))
       <==> depth + 1 <= MAX_NESTING_DEPTH && |oid| == 12
  {
    hide Expect, HexBytes, Hex;
    HexVerbatim(oid);
    HexInverts(oid);
    ExpectVerbatim(plat, Hex(oid), depth + 1);
    Short(OID);
    Expect1(plat, OID, Atom(Text(Hex(oid), false)), depth);
  }

  /** A key that needs no escaping is as long as it is. */
  lemma Short(key: Bytes)
    requires AllVerbatim(key) && |key| <= 10
    ensures |Escape(key)| <= MAX_STRING_LEN
  {
    EscapeVerbatim(key);
  }

  lemma TimestampFaithful(plat: Platform, n: Int64, depth: nat)
    ensures AllTextual(WrapperDoc(Timestamp(n)))
    ensures Expect(plat, WrapperDoc(Timestamp(n)), depth)
         == if depth + 2 <= MAX_NESTING_DEPTH then Some(Leaf(Timestamp(n))) else None
  {
    hide Expect, Special, AllVerbatim, AllTextual, Escape;
    var inner := Table([Entry(SECONDS, Atom(Int(n)))]);
    KeysVerbatim();
    Short(SECONDS);
    Short(TIMESTAMP);
    IntExpected(plat, n, depth + 2);
    Expect1(plat, SECONDS, Atom(Int(n)), depth + 1);
    TimestampSpecial(n);
    Expect1(plat, TIMESTAMP, inner, depth);
  }

  lemma TimestampSpecial(n: Int64)
    ensures var inner := map[SECONDS := Leaf(Int(n))];
      Special(inner) == Some(Object(inner)) && Special(map[TIMESTAMP := Object(inner)]) == Some(Leaf(Timestamp(n)))
  {
    hide BinaryOf, MakeRegex;
    Lengths();
  }

  lemma KeysVerbatim()
    ensures AllVerbatim(OID) && AllVerbatim(TIMESTAMP) && AllVerbatim(BINARY) && AllVerbatim(REGEX)
    ensures AllVerbatim(OPTIONS) && AllVerbatim(SECONDS) && AllVerbatim(BASE64) && AllVerbatim(SUBTYPE)
  {
  }

  lemma Lengths()
    ensures |OID| == 4 && |TIMESTAMP| == 10 && |BINARY| == 7 && |REGEX| == 6 && |OPTIONS| == 8 && |SECONDS| == 1
    ensures |BASE64| == 6 && BASE64[0] != REGEX[0] && |SUBTYPE| == 7 && SUBTYPE[0] != BINARY[0]
  {
  }

  lemma IntExpected(plat: Platform, n: Int64, depth: nat)
    ensures AllTextual(Atom(Int(n)))
    ensures Expect(plat, Atom(Int(n)), depth) == Some(Leaf(Int(n)))
  {
  }

  // ---------- Binary data ----------

  lemma BinaryFaithful(plat: Platform, data: Bytes, subType: Byte, depth: nat)
    ensures AllTextual(BinaryDoc(data, subType))
    ensures var r := Expect(plat, BinaryDoc(data, subType), depth);
      if depth + 2 <= MAX_NESTING_DEPTH && data != [] && Base64Length(data) <= MAX_STRING_LEN
      then r == Some(Leaf(if subType == 0 then Binary(data) else Extension(Signed(subType, 256), data)))
      else r.None? || r.value.Object?
  {
    hide Expect, Base64.Encode, Hex, Special, BinaryOf, AllVerbatim, AllTextual;
    KeysVerbatim();
    PlainTextual();
    var text := Base64.Encode(Base64.Default(), data);
    var a, b := Entry(BASE64, Atom(Text(text, false))), Entry(SUBTYPE, Atom(Text(Hex([subType]), false)));
    Lengths();
    Short(BASE64);
    Short(SUBTYPE);
    Short(BINARY);
    EncodedVerbatim(data);
    HexVerbatim([subType]);
    ExpectVerbatim(plat, text, depth + 2);
    ExpectVerbatim(plat, Hex([subType]), depth + 2);
    Expect2(plat, a, b, depth + 1);
    var m := map[BASE64 := Leaf(Text(text, false)), SUBTYPE := Leaf(Text(Hex([subType]), false))];
    BodyNotSpecial(m);
    Expect1(plat, BINARY, Table([a, b]), depth);
    BinaryBody(data, subType);
    BinarySpecial(m);
  }

  lemma PlainTextual()
    ensures forall t :: AllTextual(Atom(Text(t, false)))
  {
  }

  lemma BodyNotSpecial(m: map<Bytes, Value>)
    requires m.Keys == {BASE64, SUBTYPE}
    ensures Special(m) == Some(Object(m))
  {
    Lengths();
    SpecialKeeps(m);
  }

  lemma BinarySpecial(m: map<Bytes, Value>)
    ensures Special(map[BINARY := Object(m)]) == if BinaryOf(m).Some? then BinaryOf(m) else Some(Object(map[BINARY := Object(m)]))
  {
    hide BinaryOf;
    Lengths();
  }

  lemma BinaryBody(data: Bytes, subType: Byte)
    ensures var m := map[BASE64 := Leaf(Text(Base64.Encode(Base64.Default(), data), false)),
                         SUBTYPE := Leaf(Text(Hex([subType]), false))];
      BinaryOf(m)
      == if data == [] then None
         else Some(Leaf(if subType == 0 then Binary(data) else Extension(Signed(subType, 256), data)))
  {
    hide Base64.Encode, Base64.Decode, Base64.Default;
    Base64.DefaultIsAlphabet();
    Base64.RoundTrip(Base64.Default(), data);
    assert [subType][1..] == [];
    assert Hex([]) == [];
    assert Hex([subType]) == [HexDigit(subType / 16), HexDigit(subType % 16)];
    HexPair(subType);
    hide Strtol16;
    Lengths();
  }

  // ---------- Regular expressions ----------

  ghost function ExpectText(plat: Platform, t: Bytes): (r: Option<Value>)
  {
    if |Escape(t)| > MAX_STRING_LEN then None
    else match ReadDate(plat, Escape(t)) case Some(dt) => Some(Leaf(DateTime(dt.0, dt.1))) case None => Some(Leaf(Text(t, false)))
  }

  lemma RegexFaithful(plat: Platform, source: Bytes, depth: nat)
    ensures AllTextual(WrapperDoc(Regex(source)))
    ensures Expect(plat, WrapperDoc(Regex(source)), depth) == Some(Leaf(Regex(source)))
       <==> FaithfulScalar(plat, Regex(source), depth)
  {
    hide Expect, Escape, Special, MakeRegex, PatternOf, OptionsOf, RegexSource, ReadDate;
    WrapperTextual(Regex(source));
    RegexRebuilt(source);
    var p, o := PatternOf(source), OptionsOf(source);
    var a, b := Entry(REGEX, Atom(Text(p, false))), Entry(OPTIONS, Atom(Text(o, false)));
    Lengths();
    Short(REGEX);
    Short(OPTIONS);
    TextExpected(plat, p, depth + 1);
    TextExpected(plat, o, depth + 1);
    if o == [] {
      assert [a] + [] == [a];
      EmptyPlain(plat);
      Expect1(plat, REGEX, a.doc, depth);
      match ExpectText(plat, p) { case Some(v) => RegexSpecial1(v); case None => }
    } else {
      assert [a] + [b] == [a, b];
      Expect2(plat, a, b, depth);
      match (ExpectText(plat, p), ExpectText(plat, o)) { case (Some(v), Some(w)) => RegexSpecial2(v, w); case _ => }
    }
  }

  lemma TextExpected(plat: Platform, t: Bytes, depth: nat)
    ensures Expect(plat, Atom(Text(t, false)), depth) == ExpectText(plat, t)
  {
    hide Escape;
  }

  lemma EmptyPlain(plat: Platform)
    ensures Plain(plat, [])
  {
  }

  lemma RegexSpecial1(v: Value)
    requires v.Leaf? && (v.scalar.Text? || v.scalar.DateTime?)
    ensures Special(map[REGEX := v])
         == if v.scalar.DateTime? then Some(Object(map[REGEX := v]))
            else match MakeRegex(v.scalar.text, []) case None => None case Some(s) => Some(Leaf(s))
  {
    hide MakeRegex;
    Lengths();
  }

  lemma RegexSpecial2(v: Value, w: Value)
    requires v.Leaf? && (v.scalar.Text? || v.scalar.DateTime?) && w.Leaf? && (w.scalar.Text? || w.scalar.DateTime?)
    ensures Special(map[REGEX := v, OPTIONS := w])
         == if v.scalar.DateTime? then Some(Object(map[REGEX := v, OPTIONS := w]))
            else match MakeRegex(v.scalar.text, if w.scalar.Text? then w.scalar.text else [])
                 case None => None
                 case Some(s) => Some(Leaf(s))
  {
    hide MakeRegex;
    Lengths();
    assert |map[REGEX := v, OPTIONS := w]| == 2;
  }

  // ---------- Whole documents ----------

  /** Parsing printed text gives the document back, in either layout, exactly when it is faithful. */
  lemma DocumentRoundTrip(plat: Platform, d: Doc, pretty: bool)
    requires AllTextual(d) && WellFormed(d)
    ensures ParseDocument(plat, Render(plat, d, pretty, 0)) == Some(Meaning(d)) <==> Faithful(plat, d, 0)
  {
    hide ParseValue, Render, Expect, Faithful, Meaning, AllTextual, WellFormed;
    var text := Render(plat, d, pretty, 0);
    RenderStarts(plat, d, pretty, 0);
    RenderAscii(plat, d, pretty);
    assert text[0..0 + |text|] == text;
    RoundTrip(plat, d, pretty, 0, text, 0, 0);
    ExpectIsMeaning(plat, d, 0);
  }

  /** Printed text never starts with a byte-order mark. */
  lemma RenderAscii(plat: Platform, d: Doc, pretty: bool)
    requires AllTextual(d)
    ensures Render(plat, d, pretty, 0) != [] && Render(plat, d, pretty, 0)[0] < 0x80
  {
    match d
    case Atom(s) =>
      if IsWrapper(s) {
        WrapperRank(s);
        WrapperTextual(s);
      } else if s.Int? {
        DecimalIsLiteral(s.num);
        LiteralStarts(Decimal(s.num));
      } else if s.Text? && s.rawNumber {
        LiteralStarts(s.text);
      }
    case List(_) =>
    case Table(_) =>
  }
}
