/** Reading back single MessagePack values: every band of every type. */
module MsgPackScalars {
  import opened Bytes
  import opened Values
  import opened MsgPack

  /** A reading that returns `v` and stops at `end` if it is kept, and otherwise fails or returns
      something else. */
  ghost predicate Reads(r: Parsed<Value>, v: Value, end: nat, kept: bool)
  {
    if kept then r == Ok(v, end) else r.Err? || r.value != v
  }

  /** A value that starts with no container tag, read as such. */
  ghost predicate FlatReads(data: Bytes, pos: nat, v: Value, end: nat, kept: bool)
  {
    pos < |data| && !IsArrayTag(data[pos]) && !IsMapTag(data[pos]) && Reads(ParseFlat(data, pos + 1, data[pos]), v, end, kept)
  }

  lemma WideAt(data: Bytes, pos: nat, n: nat, w: nat)
    requires w <= 8 && At(data, pos, BigEndian(n, w)) && n < Pow256(w)
    ensures ReadWide(data, pos, w) == Ok(n, pos + w)
  {
    WideInverse(data, pos, n, w, BigEndian(n, w));
  }

  // ---------- Integers ----------

  lemma SmallBytes(n: nat)
    ensures n < 0x100 ==> BigEndian(n, 1) == [n]
  {
    assert BigEndian(n / 256, 0) == [];
  }

  lemma IntAt(data: Bytes, pos: nat, tag: Byte, n: nat, w: nat, signed: bool)
    requires w == 1 || w == 2 || w == 4 || w == 8
    requires At(data, pos, [tag] + BigEndian(n, w)) && n < Pow256(w)
    ensures pos < |data| && data[pos] == tag
    ensures ReadInt(data, pos + 1, w, signed)
         == Ok(Leaf(Int(if signed || w == 8 then Signed(n, Pow256(w)) else n)), pos + 1 + w)
  {
    AtSplit(data, pos, [tag], BigEndian(n, w));
    AtHead(data, pos, [tag]);
    WideAt(data, pos + 1, n, w);
    Pow256Values();
  }

  lemma IntRead(data: Bytes, pos: nat, n: Int64)
    requires At(data, pos, IntBytes(n))
    ensures FlatReads(data, pos, Leaf(Int(n)), pos + |IntBytes(n)|, true)
  {
    hide ReadInt, BigEndian;
    Pow256Values();
    if -32 <= n <= 0x7F { AtHead(data, pos, IntBytes(n)); }
    else if 0 <= n {
      if n <= 0xFF { IntAt(data, pos, 0xCC, n, 1, false); }
      else if n <= 0xFFFF { IntAt(data, pos, 0xCD, n, 2, false); }
      else if n <= 0xFFFF_FFFF { IntAt(data, pos, 0xCE, n, 4, false); }
      else { IntAt(data, pos, 0xCF, n, 8, false); }
    } else {
      NegativeRead(data, pos, n);
    }
  }

  lemma NegativeRead(data: Bytes, pos: nat, n: Int64)
    requires n < -32 && At(data, pos, IntBytes(n))
    ensures FlatReads(data, pos, Leaf(Int(n)), pos + |IntBytes(n)|, true)
  {
    hide ReadInt, BigEndian;
    Pow256Values();
    if n >= -0x80 { IntAt(data, pos, 0xD0, n % 0x100, 1, true); }
    else if n >= -0x8000 { IntAt(data, pos, 0xD1, n % 0x1_0000, 2, true); }
    else if n >= -0x8000_0000 { IntAt(data, pos, 0xD2, n % TWO_32, 4, true); }
    else { IntAt(data, pos, 0xD3, ToU64(n), 8, true); }
  }

  // ---------- Strings and binary data ----------

  lemma CountedAt(data: Bytes, pos: nat, tag: Byte, s: Bytes, len: nat, w: nat)
    requires w <= 4 && len <= |s| && len < Pow256(w)
    requires At(data, pos, ([tag] + BigEndian(len, w)) + s)
    ensures pos < |data| && data[pos] == tag
    ensures var r := TakeCounted(data, pos + 1, w);
      if len == |s| && len <= MAX_STRING_LEN then r == Ok(s, pos + 1 + w + len) else r.Err? || |r.value| != |s|
  {
    hide Take;
    AtSplit(data, pos, [tag] + BigEndian(len, w), s);
    AtSplit(data, pos, [tag], BigEndian(len, w));
    AtHead(data, pos, [tag]);
    WideAt(data, pos + 1, len, w);
    TakeAt(data, pos + 1 + w, s, len);
  }

  lemma StringRead(data: Bytes, pos: nat, s: Bytes)
    requires At(data, pos, StrHead(|s|) + s)
    ensures FlatReads(data, pos, Leaf(Text(s, false)), pos + |StrHead(|s|) + s|, |s| <= MAX_STRING_LEN)
  {
    hide Take, TakeCounted, BigEndian;
    Pow256Values();
    if |s| <= 31 {
      AtSplit(data, pos, [0xA0 + |s|], s);
      AtHead(data, pos, [0xA0 + |s|]);
      TakeAt(data, pos + 1, s, |s|);
    }
    else if |s| <= 0xFF { CountedAt(data, pos, 0xD9, s, |s|, 1); }
    else if |s| <= 0xFFFF { CountedAt(data, pos, 0xDA, s, |s|, 2); }
    else { CountedAt(data, pos, 0xDB, s, |s| % TWO_32, 4); }
  }

  lemma BinaryRead(data: Bytes, pos: nat, s: Bytes)
    requires At(data, pos, BinHead(|s|) + s)
    ensures FlatReads(data, pos, Leaf(Binary(s)), pos + |BinHead(|s|) + s|, |s| <= MAX_STRING_LEN)
  {
    hide TakeCounted, BigEndian;
    Pow256Values();
    if |s| <= 0xFF { CountedAt(data, pos, 0xC4, s, |s|, 1); }
    else if |s| <= 0xFFFF { CountedAt(data, pos, 0xC5, s, |s|, 2); }
    else { CountedAt(data, pos, 0xC6, s, |s| % TWO_32, 4); }
  }

  // ---------- Extensions ----------

  lemma FixExtAt(data: Bytes, pos: nat, tag: Byte, t: Int8, payload: Bytes)
    requires |payload| in {1, 2, 4, 8, 16} && At(data, pos, [tag] + ([t % 256] + payload))
    ensures pos < |data| && data[pos] == tag
    ensures pos + 2 + |payload| <= |data| && data[pos + 2..pos + 2 + |payload|] == payload && Signed(data[pos + 1], 256) == t
  {
    AtSplit(data, pos, [tag], [t % 256] + payload);
    AtHead(data, pos, [tag]);
    AtSplit(data, pos + 1, [t % 256], payload);
    AtHead(data, pos + 1, [t % 256]);
  }

  lemma ExtLayout(data: Bytes, pos: nat, tag: Byte, count: Bytes, kind: Byte, payload: Bytes)
    requires At(data, pos, ([tag] + count) + ([kind] + payload))
    ensures pos + 2 + |count| <= |data| && data[pos] == tag && data[pos + 1 + |count|] == kind
    ensures At(data, pos + 1, count) && At(data, pos + 2 + |count|, payload)
  {
    AtSplit(data, pos, [tag] + count, [kind] + payload);
    AtSplit(data, pos, [tag], count);
    AtHead(data, pos, [tag]);
    AtSplit(data, pos + 1 + |count|, [kind], payload);
    AtHead(data, pos + 1 + |count|, [kind]);
  }

  lemma CountedExtAt(data: Bytes, pos: nat, tag: Byte, t: Int8, payload: Bytes, w: nat)
    requires w == 1 || w == 2 || w == 4
    requires |payload| % TWO_32 < Pow256(w)
    requires At(data, pos, ([tag] + BigEndian(|payload| % TWO_32, w)) + ([t % 256] + payload))
    ensures pos + 2 + w <= |data| && data[pos] == tag && At(data, pos + 2 + w, payload)
    ensures ReadExt(data, pos + 1, w) == ExtValue(data, pos + 2 + w, |payload| % TWO_32, t, w == 1)
  {
    hide ExtValue, ReadWide, ReadExt, BigEndian, FromBigEndian, Pow256, Signed;
    var len: nat := |payload| % TWO_32;
    ExtLayout(data, pos, tag, BigEndian(len, w), t % 256, payload);
    WideAt(data, pos + 1, len, w);
    SignedByte(t);
    CountedIs(data, pos + 1, w, len, t);
    AtFits(data, pos + 2 + w, payload);
  }

  lemma AtFits(data: Bytes, pos: nat, chunk: Bytes)
    requires At(data, pos, chunk)
    ensures pos + |chunk| <= |data|
  {
  }

  lemma SignedByte(t: Int8)
    ensures Signed(t % 256, 256) == t
  {
  }

  lemma CountedIs(data: Bytes, pos: nat, w: nat, len: nat, t: Int8)
    requires w <= 4 && ReadWide(data, pos, w) == Ok(len, pos + w)
    requires pos + w + 1 + len <= |data| && Signed(data[pos + w], 256) == t
    ensures ReadExt(data, pos, w) == ExtValue(data, pos + w + 1, len, t, w == 1)
  {
    hide ExtValue, ReadWide;
  }

  /** Extensions that come back as themselves: the types the decoder gives a meaning of its own are
      safe only at the sizes it does not look at them. */
  predicate ExtensionKept(t: Int8, len: nat)
  {
    if len in {1, 2, 16} then true
    else if len == 4 then t != -1
    else if len == 8 then t != 3 && t != -1
    else len <= MAX_STRING_LEN && t !in {1, 2, 3} && !(len == 12 && t == -1)
  }

  lemma ExtensionRead(data: Bytes, pos: nat, t: Int8, payload: Bytes)
    requires At(data, pos, ExtBytes(t, payload))
    ensures FlatReads(data, pos, Leaf(Extension(t, payload)), pos + |ExtBytes(t, payload)|, ExtensionKept(t, |payload|))
  {
    hide BigEndian, FromBigEndian, ReadExt, ExtensionKept, ExtValue, Pow256;
    var len := |payload|;
    Pow256Values();
    if len in {1, 2, 4, 8, 16} {
      FixExtRead(data, pos, t, payload);
    } else if len <= 0xFF {
      CountedExtAt(data, pos, 0xC7, t, payload, 1);
      CountedKept(data, pos + 3, t, payload, true);
    } else if len <= 0xFFFF {
      CountedExtAt(data, pos, 0xC8, t, payload, 2);
      CountedKept(data, pos + 4, t, payload, false);
    } else {
      CountedExtAt(data, pos, 0xC9, t, payload, 4);
      CountedKept(data, pos + 6, t, payload, false);
    }
  }

  lemma FixExtRead(data: Bytes, pos: nat, t: Int8, payload: Bytes)
    requires |payload| in {1, 2, 4, 8, 16} && At(data, pos, ExtBytes(t, payload))
    ensures FlatReads(data, pos, Leaf(Extension(t, payload)), pos + |ExtBytes(t, payload)|, ExtensionKept(t, |payload|))
  {
    hide BigEndian, FromBigEndian;
    var len := |payload|;
    var tag := if len == 1 then 0xD4 else if len == 2 then 0xD5 else if len == 4 then 0xD6 else if len == 8 then 0xD7 else 0xD8;
    FixExtAt(data, pos, tag, t, payload);
  }

  /** A counted extension keeps its type and payload exactly when the decoder has no use for them. */
  lemma CountedKept(data: Bytes, pos: nat, t: Int8, payload: Bytes, narrow: bool)
    requires At(data, pos, payload) && |payload| !in {1, 2, 4, 8, 16} && (narrow <==> |payload| <= 0xFF)
    ensures Reads(ExtValue(data, pos, |payload| % TWO_32, t, narrow), Leaf(Extension(t, payload)), pos + |payload|,
                  ExtensionKept(t, |payload|))
  {
    hide FromBigEndian, RegexValue;
    var len := |payload| % TWO_32;
    if t == 2 { RegexIsNoExtension(data[pos..pos + len]); }
    if len != |payload| { assert |data[pos..pos + len]| != |payload|; }
  }

  lemma RegexIsNoExtension(s: Bytes)
    ensures RegexValue(s).Regex? || RegexValue(s).Null?
  {
    hide LastIndexOf, CString;
  }

  lemma ObjectIdRead(data: Bytes, pos: nat, oid: Bytes)
    requires |oid| == 12 && At(data, pos, ExtBytes(1, oid))
    ensures FlatReads(data, pos, Leaf(ObjectId(oid)), pos + |ExtBytes(1, oid)|, true)
  {
    hide BigEndian, FromBigEndian, ReadExt;
    Pow256Values();
    CountedExtAt(data, pos, 0xC7, 1, oid, 1);
  }

  // ---------- Numbers in full width ----------

  lemma TimestampRead(data: Bytes, pos: nat, n: Int64)
    requires At(data, pos, [0xD7, 3] + BigEndian(ToU64(n), 8))
    ensures FlatReads(data, pos, Leaf(Timestamp(n)), pos + 10, true)
  {
    hide BigEndian, FromBigEndian;
    var payload := BigEndian(ToU64(n), 8);
    assert [0xD7, 3] + payload == [0xD7] + ([3 % 256] + payload);
    FixExtAt(data, pos, 0xD7, 3, payload);
    Pow256Values();
    BigEndianInverse(ToU64(n), 8);
    TwosComplement64(n);
  }

  lemma FloatRead(data: Bytes, pos: nat, bits: UInt64)
    requires At(data, pos, [0xCB] + BigEndian(bits, 8))
    ensures FlatReads(data, pos, Leaf(Double(bits)), pos + 9, true)
  {
    hide BigEndian, ReadWide;
    AtSplit(data, pos, [0xCB], BigEndian(bits, 8));
    AtHead(data, pos, [0xCB]);
    Pow256Values();
    WideAt(data, pos + 1, bits, 8);
  }

  lemma Float32Read(data: Bytes, pos: nat, bits: UInt32)
    requires At(data, pos, [0xCA] + BigEndian(bits, 4))
    ensures FlatReads(data, pos, Leaf(Float32(bits)), pos + 5, true)
  {
    hide BigEndian, ReadWide;
    AtSplit(data, pos, [0xCA], BigEndian(bits, 4));
    AtHead(data, pos, [0xCA]);
    Pow256Values();
    WideAt(data, pos + 1, bits, 4);
  }

  // ---------- Date-times ----------

  /** Milliseconds survive the trip through nanoseconds exactly when they are within a second. */
  lemma NanosKeepMillis(ms: int)
    ensures Nanos(ms) / 1_000_000 == ms <==> 0 <= ms < 1000
  {
  }

  /** Thirty bits over thirty-four. */
  lemma Packing(ns: nat, sec: nat)
    requires ns < NANOS && sec < TWO_34
    ensures ns * TWO_34 + sec < TWO_64
    ensures (ns * TWO_34 + sec) / TWO_34 == ns && (ns * TWO_34 + sec) % TWO_34 == sec
  {
  }

  lemma Seconds32Read(data: Bytes, pos: nat, ts: UInt32)
    requires At(data, pos, [0xD6, 0xFF] + BigEndian(ts, 4))
    ensures FlatReads(data, pos, Leaf(DateTime(ts, 0)), pos + 6, true)
  {
    hide BigEndian, FromBigEndian;
    var payload := BigEndian(ts, 4);
    assert [0xD6, 0xFF] + payload == [0xD6] + ([-1 % 256] + payload);
    FixExtAt(data, pos, 0xD6, -1, payload);
    Pow256Values();
    BigEndianInverse(ts, 4);
  }

  lemma PackedRead(data: Bytes, pos: nat, ns: nat, sec: nat)
    requires ns < NANOS && sec < TWO_34 && At(data, pos, [0xD7, 0xFF] + BigEndian(ns * TWO_34 + sec, 8))
    ensures FlatReads(data, pos, Leaf(DateTime(sec, ns / 1_000_000)), pos + 10, true)
  {
    hide BigEndian, FromBigEndian;
    var payload := BigEndian(ns * TWO_34 + sec, 8);
    Packing(ns, sec);
    assert [0xD7, 0xFF] + payload == [0xD7] + ([-1 % 256] + payload);
    FixExtAt(data, pos, 0xD7, -1, payload);
    Pow256Values();
    BigEndianInverse(ns * TWO_34 + sec, 8);
  }

  lemma WideDateTimeRead(data: Bytes, pos: nat, ns: nat, ts: Int64)
    requires ns < NANOS && At(data, pos, [0xC7, 12, 0xFF] + (BigEndian(ns, 4) + BigEndian(ToU64(ts), 8)))
    ensures FlatReads(data, pos, Leaf(DateTime(ts, ns / 1_000_000)), pos + 15, true)
  {
    hide BigEndian, FromBigEndian, ReadExt;
    var payload := BigEndian(ns, 4) + BigEndian(ToU64(ts), 8);
    SmallBytes(12);
    assert [0xC7, 12, 0xFF] + payload == ([0xC7] + BigEndian(12, 1)) + ([-1 % 256] + payload);
    Pow256Values();
    CountedExtAt(data, pos, 0xC7, -1, payload, 1);
    assert data[pos + 3..pos + 15] == payload;
    assert payload[..4] == BigEndian(ns, 4) && payload[4..] == BigEndian(ToU64(ts), 8);
    BigEndianInverse(ns, 4);
    BigEndianInverse(ToU64(ts), 8);
    TwosComplement64(ts);
  }

  lemma DateTimeRead(data: Bytes, pos: nat, ts: Int64, ms: int)
    requires At(data, pos, DateTimeBytes(ts, ms))
    ensures FlatReads(data, pos, Leaf(DateTime(ts, ms)), pos + |DateTimeBytes(ts, ms)|, 0 <= ms < 1000)
  {
    hide BigEndian, ParseFlat;
    var ns := Nanos(ms);
    NanosKeepMillis(ms);
    if 0 <= ts < TWO_32 && ns == 0 { Seconds32Read(data, pos, ts); }
    else if 0 <= ts < TWO_34 { PackedRead(data, pos, ns, ts); }
    else { WideDateTimeRead(data, pos, ns, ts); }
  }

  // ---------- Regular expressions ----------

  /** A pattern without bars, its NUL, and no options. */
  ghost predicate BareRegex(s: Bytes)
  {
    |s| > 1 && s[|s| - 1] == 0 && forall i :: 0 <= i < |s| - 1 ==> s[i] != 0 && s[i] != 124
  }

  /** A text and the NUL after it are all there is exactly when that NUL is the only one, and last. */
  lemma CStringBare(s: Bytes)
    requires s != []
    ensures CString(s) + [0] == s <==> s[|s| - 1] == 0 && 0 !in s[..|s| - 1]
  {
    hide CString;
    var p := s[..|s| - 1];
    CStringFree(s);
    if s[|s| - 1] == 0 && 0 !in p {
      assert s == p + [0] + [];
      CStringPrefix(p, []);
    }
    if CString(s) + [0] == s {
      assert s[..|CString(s)|] == CString(s);
    }
  }

  lemma {:induction false} CStringPrefix(p: Bytes, rest: Bytes)
    requires 0 !in p
    ensures CString(p + [0] + rest) == p
  {
    if p != [] {
      assert (p + [0] + rest)[1..] == p[1..] + [0] + rest;
      CStringPrefix(p[1..], rest);
    } else {
      assert (p + [0] + rest)[0] == 0;
    }
  }

  /** What a stored regular expression is rebuilt as. */
  lemma RegexRebuilt(s: Bytes)
    ensures RegexValue(s) == Regex(s) <==> BareRegex(s) && |s| <= MAX_STRING_LEN - 1
  {
    hide CString, LastIndexOf, MakeRegex;
    var bar := LastIndexOf(s, 124);
    LastIndexFound(s, 124);
    if bar >= 0 {
      var p, o := s[..bar], s[bar + 1..];
      BarLost(p, o);
      MakeRegexIs(p, o);
      assert s == p + [124] + o;
    } else {
      MakeRegexIs(s, []);
      WithoutBar(s);
    }
  }

  lemma MakeRegexIs(p: Bytes, o: Bytes)
    ensures var r := MakeRegex(p, o);
      r == if CString(p) == [] || |CString(p)| + |CString(o)| > MAX_STRING_LEN - 2 then None
           else Some(Regex(CString(p) + [0] + CString(o)))
  {
    hide CString;
  }

  lemma WithoutBar(s: Bytes)
    requires 124 !in s
    ensures CString(s) != [] && CString(s) + [0] + CString([]) == s <==> BareRegex(s)
    ensures BareRegex(s) ==> |CString(s)| == |s| - 1 && |CString([])| == 0
  {
    hide CString;
    CStringWhole([]);
    assert CString(s) + [0] + [] == CString(s) + [0];
    if s != [] {
      CStringBare(s);
      var p := s[..|s| - 1];
      assert 0 !in p <==> forall i :: 0 <= i < |p| ==> s[i] != 0 by { assert forall i :: 0 <= i < |p| ==> p[i] == s[i]; }
      assert |s| == 1 && CString(s) + [0] == s ==> CString(s) == [];
    }
  }

  lemma BarLost(p: Bytes, o: Bytes)
    ensures CString(p) + [0] + CString(o) != p + [124] + o
  {
    CStringWhole(p);
    CStringWhole(o);
    var a, b := CString(p) + [0] + CString(o), p + [124] + o;
    if |a| == |b| {
      assert CString(p) == p;
      assert a[|p|] == 0 && b[|p|] == 124;
    }
  }

  /** Bare expressions of other than the fixed sizes survive; the others become extensions, null or
      other expressions. */
  ghost predicate RegexKept(s: Bytes)
  {
    BareRegex(s) && |s| !in {2, 4, 8, 16} && |s| <= MAX_STRING_LEN - 1
  }

  lemma RegexRead(data: Bytes, pos: nat, s: Bytes)
    requires s != [] && At(data, pos, ExtBytes(2, s))
    ensures FlatReads(data, pos, Leaf(Regex(s)), pos + |ExtBytes(2, s)|, RegexKept(s))
  {
    hide BigEndian, FromBigEndian, ReadExt, BareRegex, ExtValue;
    var len := |s|;
    Pow256Values();
    BareSize(s);
    if len in {1, 2, 4, 8, 16} {
      FixRegex(data, pos, s);
    } else if len <= 0xFF {
      CountedExtAt(data, pos, 0xC7, 2, s, 1);
      CountedRegex(data, pos + 3, s, true);
    } else if len <= 0xFFFF {
      CountedExtAt(data, pos, 0xC8, 2, s, 2);
      CountedRegex(data, pos + 4, s, false);
    } else {
      CountedExtAt(data, pos, 0xC9, 2, s, 4);
      CountedRegex(data, pos + 6, s, false);
    }
  }

  lemma BareSize(s: Bytes)
    ensures BareRegex(s) ==> |s| > 1
  {
  }

  lemma FixRegex(data: Bytes, pos: nat, s: Bytes)
    requires |s| in {1, 2, 4, 8, 16} && At(data, pos, ExtBytes(2, s))
    ensures FlatReads(data, pos, Leaf(Regex(s)), pos + |ExtBytes(2, s)|, RegexKept(s))
  {
    hide BigEndian, FromBigEndian;
    var len := |s|;
    var tag := if len == 1 then 0xD4 else if len == 2 then 0xD5 else if len == 4 then 0xD6 else if len == 8 then 0xD7 else 0xD8;
    FixExtAt(data, pos, tag, 2, s);
  }

  lemma CountedRegex(data: Bytes, pos: nat, s: Bytes, narrow: bool)
    requires At(data, pos, s) && |s| !in {1, 2, 4, 8, 16}
    ensures Reads(ExtValue(data, pos, |s| % TWO_32, 2, narrow), Leaf(Regex(s)), pos + |s|, RegexKept(s))
  {
    hide RegexValue, BareRegex;
    var payload := data[pos..pos + |s| % TWO_32];
    RegexRebuilt(s);
    RegexSize(payload);
    BareSize(s);
    if |s| < TWO_32 {
      assert payload == s;
    } else if payload != [] {
      assert RegexValue(payload) != Regex(s);
    }
  }

  lemma RegexSize(s: Bytes)
    ensures RegexValue(s).Regex? ==> |RegexValue(s).source| < TWO_32
  {
    hide LastIndexOf;
  }
}
