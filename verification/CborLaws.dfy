/** Laws of the CBOR decoder on arbitrary bytes, and of the heads it shares with the encoder. */
module CborLaws {
  import opened Bytes
  import opened Values
  import opened Cbor
  import opened Regexes
  import opened CborProofs

  // ---------- Arbitrary input ----------

  lemma {:induction false} BoundedGrows(v: Value, a: int, b: int)
    requires Bounded(v, a) && a <= b
    ensures Bounded(v, b)
    decreases v
  {
    match v
    case Leaf(_) =>
    case Array(items) => forall i | 0 <= i < |items| ensures Bounded(items[i], b - 1) { BoundedGrows(items[i], a - 1, b - 1); }
    case Object(fields) => forall k | k in fields ensures Bounded(fields[k], b - 1) { BoundedGrows(fields[k], a - 1, b - 1); }
  }

  ghost predicate AllBounded(vs: seq<Value>, h: int)
  {
    forall i :: 0 <= i < |vs| ==> Bounded(vs[i], h)
  }

  ghost predicate FieldsBounded(m: map<Bytes, Value>, h: int)
  {
    forall k :: k in m ==> Bounded(m[k], h)
  }

  /** Whatever the bytes, a successful call has moved forward, stays inside the input and returns a
      tree within the depth and size limits. */
  lemma {:induction false} DecodedIsBounded(fp: Floats, data: Input, pos: nat, depth: nat)
    requires Parse(fp, data, pos, depth).Ok?
    ensures pos < Parse(fp, data, pos, depth).pos <= |data|
    ensures Bounded(Parse(fp, data, pos, depth).value, MAX_NESTING_DEPTH - depth)
    decreases Remaining(data, pos), 0, 0
  {
    hide ReadArg, ReadString, ParseSimple, ParseItems, ParseEntries, Tagged, ParseIndefinite;
    var h := MAX_NESTING_DEPTH - depth;
    var major, info := data[pos] / 32, data[pos] % 32;
    if info == 31 {
      IndefiniteBounded(fp, data, pos + 1, major, depth);
    } else if major == 7 {
      SimpleBounded(fp, data, pos + 1, info, h);
    } else if 4 <= major <= 6 {
      var arg, p := ReadArg(data, pos + 1, info).value, ReadArg(data, pos + 1, info).pos;
      if major == 4 { ItemsBounded(fp, data, p, arg, depth + 1, []); }
      else if major == 5 { EntriesBounded(fp, data, p, arg, depth + 1, map[]); }
      else {
        var inner := Parse(fp, data, p, depth + 1);
        DecodedIsBounded(fp, data, p, depth + 1);
        BoundedGrows(inner.value, h - 1, h);
        TaggedBounded(fp, arg, inner.value, h);
      }
    }
  }

  lemma SimpleBounded(fp: Floats, data: Bytes, pos: nat, info: nat, h: int)
    requires pos <= |data| && h >= 0 && info < 31
    ensures var r := ParseSimple(fp, data, pos, info); r.Ok? ==> Bounded(r.value, h)
  {
  }

  lemma TaggedBounded(fp: Floats, tag: UInt64, v: Value, h: int)
    requires Bounded(v, h) && h >= 0
    ensures Bounded(Tagged(fp, tag, v), h)
  {
  }

  lemma {:induction false} IndefiniteBounded(fp: Floats, data: Input, pos: nat, major: nat, depth: nat)
    requires pos <= |data| && depth <= MAX_NESTING_DEPTH && ParseIndefinite(fp, data, pos, major, depth).Ok?
    ensures Bounded(ParseIndefinite(fp, data, pos, major, depth).value, MAX_NESTING_DEPTH - depth)
    decreases Remaining(data, pos), 9, 0
  {
    if major == 4 { UntilBreakBounded(fp, data, pos, depth + 1, []); }
    else if major == 5 { EntriesUntilBreakBounded(fp, data, pos, depth + 1, 0, map[]); }
  }

  lemma {:induction false} ItemsBounded(fp: Floats, data: Input, pos: nat, n: nat, depth: nat, acc: seq<Value>)
    requires ParseItems(fp, data, pos, n, depth, acc).Ok?
    requires AllBounded(acc, MAX_NESTING_DEPTH - depth)
    ensures AllBounded(ParseItems(fp, data, pos, n, depth, acc).value, MAX_NESTING_DEPTH - depth)
    ensures |ParseItems(fp, data, pos, n, depth, acc).value| == |acc| + n
    decreases Remaining(data, pos), 1, n
  {
    hide Parse, Bounded;
    if n > 0 {
      DecodedIsBounded(fp, data, pos, depth);
      var r := Parse(fp, data, pos, depth);
      ItemsBounded(fp, data, r.pos, n - 1, depth, acc + [r.value]);
    }
  }

  lemma {:induction false} EntriesBounded(fp: Floats, data: Input, pos: nat, n: nat, depth: nat, acc: map<Bytes, Value>)
    requires ParseEntries(fp, data, pos, n, depth, acc).Ok?
    requires FieldsBounded(acc, MAX_NESTING_DEPTH - depth)
    ensures FieldsBounded(ParseEntries(fp, data, pos, n, depth, acc).value, MAX_NESTING_DEPTH - depth)
    ensures |ParseEntries(fp, data, pos, n, depth, acc).value| <= |acc| + n
    decreases Remaining(data, pos), 2, n
  {
    hide Parse, Bounded;
    if n > 0 {
      PairBounded(fp, data, pos, depth);
      var r := ParsePair(fp, data, pos, depth);
      EntriesBounded(fp, data, r.pos, n - 1, depth, Emplace(acc, r.value.0, r.value.1));
    }
  }

  lemma {:induction false} PairBounded(fp: Floats, data: Input, pos: nat, depth: nat)
    requires ParsePair(fp, data, pos, depth).Ok?
    ensures Bounded(ParsePair(fp, data, pos, depth).value.1, MAX_NESTING_DEPTH - depth)
    decreases Remaining(data, pos), 1, 0
  {
    hide Parse, Bounded;
    DecodedIsBounded(fp, data, Parse(fp, data, pos, depth).pos, depth);
  }

  lemma {:induction false} UntilBreakBounded(fp: Floats, data: Input, pos: nat, depth: nat, acc: seq<Value>)
    requires pos <= |data| && ParseUntilBreak(fp, data, pos, depth, acc).Ok?
    requires AllBounded(acc, MAX_NESTING_DEPTH - depth) && |acc| <= MAX_ARRAY_SIZE
    ensures AllBounded(ParseUntilBreak(fp, data, pos, depth, acc).value, MAX_NESTING_DEPTH - depth)
    ensures |ParseUntilBreak(fp, data, pos, depth, acc).value| <= MAX_ARRAY_SIZE
    decreases Remaining(data, pos), 1, 0
  {
    hide Parse, Bounded;
    if pos < |data| && data[pos] != BREAK {
      DecodedIsBounded(fp, data, pos, depth);
      var r := Parse(fp, data, pos, depth);
      UntilBreakBounded(fp, data, r.pos, depth, acc + [r.value]);
    }
  }

  lemma {:induction false} EntriesUntilBreakBounded(fp: Floats, data: Input, pos: nat, depth: nat, count: nat,
                                                    acc: map<Bytes, Value>)
    requires pos <= |data| && ParseEntriesUntilBreak(fp, data, pos, depth, count, acc).Ok?
    requires FieldsBounded(acc, MAX_NESTING_DEPTH - depth) && |acc| <= count <= MAX_OBJECT_SIZE
    ensures FieldsBounded(ParseEntriesUntilBreak(fp, data, pos, depth, count, acc).value, MAX_NESTING_DEPTH - depth)
    ensures |ParseEntriesUntilBreak(fp, data, pos, depth, count, acc).value| <= MAX_OBJECT_SIZE
    decreases Remaining(data, pos), 2, 0
  {
    hide Parse, Bounded;
    if pos < |data| && data[pos] != BREAK {
      PairBounded(fp, data, pos, depth);
      var r := ParsePair(fp, data, pos, depth);
      EntriesUntilBreakBounded(fp, data, r.pos, depth, count + 1, Emplace(acc, r.value.0, r.value.1));
    }
  }

  // ---------- Definite and indefinite lengths agree ----------

  /** No item that decodes starts with the break byte. */
  lemma BreakIsNoItem(fp: Floats, data: Input, pos: nat, depth: nat)
    requires Parse(fp, data, pos, depth).Ok?
    ensures data[pos] != BREAK
  {
  }

  /** On any bytes: where `n` counted items end at a break, the break-terminated reading from the same
      position returns the same items and consumes the break. */
  lemma {:induction false} CountedThenBreak(fp: Floats, data: Input, pos: nat, n: nat, depth: nat, acc: seq<Value>)
    requires pos <= |data| && |acc| + n <= MAX_ARRAY_SIZE
    requires ParseItems(fp, data, pos, n, depth, acc).Ok?
    requires At(data, ParseItems(fp, data, pos, n, depth, acc).pos, [BREAK])
    ensures var r := ParseItems(fp, data, pos, n, depth, acc);
      ParseUntilBreak(fp, data, pos, depth, acc) == Ok(r.value, r.pos + 1)
    decreases n
  {
    hide Parse;
    AtHead(data, ParseItems(fp, data, pos, n, depth, acc).pos, [BREAK]);
    if n > 0 {
      BreakIsNoItem(fp, data, pos, depth);
      var r := Parse(fp, data, pos, depth);
      CountedThenBreak(fp, data, r.pos, n - 1, depth, acc + [r.value]);
    }
  }

  /** The converse: a break-terminated list is the counted list of as many items.  The returned `q` is
      where the items end: at the break, or at the end of the input, which also ends the list. */
  lemma {:induction false} UntilBreakIsCounted(fp: Floats, data: Input, pos: nat, depth: nat, acc: seq<Value>)
    returns (q: nat)
    requires pos <= |data| && ParseUntilBreak(fp, data, pos, depth, acc).Ok?
    ensures var r := ParseUntilBreak(fp, data, pos, depth, acc);
      && |acc| <= |r.value|
      && ParseItems(fp, data, pos, |r.value| - |acc|, depth, acc) == Ok(r.value, q)
      && (if q < |data| then data[q] == BREAK && r.pos == q + 1 else r.pos == q)
    decreases Remaining(data, pos)
  {
    hide Parse;
    if pos == |data| || data[pos] == BREAK {
      q := pos;
    } else {
      var r := Parse(fp, data, pos, depth);
      q := UntilBreakIsCounted(fp, data, r.pos, depth, acc + [r.value]);
    }
  }

  lemma {:induction false} CountedEntriesThenBreak(fp: Floats, data: Input, pos: nat, n: nat, depth: nat,
                                                   count: nat, acc: map<Bytes, Value>)
    requires pos <= |data| && count + n <= MAX_OBJECT_SIZE
    requires ParseEntries(fp, data, pos, n, depth, acc).Ok?
    requires At(data, ParseEntries(fp, data, pos, n, depth, acc).pos, [BREAK])
    ensures var r := ParseEntries(fp, data, pos, n, depth, acc);
      ParseEntriesUntilBreak(fp, data, pos, depth, count, acc) == Ok(r.value, r.pos + 1)
    decreases n
  {
    hide Parse;
    AtHead(data, ParseEntries(fp, data, pos, n, depth, acc).pos, [BREAK]);
    if n > 0 {
      BreakIsNoItem(fp, data, pos, depth);
      var r := ParsePair(fp, data, pos, depth);
      CountedEntriesThenBreak(fp, data, r.pos, n - 1, depth, count + 1, Emplace(acc, r.value.0, r.value.1));
    }
  }

  /** Encoded items between 0x9F and 0xFF decode to the very array their counted encoding decodes to. */
  lemma IndefiniteArray(fp: Floats, items: seq<Doc>, data: Input, pos: nat, depth: nat)
    requires Fits(List(items), depth)
    requires At(data, pos, [0x9F] + (EncodeItems(fp, items) + [BREAK]))
    ensures Parse(fp, data, pos, depth)
         == Ok(Image(Lossy(fp), List(items)), pos + |EncodeItems(fp, items)| + 2)
  {
    hide Parse, ParseItems, ParseUntilBreak, ItemsFit, Images;
    var body := EncodeItems(fp, items);
    AtHead(data, pos, [0x9F] + (body + [BREAK]));
    AtSplit(data, pos, [0x9F], body + [BREAK]);
    AtSplit(data, pos + 1, body, [BREAK]);
    ItemsRoundTrip(fp, items, data, pos + 1, depth + 1, []);
    CountedThenBreak(fp, data, pos + 1, |items|, depth + 1, []);
    assert [] + Images(Lossy(fp), items) == Images(Lossy(fp), items);
    StepIndefinite(fp, data, pos, depth);
  }

  /** Encoded key/value pairs between 0xBF and 0xFF decode to the very map of the counted encoding. */
  lemma IndefiniteMap(fp: Floats, es: seq<Entry>, data: Input, pos: nat, depth: nat)
    requires Fits(Table(es), depth)
    requires At(data, pos, [0xBF] + (EncodeEntries(fp, es) + [BREAK]))
    ensures Parse(fp, data, pos, depth)
         == Ok(Image(Lossy(fp), Table(es)), pos + |EncodeEntries(fp, es)| + 2)
  {
    hide Parse, ParseEntries, ParseEntriesUntilBreak, EntriesFit, ImagePairs, Build;
    var body := EncodeEntries(fp, es);
    AtHead(data, pos, [0xBF] + (body + [BREAK]));
    AtSplit(data, pos, [0xBF], body + [BREAK]);
    AtSplit(data, pos + 1, body, [BREAK]);
    EntriesRoundTrip(fp, es, data, pos + 1, depth + 1, map[]);
    CountedEntriesThenBreak(fp, data, pos + 1, |es|, depth + 1, 0, map[]);
    StepIndefinite(fp, data, pos, depth);
  }

  lemma StepIndefinite(fp: Floats, data: Input, pos: nat, depth: nat)
    requires depth <= MAX_NESTING_DEPTH && pos < |data| && data[pos] % 32 == 31
    ensures Parse(fp, data, pos, depth) == ParseIndefinite(fp, data, pos + 1, data[pos] / 32, depth)
  {
  }

  // ---------- Chunked strings ----------

  function Concat(chunks: seq<Bytes>): (r: Bytes)
  {
    if chunks == [] then [] else chunks[0] + Concat(chunks[1..])
  }

  function EncodeChunks(major: nat, chunks: seq<Bytes>): (r: Bytes)
    requires major == 2 || major == 3
  {
    if chunks == [] then [] else StringBytes(major, chunks[0]) + EncodeChunks(major, chunks[1..])
  }

  lemma ChunksEnd(fp: Floats, data: Input, pos: nat, depth: nat, acc: Bytes)
    ensures pos < |data| && data[pos] == BREAK ==> ParseChunks(fp, data, pos, depth, acc) == Ok(acc, pos + 1)
  {
  }

  lemma ChunksStep(fp: Floats, major: nat, s: Bytes, data: Input, pos: nat, depth: nat, acc: Bytes)
    requires (major == 2 && s != []) || major == 3
    requires |acc| + |s| <= MAX_STRING_LEN && pos < |data| && data[pos] != BREAK
    requires Parse(fp, data, pos, depth).Ok?
    requires Parse(fp, data, pos, depth).value == Leaf(if major == 2 then Binary(s) else Text(s, false))
    ensures ParseChunks(fp, data, pos, depth, acc) == ParseChunks(fp, data, Parse(fp, data, pos, depth).pos, depth, acc + s)
  {
    hide Parse;
  }

  lemma {:induction false} ChunksInverse(fp: Floats, major: nat, chunks: seq<Bytes>, data: Input, pos: nat,
                                         depth: nat, acc: Bytes)
    requires major == 2 || major == 3
    requires depth <= MAX_NESTING_DEPTH && |acc| + |Concat(chunks)| <= MAX_STRING_LEN
    requires major == 2 ==> forall i :: 0 <= i < |chunks| ==> chunks[i] != []
    requires At(data, pos, EncodeChunks(major, chunks) + [BREAK])
    ensures ParseChunks(fp, data, pos, depth, acc)
         == Ok(acc + Concat(chunks), pos + |EncodeChunks(major, chunks)| + 1)
    decreases |chunks|
  {
    hide Parse, StringBytes, ParseChunks, ChunkOf;
    ChunksEnd(fp, data, pos, depth, acc);
    if chunks == [] {
      AtHead(data, pos, [] + [BREAK]);
      assert acc + [] == acc;
    } else {
      var first, rest := StringBytes(major, chunks[0]), EncodeChunks(major, chunks[1..]);
      assert first + rest + [BREAK] == first + (rest + [BREAK]);
      AtSplit(data, pos, first, rest + [BREAK]);
      StringInverse(fp, data, pos, depth, major, chunks[0]);
      BreakIsNoItem(fp, data, pos, depth);
      ChunksStep(fp, major, chunks[0], data, pos, depth, acc);
      ChunksInverse(fp, major, chunks[1..], data, pos + |first|, depth, acc + chunks[0]);
      assert acc + chunks[0] + Concat(chunks[1..]) == acc + Concat(chunks);
    }
  }

  /** Chunks between 0x5F (0x7F for text) and 0xFF decode to their concatenation. */
  lemma IndefiniteString(fp: Floats, major: nat, chunks: seq<Bytes>, data: Input, pos: nat, depth: nat)
    requires major == 2 || major == 3
    requires depth < MAX_NESTING_DEPTH && |Concat(chunks)| <= MAX_STRING_LEN
    requires major == 2 ==> forall i :: 0 <= i < |chunks| ==> chunks[i] != []
    requires At(data, pos, [major * 32 + 31] + (EncodeChunks(major, chunks) + [BREAK]))
    ensures Parse(fp, data, pos, depth)
         == Ok(Leaf(if major == 2 then Binary(Concat(chunks)) else Text(Concat(chunks), false)),
               pos + |EncodeChunks(major, chunks)| + 2)
  {
    hide Parse, ParseChunks, EncodeChunks, Concat;
    var body := EncodeChunks(major, chunks) + [BREAK];
    AtHead(data, pos, [major * 32 + 31] + body);
    AtSplit(data, pos, [major * 32 + 31], body);
    ChunksInverse(fp, major, chunks, data, pos + 1, depth + 1, []);
    assert [] + Concat(chunks) == Concat(chunks);
    StepIndefinite(fp, data, pos, depth);
  }

  // ---------- Heads: shortest and order-preserving ----------

  /** Any accepted head for a value is at least as long as the one the encoder writes. */
  lemma HeadIsShortest(data: Bytes, pos: nat, info: nat)
    requires info < 32 && pos < |data|
    requires ReadArg(data, pos + 1, info).Ok?
    ensures var r := ReadArg(data, pos + 1, info); 1 + ArgWidth(r.value) <= r.pos - pos
  {
    Pow256Values();
    var w := if info == 24 then 1 else if info == 25 then 2 else if info == 26 then 4 else if info == 27 then 8 else 0;
    FromBigEndianBound(data[pos + 1..pos + 1 + w]);
  }

  /** Bytewise lexicographic order. */
  predicate Precedes(a: Bytes, b: Bytes)
  {
    b != [] && (a == [] || a[0] < b[0] || (a[0] == b[0] && Precedes(a[1..], b[1..])))
  }

  lemma {:induction false} PrecedesLast(a: Bytes, b: Bytes, x: Byte, y: Byte)
    requires |a| == |b|
    ensures Precedes(a + [x], b + [y]) <==> Precedes(a, b) || (a == b && x < y)
  {
    if a == [] {
      assert a + [x] == [x] && b + [y] == [y];
    } else {
      assert (a + [x])[1..] == a[1..] + [x] && (b + [y])[1..] == b[1..] + [y];
      PrecedesLast(a[1..], b[1..], x, y);
      assert a == [a[0]] + a[1..] && b == [b[0]] + b[1..];
      ConsEqual(a[0], a[1..], b[0], b[1..]);
    }
  }

  lemma {:induction false} BigEndianOrder(m: nat, n: nat, w: nat)
    requires m < Pow256(w) && n < Pow256(w)
    ensures Precedes(BigEndian(m, w), BigEndian(n, w)) <==> m < n
  {
    if w > 0 {
      BigEndianOrder(m / 256, n / 256, w - 1);
      PrecedesLast(BigEndian(m / 256, w - 1), BigEndian(n / 256, w - 1), m % 256, n % 256);
      BigEndianInverse(m / 256, w - 1);
      BigEndianInverse(n / 256, w - 1);
    }
  }

  /** Within one major type, heads sort bytewise as their arguments sort numerically. */
  lemma HeadsKeepOrder(major: nat, m: UInt64, n: UInt64)
    requires major < 8
    ensures Precedes(Head(major, m), Head(major, n)) <==> m < n
  {
    var a, b := Head(major, m), Head(major, n);
    assert a[1..] == BigEndian(m, ArgWidth(m)) && b[1..] == BigEndian(n, ArgWidth(n));
    if ArgInfo(m) == ArgInfo(n) && ArgWidth(m) > 0 {
      Pow256Values();
      BigEndianOrder(m, n, ArgWidth(m));
    }
  }

  // ---------- Prefix-freedom ----------

  /** No accepted encoding is a proper prefix of another; equal prefixes mean equal images. */
  lemma PrefixFree(fp: Floats, a: Doc, b: Doc)
    requires Fits(a, 0) && Fits(b, 0)
    requires |Encode(fp, b)| < TWO_63 && Encode(fp, a) <= Encode(fp, b)
    ensures Encode(fp, a) == Encode(fp, b) && Image(Lossy(fp), a) == Image(Lossy(fp), b)
  {
    var data: Input := Encode(fp, b);
    assert At(data, 0, Encode(fp, a)) && At(data, 0, Encode(fp, b));
    RoundTrip(fp, a, data, 0, 0);
    RoundTrip(fp, b, data, 0, 0);
  }

  // ---------- What survives ----------

  function AfterLastBar(p: Bytes): (r: Bytes)
  {
    var bar := LastIndexOf(p, '|' as int);
    if bar >= 0 then p[bar + 1..] else []
  }

  lemma {:induction false} CStringStops(p: Bytes, rest: Bytes)
    requires 0 !in p
    ensures CString(p + [0] + rest) == p
  {
    var s := p + [0] + rest;
    if p != [] {
      assert s[1..] == p[1..] + [0] + rest;
      CStringStops(p[1..], rest);
      assert [p[0]] + p[1..] == p;
    }
  }

  /** A stored regular expression comes back unchanged exactly when it is a pattern, its only NUL and options, short
      enough to be made, and its options are free of bars and repeat what follows the last bar of its pattern
      (nothing, if the pattern has no bar). */
  lemma RegexSurvives(fp: Floats, s: Bytes)
    ensures ScalarImage(fp, Regex(s)) == Regex(s)
       <==> RegexSource(s) && |s| <= MAX_STRING_LEN - 1
            && '|' as int !in OptionsOf(s) && OptionsOf(s) == AfterLastBar(PatternOf(s))
  {
    hide LastIndexOf, CString, ScalarImage, RegexSource, AfterLastBar, PatternOf, OptionsOf;
    if RegexSource(s) {
      SourceSplit(s);
      if |s| <= MAX_STRING_LEN - 1 { PartsSurvive(fp, PatternOf(s), OptionsOf(s)); }
      else { LongChanged(fp, s); }
    } else {
      OthersChanged(fp, s);
    }
  }

  lemma LongChanged(fp: Floats, s: Bytes)
    requires |s| > MAX_STRING_LEN - 1
    ensures ScalarImage(fp, Regex(s)) != Regex(s)
  {
    hide LastIndexOf, CString, ScalarImage;
    RegexImageIs(fp, s);
  }

  lemma OthersChanged(fp: Floats, s: Bytes)
    requires !RegexSource(s)
    ensures ScalarImage(fp, Regex(s)) != Regex(s)
  {
    hide LastIndexOf, CString, ScalarImage, RegexSource;
    var k := LastIndexOf(s, '|' as int);
    var opts := if k >= 0 then s[k + 1..] else [];
    RegexImageIs(fp, s);
    CStringFree(s);
    CStringFree(opts);
    MadeSource(CString(s), CString(opts));
  }

  lemma MadeSource(p: Bytes, o: Bytes)
    requires 0 !in p && 0 !in o
    ensures p != [] ==> RegexSource(p + [0] + o)
  {
    if p != [] { assert (p + [0] + o)[|p|] == 0; }
  }

  lemma PartsSurvive(fp: Floats, p: Bytes, o: Bytes)
    requires 0 !in p && 0 !in o && p != [] && |p| + |o| <= MAX_STRING_LEN - 2
    ensures ScalarImage(fp, Regex(p + [0] + o)) == Regex(p + [0] + o)
       <==> '|' as int !in o && o == AfterLastBar(p)
  {
    hide LastIndexOf, CString, ScalarImage;
    var s, BAR := p + [0] + o, '|' as int;
    RegexImageIs(fp, s);
    CStringStops(p, o);
    LastIndexFound(s, BAR);
    LastIndexFound(p, BAR);
    LastIndexFound(o, BAR);
    var k := LastIndexOf(s, BAR);
    var opts := if k >= 0 then s[k + 1..] else [];
    if k > |p| {
      // The last bar is among the options: only a proper part of them is kept.
      BarInOptions(p, o, k);
      CStringShorter(opts);
      SplitAtNul(p, CString(opts), o);
    } else {
      assert s[|p|] == 0;
      LastBarInPattern(p, o, k);
      CStringStops(AfterLastBar(p), o);
      CStringEmpty();
      SplitAtNul(p, CString(opts), o);
    }
  }

  lemma BarInOptions(p: Bytes, o: Bytes, k: nat)
    requires |p| < k < |p + [0] + o|
    ensures (p + [0] + o)[k + 1..] == o[k - |p|..] && (p + [0] + o)[k] == o[k - |p| - 1]
  {
  }

  lemma RegexImageIs(fp: Floats, s: Bytes)
    ensures var k := LastIndexOf(s, '|' as int); var opts := if k >= 0 then s[k + 1..] else [];
      ScalarImage(fp, Regex(s))
      == if CString(s) == [] || |CString(s)| + |CString(opts)| > MAX_STRING_LEN - 2 then Text(s, false)
         else Regex(CString(s) + [0] + CString(opts))
  {
    hide LastIndexOf, CString, ScalarImage;
    ImageOfRegex(fp, s);
  }

  lemma ImageOfRegex(fp: Floats, s: Bytes)
    ensures ScalarImage(fp, Regex(s)) == if RegexOf(s).Some? then RegexOf(s).value else Text(s, false)
  {
    hide RegexOf;
  }

  lemma CStringEmpty()
    ensures CString([]) == []
  {
  }

  lemma CStringShorter(s: Bytes)
    ensures |CString(s)| <= |s|
  {
  }

  lemma LastBarInPattern(p: Bytes, o: Bytes, k: int)
    requires 0 !in p && -1 <= k < |p|
    requires var s := p + [0] + o; (k >= 0 ==> s[k] == '|' as int) && forall i :: k < i < |s| ==> s[i] != '|' as int
    ensures k == LastIndexOf(p, '|' as int) && '|' as int !in o
    ensures k >= 0 ==> (p + [0] + o)[k + 1..] == AfterLastBar(p) + [0] + o
    ensures 0 !in AfterLastBar(p)
  {
    hide LastIndexOf;
    ThreeParts(p, o);
    LastIndexIs(p, '|' as int, k);
    if k >= 0 { BehindBar(p, o, k); }
    NoBarBehind(p, o, k);
  }

  lemma NoBarBehind(p: Bytes, o: Bytes, k: int)
    requires -1 <= k < |p| && forall i :: k < i < |p + [0] + o| ==> (p + [0] + o)[i] != '|' as int
    ensures '|' as int !in o
  {
    ThreeParts(p, o);
    forall i | 0 <= i < |o| ensures o[i] != '|' as int { assert (p + [0] + o)[|p| + 1 + i] == o[i]; }
  }

  lemma ThreeParts(p: Bytes, o: Bytes)
    ensures var s := p + [0] + o;
      (forall i :: 0 <= i < |p| ==> s[i] == p[i]) && forall i :: 0 <= i < |o| ==> s[|p| + 1 + i] == o[i]
  {
  }

  lemma BehindBar(p: Bytes, o: Bytes, k: nat)
    requires k < |p|
    ensures (p + [0] + o)[k + 1..] == p[k + 1..] + [0] + o
  {
  }

  lemma SplitAtNul(p: Bytes, a: Bytes, b: Bytes)
    ensures p + [0] + a == p + [0] + b <==> a == b
  {
    assert (p + [0] + a)[|p| + 1..] == a && (p + [0] + b)[|p| + 1..] == b;
  }
}
