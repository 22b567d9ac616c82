/** Base64 (section 4 of RFC 4648): the library's block forms and the converter's bit accumulators. */
module Base64 {
  import opened Bytes
  import opened Values

  const PAD: Byte := 61   // =

  /** A configured character set: 64 distinct characters, none of them the padding character. */
  ghost predicate Alphabet(chars: Bytes)
  {
    |chars| == 64 && PAD !in chars && forall i, j :: 0 <= i < j < 64 ==> chars[i] != chars[j]
  }

  // ---------- Encoder, three bytes at a time ----------

  /** The 24 bits of up to three bytes, missing ones read as zero. */
  function Word(d: Bytes): (r: nat)
    requires d != []
    ensures r < 0x100_0000
  {
    var a: int, b: int, c: int := d[0], if |d| > 1 then d[1] else 0, if |d| > 2 then d[2] else 0;
    a * 0x1_0000 + b * 0x100 + c
  }

  function Quad(chars: Bytes, d: Bytes): (r: Bytes)
    requires |chars| == 64 && d != []
    ensures |r| == 4
  {
    var v := Word(d);
    [chars[v / 0x4_0000], chars[v / 0x1000 % 64],
     if |d| > 1 then chars[v / 64 % 64] else PAD, if |d| > 2 then chars[v % 64] else PAD]
  }

  function Encode(chars: Bytes, d: Bytes): (r: Bytes)
    requires |chars| == 64
    ensures |r| == (|d| + 2) / 3 * 4
    ensures |r| % 4 == 0 && |d| <= |r| / 4 * 3
  {
    if |d| == 0 then [] else if |d| < 3 then Quad(chars, d) else Quad(chars, d[..3]) + Encode(chars, d[3..])
  }

  // ---------- Decoder, four characters at a time ----------

  /** The decode table: the last position of the character in the set, -1 if it has none. */
  function Lookup(chars: Bytes, c: Byte): (r: int)
    ensures -1 <= r < |chars|
  {
    LastIndexOf(chars, c)
  }

  /** The value of one character; padding counts as zero wherever it stands. */
  function Sextet(chars: Bytes, c: Byte): (r: Option<nat>)
    ensures r.Some? && |chars| == 64 ==> r.value < 64
  {
    if Lookup(chars, c) >= 0 then Some(Lookup(chars, c)) else if c == PAD then Some(0) else None
  }

  function Triple(chars: Bytes, q: Bytes): (r: Option<Bytes>)
    requires |chars| == 64 && |q| == 4
    ensures r.Some? ==> |r.value| == 3
  {
    match (Sextet(chars, q[0]), Sextet(chars, q[1]), Sextet(chars, q[2]), Sextet(chars, q[3]))
    case (Some(a), Some(b), Some(c), Some(d)) =>
      var v := a * 0x4_0000 + b * 0x1000 + c * 64 + d;
      Some([v / 0x1_0000, v / 0x100 % 256, v % 256])
    case _ => None
  }

  function Triples(chars: Bytes, s: Bytes): (r: Option<Bytes>)
    requires |chars| == 64 && |s| % 4 == 0
    ensures r.Some? ==> |r.value| == |s| / 4 * 3
  {
    if s == [] then Some([])
    else
      match (Triple(chars, s[..4]), Triples(chars, s[4..]))
      case (Some(a), Some(b)) => Some(a + b)
      case _ => None
  }

  function Padding(s: Bytes): (r: nat)
    ensures r <= 2
  {
    (if |s| >= 1 && s[|s| - 1] == PAD then 1 else 0) + (if |s| >= 2 && s[|s| - 2] == PAD then 1 else 0)
  }

  /** decodeBase64Fast; None where it raises its error flag and returns nothing. */
  function Decode(chars: Bytes, s: Bytes): (r: Option<Bytes>)
    requires |chars| == 64
  {
    if s == [] then Some([])
    else if |s| % 4 != 0 then None
    else
      match Triples(chars, s)
      case None => None
      case Some(b) => Some(b[..|s| / 4 * 3 - Padding(s)])
  }

  // ---------- One quad ----------

  lemma SextetInverse(chars: Bytes, i: nat)
    requires Alphabet(chars) && i < 64
    ensures Sextet(chars, chars[i]) == Some(i) && chars[i] != PAD
  {
    LastIndexIs(chars, chars[i], i);
  }

  lemma SextetPad(chars: Bytes)
    requires Alphabet(chars)
    ensures Sextet(chars, PAD) == Some(0)
  {
    LastIndexIs(chars, PAD, -1);
  }

  /** One quad gives back its bytes, zero-filled to three. */
  lemma QuadInverse(chars: Bytes, d: Bytes)
    requires Alphabet(chars) && 1 <= |d| <= 3
    ensures Triple(chars, Quad(chars, d)).Some?
    ensures Triple(chars, Quad(chars, d)).value[..|d|] == d
    ensures Padding(Quad(chars, d)) == 3 - |d|
  {
    hide Sextet;
    var v := Word(d);
    SextetInverse(chars, v / 0x4_0000);
    SextetInverse(chars, v / 0x1000 % 64);
    SextetInverse(chars, v / 64 % 64);
    SextetInverse(chars, v % 64);
    SextetPad(chars);
    var a: int, b: int, c: int := d[0], if |d| > 1 then d[1] else 0, if |d| > 2 then d[2] else 0;
    SextetsOf(a, b, c);
    var t := Triple(chars, Quad(chars, d));
    assert t == Some([a, b, c]);
    assert [a, b, c][..|d|] == d;
  }

  /** The four sextets of three bytes, and the three bytes of their sextets. */
  lemma SextetsOf(a: Byte, b: Byte, c: Byte)
    ensures var v := a as int * 0x1_0000 + b as int * 0x100 + c;
      && v / 0x4_0000 < 64
      && v / 0x4_0000 * 0x4_0000 + v / 0x1000 % 64 * 0x1000 + v / 64 % 64 * 64 + v % 64 == v
      && v / 0x1_0000 == a && v / 0x100 % 256 == b && v % 256 == c
      && (c == 0 ==> v % 64 == 0)
      && (b == 0 && c == 0 ==> v / 64 % 64 == 0)
  {
    var v := a as int * 0x1_0000 + b as int * 0x100 + c;
    Sextet0(a, b, c); Sextet1(a, b, c); Sextet2(a, b, c); Sextet3(a, b, c);
    BytesOfWord(a, b, c);
    SextetsJoin(v);
  }

  lemma BytesOfWord(a: Byte, b: Byte, c: Byte)
    ensures var v := a as int * 0x1_0000 + b as int * 0x100 + c;
      v / 0x1_0000 == a && v / 0x100 % 256 == b && v % 256 == c
  {
    var v := a as int * 0x1_0000 + b as int * 0x100 + c;
    assert v / 0x1_0000 == a;
    assert v / 0x100 == a as int * 256 + b;
  }

  lemma SextetsJoin(v: nat)
    ensures v / 0x4_0000 * 0x4_0000 + v / 0x1000 % 64 * 0x1000 + v / 64 % 64 * 64 + v % 64 == v
  {
    assert v / 0x1000 == v / 64 / 64 && v / 0x4_0000 == v / 64 / 64 / 64;
  }

  lemma Sextet0(a: Byte, b: Byte, c: Byte)
    ensures (a as int * 0x1_0000 + b as int * 0x100 + c) / 0x4_0000 == a / 4
  {
    assert a == 4 * (a / 4) + a % 4;
  }

  lemma Sextet1(a: Byte, b: Byte, c: Byte)
    ensures (a as int * 0x1_0000 + b as int * 0x100 + c) / 0x1000 % 64 == a % 4 * 16 + b / 16
  {
    var v := a as int * 0x1_0000 + b as int * 0x100 + c;
    assert v / 0x1000 == a as int * 16 + b / 16;
    assert a == 4 * (a / 4) + a % 4;
  }

  lemma Sextet2(a: Byte, b: Byte, c: Byte)
    ensures (a as int * 0x1_0000 + b as int * 0x100 + c) / 64 % 64 == b % 16 * 4 + c / 64
  {
    var v := a as int * 0x1_0000 + b as int * 0x100 + c;
    Quotient(v, 64, a as int * 1024 + b as int * 4 + c / 64, c % 64);
    var q := v / 64;
    assert q == 64 * (a as int * 16 + b / 16) + (b % 16 * 4 + c / 64);
    Quotient(q, 64, a as int * 16 + b / 16, b % 16 * 4 + c / 64);
  }

  lemma Sextet3(a: Byte, b: Byte, c: Byte)
    ensures (a as int * 0x1_0000 + b as int * 0x100 + c) % 64 == c % 64
  {
    assert a as int * 0x1_0000 + b as int * 0x100 + c == 64 * (a as int * 1024 + b as int * 4) + c;
  }

  // ---------- Round trip ----------

  /** Decoding inverts encoding, for every character set and every byte string. */
  lemma RoundTrip(chars: Bytes, d: Bytes)
    requires Alphabet(chars)
    ensures Decode(chars, Encode(chars, d)) == Some(d)
  {
    hide Encode, Triples, Padding;
    if d == [] {
      EncodeNothing(chars);
    } else {
      TriplesInverse(chars, d);
      EncodePadding(chars, d);
    }
  }

  lemma EncodeNothing(chars: Bytes)
    requires |chars| == 64
    ensures Encode(chars, []) == []
  {
  }

  lemma {:induction false} TriplesInverse(chars: Bytes, d: Bytes)
    requires Alphabet(chars)
    ensures var t := Triples(chars, Encode(chars, d)); t.Some? && t.value[..|d|] == d
  {
    hide Triple, Quad, Encode, Triples;
    EncodeStep(chars, d);
    TriplesNone(chars);
    if d == [] {
    } else if |d| < 3 {
      QuadInverse(chars, d);
      TriplesCons(chars, Quad(chars, d), []);
      assert Quad(chars, d) + [] == Quad(chars, d);
    } else {
      var head, tail := d[..3], d[3..];
      QuadInverse(chars, head);
      TriplesInverse(chars, tail);
      TriplesCons(chars, Quad(chars, head), Encode(chars, tail));
      var a, b := Triple(chars, Quad(chars, head)).value, Triples(chars, Encode(chars, tail)).value;
      assert (a + b)[..|d|] == a + b[..|tail|];
      assert head + tail == d;
    }
  }

  lemma EncodeStep(chars: Bytes, d: Bytes)
    requires |chars| == 64
    ensures Encode(chars, d)
         == if |d| == 0 then [] else if |d| < 3 then Quad(chars, d) else Quad(chars, d[..3]) + Encode(chars, d[3..])
  {
    hide Quad;
  }

  lemma TriplesNone(chars: Bytes)
    requires |chars| == 64
    ensures Triples(chars, []) == Some([])
  {
  }

  lemma TriplesCons(chars: Bytes, q: Bytes, rest: Bytes)
    requires |chars| == 64 && |q| == 4 && |rest| % 4 == 0 && Triple(chars, q).Some? && Triples(chars, rest).Some?
    ensures Triples(chars, q + rest) == Some(Triple(chars, q).value + Triples(chars, rest).value)
  {
    hide Triple;
    assert (q + rest)[..4] == q && (q + rest)[4..] == rest;
  }

  lemma {:induction false} EncodePadding(chars: Bytes, d: Bytes)
    requires Alphabet(chars) && d != []
    ensures Padding(Encode(chars, d)) == |Encode(chars, d)| / 4 * 3 - |d|
  {
    hide Quad;
    if |d| <= 3 {
      QuadInverse(chars, d);
      if |d| == 3 {
        assert d[..3] == d && d[3..] == [];
        assert Quad(chars, d) + [] == Quad(chars, d);
      }
    } else {
      EncodePadding(chars, d[3..]);
      var q, rest := Quad(chars, d[..3]), Encode(chars, d[3..]);
      LastTwo(q, rest);
    }
  }

  lemma LastTwo(a: Bytes, b: Bytes)
    requires |b| >= 2
    ensures Padding(a + b) == Padding(b)
  {
    var s := a + b;
    assert s[|s| - 1] == b[|b| - 1] && s[|s| - 2] == b[|b| - 2];
  }

  // ---------- The default character set ----------

  /** A-Z, a-z, 0-9, plus and slash. */
  function Default(): (r: Bytes)
    ensures |r| == 64
  {
    seq(64, i requires 0 <= i < 64 => DefaultChar(i))
  }

  function DefaultChar(i: nat): (r: Byte)
    requires i < 64
  {
    if i < 26 then 65 + i else if i < 52 then 97 + i - 26 else if i < 62 then 48 + i - 52
    else if i == 62 then 43 else 47
  }

  lemma DefaultIsAlphabet()
    ensures Alphabet(Default())
  {
  }
}
