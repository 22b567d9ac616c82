/** Base64 bit by bit, as section 4 of RFC 4648 defines it. */
module Base64Standard {
  import opened Bytes
  import opened Values
  import opened Base64

  // ---------- The alphabet ----------

  /** The default character set is the standard's: the letters from A and from a, the digits from 0, plus and slash. */
  lemma DefaultIs(i: nat)
    requires i < 64
    ensures Default()[0] == 'A' as int && Default()[26] == 'a' as int && Default()[52] == '0' as int
    ensures Default()[62] == '+' as int && Default()[63] == '/' as int
    ensures i !in {25, 51, 61, 62, 63} ==> Default()[i + 1] == Default()[i] + 1
  {
  }

  // ---------- Bits ----------

  /** Bit `j` of a text of `w`-bit digits, the most significant first; zero behind its end. */
  function Bit(s: seq<nat>, w: nat, j: nat): (r: nat)
    requires w > 0
  {
    if j / w < |s| then s[j / w] / Two(w - 1 - j % w) % 2 else 0
  }

  function Two(k: nat): (r: nat)
    ensures r > 0
  {
    if k == 0 then 1 else 2 * Two(k - 1)
  }

  /** The `n` bits from bit `j` on, read as a number. */
  function BitsAt(s: seq<nat>, w: nat, j: nat, n: nat): (r: nat)
    requires w > 0
  {
    if n == 0 then 0 else 2 * BitsAt(s, w, j, n - 1) + Bit(s, w, j + n - 1)
  }

  lemma TwoValues()
    ensures Two(0) == 1 && Two(1) == 2 && Two(2) == 4 && Two(3) == 8 && Two(4) == 16 && Two(5) == 32 && Two(6) == 64 && Two(7) == 128
  {
  }

  /** Whole digits in front do not matter. */
  lemma {:induction false} BitsBehind(s: seq<nat>, w: nat, k: nat, j: nat, n: nat)
    requires w > 0 && k <= |s|
    ensures BitsAt(s, w, k * w + j, n) == BitsAt(s[k..], w, j, n)
    decreases n
  {
    hide Bit;
    if n > 0 {
      BitsBehind(s, w, k, j, n - 1);
      BitBehind(s, w, k, j + n - 1);
    }
  }

  lemma BitBehind(s: seq<nat>, w: nat, k: nat, j: nat)
    requires w > 0 && k <= |s|
    ensures Bit(s, w, k * w + j) == Bit(s[k..], w, j)
  {
    hide Two;
    Quotients(w, k, j);
  }

  lemma Quotients(w: nat, k: nat, j: nat)
    requires w > 0
    ensures (k * w + j) / w == k + j / w && (k * w + j) % w == j % w
  {
    var q, r := j / w, j % w;
    assert j == w * q + r;
    assert k * w + j == w * (k + q) + r;
    Quotient(k * w + j, w, k + q, r);
  }

  /** Only the digits the bits lie in matter. */
  lemma {:induction false} BitsIn(s: seq<nat>, t: seq<nat>, w: nat, j: nat, n: nat)
    requires w > 0
    requires forall i :: j <= i < j + n ==> Bit(s, w, i) == Bit(t, w, i)
    ensures BitsAt(s, w, j, n) == BitsAt(t, w, j, n)
    decreases n
  {
    if n > 0 {
      assert Bit(s, w, j + (n - 1)) == Bit(t, w, j + (n - 1));
      BitsIn(s, t, w, j, n - 1);
    }
  }

  // ---------- Encoding ----------

  /** A number halved again and again. */
  lemma Halves(a: nat)
    ensures a == 2 * (a / 2) + a % 2 && a / 2 == 2 * (a / 4) + a / 2 % 2 && a / 4 == 2 * (a / 8) + a / 4 % 2
    ensures a / 8 == 2 * (a / 16) + a / 8 % 2 && a / 16 == 2 * (a / 32) + a / 16 % 2 && a / 32 == 2 * (a / 64) + a / 32 % 2
    ensures a / 64 == 2 * (a / 128) + a / 64 % 2
  {
    Half(a);
    Half(a / 2);
    Half(a / 4);
    Half(a / 8);
    Half(a / 16);
    Half(a / 32);
    Half(a / 64);
  }

  lemma Half(a: nat)
    ensures a == 2 * (a / 2) + a % 2
    ensures a / 2 / 2 == a / 4 && a / 4 / 2 == a / 8 && a / 8 / 2 == a / 16
    ensures a / 16 / 2 == a / 32 && a / 32 / 2 == a / 64 && a / 64 / 2 == a / 128
  {
  }

  lemma Remainders(a: nat)
    ensures a % 4 == a - 4 * (a / 4) && a % 16 == a - 16 * (a / 16) && a % 64 == a - 64 * (a / 64)
  {
  }

  /** Parts of a byte from their bits. */
  lemma TopBits(a: Byte)
    ensures 32 * (a / 128 % 2) + 16 * (a / 64 % 2) + 8 * (a / 32 % 2) + 4 * (a / 16 % 2) + 2 * (a / 8 % 2) + a / 4 % 2 == a / 4
    ensures 8 * (a / 128 % 2) + 4 * (a / 64 % 2) + 2 * (a / 32 % 2) + a / 16 % 2 == a / 16
    ensures 2 * (a / 128 % 2) + a / 64 % 2 == a / 64
  {
    Halves(a);
    TopBit(a);
  }

  lemma TopBit(a: Byte)
    ensures a / 128 % 2 == a / 128
  {
  }

  lemma LowBits(a: nat)
    ensures 2 * (a / 2 % 2) + a % 2 == a % 4
    ensures 8 * (a / 8 % 2) + 4 * (a / 4 % 2) + 2 * (a / 2 % 2) + a % 2 == a % 16
    ensures 32 * (a / 32 % 2) + 16 * (a / 16 % 2) + 8 * (a / 8 % 2) + 4 * (a / 4 % 2) + 2 * (a / 2 % 2) + a % 2 == a % 64
  {
    Halves(a);
    Remainders(a);
  }

  lemma SixBits(s: seq<nat>, w: nat, j: nat)
    requires w > 0
    ensures BitsAt(s, w, j, 6)
         == 32 * Bit(s, w, j) + 16 * Bit(s, w, j + 1) + 8 * Bit(s, w, j + 2) + 4 * Bit(s, w, j + 3) + 2 * Bit(s, w, j + 4)
            + Bit(s, w, j + 5)
  {
    hide Bit;
    assert BitsAt(s, w, j, 0) == 0;
    assert BitsAt(s, w, j, 1) == Bit(s, w, j);
    assert BitsAt(s, w, j, 2) == 2 * BitsAt(s, w, j, 1) + Bit(s, w, j + 1);
    assert BitsAt(s, w, j, 3) == 2 * BitsAt(s, w, j, 2) + Bit(s, w, j + 2);
    assert BitsAt(s, w, j, 4) == 2 * BitsAt(s, w, j, 3) + Bit(s, w, j + 3);
    assert BitsAt(s, w, j, 5) == 2 * BitsAt(s, w, j, 4) + Bit(s, w, j + 4);
  }

  /** A byte of the text, or zero behind its end. */
  function At0(d: Bytes, i: nat): (r: Byte) { if i < |d| then d[i] else 0 }

  lemma BitIs(d: Bytes, i: nat, k: nat)
    requires k < 8
    ensures Bit(d, 8, 8 * i + k) == At0(d, i) / Two(7 - k) % 2
  {
    Quotients(8, i, k);
    assert 0 / Two(7 - k) == 0;
  }

  lemma FourSextets(d: Bytes)
    ensures BitsAt(d, 8, 0, 6) == At0(d, 0) / 4
    ensures BitsAt(d, 8, 6, 6) == At0(d, 0) % 4 * 16 + At0(d, 1) / 16
    ensures BitsAt(d, 8, 12, 6) == At0(d, 1) % 16 * 4 + At0(d, 2) / 64
    ensures BitsAt(d, 8, 18, 6) == At0(d, 2) % 64
  {
    hide Bit, BitsAt, At0;
    TwoValues();
    SixBits(d, 8, 0);
    SixBits(d, 8, 6);
    SixBits(d, 8, 12);
    SixBits(d, 8, 18);
    ByteBits(d, 0);
    ByteBits(d, 1);
    ByteBits(d, 2);
    TopBits(At0(d, 0));
    LowBits(At0(d, 0));
    TopBits(At0(d, 1));
    LowBits(At0(d, 1));
    TopBits(At0(d, 2));
    LowBits(At0(d, 2));
  }

  lemma ByteBits(d: Bytes, i: nat)
    ensures Bit(d, 8, 8 * i) == At0(d, i) / 128 % 2 && Bit(d, 8, 8 * i + 1) == At0(d, i) / 64 % 2
    ensures Bit(d, 8, 8 * i + 2) == At0(d, i) / 32 % 2 && Bit(d, 8, 8 * i + 3) == At0(d, i) / 16 % 2
    ensures Bit(d, 8, 8 * i + 4) == At0(d, i) / 8 % 2 && Bit(d, 8, 8 * i + 5) == At0(d, i) / 4 % 2
    ensures Bit(d, 8, 8 * i + 6) == At0(d, i) / 2 % 2 && Bit(d, 8, 8 * i + 7) == At0(d, i) % 2
  {
    hide Bit, At0;
    TwoValues();
    BitIs(d, i, 0);
    BitIs(d, i, 1);
    BitIs(d, i, 2);
    BitIs(d, i, 3);
    BitIs(d, i, 4);
    BitIs(d, i, 5);
    BitIs(d, i, 6);
    BitIs(d, i, 7);
  }

  lemma QuadIs(chars: Bytes, d: Bytes)
    requires |chars| == 64 && 0 < |d|
    ensures BitsAt(d, 8, 0, 6) < 64 && BitsAt(d, 8, 6, 6) < 64 && BitsAt(d, 8, 12, 6) < 64 && BitsAt(d, 8, 18, 6) < 64
    ensures Quad(chars, d) == [chars[BitsAt(d, 8, 0, 6)], chars[BitsAt(d, 8, 6, 6)],
                               if |d| > 1 then chars[BitsAt(d, 8, 12, 6)] else PAD, if |d| > 2 then chars[BitsAt(d, 8, 18, 6)] else PAD]
  {
    hide BitsAt, Word, At0;
    FourSextets(d);
    WordParts(d);
  }

  lemma WordParts(d: Bytes)
    requires d != []
    ensures var v, a, b, c := Word(d), At0(d, 0), At0(d, 1), At0(d, 2);
      && v / 0x4_0000 == a / 4 < 64 && v / 0x1000 % 64 == a % 4 * 16 + b / 16 < 64
      && v / 64 % 64 == b % 16 * 4 + c / 64 < 64 && v % 64 == c % 64
  {
    var a, b, c := At0(d, 0), At0(d, 1), At0(d, 2);
    assert Word(d) == a as int * 0x1_0000 + b as int * 0x100 + c;
    Sextet0(a, b, c);
    Sextet1(a, b, c);
    Sextet2(a, b, c);
    Sextet3(a, b, c);
  }

  /** Character `k` of the text stands for the bits 6k to 6k + 5 of the data, zero behind its end; where no bit of the data is
      left it is the padding character. */
  lemma {:induction false} EncodeAt(chars: Bytes, d: Bytes, k: nat)
    requires |chars| == 64 && k < |Encode(chars, d)|
    ensures BitsAt(d, 8, 6 * k, 6) < 64
    ensures Encode(chars, d)[k] == if 6 * k < 8 * |d| then chars[BitsAt(d, 8, 6 * k, 6)] else PAD
    decreases |d|
  {
    hide BitsAt, Quad;
    if k >= 4 {
      EncodeAt(chars, d[3..], k - 4);
      BitsBehind(d, 8, 3, 6 * (k - 4), 6);
      Tail(chars, d, k);
    } else if |d| < 3 {
      QuadIs(chars, d);
    } else {
      QuadIs(chars, d[..3]);
      FirstBits(d, k);
    }
  }

  lemma Tail(chars: Bytes, d: Bytes, k: nat)
    requires |chars| == 64 && 4 <= k < |Encode(chars, d)|
    ensures |d| > 3 && Encode(chars, d)[k] == Encode(chars, d[3..])[k - 4]
  {
    hide Quad;
    if |d| >= 3 { Behind(Quad(chars, d[..3]), Encode(chars, d[3..]), k); }
  }

  lemma Behind(a: Bytes, b: Bytes, k: nat)
    requires |a| == 4 && 4 <= k < |a + b|
    ensures (a + b)[k] == b[k - 4]
  {
  }

  lemma FirstBits(d: Bytes, k: nat)
    requires |d| >= 3 && k < 4
    ensures BitsAt(d, 8, 6 * k, 6) == BitsAt(d[..3], 8, 6 * k, 6)
  {
    forall i | 6 * k <= i < 6 * k + 6 ensures Bit(d, 8, i) == Bit(d[..3], 8, i) {
      assert i / 8 < 3;
    }
    BitsIn(d, d[..3], 8, 6 * k, 6);
  }

  // ---------- Decoding ----------

  /** The sextets of a text, padding counted as zero. */
  function Sextets(chars: Bytes, s: Bytes): (r: seq<nat>)
    requires |chars| == 64
    ensures |r| == |s|
  {
    seq(|s|, i requires 0 <= i < |s| => if Sextet(chars, s[i]).Some? then Sextet(chars, s[i]).value else 0)
  }

  predicate Spelled(chars: Bytes, s: Bytes)
    requires |chars| == 64
  {
    forall i :: 0 <= i < |s| ==> s[i] in chars || s[i] == PAD
  }

  lemma Known(chars: Bytes, c: Byte)
    requires |chars| == 64
    ensures Sextet(chars, c).Some? <==> c in chars || c == PAD
  {
    LastIndexFound(chars, c);
  }

  lemma {:induction false} EightBits(s: seq<nat>, w: nat, j: nat)
    requires w > 0
    ensures BitsAt(s, w, j, 8)
         == 128 * Bit(s, w, j) + 64 * Bit(s, w, j + 1) + 32 * Bit(s, w, j + 2) + 16 * Bit(s, w, j + 3) + 8 * Bit(s, w, j + 4)
            + 4 * Bit(s, w, j + 5) + 2 * Bit(s, w, j + 6) + Bit(s, w, j + 7)
  {
    hide Bit, BitsAt;
    SixBits(s, w, j);
    OneMoreBit(s, w, j, 7);
    OneMoreBit(s, w, j, 8);
  }

  lemma OneMoreBit(s: seq<nat>, w: nat, j: nat, n: nat)
    requires w > 0 && n > 0
    ensures BitsAt(s, w, j, n) == 2 * BitsAt(s, w, j, n - 1) + Bit(s, w, j + n - 1)
  {
    hide Bit;
  }

  lemma SextetBits(s: seq<nat>, i: nat)
    requires i < |s|
    ensures Bit(s, 6, 6 * i) == s[i] / 32 % 2 && Bit(s, 6, 6 * i + 1) == s[i] / 16 % 2 && Bit(s, 6, 6 * i + 2) == s[i] / 8 % 2
    ensures Bit(s, 6, 6 * i + 3) == s[i] / 4 % 2 && Bit(s, 6, 6 * i + 4) == s[i] / 2 % 2 && Bit(s, 6, 6 * i + 5) == s[i] % 2
  {
    TwoValues();
    Quotients(6, i, 0);
    Quotients(6, i, 1);
    Quotients(6, i, 2);
    Quotients(6, i, 3);
    Quotients(6, i, 4);
    Quotients(6, i, 5);
  }

  lemma EightOf(a: nat, b: nat, c: nat, d: nat)
    requires a < 64 && b < 64 && c < 64 && d < 64
    ensures var v := a * 0x4_0000 + b * 0x1000 + c * 64 + d;
      && v / 0x1_0000 == a * 4 + b / 16 && v / 0x100 % 256 == b % 16 * 16 + c / 4 && v % 256 == c % 4 * 64 + d
  {
    var v := a * 0x4_0000 + b * 0x1000 + c * 64 + d;
    Remainders(b);
    Remainders(c);
    Quotient(v, 0x1_0000, a * 4 + b / 16, b % 16 * 0x1000 + c * 64 + d);
    Quotient(v, 0x100, a * 1024 + b * 16 + c / 4, c % 4 * 64 + d);
    assert a * 1024 + b * 16 + c / 4 == 256 * (a * 4 + b / 16) + (b % 16 * 16 + c / 4);
    Quotient(a * 1024 + b * 16 + c / 4, 256, a * 4 + b / 16, b % 16 * 16 + c / 4);
  }

  lemma SixSplit(a: nat)
    requires a < 64
    ensures a == 32 * (a / 32 % 2) + 16 * (a / 16 % 2) + 8 * (a / 8 % 2) + 4 * (a / 4 % 2) + 2 * (a / 2 % 2) + a % 2
    ensures a / 16 == 2 * (a / 32 % 2) + a / 16 % 2
    ensures a % 16 == 8 * (a / 8 % 2) + 4 * (a / 4 % 2) + 2 * (a / 2 % 2) + a % 2
    ensures a / 4 == 8 * (a / 32 % 2) + 4 * (a / 16 % 2) + 2 * (a / 8 % 2) + a / 4 % 2
    ensures a % 4 == 2 * (a / 2 % 2) + a % 2
  {
    Halves(a);
    Remainders(a);
    assert a / 64 == 0;
  }

  lemma ThreeBytes(s: seq<nat>)
    requires |s| >= 4 && s[0] < 64 && s[1] < 64 && s[2] < 64 && s[3] < 64
    ensures BitsAt(s, 6, 0, 8) == s[0] * 4 + s[1] / 16
    ensures BitsAt(s, 6, 8, 8) == s[1] % 16 * 16 + s[2] / 4
    ensures BitsAt(s, 6, 16, 8) == s[2] % 4 * 64 + s[3]
  {
    hide Bit, BitsAt;
    EightBits(s, 6, 0);
    EightBits(s, 6, 8);
    EightBits(s, 6, 16);
    SextetBits(s, 0);
    SextetBits(s, 1);
    SextetBits(s, 2);
    SextetBits(s, 3);
    SixSplit(s[0]);
    SixSplit(s[1]);
    SixSplit(s[2]);
    SixSplit(s[3]);
  }

  /** Every block of characters of the set or padding is decoded, any other is not; byte `i` is the bits 8i to 8i + 7. */
  lemma {:induction false} TriplesAre(chars: Bytes, s: Bytes)
    requires |chars| == 64 && |s| % 4 == 0
    ensures Triples(chars, s).Some? <==> Spelled(chars, s)
    ensures Triples(chars, s).Some? ==>
      forall i :: 0 <= i < |Triples(chars, s).value| ==> Triples(chars, s).value[i] == BitsAt(Sextets(chars, s), 6, 8 * i, 8)
    decreases |s|
  {
    hide BitsAt, Triple, Sextet;
    if s != [] {
      TriplesAre(chars, s[4..]);
      TripleIs(chars, s);
      SpelledSplit(chars, s);
      if Triples(chars, s).Some? {
        var r := Triples(chars, s).value;
        forall i | 0 <= i < |r| ensures r[i] == BitsAt(Sextets(chars, s), 6, 8 * i, 8) {
          if i >= 3 {
            assert Sextets(chars, s)[4..] == Sextets(chars, s[4..]);
            BitsBehind(Sextets(chars, s), 6, 4, 8 * (i - 3), 8);
            assert 4 * 6 + 8 * (i - 3) == 8 * i;
          }
        }
      }
    }
  }

  lemma SpelledSplit(chars: Bytes, s: Bytes)
    requires |chars| == 64 && |s| >= 4
    ensures Spelled(chars, s) <==> Spelled(chars, s[..4]) && Spelled(chars, s[4..])
  {
    assert s == s[..4] + s[4..];
    if Spelled(chars, s[..4]) && Spelled(chars, s[4..]) {
      forall i | 0 <= i < |s| ensures s[i] in chars || s[i] == PAD { if i >= 4 { assert s[i] == s[4..][i - 4]; } else { assert s[i] == s[..4][i]; } }
    }
  }

  lemma TripleIs(chars: Bytes, s: Bytes)
    requires |chars| == 64 && |s| >= 4
    ensures Triple(chars, s[..4]).Some? <==> Spelled(chars, s[..4])
    ensures Triple(chars, s[..4]).Some? ==>
      var t, x := Triple(chars, s[..4]).value, Sextets(chars, s);
      t[0] == BitsAt(x, 6, 0, 8) && t[1] == BitsAt(x, 6, 8, 8) && t[2] == BitsAt(x, 6, 16, 8)
  {
    hide BitsAt, Sextet;
    Known(chars, s[0]);
    Known(chars, s[1]);
    Known(chars, s[2]);
    Known(chars, s[3]);
    FirstFour(chars, s);
    if Triple(chars, s[..4]).Some? {
      var x := Sextets(chars, s);
      Small(chars, s[0]);
      Small(chars, s[1]);
      Small(chars, s[2]);
      Small(chars, s[3]);
      EightOf(x[0], x[1], x[2], x[3]);
      ThreeBytes(x);
    }
  }

  lemma FirstFour(chars: Bytes, s: Bytes)
    requires |chars| == 64 && |s| >= 4
    ensures Spelled(chars, s[..4])
       <==> (s[0] in chars || s[0] == PAD) && (s[1] in chars || s[1] == PAD) && (s[2] in chars || s[2] == PAD)
            && (s[3] in chars || s[3] == PAD)
  {
    assert s[..4] == [s[0], s[1], s[2], s[3]];
  }

  lemma Small(chars: Bytes, c: Byte)
    requires |chars| == 64
    ensures Sextet(chars, c).Some? ==> Sextet(chars, c).value < 64
  {
  }

  /** decodeBase64Fast accepts exactly whole blocks of characters of the set and padding; its bytes are the bits of the text in
      order, without as many at the end as padding characters stand in the last two places. */
  lemma DecodeIs(chars: Bytes, s: Bytes)
    requires |chars| == 64
    ensures Decode(chars, s).Some? <==> |s| % 4 == 0 && Spelled(chars, s)
    ensures Decode(chars, s).Some? ==>
      && |Decode(chars, s).value| == |s| / 4 * 3 - Padding(s)
      && forall i :: 0 <= i < |Decode(chars, s).value| ==> Decode(chars, s).value[i] == BitsAt(Sextets(chars, s), 6, 8 * i, 8)
  {
    hide BitsAt, Triples, Sextet;
    if |s| % 4 == 0 { TriplesAre(chars, s); }
  }
}
