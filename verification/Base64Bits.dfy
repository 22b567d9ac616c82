/** The converter's Base64: bits accumulated in a 32-bit word, against the library's block forms. */
module Base64Bits {
  import opened Bytes
  import opened Values
  import opened Base64

  // ---------- The converter's bit accumulators ----------

  function Pow2(k: nat): (r: nat)
    ensures r > 0
  {
    if k == 0 then 1 else 2 * Pow2(k - 1)
  }

  lemma Pow2Values()
    ensures Pow2(2) == 4 && Pow2(4) == 16 && Pow2(6) == 64
  {
    assert Pow2(3) == 8 && Pow2(5) == 32;
  }

  /** The accumulator is a 32-bit word: a shift pushes old bits out at the top. */
  function Shifted(val: UInt32, bits: nat, next: nat): (r: UInt32)
  {
    (val * Pow2(bits) + next) % TWO_32
  }

  /** The sextets complete at `valb` bits of lookahead, highest first. */
  function Drain(chars: Bytes, val: UInt32, valb: int): (r: Bytes)
    requires |chars| == 64
    decreases valb + 6
  {
    if valb < 0 then [] else [chars[val / Pow2(valb) % 64]] + Drain(chars, val, valb - 6)
  }

  function Settle(valb: int): (r: int)
    ensures r == if valb < 0 then valb else valb % 6 - 6
    decreases valb + 6
  {
    if valb < 0 then valb else Settle(valb - 6)
  }

  function Accumulate(chars: Bytes, d: Bytes, val: UInt32, valb: int): (r: Bytes)
    requires |chars| == 64 && -6 <= valb < 0
  {
    if d == [] then
      if valb > -6 then [chars[Shifted(val, 8, 0) / Pow2(valb + 8) % 64]] else []
    else
      var v := Shifted(val, 8, d[0]);
      Drain(chars, v, valb + 8) + Accumulate(chars, d[1..], v, Settle(valb + 8))
  }

  function Padded(s: Bytes): (r: Bytes)
  {
    s + seq((4 - |s| % 4) % 4, _ => PAD)
  }

  function AccumulatorEncode(chars: Bytes, d: Bytes): (r: Bytes)
    requires |chars| == 64
  {
    Padded(Accumulate(chars, d, 0, -6))
  }

  function AccumulatorDecode(chars: Bytes, s: Bytes, val: UInt32, valb: int): (r: Bytes)
    requires -8 <= valb < 0
  {
    if s == [] then []
    else if Lookup(chars, s[0]) < 0 then AccumulatorDecode(chars, s[1..], val, valb)
    else
      var v := Shifted(val, 6, Lookup(chars, s[0]));
      if valb + 6 >= 0 then [v / Pow2(valb + 6) % 256] + AccumulatorDecode(chars, s[1..], v, valb - 2)
      else AccumulatorDecode(chars, s[1..], v, valb + 6)
  }

  // ---------- Accumulator and block forms agree ----------

  lemma ShiftedIs(val: UInt32, next: Byte)
    ensures exists q: int :: val as int * 256 + next == TWO_32 * q + Shifted(val, 8, next)
  {
    assert Pow2(8) == 256 by { Pow2Values(); assert Pow2(7) == 128; }
    var s := val as int * 256 + next;
    assert s == TWO_32 * (s / TWO_32) + s % TWO_32;
  }

  lemma ShiftedLow(val: UInt32, next: Byte)
    ensures Shifted(val, 8, next) % 0x100 == next
    ensures Shifted(val, 8, next) % 0x1_0000 == val % 0x100 * 0x100 + next
    ensures Shifted(val, 8, next) % 0x100_0000 == val % 0x1_0000 * 0x100 + next
  {
    hide Shifted;
    ShiftedIs(val, next);
    var q: int :| val as int * 256 + next == TWO_32 * q + Shifted(val, 8, next);
    LowPart(val, next, Shifted(val, 8, next), q);
  }

  lemma LowPart(val: int, next: Byte, s: int, q: int)
    requires val * 256 + next == TWO_32 * q + s
    ensures s % 0x100 == next
    ensures s % 0x1_0000 == val % 0x100 * 0x100 + next
    ensures s % 0x100_0000 == val % 0x1_0000 * 0x100 + next
  {
    Low8(s, val - 0x100_0000 * q, next);
    Low16(s, val / 0x100 - 0x1_0000 * q, val % 0x100 * 0x100 + next);
    Low24(s, val / 0x1_0000 - 0x100 * q, val % 0x1_0000 * 0x100 + next);
  }

  lemma Low8(s: int, k: int, r: int)
    requires s == 0x100 * k + r && 0 <= r < 0x100
    ensures s % 0x100 == r
  {
  }

  lemma Low16(s: int, k: int, r: int)
    requires s == 0x1_0000 * k + r && 0 <= r < 0x1_0000
    ensures s % 0x1_0000 == r
  {
  }

  lemma Low24(s: int, k: int, r: int)
    requires s == 0x100_0000 * k + r && 0 <= r < 0x100_0000
    ensures s % 0x100_0000 == r
  {
  }

  /** The bytes seen so far of the current block fix every sextet the accumulator emits. */
  lemma AccumulatedBlock(a: Byte, b: Byte, c: Byte, val: UInt32)
    ensures var v1 := Shifted(val, 8, a); var v2 := Shifted(v1, 8, b); var v3 := Shifted(v2, 8, c);
      var w := a as int * 0x1_0000 + b as int * 0x100 + c;
      && v1 / 4 % 64 == w / 0x4_0000 && v2 / 16 % 64 == w / 0x1000 % 64
      && v3 / 64 % 64 == w / 64 % 64 && v3 % 64 == w % 64
  {
    hide Shifted;
    var v1 := Shifted(val, 8, a);
    var v2 := Shifted(v1, 8, b);
    var v3 := Shifted(v2, 8, c);
    ShiftedLow(val, a);
    ShiftedLow(v1, b);
    ShiftedLow(v2, c);
    Sextet0(a, b, c);
    Sextet1(a, b, c);
    Field4(v1);
    Field16(v2);
    Field64(v3);
    Middle(a, b);
  }

  lemma Middle(a: Byte, b: Byte)
    ensures (a as int * 0x100 + b) / 16 % 64 == a % 4 * 16 + b / 16
  {
    assert (a as int * 0x100 + b) / 16 == a as int * 16 + b / 16;
    assert a == 4 * (a / 4) + a % 4;
  }

  lemma Field4(v: nat)
    ensures v / 4 % 64 == v % 0x100 / 4
  {
    assert v == 0x100 * (v / 0x100) + v % 0x100;
    assert v / 4 == 64 * (v / 0x100) + v % 0x100 / 4;
  }

  lemma Field16(v: nat)
    ensures v / 16 % 64 == v % 0x1_0000 / 16 % 64
  {
    assert v == 0x1_0000 * (v / 0x1_0000) + v % 0x1_0000;
    Low6(v / 16, 64 * (v / 0x1_0000), v % 0x1_0000 / 16);
  }

  lemma Low6(x: int, k: int, r: int)
    requires x == 64 * k + r
    ensures x % 64 == r % 64
  {
  }

  lemma Field64(v: nat)
    ensures v / 64 % 64 == v % 0x100_0000 / 64 % 64 && v % 64 == v % 0x100_0000 % 64
  {
    assert v == 0x100_0000 * (v / 0x100_0000) + v % 0x100_0000;
    assert v / 64 == 64 * (0x1000 * (v / 0x100_0000)) + v % 0x100_0000 / 64;
  }

  lemma DrainIs(chars: Bytes, val: UInt32)
    requires |chars| == 64
    ensures Drain(chars, val, 2) == [chars[val / 4 % 64]]
    ensures Drain(chars, val, 4) == [chars[val / 16 % 64]]
    ensures Drain(chars, val, 6) == [chars[val / 64 % 64], chars[val % 64]]
  {
    Pow2Values();
    assert Pow2(0) == 1;
    assert Drain(chars, val, 0) == [chars[val % 64]] + Drain(chars, val, -6);
  }

  /** Whatever old bits the accumulator still holds, from a block boundary it emits the block form. */
  lemma {:induction false} AccumulateIsEncode(chars: Bytes, d: Bytes, val: UInt32)
    requires |chars| == 64
    ensures Padded(Accumulate(chars, d, val, -6)) == Encode(chars, d)
  {
    hide Shifted, Accumulate, Quad;
    if d == [] { AccumulateNothing(chars, val); }
    else if |d| == 1 { LastByte(chars, d, val); }
    else if |d| == 2 { LastTwoBytes(chars, d, val); }
    else {
      var v3 := Shifted(Shifted(Shifted(val, 8, d[0]), 8, d[1]), 8, d[2]);
      FullBlock(chars, d, val);
      AccumulateIsEncode(chars, d[3..], v3);
      PaddedAppend(Quad(chars, d[..3]), Accumulate(chars, d[3..], v3, -6));
    }
  }

  lemma AccumulateNothing(chars: Bytes, val: UInt32)
    requires |chars| == 64
    ensures Padded(Accumulate(chars, [], val, -6)) == []
  {
  }

  lemma PaddedAppend(q: Bytes, rest: Bytes)
    requires |q| == 4
    ensures Padded(q + rest) == q + Padded(rest)
  {
  }

  lemma AccumulateStep(chars: Bytes, d: Bytes, val: UInt32, valb: int)
    requires |chars| == 64 && -6 <= valb < 0 && d != []
    ensures Accumulate(chars, d, val, valb)
         == Drain(chars, Shifted(val, 8, d[0]), valb + 8)
          + Accumulate(chars, d[1..], Shifted(val, 8, d[0]), (valb + 8) % 6 - 6)
  {
    hide Shifted, Drain;
  }

  lemma AccumulateEnd(chars: Bytes, val: UInt32, valb: int)
    requires |chars| == 64 && -6 <= valb < 0
    ensures Accumulate(chars, [], val, valb)
         == if valb > -6 then [chars[Shifted(val, 8, 0) / Pow2(valb + 8) % 64]] else []
  {
  }

  lemma ThreeThen(a: Bytes, b: Bytes, c: Bytes, rest: Bytes)
    ensures a + (b + (c + rest)) == (a + b + c) + rest
  {
  }

  lemma FullBlock(chars: Bytes, d: Bytes, val: UInt32)
    requires |chars| == 64 && |d| >= 3
    ensures var v3 := Shifted(Shifted(Shifted(val, 8, d[0]), 8, d[1]), 8, d[2]);
      Accumulate(chars, d, val, -6) == Quad(chars, d[..3]) + Accumulate(chars, d[3..], v3, -6)
  {
    hide Shifted, Drain, Word, Accumulate, Quad;
    var v1 := Shifted(val, 8, d[0]);
    var v2 := Shifted(v1, 8, d[1]);
    var v3 := Shifted(v2, 8, d[2]);
    assert d[1..][1..] == d[2..] && d[2..][1..] == d[3..];
    AccumulateStep(chars, d, val, -6);
    AccumulateStep(chars, d[1..], v1, -4);
    AccumulateStep(chars, d[2..], v2, -2);
    DrainedQuad(chars, d[..3], val);
    var rest := Accumulate(chars, d[3..], v3, -6);
    var a, b, c := Drain(chars, v1, 2), Drain(chars, v2, 4), Drain(chars, v3, 6);
    ThreeThen(a, b, c, rest);
  }

  lemma DrainedQuad(chars: Bytes, d: Bytes, val: UInt32)
    requires |chars| == 64 && |d| == 3
    ensures var v1 := Shifted(val, 8, d[0]); var v2 := Shifted(v1, 8, d[1]); var v3 := Shifted(v2, 8, d[2]);
      Drain(chars, v1, 2) + Drain(chars, v2, 4) + Drain(chars, v3, 6) == Quad(chars, d)
  {
    hide Shifted, Drain, Word;
    var v1 := Shifted(val, 8, d[0]);
    var v2 := Shifted(v1, 8, d[1]);
    DrainIs(chars, v1);
    DrainIs(chars, v2);
    DrainIs(chars, Shifted(v2, 8, d[2]));
    AccumulatedBlock(d[0], d[1], d[2], val);
    WordOf(d);
  }

  lemma WordOf(d: Bytes)
    requires 1 <= |d| <= 3
    ensures Word(d) == d[0] as int * 0x1_0000 + (if |d| > 1 then d[1] as int else 0) * 0x100
                     + (if |d| > 2 then d[2] else 0)
  {
  }

  lemma LastByte(chars: Bytes, d: Bytes, val: UInt32)
    requires |chars| == 64 && |d| == 1
    ensures Padded(Accumulate(chars, d, val, -6)) == Quad(chars, d)
  {
    hide Shifted, Drain, Word;
    var v1 := Shifted(val, 8, d[0]);
    DrainIs(chars, v1);
    AccumulatedBlock(d[0], 0, 0, val);
    WordOf(d);
    Pow2Values();
    assert d[1..] == [];
    assert Accumulate(chars, [], v1, -4) == [chars[Shifted(v1, 8, 0) / 16 % 64]];
  }

  lemma LastTwoBytes(chars: Bytes, d: Bytes, val: UInt32)
    requires |chars| == 64 && |d| == 2
    ensures Padded(Accumulate(chars, d, val, -6)) == Quad(chars, d)
  {
    hide Shifted, Drain, Word;
    var v1 := Shifted(val, 8, d[0]);
    var v2 := Shifted(v1, 8, d[1]);
    DrainIs(chars, v1);
    DrainIs(chars, v2);
    AccumulatedBlock(d[0], d[1], 0, val);
    WordOf(d);
    Pow2Values();
    assert d[1..] == [d[1]] && d[1..][1..] == [];
    assert Accumulate(chars, [], v2, -2) == [chars[Shifted(v2, 8, 0) / 64 % 64]];
    assert Accumulate(chars, d[1..], v1, -4) == Drain(chars, v2, 4) + [chars[Shifted(v2, 8, 0) / 64 % 64]];
  }

  /** The accumulator encoder writes the same text as the block encoder. */
  lemma EncodersAgree(chars: Bytes, d: Bytes)
    requires |chars| == 64
    ensures AccumulatorEncode(chars, d) == Encode(chars, d)
  {
    AccumulateIsEncode(chars, d, 0);
  }

  // ---------- The accumulator decoder ----------

  /** The characters of the alphabet, everything else dropped. */
  function Sift(chars: Bytes, s: Bytes): (r: Bytes)
  {
    if s == [] then [] else (if Lookup(chars, s[0]) >= 0 then [s[0]] else []) + Sift(chars, s[1..])
  }

  lemma {:induction false} DecodeSifted(chars: Bytes, s: Bytes, val: UInt32, valb: int)
    requires -8 <= valb < 0
    ensures AccumulatorDecode(chars, Sift(chars, s), val, valb) == AccumulatorDecode(chars, s, val, valb)
  {
    hide Lookup, Shifted;
    if s != [] {
      var t := Lookup(chars, s[0]);
      if t < 0 {
        assert Sift(chars, s) == Sift(chars, s[1..]);
        DecodeSifted(chars, s[1..], val, valb);
      } else {
        assert Sift(chars, s)[1..] == Sift(chars, s[1..]);
        DecodeSifted(chars, s[1..], Shifted(val, 6, t), if valb + 6 >= 0 then valb - 2 else valb + 6);
      }
    }
  }

  lemma ShiftedSix(val: UInt32, next: nat)
    requires next < 64
    ensures Shifted(val, 6, next) % 64 == next
    ensures Shifted(val, 6, next) % 0x1000 == val % 64 * 64 + next
    ensures Shifted(val, 6, next) % 0x4_0000 == val % 0x1000 * 64 + next
    ensures Shifted(val, 6, next) % 0x100_0000 == val % 0x4_0000 * 64 + next
  {
    Pow2Values();
    var s := Shifted(val, 6, next);
    var q := (val * 64 + next) / TWO_32;
    assert val * 64 + next == TWO_32 * q + s;
    SixLow(val, next, s, q);
  }

  lemma SixLow(val: int, next: nat, s: int, q: int)
    requires next < 64 && val * 64 + next == TWO_32 * q + s
    ensures s % 64 == next
    ensures s % 0x1000 == val % 64 * 64 + next
    ensures s % 0x4_0000 == val % 0x1000 * 64 + next
    ensures s % 0x100_0000 == val % 0x4_0000 * 64 + next
  {
    Low6(s, val - 0x400_0000 * q, next);
    Low12(s, val / 64 - 0x10_0000 * q, val % 64 * 64 + next);
    Low18(s, val / 0x1000 - 0x4000 * q, val % 0x1000 * 64 + next);
    Low24(s, val / 0x4_0000 - 0x100 * q, val % 0x4_0000 * 64 + next);
  }

  lemma Low12(s: int, k: int, r: int)
    requires s == 0x1000 * k + r && 0 <= r < 0x1000
    ensures s % 0x1000 == r
  {
  }

  lemma Low18(s: int, k: int, r: int)
    requires s == 0x4_0000 * k + r && 0 <= r < 0x4_0000
    ensures s % 0x4_0000 == r
  {
  }

  /** Four sextets leave the three bytes they spell, whatever the accumulator held before. */
  lemma DecodedBlock(w: nat, val: UInt32)
    requires w < 0x100_0000
    ensures var v1 := Shifted(val, 6, w / 0x4_0000); var v2 := Shifted(v1, 6, w / 0x1000 % 64);
      var v3 := Shifted(v2, 6, w / 64 % 64); var v4 := Shifted(v3, 6, w % 64);
      && v2 / 16 % 256 == w / 0x1_0000
      && v3 / 4 % 256 == w / 0x100 % 256
      && v4 % 256 == w % 256
  {
    hide Shifted;
    var v1 := Shifted(val, 6, w / 0x4_0000);
    var v2 := Shifted(v1, 6, w / 0x1000 % 64);
    var v3 := Shifted(v2, 6, w / 64 % 64);
    var v4 := Shifted(v3, 6, w % 64);
    ShiftedSix(val, w / 0x4_0000);
    ShiftedSix(v1, w / 0x1000 % 64);
    ShiftedSix(v2, w / 64 % 64);
    ShiftedSix(v3, w % 64);
    Spelled(w);
    assert v2 % 0x1000 == w / 0x1000;
    assert v3 % 0x4_0000 == w / 64;
    assert v4 % 0x100_0000 == w;
    ByteField(v2, v3, v4);
    ByteParts(w);
  }

  lemma Spelled(w: nat)
    requires w < 0x100_0000
    ensures w / 0x4_0000 * 64 + w / 0x1000 % 64 == w / 0x1000
    ensures w / 0x1000 * 64 + w / 64 % 64 == w / 64
    ensures w / 64 * 64 + w % 64 == w
    ensures w / 0x1000 < 0x1000 && w / 64 < 0x4_0000
  {
    assert w / 0x1000 / 64 == w / 0x4_0000;
    assert w / 64 / 64 == w / 0x1000;
  }

  lemma ByteField(v2: nat, v3: nat, v4: nat)
    ensures v2 / 16 % 256 == v2 % 0x1000 / 16
    ensures v3 / 4 % 256 == v3 % 0x4_0000 / 4 % 256
    ensures v4 % 256 == v4 % 0x100_0000 % 256
  {
    assert v2 == 0x1000 * (v2 / 0x1000) + v2 % 0x1000;
    Low8(v2 / 16, v2 / 0x1000, v2 % 0x1000 / 16);
    assert v3 == 0x4_0000 * (v3 / 0x4_0000) + v3 % 0x4_0000;
    SameLow8(v3 / 4, 256 * (v3 / 0x4_0000), v3 % 0x4_0000 / 4);
    assert v4 == 0x100_0000 * (v4 / 0x100_0000) + v4 % 0x100_0000;
    SameLow8(v4, 0x1_0000 * (v4 / 0x100_0000), v4 % 0x100_0000);
  }

  lemma SameLow8(x: int, k: int, r: int)
    requires x == 256 * k + r
    ensures x % 256 == r % 256
  {
  }

  lemma ByteParts(w: nat)
    requires w < 0x100_0000
    ensures w / 0x1000 / 16 == w / 0x1_0000
    ensures w / 64 / 4 == w / 0x100
  {
  }

  lemma NextSextet(chars: Bytes, c: Byte, rest: Bytes, val: UInt32, valb: int)
    requires -8 <= valb < 0
    ensures var t := Lookup(chars, c);
      AccumulatorDecode(chars, [c] + rest, val, valb)
      == if t < 0 then AccumulatorDecode(chars, rest, val, valb)
         else
           var v := Shifted(val, 6, t);
           if valb + 6 >= 0 then [v / Pow2(valb + 6) % 256] + AccumulatorDecode(chars, rest, v, valb - 2)
           else AccumulatorDecode(chars, rest, v, valb + 6)
  {
    assert ([c] + rest)[1..] == rest;
  }

  /** From a block boundary, decoding the block form gives back the bytes. */
  lemma {:induction false} DecodeBlocks(chars: Bytes, d: Bytes, val: UInt32)
    requires Alphabet(chars)
    ensures AccumulatorDecode(chars, Encode(chars, d), val, -8) == d
  {
    if d != [] {
      hide Shifted, AccumulatorDecode, Quad, Lookup;
      if |d| < 3 {
        QuadDecodes(chars, d, [], val);
        assert Quad(chars, d) + [] == Quad(chars, d);
        DecodeNothing(chars);
      } else {
        var rest := Encode(chars, d[3..]);
        QuadDecodes(chars, d[..3], rest, val);
        var w := Word(d[..3]);
        var v := Shifted(Shifted(Shifted(Shifted(val, 6, w / 0x4_0000), 6, w / 0x1000 % 64), 6, w / 64 % 64), 6, w % 64);
        DecodeBlocks(chars, d[3..], v);
        assert d[..3] + d[3..] == d;
      }
    }
  }

  lemma DecodeNothing(chars: Bytes)
    ensures forall val, valb :: -8 <= valb < 0 ==> AccumulatorDecode(chars, [], val, valb) == []
  {
  }

  lemma FourThen(q: Bytes, rest: Bytes)
    requires |q| == 4
    ensures q + rest == [q[0]] + ([q[1]] + ([q[2]] + ([q[3]] + rest)))
  {
  }

  /** Two, three or four alphabet characters in a row give one, two or three bytes. */
  lemma SextetsDecode(chars: Bytes, q: Bytes, rest: Bytes, val: UInt32)
    requires |q| == 4 && Lookup(chars, q[0]) >= 0 && Lookup(chars, q[1]) >= 0
    requires Lookup(chars, q[2]) < 0 ==> Lookup(chars, q[3]) < 0
    ensures var v1 := Shifted(val, 6, Lookup(chars, q[0])); var v2 := Shifted(v1, 6, Lookup(chars, q[1]));
      AccumulatorDecode(chars, q + rest, val, -8)
      == [v2 / 16 % 256]
         + if Lookup(chars, q[2]) < 0 then AccumulatorDecode(chars, rest, v2, -4)
           else
             var v3 := Shifted(v2, 6, Lookup(chars, q[2]));
             [v3 / 4 % 256]
             + if Lookup(chars, q[3]) < 0 then AccumulatorDecode(chars, rest, v3, -6)
               else
                 var v4 := Shifted(v3, 6, Lookup(chars, q[3]));
                 [v4 % 256] + AccumulatorDecode(chars, rest, v4, -8)
  {
    hide Shifted, AccumulatorDecode, Lookup, Pow2;
    Pow2Values();
    Pow2None();
    var s1 := [q[1]] + ([q[2]] + ([q[3]] + rest));
    var v1 := Shifted(val, 6, Lookup(chars, q[0]));
    var v2 := Shifted(v1, 6, Lookup(chars, q[1]));
    FourThen(q, rest);
    NextSextet(chars, q[0], s1, val, -8);
    NextSextet(chars, q[1], [q[2]] + ([q[3]] + rest), v1, -2);
    NextSextet(chars, q[2], [q[3]] + rest, v2, -4);
    if Lookup(chars, q[2]) < 0 { NextSextet(chars, q[3], rest, v2, -4); }
    else { NextSextet(chars, q[3], rest, Shifted(v2, 6, Lookup(chars, q[2])), -6); }
  }

  lemma Pow2None()
    ensures Pow2(0) == 1
  {
  }

  lemma QuadDecodes(chars: Bytes, d: Bytes, rest: Bytes, val: UInt32)
    requires Alphabet(chars) && 1 <= |d| <= 3
    requires |d| < 3 ==> rest == []
    ensures var w := Word(d);
      var v := Shifted(Shifted(Shifted(Shifted(val, 6, w / 0x4_0000), 6, w / 0x1000 % 64), 6, w / 64 % 64), 6, w % 64);
      AccumulatorDecode(chars, Quad(chars, d) + rest, val, -8) == d + AccumulatorDecode(chars, rest, v, -8)
  {
    hide Shifted, AccumulatorDecode, Lookup, Quad;
    var w := Word(d);
    var v3 := Shifted(Shifted(Shifted(val, 6, w / 0x4_0000), 6, w / 0x1000 % 64), 6, w / 64 % 64);
    QuadIs(chars, d);
    DecodedBlock(w, val);
    DecodeNothing(chars);
    SextetsOf(d[0], if |d| > 1 then d[1] else 0, if |d| > 2 then d[2] else 0);
    LookupInverse(chars, w / 0x4_0000);
    LookupInverse(chars, w / 0x1000 % 64);
    LookupInverse(chars, w / 64 % 64);
    LookupInverse(chars, w % 64);
    LookupPad(chars);
    SextetsDecode(chars, Quad(chars, d), rest, val);
    if |d| == 1 { assert d == [d[0]]; }
    else if |d| == 2 { assert d == [d[0]] + [d[1]]; }
    else { ThreeBytes(d, AccumulatorDecode(chars, rest, Shifted(v3, 6, w % 64), -8)); }
  }

  lemma ThreeBytes(d: Bytes, rest: Bytes)
    requires |d| == 3
    ensures d + rest == [d[0]] + ([d[1]] + ([d[2]] + rest))
  {
  }

  lemma QuadIs(chars: Bytes, d: Bytes)
    requires |chars| == 64 && d != []
    ensures var q, w := Quad(chars, d), Word(d);
      q[0] == chars[w / 0x4_0000] && q[1] == chars[w / 0x1000 % 64]
      && q[2] == (if |d| > 1 then chars[w / 64 % 64] else PAD) && q[3] == (if |d| > 2 then chars[w % 64] else PAD)
  {
  }

  lemma LookupInverse(chars: Bytes, i: nat)
    requires Alphabet(chars) && i < 64
    ensures Lookup(chars, chars[i]) == i
  {
    LastIndexIs(chars, chars[i], i);
  }

  lemma LookupPad(chars: Bytes)
    requires Alphabet(chars)
    ensures Lookup(chars, PAD) == -1
  {
    LastIndexIs(chars, PAD, -1);
  }

  /** The accumulator decoder recovers the bytes from any text whose alphabet characters are those of
      the encoding, however many other characters are interleaved. */
  lemma DecodeNoisy(chars: Bytes, d: Bytes, text: Bytes)
    requires Alphabet(chars)
    requires Sift(chars, text) == Sift(chars, Encode(chars, d))
    ensures AccumulatorDecode(chars, text, 0, -8) == d
  {
    DecodeSifted(chars, text, 0, -8);
    DecodeSifted(chars, Encode(chars, d), 0, -8);
    DecodeBlocks(chars, d, 0);
  }
}
