/** Protobuf varints and zigzag integers. */
module Varint {
  import opened Bytes

  // ---------- Powers ----------

  function Pow128(k: nat): (r: nat)
    ensures r > 0
  {
    if k == 0 then 1 else 128 * Pow128(k - 1)
  }

  lemma Pow128Nine()
    ensures Pow128(9) == TWO_63
  {
    assert Pow128(3) == 0x20_0000;
    assert Pow128(6) == 0x400_0000_0000;
  }

  // ---------- Varints ----------

  /** Seven bits a byte, least significant first; every byte but the last has its top bit set. */
  function Write(val: nat): (r: Bytes)
    ensures r != []
  {
    if val >= 0x80 then [val % 128 + 128] + Write(val / 128) else [val]
  }

  /** Reading goes on at byte `k` of the varint with `acc` collected so far; 64-bit arithmetic drops what
      does not fit, and an eleventh byte is an error. */
  function ReadFrom(data: Bytes, size: nat, pos: nat, k: nat, acc: UInt64): (r: Parsed<UInt64>)
    requires size <= |data| && k <= 9
    ensures r.Ok? ==> pos < r.pos <= size
    decreases 10 - k
  {
    if pos >= size then Err(BadVarint)
    else
      var b: int := data[pos];
      var val := (acc + (b % 128) * Pow128(k)) % TWO_64;
      if b < 128 then Ok(val, pos + 1)
      else if k == 9 then Err(BadVarint)
      else ReadFrom(data, size, pos + 1, k + 1, val)
  }

  function Read(data: Bytes, size: nat, pos: nat): (r: Parsed<UInt64>)
    requires size <= |data|
    ensures r.Ok? ==> pos < r.pos <= size
  {
    ReadFrom(data, size, pos, 0, 0)
  }

  lemma {:induction false} ReadFromWrite(data: Bytes, size: nat, pos: nat, k: nat, acc: nat, val: nat)
    requires size <= |data| && k <= 9 && At(data, pos, Write(val)) && pos + |Write(val)| <= size
    requires acc < Pow128(k) && acc + val * Pow128(k) < TWO_64
    ensures acc < TWO_64 && ReadFrom(data, size, pos, k, acc) == Ok(acc + val * Pow128(k), pos + |Write(val)|)
    decreases val
  {
    hide Pow128, ReadFrom, Write;
    WriteStep(val);
    AtHead(data, pos, Write(val));
    AtLeastNothing(val, Pow128(k));
    if val >= 0x80 {
      var next := acc + val % 128 * Pow128(k);
      SplitBits(k, acc, val);
      StepMore(data, size, pos, k, acc);
      assert data[pos] % 128 == val % 128;
      Unwrapped(next);
      assert ReadFrom(data, size, pos, k, acc) == ReadFrom(data, size, pos + 1, k + 1, next);
      ReadFromWrite(data, size, pos + 1, k + 1, next, val / 128);
    } else {
      StepLast(data, size, pos, k, acc);
      assert data[pos] == val;
      Unwrapped(acc + val * Pow128(k));
    }
  }

  lemma WriteStep(val: nat)
    ensures Write(val) == if val >= 0x80 then [val % 128 + 128] + Write(val / 128) else [val]
  {
  }

  lemma Unwrapped(n: nat)
    ensures n < TWO_64 ==> n % TWO_64 == n
  {
  }

  lemma AtLeastNothing(n: nat, d: nat)
    ensures n * d >= 0
  {
  }

  lemma StepNone(data: Bytes, size: nat, pos: nat, k: nat, acc: UInt64)
    requires size <= |data| && k <= 9 && (pos >= size || (k == 9 && data[pos] >= 128))
    ensures ReadFrom(data, size, pos, k, acc).Err?
  {
  }

  lemma StepLast(data: Bytes, size: nat, pos: nat, k: nat, acc: UInt64)
    requires pos < size <= |data| && k <= 9 && data[pos] < 128
    ensures ReadFrom(data, size, pos, k, acc) == Ok((acc + data[pos] * Pow128(k)) % TWO_64, pos + 1)
  {
  }

  lemma StepMore(data: Bytes, size: nat, pos: nat, k: nat, acc: UInt64)
    requires pos < size <= |data| && k < 9 && data[pos] >= 128
    ensures ReadFrom(data, size, pos, k, acc)
         == ReadFrom(data, size, pos + 1, k + 1, (acc + data[pos] % 128 * Pow128(k)) % TWO_64)
  {
  }

  /** The low seven bits go in at this place, the others from the next place on; there is a next place. */
  lemma SplitBits(k: nat, acc: nat, val: nat)
    requires k <= 9 && val >= 0x80 && acc < Pow128(k) && acc + val * Pow128(k) < TWO_64
    ensures k < 9 && acc + val % 128 * Pow128(k) < Pow128(k + 1)
    ensures acc + val % 128 * Pow128(k) + val / 128 * Pow128(k + 1) == acc + val * Pow128(k)
    ensures acc + val % 128 * Pow128(k) < TWO_64
  {
    var p, low, high := Pow128(k), val % 128, val / 128;
    Pow128Nine();
    assert Pow128(k + 1) == 128 * p;
    assert val == high * 128 + low;
    assert val * p == high * (128 * p) + low * p;
    LowBits(low, p);
    AtLeast(high, 128 * p);
  }

  lemma LowBits(low: nat, p: nat)
    requires low < 128 && p > 0
    ensures low * p <= 127 * p
  {
  }

  lemma AtLeast(n: nat, d: nat)
    requires n >= 1
    ensures n * d >= d
  {
  }

  /** Reading inverts writing over all 64-bit values, whatever follows. */
  lemma ReadWrite(data: Bytes, size: nat, pos: nat, val: UInt64)
    requires size <= |data| && At(data, pos, Write(val)) && pos + |Write(val)| <= size
    ensures Read(data, size, pos) == Ok(val, pos + |Write(val)|)
  {
    ReadFromWrite(data, size, pos, 0, 0, val);
  }

  lemma {:induction false} WriteLength(val: nat, m: nat)
    requires m > 0 && val < Pow128(m)
    ensures |Write(val)| <= m
    decreases m
  {
    if val >= 0x80 {
      assert m > 1 by { assert Pow128(1) == 128 * Pow128(0) == 128; }
      WriteLength(val / 128, m - 1);
    }
  }

  lemma AtMostTenBytes(val: UInt64)
    ensures |Write(val)| <= 10
  {
    Pow128Nine();
    assert Pow128(10) == 128 * Pow128(9);
    WriteLength(val, 10);
  }

  /** Adding seven bits at place `k` stays below the next place. */
  lemma AddsBelow(b: nat, k: nat, acc: nat)
    requires b < 128 && acc < Pow128(k)
    ensures acc + b * Pow128(k) < Pow128(k + 1)
  {
    LowBits(b, Pow128(k));
  }

  lemma {:induction false} ReadFromBound(data: Bytes, size: nat, pos: nat, k: nat, acc: UInt64)
    requires size <= |data| && k <= 9 && acc < Pow128(k)
    ensures var r := ReadFrom(data, size, pos, k, acc);
      r.Ok? ==> r.value < Pow128(k + (r.pos - pos))
    decreases 10 - k
  {
    hide Pow128, ReadFrom;
    if pos >= size || (k == 9 && data[pos] >= 128) {
      StepNone(data, size, pos, k, acc);
    } else {
      var b: nat := data[pos] % 128;
      AddsBelow(b, k, acc);
      var val := (acc + b * Pow128(k)) % TWO_64;
      Wraps(acc + b * Pow128(k));
      if data[pos] >= 128 {
        StepMore(data, size, pos, k, acc);
        ReadFromBound(data, size, pos + 1, k + 1, val);
      } else {
        StepLast(data, size, pos, k, acc);
      }
    }
  }

  lemma Wraps(n: nat)
    ensures 0 <= n % TWO_64 <= n
  {
  }

  /** Any accepted encoding of a value is at least as long as the one that is written. */
  lemma WrittenIsShortest(data: Bytes, size: nat, pos: nat)
    requires size <= |data| && Read(data, size, pos).Ok?
    ensures |Write(Read(data, size, pos).value)| <= Read(data, size, pos).pos - pos
  {
    hide ReadFrom, Write;
    ReadFromBound(data, size, pos, 0, 0);
    WriteLength(Read(data, size, pos).value, Read(data, size, pos).pos - pos);
  }

  // ---------- Zigzag ----------

  /** Exclusive or with a mask of all zeros or all ones. */
  function XorMask(u: UInt64, ones: bool): (r: UInt64)
  {
    if ones then TWO_64 - 1 - u else u
  }

  /** (val << 1) ^ (val >> 63), the second shift arithmetic. */
  function ZigZagEncode(n: Int64): (r: UInt64)
  {
    XorMask(2 * ToU64(n) % TWO_64, n < 0)
  }

  /** (val >> 1) ^ -(val & 1). */
  function ZigZagDecode(u: UInt64): (r: Int64)
  {
    ToI64(XorMask(u / 2, u % 2 == 1))
  }

  /** Encoding and decoding are inverse bijections between signed and unsigned 64-bit integers. */
  lemma ZigZagBijection(n: Int64, u: UInt64)
    ensures ZigZagDecode(ZigZagEncode(n)) == n
    ensures ZigZagEncode(ZigZagDecode(u)) == u
  {
    assert ZigZagEncode(n) == if n >= 0 then 2 * n else -2 * n - 1;
    assert ZigZagDecode(u) == if u % 2 == 0 then u / 2 else -1 - u / 2;
  }

  function Magnitude(n: int): (r: nat) { if n < 0 then 0 - n else n }

  lemma ZigZagIs(n: Int64)
    ensures ZigZagEncode(n) == if n >= 0 then 2 * n else 2 * Magnitude(n) - 1
  {
  }

  /** Numbers of smaller magnitude get smaller codes. */
  lemma ZigZagOrders(a: Int64, b: Int64)
    ensures Magnitude(a) < Magnitude(b) ==> ZigZagEncode(a) < ZigZagEncode(b)
  {
    hide ZigZagEncode;
    ZigZagIs(a);
    ZigZagIs(b);
  }
}
