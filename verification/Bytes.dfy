/** Bytes, fixed-width integers and the positional reasoning shared by all codecs. */
module Bytes {

  type Byte = i: int | 0 <= i < 256
  type Bytes = seq<Byte>

  const TWO_32: int := 0x1_0000_0000
  const TWO_63: int := 0x8000_0000_0000_0000
  const TWO_64: int := 0x1_0000_0000_0000_0000

  type Int8 = i: int | -128 <= i < 128
  type Int64 = i: int | -TWO_63 <= i < TWO_63
  type UInt32 = i: int | 0 <= i < TWO_32
  type UInt64 = i: int | 0 <= i < TWO_64

  /** The outcome of reading at a position: a value and the position after it, or an error. */
  datatype Parsed<+T> = Ok(value: T, pos: nat) | Err(error: Error)

  /** What a throwing member hands back. */
  datatype Result<+T> = Success(value: T) | Failure(error: Error)

  /** A cursor at `pos` has done what reading at a position specifies. */
  ghost predicate Agrees<T>(spec: Parsed<T>, r: Result<T>, pos: nat)
  {
    match spec
    case Ok(v, p) => r == Success(v) && pos == p
    case Err(e) => r == Failure(e)
  }

  datatype Option<+T> = None | Some(value: T)

  datatype Error =
    | TooDeep
    | UnexpectedEnd
    | TooLarge
    | BadKey
    | BadHead
    | BadChunk
    | BadLength
    | BadText
    | BadDateTime
    | BadVarint
    | TrailingBytes

  // ---------- Two's complement ----------

  /** static_cast<uint64_t> of a signed value. */
  function ToU64(n: int): (r: UInt64)
  {
    n % TWO_64
  }

  /** static_cast<int64_t> of an unsigned value. */
  function ToI64(u: UInt64): (r: Int64)
  {
    if u < TWO_63 then u else u - TWO_64
  }

  /** Reinterpreting the low `bits` of a value as a signed number of that width. */
  function Signed(u: nat, modulus: nat): (r: int)
    requires modulus > 0
  {
    if 2 * u < modulus then u else u - modulus
  }

  lemma TwosComplement64(n: int)
    ensures -TWO_63 <= n < TWO_63 ==> ToI64(ToU64(n)) == n
  {
  }

  /** A signed number and its residue. */
  lemma Residue(n: int, m: nat)
    requires m > 0 && m % 2 == 0 && 0 - m / 2 <= n < m / 2
    ensures 0 <= n % m < m && Signed(n % m, m) == n
  {
    if n < 0 { assert n % m == n + m by { Wrap(n + m, m); } } else { Wrap(n, m); }
  }

  lemma Wrap(n: int, m: nat)
    requires 0 <= n < m
    ensures n % m == n && (n - m) % m == n
  {
  }

  // ---------- Powers of 256 and big/little-endian digits ----------

  function Pow256(w: nat): (r: nat)
    ensures r > 0
  {
    if w == 0 then 1 else 256 * Pow256(w - 1)
  }

  lemma Pow256Values()
    ensures Pow256(1) == 0x100 && Pow256(2) == 0x1_0000 && Pow256(4) == TWO_32 && Pow256(8) == TWO_64
  {
    assert Pow256(3) == 0x100_0000;
    assert Pow256(5) == 0x100_0000_0000;
    assert Pow256(6) == 0x1_0000_0000_0000;
    assert Pow256(7) == 0x100_0000_0000_0000;
  }

  /** The low `w` bytes of `n`, most significant first. */
  function BigEndian(n: nat, w: nat): (r: Bytes)
    ensures |r| == w
  {
    if w == 0 then [] else BigEndian(n / 256, w - 1) + [n % 256]
  }

  function FromBigEndian(s: Bytes): (r: nat)
  {
    if s == [] then 0 else FromBigEndian(s[..|s| - 1]) * 256 + s[|s| - 1]
  }

  lemma {:induction false} BigEndianInverse(n: nat, w: nat)
    requires n < Pow256(w)
    ensures FromBigEndian(BigEndian(n, w)) == n
  {
    if w > 0 {
      BigEndianInverse(n / 256, w - 1);
      assert BigEndian(n, w)[..w - 1] == BigEndian(n / 256, w - 1);
    }
  }

  lemma {:induction false} FromBigEndianBound(s: Bytes)
    ensures FromBigEndian(s) < Pow256(|s|)
  {
    if s != [] { FromBigEndianBound(s[..|s| - 1]); }
  }

  /** The low `w` bytes of `n`, least significant first. */
  function LittleEndian(n: nat, w: nat): (r: Bytes)
    ensures |r| == w
  {
    if w == 0 then [] else [n % 256] + LittleEndian(n / 256, w - 1)
  }

  function FromLittleEndian(s: Bytes): (r: nat)
  {
    if s == [] then 0 else s[0] + 256 * FromLittleEndian(s[1..])
  }

  lemma {:induction false} LittleEndianInverse(n: nat, w: nat)
    requires n < Pow256(w)
    ensures FromLittleEndian(LittleEndian(n, w)) == n
  {
    if w > 0 {
      LittleEndianInverse(n / 256, w - 1);
      assert LittleEndian(n, w)[1..] == LittleEndian(n / 256, w - 1);
    }
  }

  lemma {:induction false} FromLittleEndianBound(s: Bytes)
    ensures FromLittleEndian(s) < Pow256(|s|)
  {
    if s != [] { FromLittleEndianBound(s[1..]); }
  }

  // ---------- A chunk lying at a position of a longer input ----------

  /** `data` holds `chunk` at `pos`; whatever follows is the arbitrary suffix. */
  ghost predicate At<T>(data: seq<T>, pos: nat, chunk: seq<T>)
  {
    pos + |chunk| <= |data| && data[pos..pos + |chunk|] == chunk
  }

  lemma AtSplit<T>(data: seq<T>, pos: nat, a: seq<T>, b: seq<T>)
    requires At(data, pos, a + b)
    ensures At(data, pos, a) && At(data, pos + |a|, b)
  {
    var all := data[pos..pos + |a + b|];
    assert all[..|a|] == a && all[|a|..] == b;
    assert data[pos..pos + |a|] == all[..|a|];
    assert data[pos + |a|..pos + |a| + |b|] == all[|a|..];
  }

  lemma AtHead<T>(data: seq<T>, pos: nat, chunk: seq<T>)
    requires At(data, pos, chunk) && chunk != []
    ensures pos < |data| && data[pos] == chunk[0]
    ensures At(data, pos + 1, chunk[1..])
  {
    assert chunk == [chunk[0]] + chunk[1..];
    AtSplit(data, pos, [chunk[0]], chunk[1..]);
    assert data[pos..pos + 1] == [chunk[0]];
  }

  // ---------- What a loop has collected, before what is still to come ----------

  function Prepend<T>(a: seq<T>, b: Option<seq<T>>): (r: Option<seq<T>>)
  {
    match b case None => None case Some(s) => Some(a + s)
  }

  lemma PrependNothing<T>(r: Option<seq<T>>)
    ensures Prepend([], r) == r
  {
    if r.Some? { assert [] + r.value == r.value; }
  }

  lemma Regrouped<T>(a: seq<T>, b: seq<T>, c: seq<T>)
    ensures a + (b + c) == (a + b) + c
  {
  }

  lemma Regroup5<T>(a: seq<T>, b: seq<T>, c: seq<T>, d: seq<T>, e: seq<T>, f: seq<T>)
    ensures (a + (b + (c + (d + e)))) + f == a + (b + (c + (d + (e + f))))
  {
    Regrouped(d, e, f);
    Regrouped(c, d + e, f);
    Regrouped(b, c + (d + e), f);
    Regrouped(a, b + (c + (d + e)), f);
  }

  lemma PrependTwice<T>(a: seq<T>, b: seq<T>, r: Option<seq<T>>)
    ensures Prepend(a, Prepend(b, r)) == Prepend(a + b, r)
  {
    match r
    case None =>
    case Some(s) => assert a + (b + s) == (a + b) + s;
  }

  // ---------- Reading ----------

  function Remaining(data: Bytes, pos: nat): nat
  {
    if pos < |data| then |data| - pos else 0
  }

  /** A big-endian integer of `w` bytes. */
  function ReadWide(data: Bytes, pos: nat, w: nat): (r: Parsed<UInt64>)
    requires w <= 8
    ensures r.Ok? ==> r.pos == pos + w <= |data|
  {
    if pos + w > |data| then Err(UnexpectedEnd)
    else
      FromBigEndianBound(data[pos..pos + w]);
      Pow256Grows(w, 8);
      Pow256Values();
      Ok(FromBigEndian(data[pos..pos + w]), pos + w)
  }

  lemma {:induction false} Pow256Grows(a: nat, b: nat)
    requires a <= b
    ensures Pow256(a) <= Pow256(b)
  {
    if a < b { Pow256Grows(a, b - 1); }
  }

  lemma WideInverse(data: Bytes, pos: nat, n: nat, w: nat, chunk: Bytes)
    requires w <= 8 && n < Pow256(w)
    requires chunk == BigEndian(n, w) && At(data, pos, chunk)
    ensures ReadWide(data, pos, w) == Ok(n, pos + w)
  {
    BigEndianInverse(n, w);
  }

  /** The same, one byte after the other. */
  method AccumulateWide(data: Bytes, start: nat, w: nat) returns (r: Result<UInt64>, pos: nat)
    requires w <= 8
    ensures Agrees(ReadWide(data, start, w), r, pos)
  {
    pos := start;
    if pos + w > |data| { return Failure(UnexpectedEnd), pos; }
    var v: nat, i := 0, 0;
    while i < w
      invariant 0 <= i <= w && v == FromBigEndian(data[pos..pos + i])
    {
      assert data[pos..pos + i + 1][..i] == data[pos..pos + i];
      v := v * 256 + data[pos + i];
      i := i + 1;
    }
    FromBigEndianBound(data[pos..pos + w]);
    Pow256Grows(w, 8);
    Pow256Values();
    return Success(v), pos + w;
  }

  /** A little-endian integer of `w` bytes. */
  function ReadLittle(data: Bytes, pos: nat, w: nat): (r: nat)
    requires pos + w <= |data|
    ensures r < Pow256(w)
  {
    FromLittleEndianBound(data[pos..pos + w]);
    FromLittleEndian(data[pos..pos + w])
  }

  lemma LittleAt(data: Bytes, pos: nat, n: nat, w: nat)
    requires n < Pow256(w) && At(data, pos, LittleEndian(n, w))
    ensures pos + w <= |data| && ReadLittle(data, pos, w) == n
  {
    LittleEndianInverse(n, w);
  }

  // ---------- Growing output ----------

  /** The output vector the encoders append to. */
  class Buffer {
    var bytes: Bytes

    constructor ()
      ensures bytes == []
    {
      bytes := [];
    }

    method Push(b: Byte)
      modifies this
      ensures bytes == old(bytes) + [b]
    {
      bytes := bytes + [b];
    }

    method Append(s: Bytes)
      modifies this
      ensures bytes == old(bytes) + s
    {
      bytes := bytes + s;
    }

    /** Pushes the low `w` bytes of `n`, most significant first, one shift at a time. */
    method PushBigEndian(n: nat, w: nat)
      modifies this
      ensures bytes == old(bytes) + BigEndian(n, w)
    {
      var i := w;
      while i > 0
        invariant 0 <= i <= w
        invariant bytes + BigEndian(n, i) == old(bytes) + BigEndian(n, w)
      {
        ShiftedFirst(n, i);
        assert bytes + BigEndian(n, i) == (bytes + [(n / Pow256(i - 1)) % 256]) + BigEndian(n, i - 1);
        i := i - 1;
        bytes := bytes + [(n / Pow256(i)) % 256];
      }
      assert bytes + [] == bytes;
    }

    /** Pushes the low `w` bytes of `n`, least significant first. */
    method PushLittleEndian(n: nat, w: nat)
      modifies this
      ensures bytes == old(bytes) + LittleEndian(n, w)
    {
      var rest, i := n, w;
      while i > 0
        invariant 0 <= i <= w && rest >= 0
        invariant bytes + LittleEndian(rest, i) == old(bytes) + LittleEndian(n, w)
      {
        assert bytes + LittleEndian(rest, i) == (bytes + [rest % 256]) + LittleEndian(rest / 256, i - 1);
        bytes := bytes + [rest % 256];
        rest, i := rest / 256, i - 1;
      }
      assert bytes + [] == bytes;
    }
  }

  /** Dividing twice is dividing by the product. */
  lemma DivideAgain(n: nat, a: nat, b: nat)
    requires a > 0 && b > 0
    ensures a * b > 0 && n / a / b == n / (a * b)
  {
    var q, r := n / a / b, n / a % b;
    assert n == a * (n / a) + n % a;
    assert n / a == b * q + r;
    assert a * (b * q) == (a * b) * q;
    SmallRest(a, b, r, n % a);
    assert n == (a * b) * q + (a * r + n % a);
    Quotient(n, a * b, q, a * r + n % a);
  }

  lemma SmallRest(a: nat, b: nat, r: nat, s: nat)
    requires r < b && s < a
    ensures a * r + s < a * b
  {
    assert a * r <= a * (b - 1) by { Grows(a, r, b - 1); }
    assert a * (b - 1) == a * b - a;
  }

  lemma Grows(a: nat, x: nat, y: nat)
    requires x <= y
    ensures a * x <= a * y
  {
  }

  lemma Quotient(n: nat, d: nat, q: nat, r: nat)
    requires d > 0 && r < d && n == d * q + r
    ensures n / d == q
  {
    var k := n / d - q;
    assert n == d * (n / d) + n % d;
    assert d * k == d * (n / d) - d * q;
    SmallMultiple(d, k);
  }

  lemma SmallMultiple(d: int, k: int)
    requires -d < d * k < d
    ensures k == 0
  {
  }

  /** The first big-endian byte is the value shifted down; the others are a shorter encoding. */
  lemma {:induction false} ShiftedFirst(n: nat, w: nat)
    requires w > 0
    ensures BigEndian(n, w) == [(n / Pow256(w - 1)) % 256] + BigEndian(n, w - 1)
  {
    if w > 1 {
      ShiftedFirst(n / 256, w - 1);
      DivideAgain(n, 256, Pow256(w - 2));
      assert Pow256(w - 1) == 256 * Pow256(w - 2);
    }
  }

  // ---------- Place by place ----------

  /** The byte of 256^k in its place, the most significant first. */
  function Big(n: nat, w: nat): (r: Bytes)
    ensures |r| == w
  {
    seq(w, i requires 0 <= i < w => n / Pow256(w - 1 - i) % 256)
  }

  lemma {:induction false} BigIs(n: nat, w: nat)
    ensures BigEndian(n, w) == Big(n, w)
    decreases w
  {
    if w > 0 {
      ShiftedFirst(n, w);
      BigIs(n, w - 1);
    }
  }

  lemma BigRead(n: nat, w: nat, data: Bytes, pos: nat)
    requires w <= 8 && n < Pow256(w) && At(data, pos, Big(n, w))
    ensures ReadWide(data, pos, w) == Ok(n, pos + w)
  {
    BigIs(n, w);
    WideInverse(data, pos, n, w, Big(n, w));
  }

  lemma BigWhole(n: nat, w: nat)
    requires n < Pow256(w)
    ensures FromBigEndian(Big(n, w)) == n
  {
    BigIs(n, w);
    BigEndianInverse(n, w);
  }

  /** The byte of 256^k in place k, the least significant first. */
  function Little(n: nat, w: nat): (r: Bytes)
    ensures |r| == w
  {
    seq(w, i requires 0 <= i < w => n / Pow256(i) % 256)
  }

  lemma {:induction false} LittleIs(n: nat, w: nat)
    ensures LittleEndian(n, w) == Little(n, w)
    decreases w
  {
    if w > 0 {
      LittleIs(n / 256, w - 1);
      forall i | 0 <= i < w ensures LittleEndian(n, w)[i] == Little(n, w)[i] {
        if i == 0 { assert Pow256(0) == 1; } else { DivideAgain(n, 256, Pow256(i - 1)); }
      }
    }
  }

  lemma LittleRead(n: nat, w: nat, data: Bytes, pos: nat)
    requires n < Pow256(w) && At(data, pos, Little(n, w))
    ensures pos + w <= |data| && ReadLittle(data, pos, w) == n
  {
    LittleIs(n, w);
    LittleAt(data, pos, n, w);
  }
}
