/** The Base64 routines as they run: a decode table filled in place, block loops, bit accumulators. */
module Base64Codec {
  import opened Bytes
  import opened Values
  import opened Base64
  import opened Base64Bits

  /** The 256-entry decode table of a character set. */
  ghost predicate IsTable(table: array<int>, chars: Bytes)
    reads table
  {
    table.Length == 256 && forall c: Byte :: table[c] == Lookup(chars, c)
  }

  method RebuildDecodeTable(table: array<int>, chars: Bytes)
    requires table.Length == 256 && |chars| == 64
    modifies table
    ensures IsTable(table, chars)
  {
    for c := 0 to 256
      invariant forall k :: 0 <= k < c ==> table[k] == -1
    {
      table[c] := -1;
    }
    for i := 0 to 64
      invariant forall c: Byte :: table[c] == LastIndexOf(chars[..i], c)
    {
      forall c: Byte
        ensures LastIndexOf(chars[..i + 1], c) == if c == chars[i] then i else LastIndexOf(chars[..i], c)
      {
        assert chars[..i + 1][..i] == chars[..i];
      }
      table[chars[i]] := i;
    }
    assert chars[..64] == chars;
  }

  function Block(d: Bytes): (r: Bytes)
  {
    if |d| < 3 then d else d[..3]
  }

  /** One step of the encoder's loop: up to three bytes from `i` on become four characters. */
  method PushQuad(chars: Bytes, input: Bytes, i: nat, out: Bytes) returns (r: Bytes)
    requires |chars| == 64 && i < |input|
    ensures r == out + Quad(chars, Block(input[i..]))
  {
    var a: int, b: int, c: int := input[i],
      if i + 1 < |input| then input[i + 1] else 0, if i + 2 < |input| then input[i + 2] else 0;
    var v := a * 0x1_0000 + b * 0x100 + c;
    assert Word(Block(input[i..])) == v;
    var q0, q1 := chars[v / 0x4_0000], chars[v / 0x1000 % 64];
    var q2 := if i + 1 < |input| then chars[v / 64 % 64] else PAD;
    var q3 := if i + 2 < |input| then chars[v % 64] else PAD;
    r := out + [q0] + [q1] + [q2] + [q3];
    assert [q0, q1, q2, q3] == Quad(chars, Block(input[i..])) by { hide Word; }
  }

  method EncodeBlocks(chars: Bytes, input: Bytes) returns (out: Bytes)
    requires |chars| == 64
    ensures out == Encode(chars, input)
  {
    hide Quad;
    out := [];
    var i := 0;
    while i < |input|
      invariant 0 <= i
      invariant i <= |input| ==> out + Encode(chars, input[i..]) == Encode(chars, input)
      invariant i > |input| ==> out == Encode(chars, input)
      decreases |input| - i
    {
      ghost var before, rest := out, input[i..];
      out := PushQuad(chars, input, i, out);
      EncodeStep(chars, rest);
      if |rest| >= 3 {
        assert rest[3..] == input[i + 3..];
        assert before + (Quad(chars, Block(rest)) + Encode(chars, input[i + 3..]))
            == out + Encode(chars, input[i + 3..]);
      }
      i := i + 3;
    }
    if i == |input| { assert out + [] == out; }
  }

  lemma EncodeStep(chars: Bytes, d: Bytes)
    requires |chars| == 64 && d != []
    ensures Encode(chars, d) == Quad(chars, Block(d)) + (if |d| < 3 then [] else Encode(chars, d[3..]))
  {
    assert Quad(chars, Block(d)) + [] == Quad(chars, Block(d));
  }

  /** The values of four characters, or None at the first that has none. */
  method ReadQuad(table: array<int>, ghost chars: Bytes, s: Bytes, i: nat) returns (v: Option<nat>)
    requires |chars| == 64 && IsTable(table, chars) && i + 4 <= |s|
    ensures var t := Triple(chars, s[i..i + 4]);
      (v.Some? <==> t.Some?) && (v.Some? ==> t.value == [v.value / 0x1_0000 % 256, v.value / 0x100 % 256, v.value % 256])
  {
    hide Lookup;
    var word := 0;
    ghost var seen: seq<nat> := [];
    for k := 0 to 4
      invariant |seen| == k
      invariant forall m :: 0 <= m < k ==> Sextet(chars, s[i + m]) == Some(seen[m]) && seen[m] < 64
      invariant word == if k == 0 then 0 else if k == 1 then seen[0] else if k == 2 then seen[0] * 64 + seen[1]
        else if k == 3 then seen[0] * 0x1000 + seen[1] * 64 + seen[2]
        else seen[0] * 0x4_0000 + seen[1] * 0x1000 + seen[2] * 64 + seen[3]
    {
      var val := table[s[i + k]];
      if val < 0 {
        if s[i + k] != PAD { return None; }
        val := 0;
      }
      assert Sextet(chars, s[i + k]) == Some(val);
      word := word * 64 + val;
      seen := seen + [val];
    }
    assert word / 0x1_0000 < 256;
    v := Some(word);
  }

  /** Stores the three bytes of a word at `j`, dropping what does not fit. */
  method Store(out: array<Byte>, j0: nat, word: nat) returns (j: nat)
    requires j0 <= out.Length
    modifies out
    ensures j == if j0 + 3 <= out.Length then j0 + 3 else out.Length
    ensures out[..j] == (old(out[..j0]) + [word / 0x1_0000 % 256, word / 0x100 % 256, word % 256])[..j]
  {
    j := j0;
    if j < out.Length { out[j] := word / 0x1_0000 % 256; j := j + 1; }
    if j < out.Length { out[j] := word / 0x100 % 256; j := j + 1; }
    if j < out.Length { out[j] := word % 256; j := j + 1; }
  }

  /** Decodes into a vector sized up front; whatever does not fit is dropped. */
  method DecodeFast(table: array<int>, ghost chars: Bytes, s: Bytes) returns (r: Option<Bytes>)
    requires |chars| == 64 && IsTable(table, chars)
    ensures r == Decode(chars, s)
  {
    hide Triple, Triples, Lookup;
    if |s| == 0 { return Some([]); }
    if |s| % 4 != 0 { return None; }
    var padding := 0;
    if |s| >= 1 && s[|s| - 1] == PAD { padding := padding + 1; }
    if |s| >= 2 && s[|s| - 2] == PAD { padding := padding + 1; }
    assert padding == Padding(s);
    var out := new Byte[|s| / 4 * 3 - padding];
    var complete := DecodeQuads(table, chars, s, out);
    r := if complete then Some(out[..]) else None;
  }

  method DecodeQuads(table: array<int>, ghost chars: Bytes, s: Bytes, out: array<Byte>) returns (complete: bool)
    requires |chars| == 64 && IsTable(table, chars) && |s| % 4 == 0 && out.Length <= |s| / 4 * 3
    modifies out
    ensures complete <==> Triples(chars, s).Some?
    ensures complete ==> out[..] == Triples(chars, s).value[..out.Length]
  {
    hide Triple, Triples, Lookup;
    var i, j := 0, 0;
    ghost var done: Bytes := [];
    assert s[0..] == s;
    assert Triples(chars, s).Some? ==> [] + Triples(chars, s).value == Triples(chars, s).value;
    while i < |s|
      invariant 0 <= i <= |s| && i % 4 == 0 && |done| == i / 4 * 3 && IsTable(table, chars)
      invariant j == if |done| < out.Length then |done| else out.Length
      invariant out[..j] == done[..j]
      invariant Triples(chars, s) == Prepend(done, Triples(chars, s[i..]))
    {
      TriplesStep(chars, s, i, done);
      var v := ReadQuad(table, chars, s, i);
      if v.None? { return false; }
      ghost var more := done + Triple(chars, s[i..i + 4]).value;
      ghost var j0 := j;
      j := Store(out, j, v.value);
      assert (done[..j0] + Triple(chars, s[i..i + 4]).value)[..j] == more[..j];
      done := more;
      i := i + 4;
    }
    TriplesNothing(chars, s, done);
    assert out[..] == out[..j];
    complete := true;
  }

  lemma TriplesStep(chars: Bytes, s: Bytes, i: nat, done: Bytes)
    requires |chars| == 64 && |s| % 4 == 0 && i % 4 == 0 && i < |s|
    ensures Prepend(done, Triples(chars, s[i..]))
         == match Triple(chars, s[i..i + 4])
            case None => None
            case Some(t) => Prepend(done + t, Triples(chars, s[i + 4..]))
  {
    hide Triple;
    var rest := s[i..];
    assert rest[..4] == s[i..i + 4] && rest[4..] == s[i + 4..];
    match (Triple(chars, rest[..4]), Triples(chars, rest[4..]))
    case (Some(a), Some(b)) => assert done + (a + b) == (done + a) + b;
    case _ =>
  }

  lemma TriplesNothing(chars: Bytes, s: Bytes, done: Bytes)
    requires |chars| == 64
    ensures Prepend(done, Triples(chars, s[|s|..])) == Some(done)
  {
    assert s[|s|..] == [] && done + [] == done;
  }

  // ---------- The converter's accumulators ----------

  /** The inner loop: sextets leave while eight or more bits are waiting. */
  method DrainBits(chars: Bytes, out: Bytes, val: UInt32, start: int) returns (r: Bytes, valb: int)
    requires |chars| == 64 && 0 <= start
    ensures r == out + Drain(chars, val, start) && valb == Settle(start)
  {
    r, valb := out, start;
    while valb >= 0
      invariant -6 <= valb && Settle(valb) == Settle(start)
      invariant r + Drain(chars, val, valb) == out + Drain(chars, val, start)
      decreases valb + 6
    {
      ghost var b := chars[val / Pow2(valb) % 64];
      assert r + ([b] + Drain(chars, val, valb - 6)) == (r + [b]) + Drain(chars, val, valb - 6);
      r := r + [chars[val / Pow2(valb) % 64]];
      valb := valb - 6;
    }
    assert r + [] == r;
  }

  method PadToQuads(body: Bytes) returns (out: Bytes)
    ensures out == Padded(body)
  {
    out := body;
    while |out| % 4 != 0
      invariant |body| <= |out| && out == body + seq(|out| - |body|, _ => PAD)
      invariant |out| <= |body| + (4 - |body| % 4) % 4
      decreases |body| + 4 - |out|
    {
      out := out + [PAD];
    }
    assert |out| == |body| + (4 - |body| % 4) % 4;
  }

  method EncodeBits(chars: Bytes, buf: Bytes) returns (out: Bytes)
    requires |chars| == 64
    ensures out == AccumulatorEncode(chars, buf)
  {
    hide Shifted, Drain, Accumulate;
    out := [];
    var val: UInt32, valb := 0, -6;
    assert buf[0..] == buf;
    for i := 0 to |buf|
      invariant -6 <= valb < 0
      invariant out + Accumulate(chars, buf[i..], val, valb) == Accumulate(chars, buf, 0, -6)
    {
      ghost var before := out;
      assert buf[i..][0] == buf[i] && buf[i..][1..] == buf[i + 1..];
      AccumulateStep(chars, buf[i..], val, valb);
      val := Shifted(val, 8, buf[i]);
      ghost var drained := Drain(chars, val, valb + 8);
      out, valb := DrainBits(chars, out, val, valb + 8);
      assert before + (drained + Accumulate(chars, buf[i + 1..], val, valb))
          == out + Accumulate(chars, buf[i + 1..], val, valb);
    }
    AccumulateEnd(chars, val, valb);
    assert buf[|buf|..] == [];
    if valb > -6 { out := out + [chars[Shifted(val, 8, 0) / Pow2(valb + 8) % 64]]; }
    else { assert out + [] == out; }
    out := PadToQuads(out);
  }

  method DecodeBits(chars: Bytes, text: Bytes) returns (out: Bytes)
    requires |chars| == 64
    ensures out == AccumulatorDecode(chars, text, 0, -8)
  {
    hide Shifted;
    var table := new int[256];
    RebuildDecodeTable(table, chars);
    out := [];
    var val: UInt32, valb := 0, -8;
    for i := 0 to |text|
      invariant -8 <= valb < 0 && IsTable(table, chars)
      invariant out + AccumulatorDecode(chars, text[i..], val, valb) == AccumulatorDecode(chars, text, 0, -8)
    {
      ghost var before := out;
      assert text[i..] == [text[i]] + text[i + 1..];
      NextSextet(chars, text[i], text[i + 1..], val, valb);
      assert table[text[i]] == Lookup(chars, text[i]);
      if table[text[i]] != -1 {
        val := Shifted(val, 6, table[text[i]]);
        valb := valb + 6;
        if valb >= 0 {
          out := out + [val / Pow2(valb) % 256];
          valb := valb - 8;
          ghost var rest := AccumulatorDecode(chars, text[i + 1..], val, valb);
          assert before + ([out[|before|]] + rest) == out + rest;
        }
      }
    }
    assert out + [] == out;
  }
}
