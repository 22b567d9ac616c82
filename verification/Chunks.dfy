/** Binary data stored as an array of Base64 strings. */
module Chunks {
  import opened Bytes
  import opened Values
  import Base64

  /** Whole groups of three bytes that fit a chunk of the given number of characters. */
  function BytesPerChunk(chunkSize: nat): (r: nat)
  {
    chunkSize / 4 * 3
  }

  /** The data from `i` on, cut into encoded pieces; None where a piece is longer than a string may be. */
  function Cut(chars: Bytes, data: Bytes, i: nat, n: nat): (r: Option<seq<Value>>)
    requires |chars| == 64 && n > 0
    decreases if i < |data| then |data| - i else 0
  {
    if i >= |data| then Some([])
    else
      var e := if i + n < |data| then i + n else |data|;
      var text := Base64.Encode(chars, data[i..e]);
      if |text| > MAX_STRING_LEN then None
      else
        match Cut(chars, data, i + n, n)
        case None => None
        case Some(rest) => Some([Leaf(Text(text, false))] + rest)
  }

  /** The bytes of one stored piece; pieces that are neither data nor decodable text add nothing. */
  function PieceBytes(chars: Bytes, v: Value): (r: Bytes)
    requires |chars| == 64
  {
    if v.Leaf? && v.scalar.Binary? then v.scalar.data
    else if v.Leaf? && v.scalar.Text? then
      (match Base64.Decode(chars, v.scalar.text) case None => [] case Some(b) => b)
    else []
  }

  function Glue(chars: Bytes, vs: seq<Value>): (r: Bytes)
    requires |chars| == 64
  {
    if vs == [] then [] else PieceBytes(chars, vs[0]) + Glue(chars, vs[1..])
  }

  /** getBinChunked. */
  function GetChunked(chars: Bytes, root: Option<Value>, key: Bytes): (r: Bytes)
    requires |chars| == 64
  {
    if root.Some? && root.value.Object? && key != [] && key in root.value.fields && root.value.fields[key].Array?
    then Glue(chars, root.value.fields[key].items) else []
  }

  /** putBinChunked: a root that is no object is replaced first; a key that is taken keeps its value. */
  function PutChunked(chars: Bytes, root: Option<Value>, key: Bytes, data: Bytes, chunkSize: nat): (r: (bool, Option<Value>))
    requires |chars| == 64 && (chunkSize >= 4 || data == [])
  {
    var fields := if root.Some? && root.value.Object? then root.value.fields else map[];
    if data == [] then (true, Some(Object(Emplace(fields, key, Array([])))))
    else
      match Cut(chars, data, 0, BytesPerChunk(chunkSize))
      case None => (false, Some(Object(fields)))
      case Some(pieces) => (true, Some(Object(Emplace(fields, key, Array(pieces)))))
  }

  /** Gluing the pieces gives the data back, for any character set and any piece size. */
  lemma {:induction false} GlueCut(chars: Bytes, data: Bytes, i: nat, n: nat)
    requires Base64.Alphabet(chars) && n > 0 && i <= |data|
    ensures Cut(chars, data, i, n).Some? ==> Glue(chars, Cut(chars, data, i, n).value) == data[i..]
    decreases |data| - i
  {
    hide Base64.Encode, Base64.Decode, Base64.Alphabet;
    AlphabetSize(chars);
    if i < |data| {
      var e := if i + n < |data| then i + n else |data|;
      Base64.RoundTrip(chars, data[i..e]);
      if Cut(chars, data, i, n).Some? {
        if i + n <= |data| { GlueCut(chars, data, i + n, n); }
        var pieces := Cut(chars, data, i, n).value;
        assert pieces[1..] == Cut(chars, data, i + n, n).value;
        assert data[i..] == data[i..e] + data[e..];
      }
    }
  }

  lemma AlphabetSize(chars: Bytes)
    requires Base64.Alphabet(chars)
    ensures |chars| == 64
  {
  }

  /** Cutting fails only where a piece would exceed the string limit. */
  lemma {:induction false} CutFits(chars: Bytes, data: Bytes, i: nat, n: nat)
    requires |chars| == 64 && n > 0 && (n + 2) / 3 * 4 <= MAX_STRING_LEN
    ensures Cut(chars, data, i, n).Some?
    decreases if i < |data| then |data| - i else 0
  {
    if i < |data| { CutFits(chars, data, i + n, n); }
  }

  /** What is read back after storing: the data under a new key, the old content under a taken one. */
  lemma StoredThenRead(chars: Bytes, root: Option<Value>, key: Bytes, data: Bytes, chunkSize: nat)
    requires Base64.Alphabet(chars) && |chars| == 64 && (chunkSize >= 4 || data == [])
    ensures var (ok, stored) := PutChunked(chars, root, key, data, chunkSize);
      && (ok ==> GetChunked(chars, stored, key)
                 == if key == [] then []
                    else if root.Some? && root.value.Object? && key in root.value.fields then GetChunked(chars, root, key)
                    else data)
      && (!ok ==> GetChunked(chars, stored, key) == GetChunked(chars, root, key))
      && (4 <= chunkSize <= MAX_STRING_LEN ==> ok)
  {
    hide Cut, Glue;
    if data == [] {
      NothingGlued(chars);
    } else {
      var n := BytesPerChunk(chunkSize);
      GlueCut(chars, data, 0, n);
      assert data[0..] == data;
      if chunkSize <= MAX_STRING_LEN { CutFits(chars, data, 0, n); }
    }
  }

  lemma NothingGlued(chars: Bytes)
    requires |chars| == 64
    ensures Glue(chars, []) == []
  {
  }
}
