/** The value tree every format is written against. */
module Values {
  import opened Bytes

  const MAX_NESTING_DEPTH: nat := 48
  const MAX_STRING_LEN: nat := 10 * 1024 * 1024
  const MAX_ARRAY_SIZE: nat := 1_000_000
  const MAX_OBJECT_SIZE: nat := 1_000_000

  /** Everything that is not an array or an object.  Doubles are their bit patterns; `Float32` is a
      double flagged is_float32, held as the 32-bit pattern it is written with.  A `Text` with
      `rawNumber` set is an exact numeric literal.  `Regex` holds pattern, NUL, options. */
  datatype Scalar =
    | Null
    | Bool(flag: bool)
    | Int(num: Int64)
    | Double(bits: UInt64)
    | Float32(bits32: UInt32)
    | Text(text: Bytes, rawNumber: bool)
    | DateTime(timestamp: Int64, ms: int)
    | Binary(data: Bytes)
    | ObjectId(oid: Bytes)
    | Regex(source: Bytes)
    | Timestamp(seconds: Int64)
    | Extension(extType: Int8, payload: Bytes)

  /** What a document means: objects are finite maps. */
  datatype Value =
    | Leaf(scalar: Scalar)
    | Array(items: seq<Value>)
    | Object(fields: map<Bytes, Value>)

  /** A document as an encoder walks it: a hash table is the list of its entries, in whatever order
      the table happens to enumerate them. */
  datatype Doc =
    | Atom(scalar: Scalar)
    | List(items: seq<Doc>)
    | Table(entries: seq<Entry>)

  datatype Entry = Entry(key: Bytes, doc: Doc)

  /** std::unordered_map::emplace: an existing key keeps its value. */
  function Emplace(m: map<Bytes, Value>, k: Bytes, v: Value): (r: map<Bytes, Value>)
  {
    if k in m then m else m[k := v]
  }

  function Max(a: nat, b: nat): (r: nat) { if a < b then b else a }

  // ---------- Regular expressions ----------

  /** The text before the first NUL, as strlen sees it. */
  function CString(s: Bytes): (r: Bytes)
    ensures |r| <= |s|
  {
    if s == [] || s[0] == 0 then [] else [s[0]] + CString(s[1..])
  }

  lemma {:induction false} CStringWhole(s: Bytes)
    ensures |CString(s)| == |s| <==> 0 !in s
    ensures 0 !in s ==> CString(s) == s
  {
    if s != [] {
      CStringWhole(s[1..]);
      assert s == [s[0]] + s[1..];
    }
  }

  lemma {:induction false} CStringFree(s: Bytes)
    ensures 0 !in CString(s)
  {
    if s != [] && s[0] != 0 { CStringFree(s[1..]); }
  }

  /** std::string::rfind of one byte; -1 stands for npos. */
  function LastIndexOf(s: Bytes, b: Byte): (r: int)
    ensures -1 <= r < |s|
  {
    if s == [] then -1
    else if s[|s| - 1] == b then |s| - 1
    else LastIndexOf(s[..|s| - 1], b)
  }

  lemma {:induction false} LastIndexIs(s: Bytes, b: Byte, k: int)
    requires -1 <= k < |s| && (k >= 0 ==> s[k] == b)
    requires forall i :: k < i < |s| ==> s[i] != b
    ensures LastIndexOf(s, b) == k
    decreases |s|
  {
    if k < |s| - 1 { LastIndexIs(s[..|s| - 1], b, k); }
  }

  lemma {:induction false} LastIndexFound(s: Bytes, b: Byte)
    ensures var k := LastIndexOf(s, b);
      (k >= 0 ==> s[k] == b) && forall i :: k < i < |s| ==> s[i] != b
  {
    if s != [] && s[|s| - 1] != b {
      LastIndexFound(s[..|s| - 1], b);
      forall i | LastIndexOf(s, b) < i < |s| ensures s[i] != b {
        if i < |s| - 1 { assert s[i] == s[..|s| - 1][i]; }
      }
    }
  }

  /** makeRegex on two NUL-terminated buffers; None where it returns nullptr. */
  function MakeRegex(pattern: Bytes, options: Bytes): (r: Option<Scalar>)
  {
    var p, o := CString(pattern), CString(options);
    if p == [] || |p| + |o| > MAX_STRING_LEN - 2 then None else Some(Regex(p + [0] + o))
  }

  // ---------- Hash tables have distinct keys ----------

  ghost predicate DistinctKeys(es: seq<Entry>)
  {
    forall i, j :: 0 <= i < j < |es| ==> es[i].key != es[j].key
  }

  ghost predicate WellFormed(d: Doc)
    decreases d
  {
    match d
    case Atom(_) => true
    case List(items) => AllWellFormed(items)
    case Table(entries) => DistinctKeys(entries) && EntriesWellFormed(entries)
  }

  ghost predicate AllWellFormed(ds: seq<Doc>)
    decreases ds
  {
    ds == [] || (WellFormed(ds[0]) && AllWellFormed(ds[1..]))
  }

  ghost predicate EntriesWellFormed(es: seq<Entry>)
    decreases es
  {
    es == [] || (WellFormed(es[0].doc) && EntriesWellFormed(es[1..]))
  }

  // ---------- Meaning ----------

  /** The value a document stands for once every scalar has been read as `f` says. */
  function Image(f: Scalar -> Value, d: Doc): (r: Value)
    decreases d
  {
    match d
    case Atom(s) => f(s)
    case List(items) => Array(Images(f, items))
    case Table(entries) => Object(Build(ImagePairs(f, entries), map[]))
  }

  function Images(f: Scalar -> Value, ds: seq<Doc>): (r: seq<Value>)
    ensures |r| == |ds|
    decreases ds
  {
    if ds == [] then [] else [Image(f, ds[0])] + Images(f, ds[1..])
  }

  function ImagePairs(f: Scalar -> Value, es: seq<Entry>): (r: seq<(Bytes, Value)>)
    ensures |r| == |es|
    decreases es
  {
    if es == [] then [] else [(es[0].key, Image(f, es[0].doc))] + ImagePairs(f, es[1..])
  }

  /** Emplacing pairs one after the other. */
  function Build(ps: seq<(Bytes, Value)>, acc: map<Bytes, Value>): (r: map<Bytes, Value>)
  {
    if ps == [] then acc else Build(ps[1..], Emplace(acc, ps[0].0, ps[0].1))
  }

  function Same(): (r: Scalar -> Value) { s => Leaf(s) }

  function Meaning(d: Doc): (r: Value) { Image(Same(), d) }

  ghost predicate Fixes(f: Scalar -> Value, d: Doc)
    decreases d
  {
    match d
    case Atom(s) => f(s) == Leaf(s)
    case List(items) => FixesAll(f, items)
    case Table(entries) => FixesEntries(f, entries)
  }

  ghost predicate FixesAll(f: Scalar -> Value, ds: seq<Doc>)
    decreases ds
  {
    ds == [] || (Fixes(f, ds[0]) && FixesAll(f, ds[1..]))
  }

  ghost predicate FixesEntries(f: Scalar -> Value, es: seq<Entry>)
    decreases es
  {
    es == [] || (Fixes(f, es[0].doc) && FixesEntries(f, es[1..]))
  }

  /** A document keeps its meaning under `f` exactly when `f` leaves each of its scalars alone. */
  lemma {:induction false} ImageIsMeaning(f: Scalar -> Value, d: Doc)
    requires WellFormed(d)
    ensures Image(f, d) == Meaning(d) <==> Fixes(f, d)
    decreases d
  {
    match d
    case Atom(_) =>
    case List(items) => ImagesAreMeanings(f, items);
    case Table(entries) =>
      ImagePairsAreMeanings(f, entries);
      KeysKept(f, entries);
      KeysKept(Same(), entries);
      BuildInjective(ImagePairs(f, entries), ImagePairs(Same(), entries), map[]);
  }

  lemma {:induction false} ImagesAreMeanings(f: Scalar -> Value, ds: seq<Doc>)
    requires AllWellFormed(ds)
    ensures Images(f, ds) == Images(Same(), ds) <==> FixesAll(f, ds)
    decreases ds
  {
    if ds != [] {
      ImageIsMeaning(f, ds[0]);
      ImagesAreMeanings(f, ds[1..]);
      ConsEqual(Image(f, ds[0]), Images(f, ds[1..]), Image(Same(), ds[0]), Images(Same(), ds[1..]));
    }
  }

  lemma {:induction false} ImagePairsAreMeanings(f: Scalar -> Value, es: seq<Entry>)
    requires EntriesWellFormed(es)
    ensures ImagePairs(f, es) == ImagePairs(Same(), es) <==> FixesEntries(f, es)
    decreases es
  {
    if es != [] {
      ImageIsMeaning(f, es[0].doc);
      ImagePairsAreMeanings(f, es[1..]);
      ConsEqual((es[0].key, Image(f, es[0].doc)), ImagePairs(f, es[1..]),
                (es[0].key, Image(Same(), es[0].doc)), ImagePairs(Same(), es[1..]));
    }
  }

  lemma ConsEqual<T>(a: T, s: seq<T>, b: T, t: seq<T>)
    ensures [a] + s == [b] + t <==> a == b && s == t
  {
    assert ([a] + s)[0] == a && ([b] + t)[0] == b;
    assert ([a] + s)[1..] == s && ([b] + t)[1..] == t;
  }

  lemma {:induction false} KeysKept(f: Scalar -> Value, es: seq<Entry>)
    ensures forall i :: 0 <= i < |es| ==> ImagePairs(f, es)[i].0 == es[i].key
    decreases es
  {
    if es != [] { KeysKept(f, es[1..]); }
  }

  /** Emplacing fresh, distinct keys stores every pair and touches nothing else. */
  lemma {:induction false} BuildStores(ps: seq<(Bytes, Value)>, acc: map<Bytes, Value>)
    requires forall i, j :: 0 <= i < j < |ps| ==> ps[i].0 != ps[j].0
    requires forall i :: 0 <= i < |ps| ==> ps[i].0 !in acc
    ensures forall i :: 0 <= i < |ps| ==> ps[i].0 in Build(ps, acc) && Build(ps, acc)[ps[i].0] == ps[i].1
    ensures forall k :: k in acc ==> k in Build(ps, acc) && Build(ps, acc)[k] == acc[k]
    ensures forall k :: k in Build(ps, acc) ==> k in acc || exists i :: 0 <= i < |ps| && ps[i].0 == k
    ensures |Build(ps, acc)| == |acc| + |ps|
  {
    if ps != [] {
      var acc' := Emplace(acc, ps[0].0, ps[0].1);
      BuildStores(ps[1..], acc');
      assert forall i :: 1 <= i < |ps| ==> ps[i] == ps[1..][i - 1];
      assert ps[0].0 in acc' && acc'[ps[0].0] == ps[0].1;
      forall k | k in Build(ps, acc) ensures k in acc || exists i :: 0 <= i < |ps| && ps[i].0 == k {
        if k !in acc && k != ps[0].0 {
          var i :| 0 <= i < |ps[1..]| && ps[1..][i].0 == k;
          assert ps[i + 1].0 == k;
        }
      }
    }
  }

  /** The first pair is stored before the others. */
  lemma FirstPair(k: Bytes, v: Value, ps: seq<(Bytes, Value)>, acc: map<Bytes, Value>)
    ensures Build([(k, v)] + ps, acc) == Build(ps, Emplace(acc, k, v))
  {
    assert ([(k, v)] + ps)[1..] == ps;
  }

  /** A key that comes again is not stored again: the first pair with a key stays. */
  lemma {:induction false} FirstWins(ps: seq<(Bytes, Value)>, acc: map<Bytes, Value>, i: nat)
    requires i < |ps| && ps[i].0 !in acc && forall j :: 0 <= j < i ==> ps[j].0 != ps[i].0
    ensures ps[i].0 in Build(ps, acc) && Build(ps, acc)[ps[i].0] == ps[i].1
    ensures forall k :: k in acc ==> k in Build(ps, acc) && Build(ps, acc)[k] == acc[k]
    decreases |ps|
  {
    Stays(ps[1..], Emplace(acc, ps[0].0, ps[0].1));
    if i > 0 {
      assert ps[1..][i - 1] == ps[i];
      forall j | 0 <= j < i - 1 ensures ps[1..][j].0 != ps[i].0 { assert ps[1..][j] == ps[j + 1]; }
      FirstWins(ps[1..], Emplace(acc, ps[0].0, ps[0].1), i - 1);
    }
  }

  lemma {:induction false} Stays(ps: seq<(Bytes, Value)>, acc: map<Bytes, Value>)
    ensures forall k :: k in acc ==> k in Build(ps, acc) && Build(ps, acc)[k] == acc[k]
    ensures forall k :: k in Build(ps, acc) ==> k in acc || exists i :: 0 <= i < |ps| && ps[i].0 == k
    decreases |ps|
  {
    if ps != [] {
      Stays(ps[1..], Emplace(acc, ps[0].0, ps[0].1));
      assert forall i :: 0 <= i < |ps[1..]| ==> ps[1..][i] == ps[i + 1];
    }
  }

  lemma BuildInjective(ps: seq<(Bytes, Value)>, qs: seq<(Bytes, Value)>, acc: map<Bytes, Value>)
    requires |ps| == |qs| && forall i :: 0 <= i < |ps| ==> ps[i].0 == qs[i].0
    requires forall i, j :: 0 <= i < j < |ps| ==> ps[i].0 != ps[j].0
    requires forall i :: 0 <= i < |ps| ==> ps[i].0 !in acc
    ensures Build(ps, acc) == Build(qs, acc) <==> ps == qs
  {
    BuildStores(ps, acc);
    BuildStores(qs, acc);
    if Build(ps, acc) == Build(qs, acc) {
      forall i | 0 <= i < |ps| ensures ps[i] == qs[i] {
        assert Build(ps, acc)[ps[i].0] == ps[i].1;
        assert Build(qs, acc)[qs[i].0] == qs[i].1;
      }
    }
  }

  ghost predicate SamePairs(ps: seq<(Bytes, Value)>, qs: seq<(Bytes, Value)>)
  {
    (forall i :: 0 <= i < |ps| ==> ps[i] in qs) && (forall j :: 0 <= j < |qs| ==> qs[j] in ps)
  }

  ghost predicate Unique(ps: seq<(Bytes, Value)>)
  {
    forall i, j :: 0 <= i < j < |ps| ==> ps[i].0 != ps[j].0
  }

  /** An object has exactly the members it was made of. */
  lemma BuildHas(ps: seq<(Bytes, Value)>)
    requires Unique(ps)
    ensures forall k, v :: (k, v) in ps <==> k in Build(ps, map[]) && Build(ps, map[])[k] == v
  {
    hide Build;
    BuildStores(ps, map[]);
    var a := Build(ps, map[]);
    forall k, v ensures (k, v) in ps <==> k in a && a[k] == v {
      if k in a {
        var i :| 0 <= i < |ps| && ps[i].0 == k;
        assert ps[i] == (k, a[k]);
      }
    }
  }

  /** Two lists of members make the same object exactly when they have the same members, in any order. */
  lemma BuildUnordered(ps: seq<(Bytes, Value)>, qs: seq<(Bytes, Value)>)
    requires Unique(ps) && Unique(qs)
    ensures Build(ps, map[]) == Build(qs, map[]) <==> SamePairs(ps, qs)
  {
    hide Build, Unique;
    var a, b := Build(ps, map[]), Build(qs, map[]);
    BuildHas(ps);
    BuildHas(qs);
    if a == b {
      forall i | 0 <= i < |ps| ensures ps[i] in qs { assert (ps[i].0, ps[i].1) in ps; }
      forall j | 0 <= j < |qs| ensures qs[j] in ps { assert (qs[j].0, qs[j].1) in qs; }
    }
    if SamePairs(ps, qs) {
      forall k ensures k in a <==> k in b {
        if k in a { assert (k, a[k]) in ps; }
        if k in b { assert (k, b[k]) in qs; }
      }
      forall k | k in a ensures a[k] == b[k] { assert (k, a[k]) in ps; }
      assert a == b;
    }
  }

  // ---------- Bounded strings ----------

  /** `len` bytes at `pos`, if they are there and within the limit. */
  function Take(data: Bytes, pos: nat, len: nat): (r: Parsed<Bytes>)
    ensures r.Ok? ==> r.pos == pos + len <= |data| && r.value == data[pos..pos + len]
  {
    if pos + len > |data| then Err(UnexpectedEnd)
    else if len > MAX_STRING_LEN then Err(TooLarge)
    else Ok(data[pos..pos + len], pos + len)
  }

  /** Reading `len` bytes where `s` lies: `s` itself if that is its length and within the limit. */
  lemma TakeAt(data: Bytes, pos: nat, s: Bytes, len: nat)
    requires At(data, pos, s) && len <= |s|
    ensures var r := Take(data, pos, len);
      if len == |s| && len <= MAX_STRING_LEN then r == Ok(s, pos + len) else r.Err? || |r.value| != |s|
  {
  }

  // ---------- Bounds on decoded trees ----------

  /** At most `h` levels lie below the root (0 for a leaf or an empty container), and no container
      has more entries than the library's limit. */
  ghost predicate Bounded(v: Value, h: int)
    decreases v
  {
    h >= 0 &&
    match v
    case Leaf(_) => true
    case Array(items) =>
      |items| <= MAX_ARRAY_SIZE && forall i :: 0 <= i < |items| ==> Bounded(items[i], h - 1)
    case Object(fields) =>
      |fields| <= MAX_OBJECT_SIZE && forall k :: k in fields ==> Bounded(fields[k], h - 1)
  }
}
