/** The document object: its root is read and replaced by pointer, path, patch and chunked storage. */
module Documents {
  import opened Bytes
  import opened Values
  import opened Text
  import MergePatch
  import Pointers
  import Chunks
  import Base64
  import Base64Codec

  // ---------- Cloning ----------

  /** The node budget shared by one whole clone. */
  class NodeCount {
    var nodes: nat

    constructor ()
      ensures nodes == 0
    {
      nodes := 0;
    }
  }

  method CloneTree(d: Doc, depth: nat, count: NodeCount) returns (r: Option<Value>)
    modifies count
    ensures (r, count.nodes) == MergePatch.Clone(d, depth, old(count.nodes))
    decreases d
  {
    hide MergePatch.CloneScalar, MergePatch.CloneItems, MergePatch.CloneEntries;
    count.nodes := count.nodes + 1;
    if count.nodes > MergePatch.MAX_CLONE_NODES { return None; }
    if depth > MAX_NESTING_DEPTH { return None; }
    match d {
      case Atom(s) =>
        var c := MergePatch.CloneScalar(s);
        r := if c.None? then None else Some(Leaf(c.value));
      case List(items) =>
        var vs := CloneElements(items, depth + 1, count);
        r := Some(Array(vs));
      case Table(es) =>
        var m := CloneMembers(es, depth + 1, count);
        r := Some(Object(m));
    }
  }

  method CloneElements(ds: seq<Doc>, depth: nat, count: NodeCount) returns (vs: seq<Value>)
    modifies count
    ensures (vs, count.nodes) == MergePatch.CloneItems(ds, depth, old(count.nodes))
    decreases ds
  {
    hide MergePatch.Clone;
    vs := [];
    assert ds[0..] == ds;
    assert [] + MergePatch.CloneItems(ds, depth, count.nodes).0 == MergePatch.CloneItems(ds, depth, count.nodes).0;
    for i := 0 to |ds|
      invariant var (rest, n) := MergePatch.CloneItems(ds[i..], depth, count.nodes);
        (vs + rest, n) == MergePatch.CloneItems(ds, depth, old(count.nodes))
    {
      ghost var before := vs;
      assert ds[i..][1..] == ds[i + 1..];
      var cloned := CloneTree(ds[i], depth, count);
      if cloned.Some? { vs := vs + [cloned.value]; }
      ghost var rest := MergePatch.CloneItems(ds[i + 1..], depth, count.nodes).0;
      assert before + ((match cloned case None => [] case Some(x) => [x]) + rest) == vs + rest;
    }
    assert vs + [] == vs;
  }

  method CloneMembers(es: seq<Entry>, depth: nat, count: NodeCount) returns (m: map<Bytes, Value>)
    modifies count
    ensures (m, count.nodes) == MergePatch.CloneEntries(es, depth, old(count.nodes), map[])
    decreases es
  {
    hide MergePatch.Clone, Emplace;
    m := map[];
    assert es[0..] == es;
    for i := 0 to |es|
      invariant MergePatch.CloneEntries(es[i..], depth, count.nodes, m)
             == MergePatch.CloneEntries(es, depth, old(count.nodes), map[])
    {
      assert es[i..][1..] == es[i + 1..];
      var cloned := CloneTree(es[i].doc, depth, count);
      if cloned.Some? { m := Emplace(m, es[i].key, cloned.value); }
    }
  }

  method CloneValue(d: Doc) returns (r: Option<Value>)
    ensures r == MergePatch.Clone(d, 0, 0).0
  {
    hide MergePatch.Clone;
    var count := new NodeCount();
    r := CloneTree(d, 0, count);
  }

  // ---------- Merging ----------

  /** mergePatchRecursive: nothing happens below the nesting limit. */
  method MergeRecursive(target: map<Bytes, Value>, patch: seq<Entry>, depth: nat) returns (r: Option<map<Bytes, Value>>)
    ensures r == MergePatch.MergeRecursive(target, patch, depth)
    decreases patch, 1
  {
    hide MergePatch.MergeEntries;
    if depth > MAX_NESTING_DEPTH { return Some(target); }
    r := MergeMembers(target, patch, depth);
  }

  lemma MergeStep(t: map<Bytes, Value>, es: seq<Entry>, depth: nat)
    requires es != []
    ensures MergePatch.MergeEntries(t, es, depth)
         == match MergePatch.MergeEntry(t, es[0], depth)
            case None => None
            case Some(t') => MergePatch.MergeEntries(t', es[1..], depth)
  {
    hide MergePatch.MergeEntry;
  }

  method MergeMember(t: map<Bytes, Value>, e: Entry, depth: nat) returns (r: Option<map<Bytes, Value>>)
    ensures r == MergePatch.MergeEntry(t, e, depth)
    decreases e
  {
    hide MergePatch.Clone, MergePatch.MergeRecursive;
    var k, v := e.key, e.doc;
    if v == Atom(Null) { return Some(t - {k}); }
    if k in t && t[k].Object? && v.Table? {
      var m := MergeRecursive(t[k].fields, v.entries, depth + 1);
      return if m.None? then None else Some(t[k := Object(m.value)]);
    }
    var c := CloneValue(v);
    r := if c.None? then None else Some(t[k := c.value]);
  }

  /** The members of the patch, one after the other. */
  method MergeMembers(t0: map<Bytes, Value>, patch: seq<Entry>, depth: nat) returns (r: Option<map<Bytes, Value>>)
    ensures r == MergePatch.MergeEntries(t0, patch, depth)
    decreases patch, 0
  {
    hide MergePatch.MergeEntry;
    var t := t0;
    assert patch[0..] == patch;
    for i := 0 to |patch|
      invariant MergePatch.MergeEntries(t, patch[i..], depth) == MergePatch.MergeEntries(t0, patch, depth)
    {
      assert patch[i..][1..] == patch[i + 1..];
      MergeStep(t, patch[i..], depth);
      var t' := MergeMember(t, patch[i], depth);
      if t'.None? { return None; }
      t := t'.value;
    }
    assert patch[|patch|..] == [];
    r := Some(t);
  }

  /** applyMergePatch: a copy is made first, so neither document changes. */
  method ApplyMergePatch(target: Doc, patch: Doc) returns (r: Option<Value>)
    ensures r == MergePatch.Apply(target, patch)
  {
    hide MergePatch.Clone, MergePatch.MergeEntries;
    if !patch.Table? { r := CloneValue(patch); return; }
    var copy := CloneValue(target);
    var fields := if copy.Some? && copy.value.Object? then copy.value.fields else map[];
    var m := MergeMembers(fields, patch.entries, 0);
    r := if m.None? then None else Some(Object(m.value));
  }

  // ---------- Pointers ----------

  method DecodeKey(seg: Bytes) returns (out: Bytes)
    ensures out == Pointers.Decode(seg)
  {
    hide Pointers.Decode;
    out := [];
    assert seg[0..] == seg;
    var i := 0;
    while i < |seg|
      invariant 0 <= i <= |seg| && out + Pointers.Decode(seg[i..]) == Pointers.Decode(seg)
    {
      assert i + 1 < |seg| ==> seg[i..][2..] == seg[i + 2..];
      assert seg[i..][1..] == seg[i + 1..];
      ghost var before, at := out, i;
      DecodeStep(seg[i..]);
      if seg[i] == Pointers.TILDE && i + 1 < |seg| && seg[i + 1] == 48 { out := out + [Pointers.TILDE]; i := i + 2; }
      else if seg[i] == Pointers.TILDE && i + 1 < |seg| && seg[i + 1] == 49 { out := out + [SLASH]; i := i + 2; }
      else { out := out + [seg[i]]; i := i + 1; }
      assert before + Pointers.Decode(seg[at..]) == out + Pointers.Decode(seg[i..]);
    }
    DecodeNothing();
    assert seg[i..] == [];
    assert out + [] == out;
  }

  lemma DecodeStep(seg: Bytes)
    requires seg != []
    ensures var two := seg[0] == Pointers.TILDE && |seg| > 1 && (seg[1] == 48 || seg[1] == 49);
      Pointers.Decode(seg)
      == if !two then [seg[0]] + Pointers.Decode(seg[1..])
         else [if seg[1] == 48 then Pointers.TILDE else SLASH] + Pointers.Decode(seg[2..])
  {
  }

  lemma DecodeNothing()
    ensures Pointers.Decode([]) == []
  {
  }

  /** isArrayIndex: digits only, no needless leading zero. */
  method IsArrayIndex(s: Bytes) returns (r: bool)
    ensures r == (s != [] && !(|s| > 1 && s[0] == ZERO) && Pointers.DigitsOnly(s))
  {
    if s == [] { return false; }
    if |s| > 1 && s[0] == ZERO { return false; }
    assert s[0..] == s;
    for i := 0 to |s|
      invariant Pointers.DigitsOnly(s[i..]) == Pointers.DigitsOnly(s)
    {
      assert s[i..][0] == s[i] && s[i..][1..] == s[i + 1..];
      if !IsDigit(s[i]) { return false; }
    }
    r := true;
  }

  /** isArrayIndex and std::from_chars into a size: digit by digit, None from the first value that does not fit. */
  method ParseIndex(seg: Bytes) returns (r: Option<nat>)
    ensures r == Pointers.Index(seg)
  {
    var digits := IsArrayIndex(seg);
    if !digits { return None; }
    Pointers.DigitsOnlyIs(seg);
    var n := 0;
    for i := 0 to |seg|
      invariant n == FromDigits(seg[..i]) && n < TWO_64
    {
      assert seg[..i + 1][..i] == seg[..i];
      n := n * 10 + (seg[i] - ZERO);
      if n >= TWO_64 {
        PrefixBound(seg, i + 1);
        return None;
      }
    }
    assert seg[..|seg|] == seg;
    r := Some(n);
  }

  /** The number grows with every further digit. */
  lemma {:induction false} PrefixBound(s: Bytes, i: nat)
    requires i <= |s| && forall k :: 0 <= k < |s| ==> IsDigit(s[k])
    ensures FromDigits(s[..i]) <= FromDigits(s)
    decreases |s|
  {
    if i < |s| {
      var init := s[..|s| - 1];
      PrefixBound(init, i);
      assert init[..i] == s[..i];
    } else {
      assert s[..i] == s;
    }
  }

  method FindSlash(ptr: Bytes, start: nat) returns (e: nat)
    requires start <= |ptr|
    ensures e == Pointers.SlashFrom(ptr, start)
  {
    e := start;
    while e < |ptr| && ptr[e] != SLASH
      invariant start <= e <= |ptr| && Pointers.SlashFrom(ptr, e) == Pointers.SlashFrom(ptr, start)
    {
      e := e + 1;
    }
  }

  class Document {
    var root: Option<Value>
    const chars: Bytes

    constructor (root: Option<Value>, chars: Bytes)
      ensures this.root == root && this.chars == chars
    {
      this.root := root;
      this.chars := chars;
    }

    /** getByPointer: one segment a turn, the cursor going down the tree. */
    method GetByPointer(ptr: Bytes) returns (r: Option<Value>)
      ensures r == Pointers.GetByPointer(root, ptr)
    {
      hide Pointers.Decode, Pointers.Index;
      if root.None? { return None; }
      if ptr == [] || ptr == [SLASH] { return root; }
      if ptr[0] != SLASH { return None; }
      var cur := root.value;
      var start: nat := 1;
      while start < |ptr|
        invariant Pointers.Get(cur, Pointers.Segments(ptr, start)) == Pointers.Get(root.value, Pointers.Segments(ptr, 1))
        decreases |ptr| - start
      {
        var slash := FindSlash(ptr, start);
        var seg := ptr[start..slash];
        FirstSegment(ptr, start);
        if cur.Object? {
          var key := DecodeKey(seg);
          if key !in cur.fields { return None; }
          cur := cur.fields[key];
        } else if cur.Array? {
          var idx := ParseIndex(seg);
          if idx.None? || idx.value >= |cur.items| { return None; }
          cur := cur.items[idx.value];
        } else {
          return None;
        }
        start := slash + 1;
      }
      r := Some(cur);
    }

    /** setByPointer: a missing root and missing members become containers on the way down. */
    method SetByPointer(ptr: Bytes, x: Value) returns (ok: bool)
      modifies this`root
      ensures (ok, root) == Pointers.SetByPointer(old(root), ptr, x)
    {
      hide Pointers.Put;
      if ptr == [] || ptr == [SLASH] { root := Some(x); return true; }
      if ptr[0] != SLASH { return false; }
      if root.None? {
        var made := MakeContainer(ptr, 1);
        root := Some(made);
      }
      var v;
      ok, v := PutAt(root.value, ptr, 1, x);
      root := Some(v);
    }

    /** getNested: segments between periods, with backslash escapes. */
    method GetNested(path: Bytes) returns (r: Option<Value>)
      ensures r == if root.None? then None else Pointers.GetNested(root.value, path, 0)
    {
      hide Pointers.SegmentEnd, Pointers.HasEscape, Pointers.Unescaped;
      if root.None? { return None; }
      var cur := root.value;
      var start: nat := 0;
      while start < |path|
        invariant Pointers.GetNested(cur, path, start) == Pointers.GetNested(root.value, path, 0)
        decreases Remaining(path, start)
      {
        if !cur.Object? { return None; }
        var end, hasEscape := ScanSegment(path, start);
        if end == start { return None; }
        var seg := path[start..end];
        if hasEscape { seg := UnescapeSegment(path, start, end); }
        if seg !in cur.fields { return None; }
        cur := cur.fields[seg];
        start := if end < |path| then end + 1 else end;
      }
      r := Some(cur);
    }

    /** putBinChunked: Base64 pieces of at most the given size, stored unless the key is taken. */
    method PutBinChunked(key: Bytes, data: Bytes, chunkSize: nat) returns (ok: bool)
      requires |chars| == 64 && (chunkSize >= 4 || data == [])
      modifies this`root
      ensures (ok, root) == Chunks.PutChunked(chars, old(root), key, data, chunkSize)
    {
      hide Chunks.Cut;
      if root.None? || !root.value.Object? { root := Some(Object(map[])); }
      var fields := root.value.fields;
      var arr: Option<seq<Value>> := Some([]);
      if data != [] { arr := CutPieces(chars, data, Chunks.BytesPerChunk(chunkSize)); }
      if arr.None? { return false; }
      root := Some(Object(Emplace(fields, key, Array(arr.value))));
      ok := true;
    }

    /** getBinChunked. */
    method GetBinChunked(key: Bytes) returns (data: Bytes)
      requires |chars| == 64
      ensures data == Chunks.GetChunked(chars, root, key)
    {
      hide Chunks.Glue;
      if root.None? || !root.value.Object? || key == [] || key !in root.value.fields { return []; }
      var v := root.value.fields[key];
      if !v.Array? { return []; }
      data := GluePieces(chars, v.items);
    }
  }

  /** The data cut into pieces of `n` bytes, each encoded; None at the first that is too long. */
  method CutPieces(chars: Bytes, data: Bytes, n: nat) returns (r: Option<seq<Value>>)
    requires |chars| == 64 && n > 0
    ensures r == Chunks.Cut(chars, data, 0, n)
  {
    hide Base64.Encode;
    var arr: seq<Value> := [];
    var i := 0;
    PrependNothing(Chunks.Cut(chars, data, 0, n));
    while i < |data|
      invariant 0 <= i && Prepend(arr, Chunks.Cut(chars, data, i, n)) == Chunks.Cut(chars, data, 0, n)
      decreases |data| - i
    {
      var e := if i + n < |data| then i + n else |data|;
      var encoded := Base64Codec.EncodeBlocks(chars, data[i..e]);
      if |encoded| > MAX_STRING_LEN { return None; }
      PrependTwice(arr, [Leaf(Text(encoded, false))], Chunks.Cut(chars, data, i + n, n));
      arr := arr + [Leaf(Text(encoded, false))];
      i := i + n;
    }
    assert arr + [] == arr;
    r := Some(arr);
  }

  /** The bytes of the pieces, one piece after the other. */
  method GluePieces(chars: Bytes, pieces: seq<Value>) returns (data: Bytes)
    requires |chars| == 64
    ensures data == Chunks.Glue(chars, pieces)
  {
    hide Base64.Decode, Chunks.Glue;
    data := [];
    assert pieces[0..] == pieces;
    for i := 0 to |pieces|
      invariant data + Chunks.Glue(chars, pieces[i..]) == Chunks.Glue(chars, pieces)
    {
      assert pieces[i..][1..] == pieces[i + 1..];
      ghost var before, rest := data, Chunks.Glue(chars, pieces[i + 1..]);
      var piece := pieces[i];
      var bytes: Bytes := [];
      if piece.Leaf? && piece.scalar.Binary? {
        bytes := piece.scalar.data;
      } else if piece.Leaf? && piece.scalar.Text? {
        var b := Base64.Decode(chars, piece.scalar.text);
        if b.Some? { bytes := b.value; }
      }
      assert bytes == Chunks.PieceBytes(chars, piece);
      data := data + bytes;
      GlueStep(chars, pieces[i..]);
      assert before + (bytes + rest) == data + rest;
    }
    GlueStep(chars, []);
    assert pieces[|pieces|..] == [] && data + [] == data;
  }

  lemma GlueStep(chars: Bytes, vs: seq<Value>)
    requires |chars| == 64
    ensures Chunks.Glue(chars, vs) == if vs == [] then [] else Chunks.PieceBytes(chars, vs[0]) + Chunks.Glue(chars, vs[1..])
  {
    hide Chunks.PieceBytes;
  }

  lemma FirstSegment(ptr: Bytes, start: nat)
    requires start < |ptr|
    ensures var e := Pointers.SlashFrom(ptr, start);
      var segs := Pointers.Segments(ptr, start);
      segs != [] && segs[0] == ptr[start..e] && segs[1..] == Pointers.Segments(ptr, e + 1)
  {
  }

  /** What a missing member becomes: the segment behind the slash decides. */
  method MakeContainer(ptr: Bytes, next: nat) returns (v: Value)
    ensures var segs := Pointers.Segments(ptr, next); v == Pointers.NewContainer(if segs == [] then [] else segs[0])
  {
    var seg: Bytes := [];
    if next < |ptr| {
      var e := FindSlash(ptr, next);
      seg := ptr[next..e];
      FirstSegment(ptr, next);
    }
    var digits := IsArrayIndex(seg);
    v := if digits || seg == Pointers.DASH then Array([]) else Object(map[]);
  }

  /** The rest of the way from one node, containers made where members are missing. */
  method PutAt(v: Value, ptr: Bytes, start: nat, x: Value) returns (ok: bool, r: Value)
    ensures (ok, r) == Pointers.Put(v, Pointers.Segments(ptr, start), Pointers.Closed(ptr), x)
    decreases Remaining(ptr, start), 1
  {
    hide Pointers.Segments, Pointers.Index, Pointers.Decode;
    if start >= |ptr| {
      NoSegments(ptr, start);
      return false, v;
    }
    var slash := FindSlash(ptr, start);
    var seg := ptr[start..slash];
    FirstSegment(ptr, start);
    LastSegment(ptr, start);
    match v {
      case Object(fields) => ok, r := PutInObject(fields, ptr, start, slash, x);
      case Array(items) => ok, r := PutInArray(items, ptr, start, slash, x);
      case Leaf(_) => return false, v;
    }
  }

  lemma NoSegments(ptr: Bytes, start: nat)
    requires start >= |ptr|
    ensures Pointers.Segments(ptr, start) == []
  {
  }

  /** One step through an object, as the specification takes it. */
  lemma StepObject(fields: map<Bytes, Value>, segs: seq<Bytes>, closed: bool, x: Value)
    requires segs != []
    ensures var key := Pointers.Decode(segs[0]);
      Pointers.Put(Object(fields), segs, closed, x)
      == if |segs| == 1 && closed then (true, Object(fields[key := x]))
         else
           var child := if key in fields then fields[key] else Pointers.NewContainer(if |segs| > 1 then segs[1] else []);
           var p := Pointers.Put(child, segs[1..], closed, x);
           (p.0, Object(fields[key := p.1]))
  {
    hide Pointers.Decode, Pointers.NewContainer;
  }

  method PutInObject(fields: map<Bytes, Value>, ptr: Bytes, start: nat, slash: nat, x: Value) returns (ok: bool, r: Value)
    requires start < |ptr| && slash == Pointers.SlashFrom(ptr, start)
    ensures (ok, r) == Pointers.Put(Object(fields), Pointers.Segments(ptr, start), Pointers.Closed(ptr), x)
    decreases Remaining(ptr, start), 0
  {
    hide Pointers.Segments, Pointers.Decode, Pointers.Put, Pointers.NewContainer, Pointers.Closed;
    FirstSegment(ptr, start);
    LastSegment(ptr, start);
    StepObject(fields, Pointers.Segments(ptr, start), Pointers.Closed(ptr), x);
    var key := DecodeKey(ptr[start..slash]);
    if slash == |ptr| { return true, Object(fields[key := x]); }
    var child;
    if key in fields { child := fields[key]; } else { child := MakeContainer(ptr, slash + 1); }
    var child';
    ok, child' := PutAt(child, ptr, slash + 1, x);
    r := Object(fields[key := child']);
  }

  lemma StepArray(items: seq<Value>, segs: seq<Bytes>, closed: bool, x: Value)
    requires segs != []
    ensures var last := |segs| == 1 && closed;
      Pointers.Put(Array(items), segs, closed, x)
      == if segs[0] == Pointers.DASH then (if last then (true, Array(items + [x])) else (false, Array(items)))
         else
           (match Pointers.Index(segs[0])
            case None => (false, Array(items))
            case Some(i) =>
              if last then (true, Array(Pointers.Resize(items, i + 1)[i := x]))
              else if i >= |items| then (false, Array(items))
              else var p := Pointers.Put(items[i], segs[1..], closed, x); (p.0, Array(items[i := p.1])))
  {
    hide Pointers.Index;
  }

  method PutInArray(items: seq<Value>, ptr: Bytes, start: nat, slash: nat, x: Value) returns (ok: bool, r: Value)
    requires start < |ptr| && slash == Pointers.SlashFrom(ptr, start)
    ensures (ok, r) == Pointers.Put(Array(items), Pointers.Segments(ptr, start), Pointers.Closed(ptr), x)
    decreases Remaining(ptr, start), 0
  {
    hide Pointers.Segments, Pointers.Index, Pointers.Put, Pointers.Closed;
    FirstSegment(ptr, start);
    LastSegment(ptr, start);
    StepArray(items, Pointers.Segments(ptr, start), Pointers.Closed(ptr), x);
    var seg, isLast := ptr[start..slash], slash == |ptr|;
    if seg == Pointers.DASH {
      if !isLast { return false, Array(items); }
      return true, Array(items + [x]);
    }
    var idx := ParseIndex(seg);
    if idx.None? { return false, Array(items); }
    if isLast {
      var resized := Pointers.Resize(items, idx.value + 1);
      return true, Array(resized[idx.value := x]);
    }
    if idx.value >= |items| { return false, Array(items); }
    var child';
    ok, child' := PutAt(items[idx.value], ptr, slash + 1, x);
    r := Array(items[idx.value := child']);
  }

  /** The segment that no slash follows is the only one left, of a pointer that does not end in a slash. */
  lemma LastSegment(ptr: Bytes, start: nat)
    requires start < |ptr|
    ensures Pointers.SlashFrom(ptr, start) == |ptr|
       <==> |Pointers.Segments(ptr, start)| == 1 && Pointers.Closed(ptr)
  {
    var e := Pointers.SlashFrom(ptr, start);
    SlashFound(ptr, start);
    if e < |ptr| {
      assert ptr[e] == SLASH;
      if e + 1 < |ptr| { FirstSegment(ptr, e + 1); }
    }
  }

  lemma {:induction false} SlashFound(ptr: Bytes, start: nat)
    requires start <= |ptr|
    ensures var e := Pointers.SlashFrom(ptr, start);
      (e < |ptr| ==> ptr[e] == SLASH) && forall i :: start <= i < e ==> ptr[i] != SLASH
    decreases |ptr| - start
  {
    if start < |ptr| && ptr[start] != SLASH { SlashFound(ptr, start + 1); }
  }

  method ScanSegment(path: Bytes, start: nat) returns (end: nat, hasEscape: bool)
    requires start <= |path|
    ensures end == Pointers.SegmentEnd(path, start) && hasEscape == Pointers.HasEscape(path, start, end)
  {
    end, hasEscape := start, false;
    while end < |path| && path[end] != Pointers.PERIOD
      invariant start <= end <= |path| && Pointers.SegmentEnd(path, end) == Pointers.SegmentEnd(path, start)
      invariant hasEscape == Pointers.HasEscape(path, start, end)
      decreases |path| - end
    {
      if Pointers.EscapesAt(path, end) {
        EscapeSeen(path, start, end);
        hasEscape := true;
        end := end + 2;
      } else {
        NoEscapeAdded(path, start, end);
        end := end + 1;
      }
    }
  }

  lemma {:induction false} EscapeSeen(path: Bytes, i: nat, e: nat)
    requires i <= e && Pointers.EscapesAt(path, e)
    ensures Pointers.HasEscape(path, i, e + 2)
    decreases e - i
  {
    if i < e { EscapeSeen(path, i + 1, e); }
  }

  lemma {:induction false} NoEscapeAdded(path: Bytes, i: nat, e: nat)
    requires i <= e && !Pointers.EscapesAt(path, e)
    ensures Pointers.HasEscape(path, i, e + 1) == Pointers.HasEscape(path, i, e)
    decreases e - i
  {
    if i < e { NoEscapeAdded(path, i + 1, e); }
  }

  method UnescapeSegment(path: Bytes, start: nat, end: nat) returns (seg: Bytes)
    requires start <= end <= |path|
    ensures seg == Pointers.Unescaped(path, start, end)
  {
    hide Pointers.Unescaped;
    seg := [];
    var i := start;
    while i < end
      invariant start <= i && seg + Pointers.Unescaped(path, i, end) == Pointers.Unescaped(path, start, end)
      decreases end - i
    {
      ghost var before, at := seg, i;
      UnescapedStep(path, i, end);
      if path[i] == BACKSLASH && i + 1 < |path| { i := i + 1; }
      seg := seg + [path[i]];
      i := i + 1;
      assert before + Pointers.Unescaped(path, at, end) == seg + Pointers.Unescaped(path, i, end);
    }
    UnescapedStep(path, i, end);
    assert seg + [] == seg;
  }

  lemma UnescapedStep(path: Bytes, i: nat, e: nat)
    requires e <= |path|
    ensures Pointers.Unescaped(path, i, e)
         == if i >= e then []
            else if path[i] == BACKSLASH && i + 1 < |path| then [path[i + 1]] + Pointers.Unescaped(path, i + 2, e)
            else [path[i]] + Pointers.Unescaped(path, i + 1, e)
  {
  }
}
