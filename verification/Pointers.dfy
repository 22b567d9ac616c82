/** Reading and writing trees by JSON Pointer (RFC 6901) and by dotted path. */
module Pointers {
  import opened Bytes
  import opened Values
  import opened Text

  const TILDE: Byte := 126
  const PERIOD: Byte := 46
  const DASH: Bytes := [45]

  // ---------- Tokens ----------

  /** decodeJSONPointerKey: ~0 and ~1; any other tilde stands for itself. */
  function Decode(seg: Bytes): (r: Bytes)
  {
    if seg == [] then []
    else if seg[0] == TILDE && |seg| > 1 && seg[1] == 48 then [TILDE] + Decode(seg[2..])
    else if seg[0] == TILDE && |seg| > 1 && seg[1] == 49 then [SLASH] + Decode(seg[2..])
    else [seg[0]] + Decode(seg[1..])
  }

  /** The position of the next slash, or the end. */
  function SlashFrom(ptr: Bytes, start: nat): (r: nat)
    ensures start <= |ptr| ==> start <= r <= |ptr|
    decreases Remaining(ptr, start)
  {
    if start >= |ptr| || ptr[start] == SLASH then start else SlashFrom(ptr, start + 1)
  }

  /** The segments from `start` on; a slash at the very end starts no further segment. */
  function Segments(ptr: Bytes, start: nat): (r: seq<Bytes>)
    decreases Remaining(ptr, start)
  {
    if start >= |ptr| then []
    else
      var e := SlashFrom(ptr, start);
      [ptr[start..e]] + Segments(ptr, e + 1)
  }

  predicate DigitsOnly(s: Bytes)
  {
    if s == [] then true else IsDigit(s[0]) && DigitsOnly(s[1..])
  }

  lemma {:induction false} DigitsOnlyIs(s: Bytes)
    ensures DigitsOnly(s) <==> forall i :: 0 <= i < |s| ==> IsDigit(s[i])
  {
    if s != [] {
      DigitsOnlyIs(s[1..]);
      assert forall i :: 1 <= i < |s| ==> s[i] == s[1..][i - 1];
    }
  }

  /** isArrayIndex and the number it spells, where it fits a size; no needless leading zero. */
  function Index(seg: Bytes): (r: Option<nat>)
  {
    DigitsOnlyIs(seg);
    if seg == [] || (|seg| > 1 && seg[0] == ZERO) || !DigitsOnly(seg) then None
    else if FromDigits(seg) < TWO_64 then Some(FromDigits(seg)) else None
  }

  /** Whether a new container for this segment is an array. */
  predicate LooksIndexed(seg: Bytes)
  {
    (seg != [] && !(|seg| > 1 && seg[0] == ZERO) && DigitsOnly(seg)) || seg == DASH
  }

  function NewContainer(next: Bytes): (r: Value)
  {
    if LooksIndexed(next) then Array([]) else Object(map[])
  }

  // ---------- Reading ----------

  function Get(v: Value, segs: seq<Bytes>): (r: Option<Value>)
    decreases |segs|
  {
    if segs == [] then Some(v)
    else
      match v
      case Object(fields) =>
        var key := Decode(segs[0]);
        if key in fields then Get(fields[key], segs[1..]) else None
      case Array(items) =>
        (match Index(segs[0])
         case None => None
         case Some(i) => if i < |items| then Get(items[i], segs[1..]) else None)
      case Leaf(_) => None
  }

  /** getByPointer; a lone slash is the root. */
  function GetByPointer(root: Option<Value>, ptr: Bytes): (r: Option<Value>)
  {
    if root.None? then None
    else if ptr == [] || ptr == [SLASH] then root
    else if ptr[0] != SLASH then None
    else Get(root.value, Segments(ptr, 1))
  }

  // ---------- Writing ----------

  /** What an array slot skipped by an append holds: no value at all, shown as null. */
  const EMPTY_SLOT: Value := Leaf(Null)

  function Resize(items: seq<Value>, n: nat): (r: seq<Value>)
    ensures |r| == if |items| < n then n else |items|
    ensures forall i :: 0 <= i < |items| ==> r[i] == items[i]
  {
    if |items| < n then items + seq(n - |items|, _ => EMPTY_SLOT) else items
  }

  /** Whether the value was stored, and the tree afterwards: containers made on the way stay even where it was
      not.  `closed` tells that the last segment is not followed by a slash. */
  function Put(v: Value, segs: seq<Bytes>, closed: bool, x: Value): (r: (bool, Value))
    decreases |segs|
  {
    if segs == [] then (false, v)
    else
      var last := |segs| == 1 && closed;
      match v
      case Object(fields) =>
        var key := Decode(segs[0]);
        if last then (true, Object(fields[key := x]))
        else
          var child := if key in fields then fields[key] else NewContainer(if |segs| > 1 then segs[1] else []);
          var (ok, child') := Put(child, segs[1..], closed, x);
          (ok, Object(fields[key := child']))
      case Array(items) =>
        if segs[0] == DASH then (if last then (true, Array(items + [x])) else (false, v))
        else
          (match Index(segs[0])
           case None => (false, v)
           case Some(i) =>
             if last then (true, Array(Resize(items, i + 1)[i := x]))
             else if i >= |items| then (false, v)
             else
               var (ok, child') := Put(items[i], segs[1..], closed, x);
               (ok, Array(items[i := child'])))
      case Leaf(_) => (false, v)
  }

  /** Whether a pointer ends with its last segment. */
  predicate Closed(ptr: Bytes)
  {
    ptr != [] && ptr[|ptr| - 1] != SLASH
  }

  /** setByPointer. */
  function SetByPointer(root: Option<Value>, ptr: Bytes, x: Value): (r: (bool, Option<Value>))
  {
    if ptr == [] || ptr == [SLASH] then (true, Some(x))
    else if ptr[0] != SLASH then (false, root)
    else
      var segs := Segments(ptr, 1);
      var v := if root.Some? then root.value else NewContainer(if segs == [] then [] else segs[0]);
      var (ok, v') := Put(v, segs, Closed(ptr), x);
      (ok, Some(v'))
  }

  // ---------- Laws of one pointer ----------

  /** Every index on the way is at most the size of its array, and nothing is appended through a dash. */
  ghost predicate InStep(v: Value, segs: seq<Bytes>)
    decreases |segs|
  {
    segs == [] ||
    match v
    case Object(fields) =>
      var key := Decode(segs[0]);
      InStep(if key in fields then fields[key] else NewContainer(if |segs| > 1 then segs[1] else []), segs[1..])
    case Array(items) =>
      segs[0] != DASH
      && (match Index(segs[0])
          case None => true
          case Some(i) => i <= |items| && (i < |items| ==> InStep(items[i], segs[1..])))
    case Leaf(_) => true
  }

  /** Two lists of segments part at some decoded segment. */
  ghost predicate Diverge(p: seq<Bytes>, q: seq<Bytes>)
    decreases |p|
  {
    p != [] && q != [] && (Decode(p[0]) != Decode(q[0]) || Diverge(p[1..], q[1..]))
  }

  /** The way ends in an array that is appended to through a dash. */
  ghost predicate Dashed(v: Value, segs: seq<Bytes>)
    decreases |segs|
  {
    segs != [] &&
    match v
    case Object(fields) =>
      var key := Decode(segs[0]);
      Dashed(if key in fields then fields[key] else NewContainer(if |segs| > 1 then segs[1] else []), segs[1..])
    case Array(items) =>
      segs[0] == DASH
      || (match Index(segs[0]) case None => false case Some(i) => i < |items| && Dashed(items[i], segs[1..]))
    case Leaf(_) => false
  }

  /** A value that was stored is read back exactly when it was not appended through a dash. */
  lemma {:induction false} PutGet(v: Value, segs: seq<Bytes>, closed: bool, x: Value)
    requires Put(v, segs, closed, x).0
    ensures Get(Put(v, segs, closed, x).1, segs) == Some(x) <==> !Dashed(v, segs)
    ensures Dashed(v, segs) ==> Get(Put(v, segs, closed, x).1, segs) == None
    decreases |segs|
  {
    var last := |segs| == 1 && closed;
    if last { assert segs[1..] == []; }
    match v
    case Object(fields) =>
      var key := Decode(segs[0]);
      if !last {
        PutGet(if key in fields then fields[key] else NewContainer(if |segs| > 1 then segs[1] else []), segs[1..], closed, x);
      }
    case Array(items) =>
      if segs[0] == DASH {
        DashIsNoIndex();
      } else if !last {
        PutGet(items[Index(segs[0]).value], segs[1..], closed, x);
      }
  }

  lemma DashIsNoIndex()
    ensures Index(DASH) == None
  {
    assert !IsDigit(DASH[0]);
  }

  lemma {:induction false} DecodeDigits(s: Bytes)
    requires DigitsOnly(s)
    ensures Decode(s) == s
  {
    if s != [] { DecodeDigits(s[1..]); }
  }

  /** Different segments that are indices are different numbers. */
  lemma IndexIdentifies(a: Bytes, b: Bytes)
    requires Index(a).Some? && Index(b).Some? && Decode(a) != Decode(b)
    ensures Index(a) != Index(b)
  {
    DigitsOnlyIs(a);
    DigitsOnlyIs(b);
    DecodeDigits(a);
    DecodeDigits(b);
    DigitsCanonical(a);
    DigitsCanonical(b);
  }

  lemma NothingIn(next: Bytes, segs: seq<Bytes>)
    requires segs != []
    ensures Get(NewContainer(next), segs) == None
  {
  }

  /** Pointers that part from the one written read what they read before. */
  lemma {:induction false} PutElsewhere(v: Value, p: seq<Bytes>, q: seq<Bytes>, closed: bool, x: Value)
    requires InStep(v, p) && Diverge(p, q)
    ensures Get(Put(v, p, closed, x).1, q) == Get(v, q)
    decreases |p|
  {
    match v
    case Leaf(_) =>
    case Object(fields) =>
      var key, other := Decode(p[0]), Decode(q[0]);
      if key == other && Diverge(p[1..], q[1..]) {
        var child := if key in fields then fields[key] else NewContainer(if |p| > 1 then p[1] else []);
        PutElsewhere(child, p[1..], q[1..], closed, x);
        if key !in fields { NothingIn(if |p| > 1 then p[1] else [], q[1..]); }
      }
    case Array(items) =>
      if Index(p[0]).Some? && Index(q[0]).Some? {
        var i := Index(p[0]).value;
        if Decode(p[0]) != Decode(q[0]) {
          IndexIdentifies(p[0], q[0]);
        } else {
          SameIndex(p[0], q[0]);
          if i < |items| { PutElsewhere(items[i], p[1..], q[1..], closed, x); }
        }
      }
  }

  lemma SameIndex(a: Bytes, b: Bytes)
    requires Index(a).Some? && Index(b).Some? && Decode(a) == Decode(b)
    ensures a == b
  {
    DecodeDigits(a);
    DecodeDigits(b);
  }

  /** setByPointer, then getByPointer. */
  lemma SetThenGet(root: Option<Value>, ptr: Bytes, x: Value)
    requires SetByPointer(root, ptr, x).0
    ensures var segs := Segments(ptr, 1);
      var v := if root.Some? then root.value else NewContainer(if segs == [] then [] else segs[0]);
      GetByPointer(SetByPointer(root, ptr, x).1, ptr) == Some(x)
      <==> ptr == [] || ptr == [SLASH] || !Dashed(v, segs)
  {
    hide Segments, Put, Get, Dashed;
    if ptr != [] && ptr != [SLASH] {
      var segs := Segments(ptr, 1);
      PutGet(if root.Some? then root.value else NewContainer(if segs == [] then [] else segs[0]), segs, Closed(ptr), x);
    }
  }

  /** Pointers that part from the one written read what they read before; where nothing was, nothing is. */
  lemma SetElsewhere(root: Option<Value>, ptr: Bytes, other: Bytes, x: Value)
    requires ptr != [] && ptr != [SLASH] && other != [] && other != [SLASH]
    requires var p := Segments(ptr, 1);
      Diverge(p, Segments(other, 1)) && InStep(if root.Some? then root.value else NewContainer(p[0]), p)
    ensures GetByPointer(SetByPointer(root, ptr, x).1, other) == GetByPointer(root, other)
  {
    hide Segments, Put, Get, InStep;
    var p, q := Segments(ptr, 1), Segments(other, 1);
    PutElsewhere(if root.Some? then root.value else NewContainer(p[0]), p, q, Closed(ptr), x);
    NothingIn(p[0], q);
  }

  // ---------- Escaped keys ----------

  function EscapeToken(k: Bytes): (r: Bytes)
  {
    if k == [] then []
    else (if k[0] == TILDE then [TILDE, 48] else if k[0] == SLASH then [TILDE, 49] else [k[0]]) + EscapeToken(k[1..])
  }

  lemma {:induction false} DecodeEscaped(k: Bytes)
    ensures Decode(EscapeToken(k)) == k
  {
    if k != [] {
      DecodeEscaped(k[1..]);
      var e, rest := EscapeToken(k), EscapeToken(k[1..]);
      if k[0] == TILDE || k[0] == SLASH { assert e[2..] == rest; } else { assert e[1..] == rest; }
    }
  }

  lemma {:induction false} EscapedSlashFree(k: Bytes)
    ensures SLASH !in EscapeToken(k)
  {
    if k != [] { EscapedSlashFree(k[1..]); }
  }

  /** The pointer to a key under a key under ... */
  function PointerTo(keys: seq<Bytes>): (r: Bytes)
  {
    if keys == [] then [] else [SLASH] + EscapeToken(keys[0]) + PointerTo(keys[1..])
  }

  function EscapeAll(keys: seq<Bytes>): (r: seq<Bytes>)
    ensures |r| == |keys|
  {
    if keys == [] then [] else [EscapeToken(keys[0])] + EscapeAll(keys[1..])
  }

  ghost predicate NonEmpty(keys: seq<Bytes>)
  {
    forall k :: k in keys ==> k != []
  }

  lemma LaterNonEmpty(keys: seq<Bytes>)
    requires NonEmpty(keys) && keys != []
    ensures NonEmpty(keys[1..])
  {
    forall k | k in keys[1..] ensures k != [] { assert k in keys; }
  }

  lemma {:induction false} SlashFromIs(ptr: Bytes, start: nat, e: nat)
    requires start <= e <= |ptr| && (forall i :: start <= i < e ==> ptr[i] != SLASH) && (e == |ptr| || ptr[e] == SLASH)
    ensures SlashFrom(ptr, start) == e
    decreases e - start
  {
    if start < e { SlashFromIs(ptr, start + 1, e); }
  }

  lemma SegmentsStep(ptr: Bytes, start: nat)
    ensures Segments(ptr, start)
         == if start >= |ptr| then []
            else [ptr[start..SlashFrom(ptr, start)]] + Segments(ptr, SlashFrom(ptr, start) + 1)
  {
  }

  lemma PointerStep(keys: seq<Bytes>)
    ensures keys == [] ==> PointerTo(keys) == [] && EscapeAll(keys) == []
    ensures keys != [] ==> PointerTo(keys) == [SLASH] + (EscapeToken(keys[0]) + PointerTo(keys[1..]))
    ensures keys != [] ==> EscapeAll(keys) == [EscapeToken(keys[0])] + EscapeAll(keys[1..])
  {
    hide EscapeToken;
  }

  /** The segments of a pointer made of keys are the escaped keys. */
  lemma {:induction false} SegmentsOfKeys(keys: seq<Bytes>, ptr: Bytes, start: nat)
    requires NonEmpty(keys) && 1 <= start <= |ptr| + 1 && ptr[start - 1..] == PointerTo(keys)
    ensures Segments(ptr, start) == EscapeAll(keys)
    decreases keys
  {
    hide Segments, SlashFrom, PointerTo, EscapeAll, EscapeToken;
    PointerStep(keys);
    SegmentsStep(ptr, start);
    if keys != [] {
      PointerStep(keys[1..]);
      assert keys[0] in keys;
      var e, rest := EscapeToken(keys[0]), PointerTo(keys[1..]);
      var all := ptr[start - 1..];
      assert all == [SLASH] + (e + rest);
      assert ptr[start..] == all[1..] == e + rest;
      var p := start + |e|;
      assert ptr[start..p] == ptr[start..][..|e|] == e;
      assert ptr[p..] == ptr[start..][|e|..] == rest;
      EscapedSlashFree(keys[0]);
      NotEmptied(keys[0]);
      forall i | start <= i < p ensures ptr[i] != SLASH { assert ptr[i] == e[i - start]; }
      if p < |ptr| { assert ptr[p] == rest[0]; }
      SlashFromIs(ptr, start, p);
      LaterNonEmpty(keys);
      SegmentsOfKeys(keys[1..], ptr, p + 1);
    }
  }

  lemma NotEmptied(k: Bytes)
    requires k != []
    ensures EscapeToken(k) != []
  {
  }

  /** Following keys through objects. */
  function Follow(v: Value, keys: seq<Bytes>): (r: Option<Value>)
    decreases |keys|
  {
    if keys == [] then Some(v)
    else if v.Object? && keys[0] in v.fields then Follow(v.fields[keys[0]], keys[1..])
    else None
  }

  /** No array is met on the way. */
  ghost predicate ObjectsOnly(v: Value, keys: seq<Bytes>)
    decreases |keys|
  {
    keys == []
    || (!v.Array? && (v.Object? && keys[0] in v.fields ==> ObjectsOnly(v.fields[keys[0]], keys[1..])))
  }

  lemma {:induction false} GetFollows(v: Value, keys: seq<Bytes>)
    requires ObjectsOnly(v, keys)
    ensures Get(v, EscapeAll(keys)) == Follow(v, keys)
    decreases |keys|
  {
    if keys != [] {
      DecodeEscaped(keys[0]);
      assert EscapeAll(keys)[1..] == EscapeAll(keys[1..]);
      if v.Object? && keys[0] in v.fields { GetFollows(v.fields[keys[0]], keys[1..]); }
    }
  }

  lemma PointerFollows(v: Value, keys: seq<Bytes>)
    requires NonEmpty(keys) && ObjectsOnly(v, keys)
    ensures GetByPointer(Some(v), PointerTo(keys)) == Follow(v, keys)
  {
    hide Segments, Get;
    var ptr := PointerTo(keys);
    if keys != [] {
      assert keys[0] in keys;
      NotEmptied(keys[0]);
      assert ptr[1 - 1..] == ptr;
      SegmentsOfKeys(keys, ptr, 1);
      GetFollows(v, keys);
    }
  }

  // ---------- Dotted paths ----------

  /** A backslash that escapes the byte behind it. */
  predicate EscapesAt(path: Bytes, i: nat)
  {
    i + 1 < |path| && path[i] == BACKSLASH && (path[i + 1] == PERIOD || path[i + 1] == BACKSLASH)
  }

  /** The end of the segment: the next period that is not escaped. */
  function SegmentEnd(path: Bytes, i: nat): (r: nat)
    ensures i <= r && (i <= |path| ==> r <= |path|)
    decreases Remaining(path, i)
  {
    if i >= |path| || path[i] == PERIOD then i
    else if EscapesAt(path, i) then SegmentEnd(path, i + 2)
    else SegmentEnd(path, i + 1)
  }

  predicate HasEscape(path: Bytes, i: nat, e: nat)
    decreases if i < e then e - i else 0
  {
    i < e && (EscapesAt(path, i) || HasEscape(path, i + 1, e))
  }

  /** In a segment with an escape every backslash that is not the last byte of the path gives way to the next byte. */
  function Unescaped(path: Bytes, i: nat, e: nat): (r: Bytes)
    requires e <= |path|
    decreases if i < e then e - i else 0
  {
    if i >= e then []
    else if path[i] == BACKSLASH && i + 1 < |path| then [path[i + 1]] + Unescaped(path, i + 2, e)
    else [path[i]] + Unescaped(path, i + 1, e)
  }

  function Segment(path: Bytes, start: nat): (r: Bytes)
    requires start <= |path|
  {
    var e := SegmentEnd(path, start);
    if HasEscape(path, start, e) then Unescaped(path, start, e) else path[start..e]
  }

  /** getNested from `start`. */
  function GetNested(v: Value, path: Bytes, start: nat): (r: Option<Value>)
    decreases Remaining(path, start)
  {
    if start >= |path| then Some(v)
    else if !v.Object? then None
    else
      var e := SegmentEnd(path, start);
      if e == start then None
      else
        var key := Segment(path, start);
        if key !in v.fields then None
        else GetNested(v.fields[key], path, if e < |path| then e + 1 else e)
  }

  function DotEscape(k: Bytes): (r: Bytes)
  {
    if k == [] then []
    else (if k[0] == PERIOD || k[0] == BACKSLASH then [BACKSLASH, k[0]] else [k[0]]) + DotEscape(k[1..])
  }

  /** Escaped keys joined by periods. */
  function Dotted(keys: seq<Bytes>): (r: Bytes)
  {
    if keys == [] then [] else if |keys| == 1 then DotEscape(keys[0]) else DotEscape(keys[0]) + [PERIOD] + Dotted(keys[1..])
  }

  /** An escaped key at `i`, and its end. */
  ghost predicate KeyAt(path: Bytes, i: nat, k: Bytes, e: nat)
  {
    e == i + |DotEscape(k)| <= |path| && path[i..e] == DotEscape(k)
  }

  lemma KeyTail(path: Bytes, i: nat, k: Bytes, e: nat)
    requires k != [] && KeyAt(path, i, k, e)
    ensures var w := if k[0] == PERIOD || k[0] == BACKSLASH then 2 else 1;
      && KeyAt(path, i + w, k[1..], e) && i + w <= e
      && (w == 2 ==> path[i] == BACKSLASH && path[i + 1] == k[0]) && (w == 1 ==> path[i] == k[0])
  {
    var w := if k[0] == PERIOD || k[0] == BACKSLASH then 2 else 1;
    var d := DotEscape(k);
    assert d[w..] == DotEscape(k[1..]);
    assert path[i + w..e] == path[i..e][w..];
    assert path[i] == path[i..e][0];
    if w == 2 { assert path[i + 1] == path[i..e][1]; }
  }

  lemma {:induction false} KeyEnds(path: Bytes, i: nat, k: Bytes, e: nat)
    requires KeyAt(path, i, k, e) && (e == |path| || path[e] == PERIOD)
    ensures SegmentEnd(path, i) == e
    decreases |k|
  {
    if k != [] {
      KeyTail(path, i, k, e);
      KeyEnds(path, if k[0] == PERIOD || k[0] == BACKSLASH then i + 2 else i + 1, k[1..], e);
    }
  }

  /** Backslashes of an escaped key are escaped themselves, so dropping every one of them restores the key. */
  lemma {:induction false} KeyUnescaped(path: Bytes, i: nat, k: Bytes, e: nat)
    requires KeyAt(path, i, k, e)
    ensures Unescaped(path, i, e) == k
    ensures !HasEscape(path, i, e) ==> DotEscape(k) == k
    decreases |k|
  {
    if k != [] {
      KeyTail(path, i, k, e);
      var w := if k[0] == PERIOD || k[0] == BACKSLASH then 2 else 1;
      KeyUnescaped(path, i + w, k[1..], e);
    }
  }

  lemma NestedStep(v: Value, path: Bytes, start: nat)
    requires start < |path| && SegmentEnd(path, start) > start
    ensures var e, key := SegmentEnd(path, start), Segment(path, start);
      GetNested(v, path, start)
      == if v.Object? && key in v.fields then GetNested(v.fields[key], path, if e < |path| then e + 1 else e) else None
  {
    hide Segment, SegmentEnd;
  }

  lemma DottedStep(keys: seq<Bytes>)
    requires keys != []
    ensures Dotted(keys) == if |keys| == 1 then DotEscape(keys[0]) else DotEscape(keys[0]) + ([PERIOD] + Dotted(keys[1..]))
  {
    hide DotEscape;
  }

  lemma {:induction false} NestedFollows(v: Value, keys: seq<Bytes>, path: Bytes, start: nat)
    requires NonEmpty(keys) && keys != [] && start <= |path| && path[start..] == Dotted(keys)
    ensures GetNested(v, path, start) == Follow(v, keys)
    decreases |keys|
  {
    hide GetNested, SegmentEnd, HasEscape, Unescaped, DotEscape, Dotted;
    assert keys[0] in keys;
    var d := DotEscape(keys[0]);
    var e := start + |d|;
    NotUnescaped(keys[0]);
    DottedStep(keys);
    assert Dotted(keys)[..|d|] == d;
    assert path[start..e] == path[start..][..|d|];
    if |keys| > 1 {
      var rest := Dotted(keys[1..]);
      assert Dotted(keys) == d + ([PERIOD] + rest);
      assert path[e..] == path[start..][|d|..] == [PERIOD] + rest;
      assert path[e] == path[e..][0];
      assert path[e + 1..] == path[e..][1..] == rest;
    }
    KeyEnds(path, start, keys[0], e);
    KeyUnescaped(path, start, keys[0], e);
    assert Segment(path, start) == keys[0];
    NestedStep(v, path, start);
    NestedEnd(path);
    if v.Object? && keys[0] in v.fields {
      if |keys| > 1 {
        LaterNonEmpty(keys);
        NestedFollows(v.fields[keys[0]], keys[1..], path, e + 1);
      } else {
        assert keys[1..] == [];
      }
    }
  }

  lemma NestedEnd(path: Bytes)
    ensures forall v :: GetNested(v, path, |path|) == Some(v)
  {
  }

  lemma NotUnescaped(k: Bytes)
    requires k != []
    ensures DotEscape(k) != []
  {
  }

  /** A pointer and a dotted path made of the same keys reach the same node of a tree of objects. */
  lemma PointerIsPath(v: Value, keys: seq<Bytes>)
    requires NonEmpty(keys) && ObjectsOnly(v, keys)
    ensures GetByPointer(Some(v), PointerTo(keys)) == GetNested(v, Dotted(keys), 0)
  {
    hide GetByPointer, GetNested, PointerTo;
    PointerFollows(v, keys);
    if keys == [] {
      EmptyPath(v);
    } else {
      assert Dotted(keys)[0..] == Dotted(keys);
      NestedFollows(v, keys, Dotted(keys), 0);
    }
  }

  lemma EmptyPath(v: Value)
    ensures GetNested(v, [], 0) == Some(v)
  {
  }
}
