/** JSON Pointer through arrays: which element a segment names, what storing does there, and what is made on the way. */
module PointerArrays {
  import opened Bytes
  import opened Values
  import opened Text
  import opened Pointers

  // ---------- Indices ----------

  /** A segment is an index exactly when it is the decimal form of a number that fits a size. */
  lemma IndexIs(seg: Bytes, i: nat)
    ensures Index(seg) == Some(i) <==> seg == Digits(i) && i < TWO_64
  {
    DigitsOnlyIs(seg);
    DigitsOnlyIs(Digits(i));
    DigitsInverse(i);
    if seg != [] && DigitsOnly(seg) && !(|seg| > 1 && seg[0] == ZERO) { DigitsCanonical(seg); }
  }

  ghost predicate NamesNumber(seg: Bytes)
  {
    exists n: nat :: seg == Digits(n)
  }

  lemma LooksIndexedIs(seg: Bytes)
    ensures LooksIndexed(seg) <==> NamesNumber(seg) || seg == DASH
    ensures Index(seg).Some? ==> NamesNumber(seg) && seg == Digits(Index(seg).value) && Index(seg).value < TWO_64
    ensures NamesNumber(seg) ==> seg != DASH
  {
    DigitsOnlyIs(seg);
    if LooksIndexed(seg) && seg != DASH {
      DigitsCanonical(seg);
      assert seg == Digits(FromDigits(seg));
    }
    if NamesNumber(seg) {
      var n: nat :| seg == Digits(n);
      assert IsDigit(seg[0]);
    }
    if Index(seg).Some? { IndexIs(seg, Index(seg).value); }
  }

  // ---------- Reading ----------

  /** Every tilde is one of the two escapes. */
  predicate WellEscaped(seg: Bytes)
  {
    seg == []
    || (if seg[0] == TILDE then |seg| > 1 && (seg[1] == 48 || seg[1] == 49) && WellEscaped(seg[2..])
        else seg[0] != SLASH && WellEscaped(seg[1..]))
  }

  /** A well-escaped segment is the escaped form of what it decodes to. */
  lemma {:induction false} EscapeDecoded(seg: Bytes)
    requires WellEscaped(seg)
    ensures EscapeToken(Decode(seg)) == seg
    decreases |seg|
  {
    if seg != [] {
      var w := if seg[0] == TILDE then 2 else 1;
      EscapeDecoded(seg[w..]);
      var k, rest := Decode(seg), Decode(seg[w..]);
      assert k[1..] == rest;
      assert seg[..w] + seg[w..] == seg;
    }
  }

  /** A reference token names a child: the member whose escaped key it is, or the element whose decimal position it is
      (section 4 of RFC 6901). */
  ghost predicate Names(seg: Bytes, parent: Value, child: Value)
  {
    match parent
    case Object(fields) => exists k :: k in fields && seg == EscapeToken(k) && fields[k] == child
    case Array(items) => exists i :: 0 <= i < |items| && seg == Digits(i) && items[i] == child
    case Leaf(_) => false
  }

  /** From the one value the tokens lead to the other. */
  ghost predicate Reaches(v: Value, segs: seq<Bytes>, w: Value)
    decreases |segs|
  {
    if segs == [] then v == w else exists c :: Names(segs[0], v, c) && Reaches(c, segs[1..], w)
  }

  ghost predicate AllEscaped(segs: seq<Bytes>)
  {
    forall s :: s in segs ==> WellEscaped(s)
  }

  /** No array has more elements than a size can count. */
  ghost predicate Countable(v: Value)
  {
    match v
    case Leaf(_) => true
    case Array(items) => |items| <= TWO_64 && forall i :: 0 <= i < |items| ==> Countable(items[i])
    case Object(fields) => forall k :: k in fields ==> Countable(fields[k])
  }

  /** One step: the child the library goes to is the one the token names. */
  lemma StepNames(v: Value, seg: Bytes, c: Value)
    requires WellEscaped(seg) && Countable(v)
    ensures Names(seg, v, c) <==>
      match v
      case Object(fields) => Decode(seg) in fields && fields[Decode(seg)] == c
      case Array(items) => Index(seg).Some? && Index(seg).value < |items| && items[Index(seg).value] == c
      case Leaf(_) => false
  {
    match v
    case Leaf(_) =>
    case Object(fields) =>
      EscapeDecoded(seg);
      if Names(seg, v, c) {
        var k :| k in fields && seg == EscapeToken(k) && fields[k] == c;
        DecodeEscaped(k);
      }
    case Array(items) =>
      if Names(seg, v, c) {
        var i :| 0 <= i < |items| && seg == Digits(i) && items[i] == c;
        IndexIs(seg, i);
      }
      if Index(seg).Some? { IndexIs(seg, Index(seg).value); }
  }

  /** Walking the segments ends at a value exactly when they lead there. */
  lemma {:induction false} GetReaches(v: Value, segs: seq<Bytes>, w: Value)
    requires AllEscaped(segs) && Countable(v)
    ensures Get(v, segs) == Some(w) <==> Reaches(v, segs, w)
    decreases |segs|
  {
    hide Index, Decode, WellEscaped, Countable, Names;
    if segs != [] {
      assert segs[0] in segs;
      forall c ensures Names(segs[0], v, c) <==>
        match v
        case Object(fields) => Decode(segs[0]) in fields && fields[Decode(segs[0])] == c
        case Array(items) => Index(segs[0]).Some? && Index(segs[0]).value < |items| && items[Index(segs[0]).value] == c
        case Leaf(_) => false
      {
        StepNames(v, segs[0], c);
      }
      var rest := segs[1..];
      assert AllEscaped(rest);
      forall c | Names(segs[0], v, c) ensures Get(c, rest) == Some(w) <==> Reaches(c, rest, w) {
        ChildCountable(v, segs[0], c);
        GetReaches(c, rest, w);
      }
    }
  }

  lemma ChildCountable(v: Value, seg: Bytes, c: Value)
    requires Countable(v) && Names(seg, v, c)
    ensures Countable(c)
  {
  }

  /** The text of a pointer: a slash before each segment. */
  function PointerText(segs: seq<Bytes>): (r: Bytes)
  {
    if segs == [] then [] else [SLASH] + (segs[0] + PointerText(segs[1..]))
  }

  ghost predicate SlashFree(segs: seq<Bytes>)
  {
    forall i :: 0 <= i < |segs| ==> SLASH !in segs[i]
  }

  lemma {:induction false} SegmentsOfText(segs: seq<Bytes>, ptr: Bytes, start: nat)
    requires SlashFree(segs) && (segs != [] ==> segs[|segs| - 1] != [])
    requires 1 <= start <= |ptr| + 1 && ptr[start - 1..] == PointerText(segs)
    ensures Segments(ptr, start) == segs
    decreases |segs|
  {
    hide Segments, SlashFrom;
    SegmentsStep(ptr, start);
    if segs != [] {
      var s, rest := segs[0], segs[1..];
      var p := start + |s|;
      FirstSegment(segs, ptr, start);
      SlashFromIs(ptr, start, p);
      if |segs| == 1 { assert s != []; } else { NotLast(rest); }
      SegmentsOfText(rest, ptr, p + 1);
    }
  }

  /** The first segment of a pointer's text, and the text behind it. */
  lemma FirstSegment(segs: seq<Bytes>, ptr: Bytes, start: nat)
    requires SlashFree(segs) && segs != [] && 1 <= start <= |ptr| + 1 && ptr[start - 1..] == PointerText(segs)
    ensures var p := start + |segs[0]|;
      && p <= |ptr| && ptr[start..p] == segs[0] && (forall i :: start <= i < p ==> ptr[i] != SLASH)
      && (p < |ptr| ==> ptr[p] == SLASH) && ptr[p..] == PointerText(segs[1..]) && SlashFree(segs[1..])
  {
    var s, tail := segs[0], PointerText(segs[1..]);
    var p := start + |s|;
    TextCut(ptr, start, s, tail);
    assert forall i :: 0 <= i < |s| ==> s[i] in s;
    if p < |ptr| { assert ptr[p] == tail[0]; }
    forall i | 0 <= i < |segs[1..]| ensures SLASH !in segs[1..][i] { assert segs[1..][i] == segs[i + 1]; }
  }

  lemma TextCut(ptr: Bytes, start: nat, s: Bytes, tail: Bytes)
    requires 1 <= start <= |ptr| + 1 && ptr[start - 1..] == [SLASH] + (s + tail)
    ensures var p := start + |s|;
      p <= |ptr| && ptr[start..p] == s && ptr[p..] == tail && forall i :: start <= i < p ==> ptr[i] == s[i - start]
  {
    var all := ptr[start - 1..];
    assert ptr[start..] == all[1..] == s + tail;
  }

  lemma NotLast(segs: seq<Bytes>)
    requires segs != []
    ensures PointerText(segs) != []
  {
  }

  lemma {:induction false} EscapedIsSlashFree(seg: Bytes)
    requires WellEscaped(seg)
    ensures SLASH !in seg
    decreases |seg|
  {
    if seg != [] {
      var w := if seg[0] == TILDE then 2 else 1;
      EscapedIsSlashFree(seg[w..]);
      assert seg == seg[..w] + seg[w..];
    }
  }

  lemma AllSlashFree(segs: seq<Bytes>)
    requires AllEscaped(segs)
    ensures SlashFree(segs)
  {
    forall i | 0 <= i < |segs| ensures SLASH !in segs[i] {
      assert segs[i] in segs;
      EscapedIsSlashFree(segs[i]);
    }
  }

  /** getByPointer evaluates a pointer as section 4 of RFC 6901 says: a pointer of well-escaped tokens, the last of them
      not empty, reads a value exactly when its tokens lead there, through objects and arrays. */
  lemma PointerReaches(root: Value, segs: seq<Bytes>, w: Value)
    requires AllEscaped(segs) && segs != [] && segs[|segs| - 1] != [] && Countable(root)
    ensures GetByPointer(Some(root), PointerText(segs)) == Some(w) <==> Reaches(root, segs, w)
  {
    hide Get, Segments, Reaches, AllEscaped, WellEscaped, Countable;
    var ptr := PointerText(segs);
    AllSlashFree(segs);
    assert ptr[1 - 1..] == ptr;
    SegmentsOfText(segs, ptr, 1);
    TextIsNoSlash(segs);
    GetReaches(root, segs, w);
  }

  lemma TextIsNoSlash(segs: seq<Bytes>)
    requires segs != [] && segs[|segs| - 1] != []
    ensures PointerText(segs) != [SLASH] && PointerText(segs) != [] && PointerText(segs)[0] == SLASH
  {
    if |segs| > 1 { NotLast(segs[1..]); }
  }

  /** The position of an element reads that element, and nothing past the end. */
  lemma ElementRead(items: seq<Value>, i: nat)
    requires i < TWO_64
    ensures GetByPointer(Some(Array(items)), [SLASH] + Digits(i)) == if i < |items| then Some(items[i]) else None
  {
    hide Segments, Index;
    DigitsSlashFree(i);
    OneSegment(Digits(i));
    IndexIs(Digits(i), i);
    var ptr, segs := [SLASH] + Digits(i), [Digits(i)];
    assert |ptr| > 1 && ptr[0] == SLASH;
    assert segs[1..] == [];
    assert Get(Array(items), segs) == if i < |items| then Get(items[i], segs[1..]) else None;
  }

  lemma {:induction false} DigitsSlashFree(n: nat)
    ensures SLASH !in Digits(n)
  {
    forall i | 0 <= i < |Digits(n)| ensures Digits(n)[i] != SLASH { assert IsDigit(Digits(n)[i]); }
  }

  lemma OneSegment(seg: Bytes)
    requires SLASH !in seg && seg != []
    ensures Segments([SLASH] + seg, 1) == [seg]
  {
    hide Segments;
    var ptr := [SLASH] + seg;
    assert PointerText([seg]) == [SLASH] + (seg + []);
    assert seg + [] == seg;
    assert ptr[0..] == ptr;
    SegmentsOfText([seg], ptr, 1);
  }

  /** A segment that is no decimal number reaches no element. */
  lemma NoElement(items: seq<Value>, seg: Bytes, rest: seq<Bytes>)
    requires !NamesNumber(seg)
    ensures Get(Array(items), [seg] + rest) == None
  {
    LooksIndexedIs(seg);
  }

  // ---------- Storing ----------

  /** What storing below a node does to it; elements skipped are null. */
  function Placed(node: Value, seg: Bytes, x: Value): (r: Value)
    requires node.Object? || (node.Array? && (seg == DASH || Index(seg).Some?))
  {
    match node
    case Object(fields) => Object(fields[Decode(seg) := x])
    case Array(items) =>
      var i := if seg == DASH then |items| else Index(seg).value;
      if i < |items| then Array(items[..i] + [x] + items[i + 1..])
      else Array(items + seq(i - |items|, _ => Leaf(Null)) + [x])
  }

  /** Storing under the last segment: refused exactly below a leaf, and in an array under anything but a number that
      fits or a dash; nothing changes then. */
  lemma PutHere(node: Value, seg: Bytes, x: Value)
    ensures var (ok, r) := Put(node, [seg], true, x);
      && (ok <==> node.Object? || (node.Array? && (seg == DASH || Index(seg).Some?)))
      && (ok ==> r == Placed(node, seg, x))
      && (!ok ==> r == node)
  {
    hide Index, Decode;
    DashIsNoIndex();
    if node.Array? && Index(seg).Some? {
      var i, items := Index(seg).value, node.items;
      var made := Resize(items, i + 1)[i := x];
      if i < |items| { assert made == items[..i] + [x] + items[i + 1..]; }
      else { assert made == items + seq(i - |items|, _ => Leaf(Null)) + [x]; }
    }
    if node.Array? && seg == DASH { assert node.items + seq(0, _ => Leaf(Null)) + [x] == node.items + [x]; }
  }

  /** Storing below a node that is there changes that node and nothing else on the way. */
  lemma {:induction false} PutDown(v: Value, prefix: seq<Bytes>, segs: seq<Bytes>, closed: bool, x: Value)
    requires Get(v, prefix).Some? && segs != []
    ensures var node := Get(v, prefix).value; var below := Put(node, segs, closed, x);
      var (ok, r) := Put(v, prefix + segs, closed, x);
      && ok == below.0 && Get(r, prefix) == Some(below.1)
      && (below.1 == node ==> r == v)
    decreases |prefix|
  {
    hide Index, Decode;
    DashIsNoIndex();
    if prefix == [] {
      assert prefix + segs == segs;
    } else {
      var all := prefix + segs;
      assert all[0] == prefix[0] && all[1..] == prefix[1..] + segs;
      match v
      case Object(fields) => PutDown(fields[Decode(prefix[0])], prefix[1..], segs, closed, x);
      case Array(items) => PutDown(items[Index(prefix[0]).value], prefix[1..], segs, closed, x);
    }
  }

  /** setByPointer below a node that is there: the node becomes what is placed in it, everything else stays as it was
      (by SetElsewhere); or it is refused and nothing changes. */
  lemma StoreBelow(root: Value, prefix: seq<Bytes>, seg: Bytes, x: Value)
    requires Get(root, prefix).Some? && SlashFree(prefix + [seg]) && seg != []
    ensures var node := Get(root, prefix).value;
      var (ok, r) := SetByPointer(Some(root), PointerText(prefix + [seg]), x);
      && r.Some? && (ok <==> node.Object? || (node.Array? && (seg == DASH || Index(seg).Some?)))
      && (ok ==> Get(r.value, prefix) == Some(Placed(node, seg, x)))
      && (!ok ==> r.value == root)
  {
    hide Get, Put, Segments, Index, Decode, Placed;
    var segs := prefix + [seg];
    var ptr := PointerText(segs);
    assert ptr[1 - 1..] == ptr;
    SegmentsOfText(segs, ptr, 1);
    TextIsNoSlash(segs);
    TextClosed(segs);
    PutDown(root, prefix, [seg], true, x);
    PutHere(Get(root, prefix).value, seg, x);
  }

  lemma {:induction false} TextClosed(segs: seq<Bytes>)
    requires SlashFree(segs) && segs != [] && segs[|segs| - 1] != []
    ensures Closed(PointerText(segs))
    decreases |segs|
  {
    var ptr := PointerText(segs);
    if |segs| == 1 {
      assert ptr == [SLASH] + segs[0];
      assert ptr[|ptr| - 1] == segs[0][|segs[0]| - 1];
    } else {
      var rest := segs[1..];
      assert SlashFree(rest) by { forall i | 0 <= i < |rest| ensures SLASH !in rest[i] { assert rest[i] == segs[i + 1]; } }
      TextClosed(rest);
      var tail := PointerText(rest);
      assert ptr[|ptr| - 1] == tail[|tail| - 1];
    }
  }

  /** Storing at the position of an element replaces it; at the number of elements, or a dash, it is appended. */
  lemma StoreElement(root: Value, prefix: seq<Bytes>, i: nat, x: Value)
    requires Get(root, prefix).Some? && Get(root, prefix).value.Array? && SlashFree(prefix) && i < TWO_64
    requires i <= |Get(root, prefix).value.items|
    ensures var items := Get(root, prefix).value.items;
      var (ok, r) := SetByPointer(Some(root), PointerText(prefix + [Digits(i)]), x);
      && ok && r.Some?
      && Get(r.value, prefix) == Some(Array(if i < |items| then items[..i] + [x] + items[i + 1..] else items + [x]))
  {
    hide Get, SetByPointer, Index;
    DigitsSlashFree(i);
    AddSlashFree(prefix, Digits(i));
    IndexIs(Digits(i), i);
    LooksIndexedIs(Digits(i));
    StoreBelow(root, prefix, Digits(i), x);
    var items := Get(root, prefix).value.items;
    assert items + seq(0, _ => Leaf(Null)) + [x] == items + [x];
  }

  lemma StoreAppended(root: Value, prefix: seq<Bytes>, x: Value)
    requires Get(root, prefix).Some? && Get(root, prefix).value.Array? && SlashFree(prefix)
    ensures var (ok, r) := SetByPointer(Some(root), PointerText(prefix + [DASH]), x);
      ok && r.Some? && Get(r.value, prefix) == Some(Array(Get(root, prefix).value.items + [x]))
  {
    hide Get, SetByPointer, Index;
    AddSlashFree(prefix, DASH);
    StoreBelow(root, prefix, DASH, x);
    var items := Get(root, prefix).value.items;
    assert items + seq(0, _ => Leaf(Null)) + [x] == items + [x];
  }

  lemma StoreMember(root: Value, prefix: seq<Bytes>, key: Bytes, x: Value)
    requires Get(root, prefix).Some? && Get(root, prefix).value.Object? && SlashFree(prefix) && key != []
    ensures var (ok, r) := SetByPointer(Some(root), PointerText(prefix + [EscapeToken(key)]), x);
      ok && r.Some? && Get(r.value, prefix) == Some(Object(Get(root, prefix).value.fields[key := x]))
  {
    hide Get, SetByPointer, Index;
    EscapedSlashFree(key);
    NotEmptied(key);
    AddSlashFree(prefix, EscapeToken(key));
    DecodeEscaped(key);
    StoreBelow(root, prefix, EscapeToken(key), x);
  }

  lemma AddSlashFree(prefix: seq<Bytes>, seg: Bytes)
    requires SlashFree(prefix) && SLASH !in seg
    ensures SlashFree(prefix + [seg])
  {
  }

  // ---------- What is made on the way ----------

  /** A way made of members only, except that the last segment may also be a number or a dash. */
  ghost predicate Makeable(segs: seq<Bytes>)
  {
    segs == [] || |segs| == 1 || (!NamesNumber(segs[0]) && segs[0] != DASH && Makeable(segs[1..]))
  }

  /** The value a missing member becomes: objects down to the last segment, which makes an array if it is a number or a
      dash. */
  ghost function Grown(segs: seq<Bytes>, x: Value): (r: Value)
  {
    if segs == [] then x
    else if |segs| == 1 && segs[0] == DASH then Array([x])
    else if |segs| == 1 && NamesNumber(segs[0]) then
      (if Index(segs[0]).Some? then Array(seq(Index(segs[0]).value, _ => Leaf(Null)) + [x]) else Array([]))
    else Object(map[Decode(segs[0]) := Grown(segs[1..], x)])
  }

  /** Storing under a missing member: it succeeds exactly when the rest of the way can be made and its last number fits,
      and the member then holds what was made. */
  lemma {:induction false} MakeWay(segs: seq<Bytes>, x: Value)
    requires segs != []
    ensures var (ok, r) := Put(NewContainer(segs[0]), segs, true, x); var last := segs[|segs| - 1];
      && (ok <==> Makeable(segs) && (NamesNumber(last) ==> Index(last).Some?))
      && (ok ==> r == Grown(segs, x))
    decreases |segs|
  {
    hide Index, Decode, NamesNumber;
    var seg := segs[0];
    LooksIndexedIs(seg);
    DashIsNoIndex();
    if |segs| == 1 {
      assert segs == [seg];
      PutHere(NewContainer(seg), seg, x);
      if LooksIndexed(seg) {
        if Index(seg).Some? { assert [] + seq(Index(seg).value, _ => Leaf(Null)) + [x] == seq(Index(seg).value, _ => Leaf(Null)) + [x]; }
        assert [] + seq(0, _ => Leaf(Null)) + [x] == [x];
      } else {
        assert map[][Decode(seg) := x] == map[Decode(seg) := Grown([], x)];
        assert segs[1..] == [];
      }
    } else if !LooksIndexed(seg) {
      MakeWay(segs[1..], x);
      var r := Put(NewContainer(segs[1]), segs[1..], true, x).1;
      assert map[][Decode(seg) := r] == map[Decode(seg) := r];
    }
  }

  lemma StoreMissing(fields: map<Bytes, Value>, seg: Bytes, segs: seq<Bytes>, x: Value)
    requires Decode(seg) !in fields && segs != []
    ensures var (ok, r) := Put(Object(fields), [seg] + segs, true, x); var last := segs[|segs| - 1];
      && (ok <==> Makeable(segs) && (NamesNumber(last) ==> Index(last).Some?))
      && (ok ==> r == Object(fields[Decode(seg) := Grown(segs, x)]))
  {
    hide Index, Decode, NamesNumber;
    MakeWay(segs, x);
    assert ([seg] + segs)[1..] == segs;
  }
}
