/** Cloning trees and applying JSON merge patches (RFC 7396). */
module MergePatch {
  import opened Bytes
  import opened Values
  import opened Regexes

  const MAX_CLONE_NODES: nat := 100_000_000

  // ---------- Cloning ----------

  /** A scalar made anew by its factory; None where the factory refuses. */
  function CloneScalar(s: Scalar): (r: Option<Scalar>)
  {
    match s
    case Text(t, _) => if |t| <= MAX_STRING_LEN then Some(s) else None
    case Binary(data) => if |data| <= MAX_STRING_LEN then Some(s) else None
    case Extension(_, payload) => if |payload| <= MAX_STRING_LEN then Some(s) else None
    case ObjectId(oid) => if |oid| == 12 then Some(s) else None
    case DateTime(ts, ms) => Some(DateTime(ToI64((ts + ms / 1000) % TWO_64), ms % 1000))
    case Regex(source) => MakeRegex(PatternOf(source), OptionsOf(source))
    case _ => Some(s)
  }

  /** cloneValueImpl: the copy and the nodes counted so far; children that cannot be copied are dropped. */
  function Clone(d: Doc, depth: nat, nodes: nat): (r: (Option<Value>, nat))
    decreases d
  {
    var n := nodes + 1;
    if n > MAX_CLONE_NODES || depth > MAX_NESTING_DEPTH then (None, n)
    else
      match d
      case Atom(s) => (match CloneScalar(s) case None => (None, n) case Some(c) => (Some(Leaf(c)), n))
      case List(items) => var (vs, m) := CloneItems(items, depth + 1, n); (Some(Array(vs)), m)
      case Table(es) => var (fields, m) := CloneEntries(es, depth + 1, n, map[]); (Some(Object(fields)), m)
  }

  function CloneItems(ds: seq<Doc>, depth: nat, nodes: nat): (r: (seq<Value>, nat))
    decreases ds
  {
    if ds == [] then ([], nodes)
    else
      var (v, n) := Clone(ds[0], depth, nodes);
      var (vs, m) := CloneItems(ds[1..], depth, n);
      ((match v case None => [] case Some(x) => [x]) + vs, m)
  }

  function CloneEntries(es: seq<Entry>, depth: nat, nodes: nat, acc: map<Bytes, Value>): (r: (map<Bytes, Value>, nat))
    decreases es
  {
    if es == [] then (acc, nodes)
    else
      var (v, n) := Clone(es[0].doc, depth, nodes);
      CloneEntries(es[1..], depth, n, match v case None => acc case Some(x) => Emplace(acc, es[0].key, x))
  }

  function Count(d: Doc): (r: nat)
    decreases d
  {
    match d
    case Atom(_) => 1
    case List(items) => 1 + CountItems(items)
    case Table(es) => 1 + CountEntries(es)
  }

  function CountItems(ds: seq<Doc>): (r: nat)
    decreases ds
  {
    if ds == [] then 0 else Count(ds[0]) + CountItems(ds[1..])
  }

  function CountEntries(es: seq<Entry>): (r: nat)
    decreases es
  {
    if es == [] then 0 else Count(es[0].doc) + CountEntries(es[1..])
  }

  /** Every scalar is copied exactly and nothing lies too deep. */
  ghost predicate Cloneable(d: Doc, depth: nat)
    decreases d
  {
    depth <= MAX_NESTING_DEPTH &&
    match d
    case Atom(s) => CloneScalar(s) == Some(s)
    case List(items) => ItemsCloneable(items, depth + 1)
    case Table(es) => EntriesCloneable(es, depth + 1)
  }

  ghost predicate ItemsCloneable(ds: seq<Doc>, depth: nat)
    decreases ds
  {
    ds == [] || (Cloneable(ds[0], depth) && ItemsCloneable(ds[1..], depth))
  }

  ghost predicate EntriesCloneable(es: seq<Entry>, depth: nat)
    decreases es
  {
    es == [] || (Cloneable(es[0].doc, depth) && EntriesCloneable(es[1..], depth))
  }

  /** Within the depth and node limits the clone is the value, and counts its nodes. */
  lemma {:induction false} CloneExact(d: Doc, depth: nat, nodes: nat)
    requires Cloneable(d, depth) && nodes + Count(d) <= MAX_CLONE_NODES
    ensures Clone(d, depth, nodes) == (Some(Meaning(d)), nodes + Count(d))
    decreases d
  {
    hide CloneScalar;
    match d
    case Atom(_) =>
    case List(items) => CloneItemsExact(items, depth + 1, nodes + 1);
    case Table(es) => CloneEntriesExact(es, depth + 1, nodes + 1, map[]);
  }

  lemma {:induction false} CloneItemsExact(ds: seq<Doc>, depth: nat, nodes: nat)
    requires ItemsCloneable(ds, depth) && nodes + CountItems(ds) <= MAX_CLONE_NODES
    ensures CloneItems(ds, depth, nodes) == (Images(Same(), ds), nodes + CountItems(ds))
    decreases ds
  {
    hide Clone, Cloneable, Image;
    if ds != [] {
      CloneExact(ds[0], depth, nodes);
      CloneItemsExact(ds[1..], depth, nodes + Count(ds[0]));
    }
  }

  lemma {:induction false} CloneEntriesExact(es: seq<Entry>, depth: nat, nodes: nat, acc: map<Bytes, Value>)
    requires EntriesCloneable(es, depth) && nodes + CountEntries(es) <= MAX_CLONE_NODES
    ensures CloneEntries(es, depth, nodes, acc) == (Build(ImagePairs(Same(), es), acc), nodes + CountEntries(es))
    decreases es
  {
    hide Clone, Cloneable, Image;
    if es != [] {
      CloneExact(es[0].doc, depth, nodes);
      var v := Image(Same(), es[0].doc);
      CloneEntriesExact(es[1..], depth, nodes + Count(es[0].doc), Emplace(acc, es[0].key, v));
      var ps := ImagePairs(Same(), es);
      assert ps[1..] == ImagePairs(Same(), es[1..]);
    }
  }

  lemma {:induction false} CloneableAnywhere(d: Doc, a: nat, b: nat)
    requires Cloneable(d, a) && b <= a
    ensures Cloneable(d, b)
    decreases d
  {
    match d
    case Atom(_) =>
    case List(items) => ItemsAnywhere(items, a + 1, b + 1);
    case Table(es) => EntriesAnywhere(es, a + 1, b + 1);
  }

  lemma {:induction false} ItemsAnywhere(ds: seq<Doc>, a: nat, b: nat)
    requires ItemsCloneable(ds, a) && b <= a
    ensures ItemsCloneable(ds, b)
    decreases ds
  {
    if ds != [] {
      CloneableAnywhere(ds[0], a, b);
      ItemsAnywhere(ds[1..], a, b);
    }
  }

  lemma {:induction false} EntriesAnywhere(es: seq<Entry>, a: nat, b: nat)
    requires EntriesCloneable(es, a) && b <= a
    ensures EntriesCloneable(es, b)
    decreases es
  {
    if es != [] {
      CloneableAnywhere(es[0].doc, a, b);
      EntriesAnywhere(es[1..], a, b);
    }
  }

  // ---------- The library's merge ----------

  /** The loop over the members of a patch; None where a value that cannot be cloned would be stored. */
  function MergeEntries(t: map<Bytes, Value>, es: seq<Entry>, depth: nat): (r: Option<map<Bytes, Value>>)
    decreases es, 0
  {
    if es == [] then Some(t)
    else
      match MergeEntry(t, es[0], depth)
      case None => None
      case Some(t') => MergeEntries(t', es[1..], depth)
  }

  function MergeEntry(t: map<Bytes, Value>, e: Entry, depth: nat): (r: Option<map<Bytes, Value>>)
    decreases e
  {
    if e.doc == Atom(Null) then Some(t - {e.key})
    else if e.key in t && t[e.key].Object? && e.doc.Table? then
      (match MergeRecursive(t[e.key].fields, e.doc.entries, depth + 1)
       case None => None
       case Some(m) => Some(t[e.key := Object(m)]))
    else
      (match Clone(e.doc, 0, 0).0 case None => None case Some(v) => Some(t[e.key := v]))
  }

  /** mergePatchRecursive: nothing happens below the nesting limit. */
  function MergeRecursive(t: map<Bytes, Value>, es: seq<Entry>, depth: nat): (r: Option<map<Bytes, Value>>)
    decreases es, 1
  {
    if depth > MAX_NESTING_DEPTH then Some(t) else MergeEntries(t, es, depth)
  }

  /** applyMergePatch: a copy of the document, replaced or merged into. */
  function Apply(target: Doc, patch: Doc): (r: Option<Value>)
  {
    if !patch.Table? then Clone(patch, 0, 0).0
    else
      var copy := Clone(target, 0, 0).0;
      var t := if copy.Some? && copy.value.Object? then copy.value.fields else map[];
      match MergeEntries(t, patch.entries, 0)
      case None => None
      case Some(m) => Some(Object(m))
  }

  // ---------- On values ----------

  const NOTHING: Value := Leaf(Null)

  function At(m: map<Bytes, Value>, k: Bytes): (r: Value)
  {
    if k in m then m[k] else NOTHING
  }

  function Fields(v: Value): (r: map<Bytes, Value>)
  {
    if v.Object? then v.fields else map[]
  }

  /** MergePatch of section 2 of RFC 7396. */
  function Rfc(target: Value, patch: Value): (r: Value)
    decreases patch
  {
    if !patch.Object? then patch
    else
      var t, p := Fields(target), patch.fields;
      Object(map k | k in t.Keys + p.Keys && !(k in p && p[k] == NOTHING)
        :: if k in p then Rfc(At(t, k), p[k]) else t[k])
  }

  /** What the library's loops do: a patch object is merged only into an object, and copied otherwise. */
  function Merged(target: Value, patch: Value): (r: Value)
    decreases patch
  {
    if !patch.Object? then patch
    else
      var t, p := Fields(target), patch.fields;
      Object(map k | k in t.Keys + p.Keys && !(k in p && p[k] == NOTHING)
        :: if k !in p then t[k] else if k in t && t[k].Object? then Merged(t[k], p[k]) else p[k])
  }

  /** No object member anywhere in a chain of objects is null. */
  ghost predicate NullFree(v: Value)
    decreases v
  {
    v.Object? ==> forall k :: k in v.fields ==> v.fields[k] != NOTHING && NullFree(v.fields[k])
  }

  /** Every null member of the patch lies where the target already has objects all the way. */
  ghost predicate Covered(target: Value, patch: Value)
    decreases patch
  {
    patch.Object? ==> forall k :: k in patch.fields ==>
      if k in Fields(target) && Fields(target)[k].Object? then Covered(Fields(target)[k], patch.fields[k])
      else NullFree(patch.fields[k])
  }

  lemma {:induction false} RfcOfNullFree(target: Value, patch: Value)
    requires !target.Object?
    ensures Rfc(target, patch) == patch <==> NullFree(patch)
    decreases patch
  {
    if patch.Object? {
      var r := Rfc(target, patch).fields;
      assert Fields(target) == map[];
      forall k | k in patch.fields ensures Rfc(NOTHING, patch.fields[k]) == patch.fields[k] <==> NullFree(patch.fields[k]) {
        RfcOfNullFree(NOTHING, patch.fields[k]);
      }
      if Rfc(target, patch) == patch {
        forall k | k in patch.fields ensures patch.fields[k] != NOTHING && NullFree(patch.fields[k]) {
          assert k in r && r[k] == patch.fields[k];
        }
      }
      if NullFree(patch) { assert r == patch.fields; }
    }
  }

  /** The library merges as RFC 7396 does exactly when every null member of the patch is covered. */
  lemma {:induction false} MergedIsRfc(target: Value, patch: Value)
    ensures Merged(target, patch) == Rfc(target, patch) <==> Covered(target, patch)
    decreases patch
  {
    if patch.Object? {
      var t, p := Fields(target), patch.fields;
      var a, b := Merged(target, patch).fields, Rfc(target, patch).fields;
      assert a.Keys == b.Keys;
      forall k | k in p && p[k] != NOTHING
        ensures a[k] == b[k] <==> (if k in t && t[k].Object? then Covered(t[k], p[k]) else NullFree(p[k]))
      {
        if k in t && t[k].Object? { MergedIsRfc(t[k], p[k]); } else { RfcOfNullFree(At(t, k), p[k]); }
      }
      if Covered(target, patch) { assert a == b; }
      if a == b {
        forall k | k in p ensures if k in t && t[k].Object? then Covered(t[k], p[k]) else NullFree(p[k]) {
          if p[k] == NOTHING { NothingCovered(At(t, k)); } else { assert a[k] == b[k]; }
        }
      }
    }
  }

  lemma NothingCovered(v: Value)
    ensures Covered(v, NOTHING) && NullFree(NOTHING)
  {
  }

  /** RFC 7396: patching twice is patching once. */
  lemma {:induction false} RfcIdempotent(target: Value, patch: Value)
    ensures Rfc(Rfc(target, patch), patch) == Rfc(target, patch)
    decreases patch
  {
    if patch.Object? {
      var t, p := Fields(target), patch.fields;
      var a := Rfc(target, patch).fields;
      var b := Rfc(Object(a), patch).fields;
      forall k | k in p && p[k] != NOTHING ensures k in a && k in b && b[k] == a[k] {
        RfcIdempotent(At(t, k), p[k]);
      }
      assert a == b;
    }
  }

  lemma {:induction false} MergeNullFree(target: Value, patch: Value)
    requires NullFree(patch) && target == patch
    ensures Merged(target, patch) == patch
    decreases patch
  {
    if patch.Object? {
      forall k | k in patch.fields && patch.fields[k].Object?
        ensures Merged(patch.fields[k], patch.fields[k]) == patch.fields[k]
      {
        MergeNullFree(patch.fields[k], patch.fields[k]);
      }
      assert Merged(target, patch).fields == patch.fields;
    }
  }

  lemma {:induction false} MergeSelf(patch: Value)
    ensures Merged(patch, patch) == patch <==> NullFree(patch)
    decreases patch
  {
    if NullFree(patch) { MergeNullFree(patch, patch); }
    else {
      var a := Merged(patch, patch).fields;
      var k :| k in patch.fields && !(patch.fields[k] != NOTHING && NullFree(patch.fields[k]));
      if patch.fields[k] == NOTHING {
        assert k !in a;
      } else {
        MergeSelf(patch.fields[k]);
        assert a[k] != patch.fields[k];
      }
    }
  }

  /** The library's merge is idempotent exactly when every null member of the patch is covered. */
  lemma {:induction false} MergedIdempotent(target: Value, patch: Value)
    ensures Merged(Merged(target, patch), patch) == Merged(target, patch) <==> Covered(target, patch)
    decreases patch
  {
    if patch.Object? {
      var t, p := Fields(target), patch.fields;
      var a := Merged(target, patch).fields;
      var b := Merged(Object(a), patch).fields;
      assert a.Keys == b.Keys;
      forall k | k in p && p[k] != NOTHING
        ensures b[k] == a[k] <==> (if k in t && t[k].Object? then Covered(t[k], p[k]) else NullFree(p[k]))
      {
        if k in t && t[k].Object? {
          MergedIdempotent(t[k], p[k]);
          MergedKind(t[k], p[k]);
        } else {
          MergeSelf(p[k]);
        }
      }
      if Covered(target, patch) { assert a == b; }
      if a == b {
        forall k | k in p ensures if k in t && t[k].Object? then Covered(t[k], p[k]) else NullFree(p[k]) {
          if p[k] == NOTHING { NothingCovered(At(t, k)); } else { assert a[k] == b[k]; }
        }
      }
    }
  }

  lemma MergedKind(target: Value, patch: Value)
    ensures patch.Object? <==> Merged(target, patch).Object?
    ensures !patch.Object? ==> Covered(target, patch) && NullFree(patch) && Merged(target, patch) == patch
  {
  }

  // ---------- The loops and the values ----------

  lemma FreshKey(qs: seq<(Bytes, Value)>, k: Bytes)
    requires Unique(qs) && forall i :: 0 <= i < |qs| ==> qs[i].0 != k
    ensures k !in Build(qs, map[])
  {
    hide Build;
    BuildStores(qs, map[]);
  }

  lemma BuildFirst(k: Bytes, v: Value, qs: seq<(Bytes, Value)>)
    requires Unique([(k, v)] + qs)
    ensures k !in Build(qs, map[]) && Build([(k, v)] + qs, map[]) == Build(qs, map[])[k := v]
  {
    hide Build;
    var ps := [(k, v)] + qs;
    assert ps[0] == (k, v) && forall i :: 0 <= i < |qs| ==> ps[i + 1] == qs[i];
    FreshKey(qs, k);
    BuildHas(ps);
    BuildHas(qs);
    var m, rest := Build(ps, map[]), Build(qs, map[]);
    assert forall p :: p in ps <==> p == (k, v) || p in qs;
    forall x ensures x in m <==> x == k || x in rest {
      if x in m { assert (x, m[x]) in ps; }
      if x in rest { assert (x, rest[x]) in qs; }
      if x == k { assert (k, v) in ps; }
    }
    forall x | x in m ensures m[x] == rest[k := v][x] { assert (x, m[x]) in ps; }
    assert m == rest[k := v];
  }

  /** The members of an object are its first entry and those of the others. */
  lemma FirstMember(es: seq<Entry>)
    requires es != [] && DistinctKeys(es)
    ensures var m, rest := Meaning(Table(es)).fields, Meaning(Table(es[1..])).fields;
      es[0].key !in rest && m == rest[es[0].key := Meaning(es[0].doc)]
  {
    hide Build, ImagePairs, Image;
    PairsSplit(es);
    KeysKept(Same(), es);
    TableFields(es);
    TableFields(es[1..]);
    BuildFirst(es[0].key, Meaning(es[0].doc), ImagePairs(Same(), es[1..]));
  }

  lemma PairsSplit(es: seq<Entry>)
    requires es != []
    ensures ImagePairs(Same(), es) == [(es[0].key, Meaning(es[0].doc))] + ImagePairs(Same(), es[1..])
  {
    hide Image;
  }

  lemma TableFields(es: seq<Entry>)
    ensures Meaning(Table(es)) == Object(Build(ImagePairs(Same(), es), map[]))
  {
    hide Build, ImagePairs;
  }

  /** Handling one member and then the others is merging them all. */
  lemma MergeFirst(t: map<Bytes, Value>, t': map<Bytes, Value>, k: Bytes, v: Value, rest: map<Bytes, Value>)
    requires k !in rest
    requires v == NOTHING ==> t' == t - {k}
    requires v != NOTHING ==> t' == t[k := if k in t && t[k].Object? then Merged(t[k], v) else v]
    ensures Merged(Object(t'), Object(rest)) == Merged(Object(t), Object(rest[k := v]))
  {
    var a, b := Merged(Object(t'), Object(rest)).fields, Merged(Object(t), Object(rest[k := v])).fields;
    assert a.Keys == b.Keys;
    forall x | x in a ensures a[x] == b[x] { }
    assert a == b;
  }

  lemma NothingMerged(t: map<Bytes, Value>)
    ensures Merged(Object(t), Object(map[])) == Object(t)
  {
    assert Merged(Object(t), Object(map[])).fields == t;
  }

  lemma NullIs(d: Doc)
    ensures Meaning(d) == NOTHING <==> d == Atom(Null)
  {
  }

  lemma ObjectIs(d: Doc)
    ensures Meaning(d).Object? <==> d.Table?
  {
  }

  /** Whatever order the patch enumerates its members in, the loop makes the same merge. */
  lemma {:induction false} LoopMerges(t: map<Bytes, Value>, es: seq<Entry>, depth: nat)
    requires DistinctKeys(es) && EntriesWellFormed(es) && EntriesCloneable(es, depth + 1) && CountEntries(es) < MAX_CLONE_NODES
    ensures MergeEntries(t, es, depth) == Some(Merged(Object(t), Meaning(Table(es))).fields)
    decreases es, 0
  {
    hide Clone, Meaning, Merged, Cloneable, WellFormed, Count, MergeEntry, DistinctKeys;
    if es == [] {
      NoMembers();
      NothingMerged(t);
    } else {
      var e := es[0];
      EntryMerges(t, e, depth);
      FirstMember(es);
      NullIs(e.doc);
      ObjectIs(e.doc);
      LaterDistinct(es);
      var t' := MergeEntry(t, e, depth).value;
      LoopMerges(t', es[1..], depth);
      TableIsObject(es);
      TableIsObject(es[1..]);
      MergeFirst(t, t', e.key, Meaning(e.doc), Meaning(Table(es[1..])).fields);
    }
  }

  lemma NoMembers()
    ensures Meaning(Table([])) == Object(map[])
  {
  }

  lemma LaterDistinct(es: seq<Entry>)
    requires es != [] && DistinctKeys(es)
    ensures DistinctKeys(es[1..])
  {
  }

  lemma TableIsObject(es: seq<Entry>)
    ensures Meaning(Table(es)).Object?
  {
  }

  lemma {:induction false} EntryMerges(t: map<Bytes, Value>, e: Entry, depth: nat)
    requires WellFormed(e.doc) && Cloneable(e.doc, depth + 1) && Count(e.doc) < MAX_CLONE_NODES
    ensures var v := Meaning(e.doc);
      MergeEntry(t, e, depth)
      == Some(if v == NOTHING then t - {e.key}
              else t[e.key := if e.key in t && t[e.key].Object? then Merged(t[e.key], v) else v])
    decreases e, 1
  {
    hide Clone, Meaning, Merged, MergeEntries, EntriesCloneable, EntriesWellFormed, DistinctKeys;
    NullIs(e.doc);
    ObjectIs(e.doc);
    if e.doc == Atom(Null) {
    } else if e.key in t && t[e.key].Object? && e.doc.Table? {
      LoopMerges(t[e.key].fields, e.doc.entries, depth + 1);
      MergedFields(t[e.key], Meaning(e.doc));
    } else {
      CloneableAnywhere(e.doc, depth + 1, 0);
      CloneExact(e.doc, 0, 0);
      if e.key in t && t[e.key].Object? { NotObjectMerged(t[e.key], Meaning(e.doc)); }
    }
  }

  lemma MergedFields(target: Value, patch: Value)
    requires target.Object? && patch.Object?
    ensures Object(target.fields) == target && Object(Merged(target, patch).fields) == Merged(target, patch)
  {
  }

  lemma NotObjectMerged(target: Value, patch: Value)
    requires !patch.Object?
    ensures Merged(target, patch) == patch
  {
  }

  // ---------- Results ----------

  ghost predicate Clonable(d: Doc)
  {
    WellFormed(d) && Cloneable(d, 0) && Count(d) <= MAX_CLONE_NODES
  }

  lemma ApplyMerges(target: Doc, patch: Doc)
    requires Clonable(target) && Clonable(patch)
    ensures Apply(target, patch) == Some(Merged(Meaning(target), Meaning(patch)))
  {
    hide Clone, Merged, MergeEntries, Meaning, EntriesCloneable, EntriesWellFormed, DistinctKeys, CountEntries;
    CloneExact(patch, 0, 0);
    ObjectIs(patch);
    if patch.Table? {
      CloneExact(target, 0, 0);
      var t := Fields(Meaning(target));
      LoopMerges(t, patch.entries, 0);
      SameFields(Meaning(target), Meaning(patch));
    } else {
      NotObjectMerged(Meaning(target), Meaning(patch));
    }
  }

  lemma SameFields(target: Value, patch: Value)
    requires patch.Object?
    ensures Merged(Object(Fields(target)), patch) == Merged(target, patch) && Merged(target, patch).Object?
  {
  }

  /** applyMergePatch is the MergePatch of RFC 7396, and applying it again changes nothing, exactly when every
      null member of the patch lies where the target already has objects. */
  lemma ApplyIsRfc(target: Doc, patch: Doc)
    requires Clonable(target) && Clonable(patch)
    ensures var once := Apply(target, patch);
      && once.Some?
      && (once.value == Rfc(Meaning(target), Meaning(patch)) <==> Covered(Meaning(target), Meaning(patch)))
      && (Merged(once.value, Meaning(patch)) == once.value <==> Covered(Meaning(target), Meaning(patch)))
  {
    hide Apply, Merged, Meaning, Rfc, Covered, Clonable;
    ApplyMerges(target, patch);
    MergedIsRfc(Meaning(target), Meaning(patch));
    MergedIdempotent(Meaning(target), Meaning(patch));
  }

  /** Applying the patch again, to any document that holds the result of the first time. */
  lemma ApplyTwice(target: Doc, patch: Doc, result: Doc)
    requires Clonable(target) && Clonable(patch) && Clonable(result) && Apply(target, patch) == Some(Meaning(result))
    ensures Apply(result, patch) == Apply(target, patch) <==> Covered(Meaning(target), Meaning(patch))
  {
    hide Apply, Merged, Meaning, Rfc, Covered, Clonable;
    ApplyMerges(target, patch);
    ApplyMerges(result, patch);
    MergedIdempotent(Meaning(target), Meaning(patch));
  }

  /** Patching {} with {"a":{"b":null}} stores the patch, null included, where RFC 7396 drops the null. */
  lemma UncoveredNullKept()
    ensures var target, patch := Table([]), Table([Entry([97], Table([Entry([98], Atom(Null))]))]);
      Apply(target, patch) == Some(Meaning(patch))
      && Rfc(Meaning(target), Meaning(patch)) == Object(map[[97] := Object(map[])]) != Meaning(patch)
  {
    hide Apply, Merged, Rfc, Meaning;
    var b, target := Table([Entry([98], Atom(Null))]), Table([]);
    var patch := Table([Entry([97], b)]);
    OneMember([98], Atom(Null));
    OneMember([97], b);
    NoMember();
    PatchClonable();
    ApplyMerges(target, patch);
    NullKept();
    var stored := map[[97] := Object(map[[98] := NOTHING])];
    assert [98] in stored[[97]].fields;
  }

  lemma {:induction false} OneMember(key: Bytes, d: Doc)
    ensures Meaning(Table([Entry(key, d)])) == Object(map[key := Meaning(d)])
  {
    hide Emplace;
    var es, v := [Entry(key, d)], Image(Same(), d);
    assert es[1..] == [];
    assert ImagePairs(Same(), es[1..]) == [];
    var ps := ImagePairs(Same(), es);
    assert ps == [(key, v)] + [];
    assert ps[1..] == [];
    BuildOne(ps, key, v);
  }

  lemma BuildOne(ps: seq<(Bytes, Value)>, key: Bytes, v: Value)
    requires ps == [(key, v)]
    ensures Build(ps, map[]) == map[key := v]
  {
    assert ps[1..] == [];
  }

  lemma NoMember()
    ensures Meaning(Table([])) == Object(map[]) && Meaning(Atom(Null)) == NOTHING
  {
  }

  lemma PatchClonable()
    ensures Clonable(Table([])) && Clonable(Table([Entry([97], Table([Entry([98], Atom(Null))]))]))
  {
    var inner := [Entry([98], Atom(Null))];
    var outer := [Entry([97], Table(inner))];
    assert inner[1..] == [] && outer[1..] == [];
    assert WellFormed(Table(inner)) && Cloneable(Table(inner), 1) && Count(Table(inner)) == 2;
  }

  lemma NullKept()
    ensures var patch := Object(map[[97] := Object(map[[98] := NOTHING])]);
      Merged(Object(map[]), patch) == patch && Rfc(Object(map[]), patch) == Object(map[[97] := Object(map[])])
  {
    var inner := Object(map[[98] := NOTHING]);
    var patch := Object(map[[97] := inner]);
    assert Merged(Object(map[]), patch).fields == patch.fields;
    assert Rfc(NOTHING, inner).fields == map[];
    assert Rfc(Object(map[]), patch).fields == map[[97] := Object(map[])];
  }
}
