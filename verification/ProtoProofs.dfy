/** Which values survive the schema-driven Protobuf encoder and decoder, and as what. */
module ProtoProofs {
  import opened Bytes
  import opened Values
  import opened Proto
  import opened ProtoImage

  // ---------- Matching values ----------

  /** A value of the field's own type, within the decoder's limits. */
  ghost predicate Matches(fp: Foreign, kind: Kind, d: Doc, depth: nat, packed: bool)
    decreases d, 0
  {
    match kind
    case Message(schema) => d.Table? && depth <= MAX_NESTING_DEPTH && EntriesMatch(fp, schema, d.entries, depth + 1)
    case Str => d.Atom? && d.scalar.Text? && !d.scalar.rawNumber && |d.scalar.text| <= MAX_STRING_LEN
    case Blob => d.Atom? && d.scalar.Binary? && |d.scalar.data| <= MAX_STRING_LEN
    case Boolean => d.Atom? && d.scalar.Bool?
    case Double64 => d.Atom? && d.scalar.Double?
    case Single => d.Atom? && d.scalar.Double? && fp.widen(fp.narrow(d.scalar.bits)) == d.scalar.bits
    case Fixed32 =>
      d.Atom? && d.scalar.Int? && (if packed then -0x8000_0000 <= d.scalar.num < 0x8000_0000 else 0 <= d.scalar.num < TWO_32)
    case _ => d.Atom? && d.scalar.Int?
  }

  ghost predicate AllMatch(fp: Foreign, kind: Kind, ds: seq<Doc>, depth: nat, packed: bool)
    decreases ds, 1
  {
    ds == [] || (Matches(fp, kind, ds[0], depth, packed) && AllMatch(fp, kind, ds[1..], depth, packed))
  }

  ghost predicate FieldMatches(fp: Foreign, f: Field, d: Doc, depth: nat)
    decreases d, 2
  {
    if !f.repeated then Matches(fp, f.kind, d, depth, false)
    else if !d.List? then false
    else if f.packed && Packable(f.kind) then
      AllMatch(fp, f.kind, d.items, depth, true) && |ScalarsBytes(fp, f.kind, d.items)| <= MAX_ARRAY_SIZE
    else AllMatch(fp, f.kind, d.items, depth, false)
  }

  ghost predicate EntriesMatch(fp: Foreign, schema: Schema, es: seq<Entry>, depth: nat)
    decreases es, 0
  {
    es == []
    || ((es[0].key in schema.fields ==> FieldMatches(fp, schema.fields[es[0].key], es[0].doc, depth))
        && EntriesMatch(fp, schema, es[1..], depth))
  }

  // ---------- The projection ----------

  function Project(kind: Kind, d: Doc): (r: Value)
    decreases d, 0
  {
    match d
    case Atom(s) => Leaf(s)
    case List(items) => Array(ProjectAll(kind, items))
    case Table(es) => if kind.Message? then Object(ProjectFields(kind.schema, es, map[])) else Meaning(d)
  }

  function ProjectAll(kind: Kind, ds: seq<Doc>): (r: seq<Value>)
    ensures |r| == |ds|
    decreases ds, 1
  {
    if ds == [] then [] else [Project(kind, ds[0])] + ProjectAll(kind, ds[1..])
  }

  /** Members the schema does not name are dropped, and so are empty repeated ones. */
  predicate Dropped(schema: Schema, e: Entry)
  {
    e.key !in schema.fields || (schema.fields[e.key].repeated && e.doc == List([]))
  }

  function ProjectFields(schema: Schema, es: seq<Entry>, obj: map<Bytes, Value>): (r: map<Bytes, Value>)
    decreases es, 1
  {
    if es == [] then obj
    else if Dropped(schema, es[0]) then ProjectFields(schema, es[1..], obj)
    else ProjectFields(schema, es[1..], obj[es[0].key := Project(schema.fields[es[0].key].kind, es[0].doc)])
  }

  // ---------- What survives ----------

  /** A scalar comes back as itself exactly when it matches the kind. */
  lemma ScalarExact(fp: Foreign, kind: Kind, d: Doc, depth: nat, packed: bool)
    requires Packable(kind)
    ensures Leaf(ScalarImage(fp, kind, d, packed)) == Project(kind, d) <==> Matches(fp, kind, d, depth, packed)
  {
    hide Meaning, Image;
    ProjectIs(kind, d);
    if kind.Unsigned64? && d.Atom? && d.scalar.Int? { IntInverse(d.scalar.num); }
  }

  lemma ProjectIs(kind: Kind, d: Doc)
    ensures d.Atom? <==> Project(kind, d).Leaf?
    ensures d.Atom? ==> Project(kind, d) == Leaf(d.scalar)
    ensures d.List? <==> Project(kind, d).Array?
    ensures d.Table? <==> Project(kind, d).Object?
  {
  }

  lemma {:induction false} ScalarsExact(fp: Foreign, kind: Kind, ds: seq<Doc>, depth: nat)
    requires Packable(kind)
    ensures ScalarImages(fp, kind, ds) == ProjectAll(kind, ds) <==> AllMatch(fp, kind, ds, depth, true)
    decreases ds
  {
    hide Matches, Project, ScalarImage;
    if ds != [] {
      ScalarExact(fp, kind, ds[0], depth, true);
      ScalarsExact(fp, kind, ds[1..], depth);
      FirstAndRest(Leaf(ScalarImage(fp, kind, ds[0], true)), ScalarImages(fp, kind, ds[1..]),
                   Project(kind, ds[0]), ProjectAll(kind, ds[1..]));
    }
  }

  lemma FirstAndRest(a: Value, s: seq<Value>, b: Value, t: seq<Value>)
    ensures [a] + s == [b] + t <==> a == b && s == t
  {
    assert ([a] + s)[0] == a && ([a] + s)[1..] == s && ([b] + t)[0] == b && ([b] + t)[1..] == t;
  }

  /** A value comes back as what the schema keeps of it exactly when it matches the kind. */
  lemma {:induction false} ValueExact(fp: Foreign, kind: Kind, d: Doc, depth: nat)
    requires !kind.Bare? && WellFormed(d) && (kind.Message? ==> SchemaOk(kind.schema))
    ensures ValueImage(fp, kind, d, depth) == Back(Project(kind, d)) <==> Matches(fp, kind, d, depth, false)
    decreases d, 1
  {
    hide ScalarImage, FieldsImage, EntriesMatch, ProjectFields, Meaning, Image, SchemaOk, WellFormed, DistinctKeys;
    ProjectIs(kind, d);
    if Packable(kind) {
      ScalarExact(fp, kind, d, depth, false);
    } else if kind.Message? && d.Table? {
      TableParts(d);
      FieldsExact(fp, kind.schema, d.entries, depth, map[]);
    }
  }

  lemma TableParts(d: Doc)
    requires d.Table? && WellFormed(d)
    ensures DistinctKeys(d.entries) && EntriesWellFormed(d.entries)
  {
  }

  // ---------- Elements ----------

  /** An object with more elements in one of its arrays. */
  function Collected(obj: map<Bytes, Value>, name: Bytes, vs: seq<Value>): (r: map<Bytes, Value>)
  {
    if name in obj && obj[name].Array? then obj[name := Array(obj[name].items + vs)] else obj[name := Array(vs)]
  }

  lemma StoreCollects(obj: map<Bytes, Value>, name: Bytes, val: Value)
    requires name != [] && (name in obj ==> obj[name].Array?)
    ensures Store(obj, name, true, val) == Collected(obj, name, if val.Array? then val.items else [val])
  {
  }

  lemma CollectedTwice(obj: map<Bytes, Value>, name: Bytes, a: seq<Value>, b: seq<Value>)
    ensures Collected(Collected(obj, name, a), name, b) == Collected(obj, name, a + b)
  {
    if name in obj && obj[name].Array? { assert obj[name].items + a + b == obj[name].items + (a + b); }
  }

  lemma CollectedArray(obj: map<Bytes, Value>, name: Bytes, vs: seq<Value>)
    ensures name in Collected(obj, name, vs) && Collected(obj, name, vs)[name].Array?
  {
  }

  /** The values that are stored before the elements end or stop being readable. */
  function ElementValues(fp: Foreign, kind: Kind, ds: seq<Doc>, depth: nat): (r: seq<Value>)
    requires !kind.Bare?
  {
    if ds == [] || !ValueImage(fp, kind, ds[0], depth + 1).Back? then []
    else [ValueImage(fp, kind, ds[0], depth + 1).value] + ElementValues(fp, kind, ds[1..], depth)
  }

  function CollectedAll(obj: map<Bytes, Value>, name: Bytes, vs: seq<Value>): (r: map<Bytes, Value>)
  {
    if vs == [] then obj else Collected(obj, name, vs)
  }

  function Result(run: Run): (r: map<Bytes, Value>)
    requires !run.Failed?
  {
    if run.Going? then run.obj else run.last
  }

  /** Elements one by one are collected in order. */
  lemma {:induction false} ElementsCollected(fp: Foreign, name: Bytes, f: Field, ds: seq<Doc>, depth: nat, obj: map<Bytes, Value>)
    requires !f.kind.Bare? && f.repeated && name != [] && (name in obj ==> obj[name].Array?)
    ensures var run := ElementsImage(fp, name, f, ds, depth, obj);
      !run.Failed? ==> Result(run) == CollectedAll(obj, name, ElementValues(fp, f.kind, ds, depth))
    decreases ds
  {
    hide ValueImage, Store, Collected;
    if ds != [] && ValueImage(fp, f.kind, ds[0], depth + 1).Back? {
      var v, vs := ValueImage(fp, f.kind, ds[0], depth + 1).value, ElementValues(fp, f.kind, ds[1..], depth);
      StoreCollects(obj, name, v);
      CollectedArray(obj, name, [v]);
      ElementsCollected(fp, name, f, ds[1..], depth, Collected(obj, name, [v]));
      CollectedTwice(obj, name, [v], vs);
      if vs == [] { assert [v] + vs == [v]; }
    }
  }

  /** All elements are stored as what the schema keeps of them exactly when they all match. */
  lemma {:induction false} ElementsExact(fp: Foreign, name: Bytes, f: Field, ds: seq<Doc>, depth: nat, obj: map<Bytes, Value>)
    requires !f.kind.Bare? && AllWellFormed(ds) && (f.kind.Message? ==> SchemaOk(f.kind.schema))
    ensures var run, vs := ElementsImage(fp, name, f, ds, depth, obj), ElementValues(fp, f.kind, ds, depth);
      if AllMatch(fp, f.kind, ds, depth + 1, false) then run.Going? && vs == ProjectAll(f.kind, ds)
      else run.Failed? || vs != ProjectAll(f.kind, ds)
    decreases ds, 2
  {
    hide ValueImage, Store, Matches, Project, SchemaOk, WellFormed;
    if ds != [] {
      ValueExact(fp, f.kind, ds[0], depth + 1);
      var r := ValueImage(fp, f.kind, ds[0], depth + 1);
      if r.Back? {
        ElementsExact(fp, name, f, ds[1..], depth, Store(obj, name, f.repeated, r.value));
        FirstAndRest(r.value, ElementValues(fp, f.kind, ds[1..], depth), Project(f.kind, ds[0]), ProjectAll(f.kind, ds[1..]));
      }
    }
  }

  // ---------- Fields ----------

  /** Two objects that may differ in one member only. */
  ghost predicate Off(a: map<Bytes, Value>, b: map<Bytes, Value>, name: Bytes)
  {
    forall k :: k != name ==> (k in a <==> k in b) && (k in a ==> a[k] == b[k])
  }

  lemma StoreOff(obj: map<Bytes, Value>, name: Bytes, repeated: bool, val: Value)
    ensures Off(Store(obj, name, repeated, val), obj, name)
  {
  }

  lemma {:induction false} ElementsOff(fp: Foreign, name: Bytes, f: Field, ds: seq<Doc>, depth: nat, obj: map<Bytes, Value>)
    requires !f.kind.Bare?
    ensures var run := ElementsImage(fp, name, f, ds, depth, obj); !run.Failed? ==> Off(Result(run), obj, name)
    decreases ds
  {
    hide ValueImage, Store;
    if ds != [] {
      var r := ValueImage(fp, f.kind, ds[0], depth + 1);
      if r.Back? {
        StoreOff(obj, name, f.repeated, r.value);
        ElementsOff(fp, name, f, ds[1..], depth, Store(obj, name, f.repeated, r.value));
      }
    }
  }

  /** A field touches the member of its own name only. */
  lemma FieldOff(fp: Foreign, name: Bytes, f: Field, d: Doc, depth: nat, obj: map<Bytes, Value>)
    requires !f.kind.Bare?
    ensures var run := FieldImage(fp, name, f, d, depth, obj); !run.Failed? ==> Off(Result(run), obj, name)
  {
    hide ValueImage, Store, ElementsImage, ScalarImages, Off;
    if f.repeated && d.List? {
      ElementsOff(fp, name, f, d.items, depth, obj);
      if Packable(f.kind) { StoreOff(obj, name, true, Array(ScalarImages(fp, f.kind, d.items))); }
    } else {
      var r := ValueImage(fp, f.kind, d, depth + 1);
      if r.Back? { StoreOff(obj, name, f.repeated, r.value); }
    }
    OffItself(obj, name);
  }

  lemma OffItself(obj: map<Bytes, Value>, name: Bytes)
    ensures Off(obj, obj, name)
  {
  }

  /** A field that was not there is stored as what the schema keeps of it exactly when it matches; otherwise the decoder
      throws, or the member is missing or something else. */
  ghost predicate FieldKept(run: Run, obj: map<Bytes, Value>, name: Bytes, empty: bool, v: Value, kept: bool)
  {
    if kept then run == Going(if empty then obj else obj[name := v])
    else run.Failed? || name !in Result(run) || Result(run)[name] != v
  }

  lemma {:induction false} FieldExact(fp: Foreign, name: Bytes, f: Field, d: Doc, depth: nat, obj: map<Bytes, Value>)
    requires !f.kind.Bare? && name != [] && name !in obj && WellFormed(d) && (f.kind.Message? ==> SchemaOk(f.kind.schema))
    ensures FieldKept(FieldImage(fp, name, f, d, depth, obj), obj, name, f.repeated && d == List([]), Project(f.kind, d),
                      FieldMatches(fp, f, d, depth + 1))
    decreases d, 3
  {
    hide ValueImage, ElementsImage, ScalarImages, ElementValues, Matches, AllMatch, ScalarsBytes, ProjectAll, SchemaOk;
    ProjectIs(f.kind, d);
    if f.repeated && d.List? {
      if f.packed && Packable(f.kind) && d.items != [] {
        ScalarsExact(fp, f.kind, d.items, depth + 1);
      } else {
        if d.items == [] { NoElements(fp, f.kind, depth + 1); }
        SomeProjected(f.kind, d.items);
        ElementsCollected(fp, name, f, d.items, depth, obj);
        ElementsExact(fp, name, f, d.items, depth, obj);
      }
    } else {
      ValueExact(fp, f.kind, d, depth + 1);
    }
  }

  lemma NoElements(fp: Foreign, kind: Kind, depth: nat)
    ensures forall packed :: AllMatch(fp, kind, [], depth, packed)
    ensures Packable(kind) ==> ScalarsBytes(fp, kind, []) == []
  {
  }

  lemma SomeProjected(kind: Kind, ds: seq<Doc>)
    ensures ProjectAll(kind, ds) == [] <==> ds == []
  {
  }

  /** Members of other names stay as they are. */
  lemma {:induction false} FieldsOff(fp: Foreign, schema: Schema, es: seq<Entry>, depth: nat, obj: map<Bytes, Value>, k: Bytes)
    requires forall i :: 0 <= i < |es| ==> es[i].key != k
    ensures var r := FieldsImage(fp, schema, es, depth, obj);
      r.Some? ==> (k in r.value <==> k in obj) && (k in obj ==> r.value[k] == obj[k])
    decreases es
  {
    hide FieldImage;
    if es != [] {
      var e := es[0];
      assert forall i :: 0 <= i < |es[1..]| ==> es[1..][i] == es[i + 1];
      if e.key !in schema.fields || schema.fields[e.key].kind.Bare? {
        FieldsOff(fp, schema, es[1..], depth, obj, k);
      } else {
        FieldOff(fp, e.key, schema.fields[e.key], e.doc, depth, obj);
        var run := FieldImage(fp, e.key, schema.fields[e.key], e.doc, depth, obj);
        if run.Going? { FieldsOff(fp, schema, es[1..], depth, run.obj, k); }
      }
    }
  }

  /** A message comes back as what the schema keeps of it exactly when every field the schema names matches. */
  lemma {:induction false} FieldsExact(fp: Foreign, schema: Schema, es: seq<Entry>, depth: nat, obj: map<Bytes, Value>)
    requires SchemaOk(schema) && EntriesWellFormed(es) && DistinctKeys(es)
    requires forall i :: 0 <= i < |es| ==> es[i].key !in obj
    ensures FieldsImage(fp, schema, es, depth, obj) == Some(ProjectFields(schema, es, obj))
       <==> EntriesMatch(fp, schema, es, depth + 1)
    decreases es, 3
  {
    hide FieldImage, FieldMatches, Project, SchemaOk, WellFormed, DistinctKeys, ProjectFields;
    ProjectFieldsStep(schema, es, obj);
    if es != [] {
      var e := es[0];
      var obj' := if Dropped(schema, e) then obj else obj[e.key := Project(schema.fields[e.key].kind, e.doc)];
      LaterKeys(es, obj, obj');
      if e.key !in schema.fields {
        FieldsExact(fp, schema, es[1..], depth, obj);
      } else {
        var f := schema.fields[e.key];
        FieldUsable(schema, e.key);
        MessageUsable(schema, e.key);
        FieldExact(fp, e.key, f, e.doc, depth, obj);
        if FieldMatches(fp, f, e.doc, depth + 1) { FieldsExact(fp, schema, es[1..], depth, obj'); }
        else { FieldLost(fp, schema, es, depth, obj); }
      }
    }
  }

  lemma MessageUsable(schema: Schema, name: Bytes)
    requires SchemaOk(schema) && name in schema.fields
    ensures schema.fields[name].kind.Message? ==> SchemaOk(schema.fields[name].kind.schema)
  {
  }

  /** Once a field is lost, the message is not what the schema keeps of it. */
  lemma FieldLost(fp: Foreign, schema: Schema, es: seq<Entry>, depth: nat, obj: map<Bytes, Value>)
    requires es != [] && DistinctKeys(es) && forall i :: 0 <= i < |es| ==> es[i].key !in obj
    requires es[0].key in schema.fields && !schema.fields[es[0].key].kind.Bare?
    requires !FieldMatches(fp, schema.fields[es[0].key], es[0].doc, depth + 1)
    requires var f := schema.fields[es[0].key];
      FieldKept(FieldImage(fp, es[0].key, f, es[0].doc, depth, obj), obj, es[0].key, f.repeated && es[0].doc == List([]),
                Project(f.kind, es[0].doc), false)
    ensures FieldsImage(fp, schema, es, depth, obj) != Some(ProjectFields(schema, es, obj))
  {
    hide FieldImage, Project, ProjectFields, Matches, AllMatch, ScalarsBytes;
    var key, f := es[0].key, schema.fields[es[0].key];
    NoElements(fp, f.kind, depth + 1);
    ProjectedMembers(schema, es, obj);
    var run := FieldImage(fp, key, f, es[0].doc, depth, obj);
    if run.Going? {
      assert forall i :: 0 <= i < |es[1..]| ==> es[1..][i] == es[i + 1];
      FieldsOff(fp, schema, es[1..], depth, run.obj, key);
    }
  }

  lemma ProjectFieldsStep(schema: Schema, es: seq<Entry>, obj: map<Bytes, Value>)
    ensures es == [] ==> ProjectFields(schema, es, obj) == obj
    ensures es != [] && Dropped(schema, es[0]) ==>
      ProjectFields(schema, es, obj) == ProjectFields(schema, es[1..], obj)
    ensures es != [] && !Dropped(schema, es[0]) ==>
      es[0].key in schema.fields && ProjectFields(schema, es, obj)
         == ProjectFields(schema, es[1..], obj[es[0].key := Project(schema.fields[es[0].key].kind, es[0].doc)])
  {
    hide Project;
  }

  lemma LaterKeys(es: seq<Entry>, obj: map<Bytes, Value>, obj': map<Bytes, Value>)
    requires es != [] && DistinctKeys(es) && forall i :: 0 <= i < |es| ==> es[i].key !in obj
    requires obj' == obj || (es[0].key in obj' && obj' == obj[es[0].key := obj'[es[0].key]])
    ensures DistinctKeys(es[1..]) && forall i :: 0 <= i < |es[1..]| ==> es[1..][i].key !in obj'
  {
  }

  /** protoDecodeRoot after protoEncodeRoot: the value restricted to the schema, exactly when every field the schema
      names, at every level, holds a value of its own type within the limits. */
  lemma RootRoundTrip(fp: Foreign, schema: Schema, es: seq<Entry>)
    requires SchemaOk(schema) && WellFormed(Table(es)) && |EncodeMessage(fp, schema, es)| < TWO_63
    ensures DecodeRoot(fp, EncodeMessage(fp, schema, es), schema) == Some(Restrict(schema, Meaning(Table(es)).fields))
       <==> EntriesMatch(fp, schema, es, 1)
  {
    hide EncodeMessage, DecodeFields, EntriesMatch, SchemaOk, ProjectFields, Restrict, FieldsImage;
    var data := EncodeMessage(fp, schema, es);
    assert data[0..0 + |data|] == data;
    FieldsRead(fp, schema, es, data, |data|, 0, 0, true, map[]);
    FieldsExact(fp, schema, es, 0, map[]);
    ProjectionIsRestriction(schema, es);
  }

  /** Whatever is written, it is read as its image. */
  lemma RootRead(fp: Foreign, schema: Schema, es: seq<Entry>)
    requires SchemaOk(schema) && |EncodeMessage(fp, schema, es)| < TWO_63
    ensures DecodeRoot(fp, EncodeMessage(fp, schema, es), schema) == FieldsImage(fp, schema, es, 0, map[])
  {
    hide EncodeMessage, DecodeFields, SchemaOk, FieldsImage;
    var data := EncodeMessage(fp, schema, es);
    assert data[0..0 + |data|] == data;
    FieldsRead(fp, schema, es, data, |data|, 0, 0, true, map[]);
  }

  // ---------- Repeated fields, in segments ----------

  /** A stretch of a repeated field: several elements packed together, or one on its own. */
  datatype Segment = Packed(elements: seq<Doc>) | Alone(element: Doc)

  function SegmentBytes(fp: Foreign, f: Field, s: Segment): (r: Bytes)
    requires Packable(f.kind)
  {
    match s
    case Packed(ds) => Tag(f.number, 2) + Counted(ScalarsBytes(fp, f.kind, ds))
    case Alone(d) => TaggedBytes(fp, f, d)
  }

  function SegmentsBytes(fp: Foreign, f: Field, ss: seq<Segment>): (r: Bytes)
    requires Packable(f.kind)
  {
    if ss == [] then [] else SegmentBytes(fp, f, ss[0]) + SegmentsBytes(fp, f, ss[1..])
  }

  /** What the elements of a stretch come back as. */
  function SegmentImage(fp: Foreign, kind: Kind, s: Segment): (r: seq<Value>)
    requires Packable(kind)
  {
    match s
    case Packed(ds) => ScalarImages(fp, kind, ds)
    case Alone(d) => [Leaf(ScalarImage(fp, kind, d, false))]
  }

  function SegmentImages(fp: Foreign, kind: Kind, ss: seq<Segment>): (r: seq<Value>)
    requires Packable(kind)
  {
    if ss == [] then [] else SegmentImage(fp, kind, ss[0]) + SegmentImages(fp, kind, ss[1..])
  }

  /** The elements in order, however they are grouped. */
  function Elements(ss: seq<Segment>): (r: seq<Doc>)
  {
    if ss == [] then []
    else (match ss[0] case Packed(ds) => ds case Alone(d) => [d]) + Elements(ss[1..])
  }

  predicate ShortEnough(fp: Foreign, kind: Kind, s: Segment)
    requires Packable(kind)
  {
    s.Packed? ==> |ScalarsBytes(fp, kind, s.elements)| <= MAX_ARRAY_SIZE
  }

  ghost predicate SegmentMatches(fp: Foreign, kind: Kind, s: Segment)
    requires Packable(kind)
  {
    match s
    case Packed(ds) => AllMatch(fp, kind, ds, 0, true)
    case Alone(d) => Matches(fp, kind, d, 0, false)
  }

  /** Any sequence of packed and single stretches of one repeated field appends the images of its elements in order. */
  lemma {:induction false} SegmentsRead(fp: Foreign, schema: Schema, name: Bytes, ss: seq<Segment>, data: Bytes, size: nat,
                                        pos: nat, depth: nat, root: bool, obj: map<Bytes, Value>)
    requires SchemaOk(schema) && name in schema.fields && schema.fields[name].repeated && Unpacks(schema.fields[name].kind)
    requires forall s :: s in ss ==> ShortEnough(fp, schema.fields[name].kind, s)
    requires (name in obj ==> obj[name].Array?) && size <= |data| < TWO_63
    requires var chunk := SegmentsBytes(fp, schema.fields[name], ss); At(data, pos, chunk) && pos + |chunk| <= size
    ensures var f := schema.fields[name];
      DecodeFields(fp, data, size, pos, schema, depth, root, obj)
      == DecodeFields(fp, data, size, pos + |SegmentsBytes(fp, f, ss)|, schema, depth, root,
                      if ss == [] then obj else Collected(obj, name, SegmentImages(fp, f.kind, ss)))
    decreases ss
  {
    hide DecodeFields, Store, ShortEnough, SegmentBytes, Collected, SegmentImage, SchemaOk;
    if ss != [] {
      assert ss[0] in ss && forall s :: s in ss[1..] ==> s in ss;
      var f := schema.fields[name];
      var chunk, vs := SegmentBytes(fp, f, ss[0]), SegmentImage(fp, f.kind, ss[0]);
      AtSplit(data, pos, chunk, SegmentsBytes(fp, f, ss[1..]));
      SegmentRead(fp, schema, name, ss[0], data, size, pos, depth, root, obj);
      CollectedArray(obj, name, vs);
      SegmentsRead(fp, schema, name, ss[1..], data, size, pos + |chunk|, depth, root, Collected(obj, name, vs));
      CollectedTwice(obj, name, vs, SegmentImages(fp, f.kind, ss[1..]));
      if |ss| == 1 {
        assert ss[1..] == [];
        assert vs + [] == vs;
      }
    }
  }

  lemma SegmentRead(fp: Foreign, schema: Schema, name: Bytes, s: Segment, data: Bytes, size: nat, pos: nat,
                    depth: nat, root: bool, obj: map<Bytes, Value>)
    requires SchemaOk(schema) && name in schema.fields && schema.fields[name].repeated && Unpacks(schema.fields[name].kind)
    requires ShortEnough(fp, schema.fields[name].kind, s) && (name in obj ==> obj[name].Array?) && size <= |data| < TWO_63
    requires var chunk := SegmentBytes(fp, schema.fields[name], s); At(data, pos, chunk) && pos + |chunk| <= size
    ensures var f := schema.fields[name];
      DecodeFields(fp, data, size, pos, schema, depth, root, obj)
      == DecodeFields(fp, data, size, pos + |SegmentBytes(fp, f, s)|, schema, depth, root,
                      Collected(obj, name, SegmentImage(fp, f.kind, s)))
  {
    hide DecodeFields, Store, Collected, ScalarImages, ScalarImage, TaggedBytes, SchemaOk, ScalarsBytes;
    var f := schema.fields[name];
    FieldUsable(schema, name);
    match s
    case Packed(ds) =>
      PackedFollows(fp, schema, name, ds, data, size, pos, depth, root, obj);
      StoreCollects(obj, name, Array(ScalarImages(fp, f.kind, ds)));
    case Alone(d) =>
      TaggedFollows(fp, schema, name, d, data, size, pos, depth, root, obj);
      StoreCollects(obj, name, Leaf(ScalarImage(fp, f.kind, d, false)));
  }

  /** Except for 32-bit fixed fields, how the elements are grouped makes no difference to what they come back as. */
  lemma {:induction false} GroupingFree(fp: Foreign, kind: Kind, ss: seq<Segment>)
    requires Packable(kind) && kind != Fixed32
    ensures SegmentImages(fp, kind, ss) == ScalarImages(fp, kind, Elements(ss))
    decreases ss
  {
    hide IntOf, UnsignedOf, DoubleOf, PlainOf;
    if ss != [] {
      GroupingFree(fp, kind, ss[1..]);
      var ds := if ss[0].Packed? then ss[0].elements else [ss[0].element];
      if ss[0].Alone? { assert ds[1..] == []; }
      ImagesJoin(fp, kind, ds, Elements(ss[1..]));
    }
  }

  lemma {:induction false} ImagesJoin(fp: Foreign, kind: Kind, a: seq<Doc>, b: seq<Doc>)
    requires Packable(kind)
    ensures ScalarImages(fp, kind, a + b) == ScalarImages(fp, kind, a) + ScalarImages(fp, kind, b)
    decreases a
  {
    hide ScalarImage;
    if a == [] {
      assert a + b == b;
    } else {
      ImagesJoin(fp, kind, a[1..], b);
      assert (a + b)[1..] == a[1..] + b;
    }
  }

  /** For every kind, the elements come back as themselves exactly when each matches the kind in the stretch it is in. */
  lemma {:induction false} SegmentsExact(fp: Foreign, kind: Kind, ss: seq<Segment>)
    requires Packable(kind)
    ensures SegmentImages(fp, kind, ss) == ProjectAll(kind, Elements(ss)) <==> forall s :: s in ss ==> SegmentMatches(fp, kind, s)
    decreases ss
  {
    hide ScalarImages, ScalarImage, Project, AllMatch, Matches, SegmentMatches;
    if ss != [] {
      var s, rest := ss[0], ss[1..];
      var ds := if s.Packed? then s.elements else [s.element];
      SegmentsExact(fp, kind, rest);
      SegmentExact(fp, kind, s, ds);
      ProjectJoin(kind, ds, Elements(rest));
      SameHalves(SegmentImage(fp, kind, s), SegmentImages(fp, kind, rest), ProjectAll(kind, ds), ProjectAll(kind, Elements(rest)));
      assert ss == [s] + rest;
    }
  }

  lemma SegmentExact(fp: Foreign, kind: Kind, s: Segment, ds: seq<Doc>)
    requires Packable(kind) && ds == (if s.Packed? then s.elements else [s.element])
    ensures SegmentImage(fp, kind, s) == ProjectAll(kind, ds) <==> SegmentMatches(fp, kind, s)
    ensures |SegmentImage(fp, kind, s)| == |ds|
  {
    hide Project, ScalarImage, Matches;
    match s
    case Packed(_) => ScalarsExact(fp, kind, ds, 0);
    case Alone(d) =>
      ScalarExact(fp, kind, d, 0, false);
      assert ds[1..] == [];
      FirstAndRest(Leaf(ScalarImage(fp, kind, d, false)), [], Project(kind, d), []);
      assert SegmentImage(fp, kind, s) == [Leaf(ScalarImage(fp, kind, d, false))] + [];
      assert ProjectAll(kind, ds) == [Project(kind, d)] + [];
  }

  lemma SameHalves(a: seq<Value>, b: seq<Value>, c: seq<Value>, d: seq<Value>)
    requires |a| == |c|
    ensures a + b == c + d <==> a == c && b == d
  {
    assert (a + b)[..|a|] == a && (a + b)[|a|..] == b && (c + d)[..|a|] == c && (c + d)[|a|..] == d;
  }

  lemma {:induction false} ProjectJoin(kind: Kind, a: seq<Doc>, b: seq<Doc>)
    ensures ProjectAll(kind, a + b) == ProjectAll(kind, a) + ProjectAll(kind, b)
    decreases a
  {
    hide Project;
    if a == [] {
      assert a + b == b;
    } else {
      ProjectJoin(kind, a[1..], b);
      assert (a + b)[1..] == a[1..] + b;
    }
  }

  // ---------- The projection as a restriction of the value ----------

  /** A value with only what the schema names: unknown members and empty repeated ones left out, at every level. */
  function Restrict(schema: Schema, m: map<Bytes, Value>): (r: map<Bytes, Value>)
    decreases schema, 1
  {
    map k | k in m && k in schema.fields && !(schema.fields[k].repeated && m[k] == Array([]))
      :: RestrictValue(schema.fields[k], m[k])
  }

  function RestrictValue(f: Field, v: Value): (r: Value)
    decreases f, 0, v
  {
    if f.kind.Message? then
      if v.Object? then Object(Restrict(f.kind.schema, v.fields))
      else if v.Array? then Array(RestrictAll(f, v.items))
      else v
    else v
  }

  function RestrictAll(f: Field, vs: seq<Value>): (r: seq<Value>)
    ensures |r| == |vs|
    decreases f, 0, vs
  {
    if vs == [] then [] else [RestrictValue(f, vs[0])] + RestrictAll(f, vs[1..])
  }

  lemma {:induction false} ValueRestricted(f: Field, d: Doc)
    requires WellFormed(d)
    ensures Project(f.kind, d) == RestrictValue(f, Meaning(d))
    decreases d, 0
  {
    hide ProjectFields, Restrict, Build, ImagePairs, ProjectAll, Images, RestrictAll;
    match d
    case Atom(_) =>
    case List(items) => ItemsRestricted(f, items);
    case Table(es) => if f.kind.Message? { ProjectionIsRestriction(f.kind.schema, es); }
  }

  lemma {:induction false} ItemsRestricted(f: Field, ds: seq<Doc>)
    requires AllWellFormed(ds)
    ensures ProjectAll(f.kind, ds) == (if f.kind.Message? then RestrictAll(f, Images(Same(), ds)) else Images(Same(), ds))
    decreases ds, 1
  {
    hide Project, Image;
    if ds != [] {
      ValueRestricted(f, ds[0]);
      ItemsRestricted(f, ds[1..]);
      MeaningIs(ds[0]);
      var vs := Images(Same(), ds);
      assert vs[0] == Meaning(ds[0]) && vs[1..] == Images(Same(), ds[1..]);
      if !f.kind.Message? { ScalarRestricted(f, Meaning(ds[0])); }
    }
  }

  lemma ScalarRestricted(f: Field, v: Value)
    requires !f.kind.Message?
    ensures RestrictValue(f, v) == v
  {
  }

  lemma MeaningIs(d: Doc)
    ensures Meaning(d) == Image(Same(), d)
    ensures d.List? ==> Meaning(d) == Array(Images(Same(), d.items))
    ensures d == List([]) <==> Meaning(d) == Array([])
  {
  }

  ghost predicate EntryRestricted(schema: Schema, e: Entry)
  {
    e.key in schema.fields ==>
      Project(schema.fields[e.key].kind, e.doc) == RestrictValue(schema.fields[e.key], Meaning(e.doc))
  }

  lemma {:induction false} EntriesRestricted(schema: Schema, es: seq<Entry>)
    requires EntriesWellFormed(es)
    ensures forall i :: 0 <= i < |es| ==> EntryRestricted(schema, es[i])
    decreases es, 3
  {
    hide Project, RestrictValue, Meaning;
    if es != [] {
      if es[0].key in schema.fields { ValueRestricted(schema.fields[es[0].key], es[0].doc); }
      EntriesRestricted(schema, es[1..]);
      forall i | 0 <= i < |es| ensures EntryRestricted(schema, es[i]) {
        if i > 0 { assert es[i] == es[1..][i - 1]; }
      }
    }
  }

  /** The members of a projection: those not dropped, each projected. */
  lemma {:induction false} ProjectedMembers(schema: Schema, es: seq<Entry>, obj: map<Bytes, Value>)
    requires DistinctKeys(es) && forall i :: 0 <= i < |es| ==> es[i].key !in obj
    ensures var m := ProjectFields(schema, es, obj);
      && (forall k :: k in obj ==> k in m && m[k] == obj[k])
      && (forall i :: 0 <= i < |es| ==> (es[i].key in m <==> !Dropped(schema, es[i])))
      && (forall i :: 0 <= i < |es| && !Dropped(schema, es[i]) ==>
            m[es[i].key] == Project(schema.fields[es[i].key].kind, es[i].doc))
      && (forall k :: k in m ==> k in obj || exists i :: 0 <= i < |es| && es[i].key == k)
    decreases es
  {
    hide Project, Dropped;
    if es != [] {
      var obj' := if Dropped(schema, es[0]) then obj
                  else (DroppedUnknown(schema, es[0]); obj[es[0].key := Project(schema.fields[es[0].key].kind, es[0].doc)]);
      LaterKeys(es, obj, obj');
      ProjectedMembers(schema, es[1..], obj');
      assert forall i :: 1 <= i < |es| ==> es[i] == es[1..][i - 1];
      var m := ProjectFields(schema, es, obj);
      assert m == ProjectFields(schema, es[1..], obj');
      assert forall i :: 0 <= i < |es[1..]| ==> es[1..][i].key != es[0].key;
      forall k | k in m ensures k in obj || exists i :: 0 <= i < |es| && es[i].key == k {
        if k !in obj && k != es[0].key {
          var i :| 0 <= i < |es[1..]| && es[1..][i].key == k;
          assert es[i + 1].key == k;
        }
      }
    }
  }

  lemma DroppedUnknown(schema: Schema, e: Entry)
    requires !Dropped(schema, e)
    ensures e.key in schema.fields
  {
  }

  /** The members of a document, by their keys. */
  lemma WholeMembers(es: seq<Entry>)
    requires EntriesWellFormed(es) && DistinctKeys(es)
    ensures var whole := Build(ImagePairs(Same(), es), map[]);
      && (forall i :: 0 <= i < |es| ==> es[i].key in whole && whole[es[i].key] == Meaning(es[i].doc))
      && (forall k :: k in whole ==> exists i :: 0 <= i < |es| && es[i].key == k)
  {
    hide Image, ImagePairs, Build, Meaning;
    var ps := ImagePairs(Same(), es);
    PairsAt(es);
    BuildStores(ps, map[]);
    var whole := Build(ps, map[]);
    forall i | 0 <= i < |es| ensures es[i].key in whole && whole[es[i].key] == Meaning(es[i].doc) {
      assert ps[i].0 in whole;
    }
    forall k | k in whole ensures exists i :: 0 <= i < |es| && es[i].key == k {
      var i :| 0 <= i < |ps| && ps[i].0 == k;
      assert es[i].key == k;
    }
  }

  lemma {:induction false} ProjectionIsRestriction(schema: Schema, es: seq<Entry>)
    requires EntriesWellFormed(es) && DistinctKeys(es)
    ensures ProjectFields(schema, es, map[]) == Restrict(schema, Build(ImagePairs(Same(), es), map[]))
    decreases es, 4
  {
    hide ProjectFields, Project, RestrictValue, Image, ImagePairs, Build, Meaning, EntriesWellFormed, DistinctKeys;
    var m, whole := ProjectFields(schema, es, map[]), Build(ImagePairs(Same(), es), map[]);
    EntriesRestricted(schema, es);
    ProjectedMembers(schema, es, map[]);
    WholeMembers(es);
    var r := Restrict(schema, whole);
    forall i | 0 <= i < |es|
      ensures es[i].key in r <==> !Dropped(schema, es[i])
      ensures es[i].key in r ==> r[es[i].key] == m[es[i].key]
    {
      MeaningIs(es[i].doc);
      assert EntryRestricted(schema, es[i]);
    }
    forall k ensures k in m <==> k in r {
      if k in m || k in r { var i :| 0 <= i < |es| && es[i].key == k; }
    }
    forall k | k in m ensures m[k] == r[k] {
      var i :| 0 <= i < |es| && es[i].key == k;
    }
    assert m == r;
  }

  lemma {:induction false} PairsAt(es: seq<Entry>)
    ensures forall i :: 0 <= i < |es| ==> ImagePairs(Same(), es)[i] == (es[i].key, Meaning(es[i].doc))
  {
    hide Image;
    if es != [] { PairsAt(es[1..]); }
  }

  // ---------- 32-bit fixed fields ----------

  /** A lone 32-bit fixed value comes back exactly if it is an unsigned 32-bit number, a packed one exactly if
      it is a signed one. */
  lemma Fixed32Survives(fp: Foreign, n: Int64)
    ensures |ScalarBytes(fp, Fixed32, Atom(Int(n)))| == 4
    ensures var raw := FromLittleEndian(ScalarBytes(fp, Fixed32, Atom(Int(n))));
      && raw < TWO_32
      && (FromWord32(fp, Fixed32, raw, false) == Leaf(Int(n)) <==> 0 <= n < TWO_32)
      && (FromWord32(fp, Fixed32, raw, true) == Leaf(Int(n)) <==> -0x8000_0000 <= n < 0x8000_0000)
  {
    hide LittleEndian, FromLittleEndian;
    Pow256Values();
    LittleEndianInverse(n % TWO_32, 4);
  }
}
