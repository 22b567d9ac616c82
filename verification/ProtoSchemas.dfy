/** Reading a Protobuf schema from its JSON description. */
module ProtoSchemas {
  import opened Bytes
  import opened Values
  import opened Proto
  import opened ProtoImage

  const ID: Bytes := [105, 100]                                          // id
  const TYPE: Bytes := [116, 121, 112, 101]                              // type
  const REPEATED: Bytes := [114, 101, 112, 101, 97, 116, 101, 100]       // repeated
  const PACKED: Bytes := [112, 97, 99, 107, 101, 100]                    // packed
  const FIELDS: Bytes := [102, 105, 101, 108, 100, 115]                  // fields

  const INT32: Bytes := [105, 110, 116, 51, 50]
  const INT64: Bytes := [105, 110, 116, 54, 52]
  const ENUM: Bytes := [101, 110, 117, 109]
  const RAW: Bytes := [98, 105, 110, 97, 114, 121]                       // binary
  const UINT32: Bytes := [117, 105, 110, 116, 51, 50]
  const UINT64: Bytes := [117, 105, 110, 116, 54, 52]
  const SINT32: Bytes := [115, 105, 110, 116, 51, 50]
  const SINT64: Bytes := [115, 105, 110, 116, 54, 52]
  const BOOL: Bytes := [98, 111, 111, 108]
  const FIXED32: Bytes := [102, 105, 120, 101, 100, 51, 50]
  const SFIXED32: Bytes := [115] + FIXED32
  const FIXED64: Bytes := [102, 105, 120, 101, 100, 54, 52]
  const SFIXED64: Bytes := [115] + FIXED64
  const DOUBLE: Bytes := [100, 111, 117, 98, 108, 101]
  const FLOAT: Bytes := [102, 108, 111, 97, 116]
  const STRING: Bytes := [115, 116, 114, 105, 110, 103]
  const BYTES: Bytes := [98, 121, 116, 101, 115]
  const MESSAGE: Bytes := [109, 101, 115, 115, 97, 103, 101]

  /** The member under a key. */
  function Get(es: seq<Entry>, key: Bytes): (r: Option<Doc>)
    ensures r.Some? ==> exists i :: 0 <= i < |es| && es[i].key == key && es[i].doc == r.value
  {
    if es == [] then None else if es[0].key == key then Some(es[0].doc) else Get(es[1..], key)
  }

  function FlagAt(es: seq<Entry>, key: Bytes, default: bool): (r: bool)
  {
    match Get(es, key)
    case Some(Atom(Bool(flag))) => flag
    case _ => default
  }

  function NumberAt(es: seq<Entry>): (r: int)
  {
    match Get(es, ID)
    case Some(Atom(Int(n))) => Signed(n % TWO_32, TWO_32)
    case _ => 0
  }

  function TypeAt(es: seq<Entry>): (r: Bytes)
  {
    match Get(es, TYPE)
    case Some(Atom(Text(t, _))) => t
    case _ => []
  }

  /** The kind a type name other than "message" stands for; the empty name is what a missing one leaves. */
  function ScalarKind(t: Bytes): (r: Kind)
    ensures !r.Message? && !r.Bare?
  {
    if t == INT32 || t == INT64 || t == ENUM then Signed64
    else if t == UINT32 || t == UINT64 then Unsigned64
    else if t == SINT32 || t == SINT64 then ZigZag
    else if t == BOOL then Boolean
    else if t == FIXED32 || t == SFIXED32 then Fixed32
    else if t == FIXED64 || t == SFIXED64 then Fixed64
    else if t == DOUBLE then Double64
    else if t == FLOAT then Single
    else if t == STRING then Str
    else if t == BYTES then Blob
    else if t == RAW then Raw
    else if t == [] then Untyped
    else Other
  }

  /** protoParseOneField on an object. */
  function ParseField(d: Doc): (r: Field)
    decreases d, 1
  {
    match d
    case Table(es) => Field(NumberAt(es), KindAt(es), FlagAt(es, REPEATED, false), FlagAt(es, PACKED, true))
    case _ => Field(0, Untyped, false, true)
  }

  function KindAt(es: seq<Entry>): (r: Kind)
    decreases es, 1
  {
    if TypeAt(es) != MESSAGE then ScalarKind(TypeAt(es))
    else match SubSchema(es) case None => Bare case Some(schema) => Message(schema)
  }

  /** The schema under "fields", found by walking the members; None where there is no object. */
  function SubSchema(es: seq<Entry>): (r: Option<Schema>)
    decreases es, 0
  {
    if es == [] then None
    else if es[0].key == FIELDS then (if es[0].doc.Table? then Some(ParseSchema(es[0].doc.entries)) else None)
    else SubSchema(es[1..])
  }

  /** protoParseSchema: fields in enumeration order; those without a positive number are skipped. */
  function ParseSchema(es: seq<Entry>): (r: Schema)
    decreases es, 2
  {
    if es == [] then Schema(map[], map[])
    else
      var rest, e := ParseSchema(es[..|es| - 1]), es[|es| - 1];
      var f := ParseField(e.doc);
      if f.number > 0 then Schema(rest.fields[e.key := f], rest.names[f.number := e.key]) else rest
  }

  // ---------- When a schema is fit for use ----------

  /** Named fields with pairwise different numbers, and so in every message type. */
  ghost predicate DistinctNumbers(es: seq<Entry>)
  {
    forall i, j :: 0 <= i < j < |es| && ParseField(es[i].doc).number > 0 && ParseField(es[j].doc).number > 0 ==>
      ParseField(es[i].doc).number != ParseField(es[j].doc).number
  }

  lemma LastField(es: seq<Entry>)
    requires es != []
    ensures var n := |es| - 1;
      var rest, f := ParseSchema(es[..n]), ParseField(es[n].doc);
      ParseSchema(es) == if f.number > 0 then Schema(rest.fields[es[n].key := f], rest.names[f.number := es[n].key]) else rest
  {
    hide ParseField;
  }

  lemma NoFields()
    ensures ParseSchema([]).fields == map[]
  {
  }

  /** Every field read is one of those described. */
  lemma {:induction false} FieldsRead(es: seq<Entry>)
    requires DistinctKeys(es)
    ensures var s := ParseSchema(es);
      && (forall i :: 0 <= i < |es| ==> (es[i].key in s.fields <==> ParseField(es[i].doc).number > 0))
      && (forall i :: 0 <= i < |es| && es[i].key in s.fields ==> s.fields[es[i].key] == ParseField(es[i].doc))
      && (forall k :: k in s.fields ==> exists i :: 0 <= i < |es| && es[i].key == k)
      && (forall k :: k in s.fields ==> s.fields[k].number in s.names)
    decreases |es|
  {
    hide ParseField, ParseSchema;
    if es == [] {
      NoFields();
    } else {
      var n := |es| - 1;
      var init := es[..n];
      FieldsRead(init);
      LastField(es);
      var was, s := ParseSchema(init), ParseSchema(es);
      assert forall i :: 0 <= i < n ==> init[i] == es[i];
      forall k | k in s.fields ensures exists i :: 0 <= i < |es| && es[i].key == k {
        if k in was.fields { var i :| 0 <= i < n && init[i].key == k; assert es[i].key == k; } else { assert es[n].key == k; }
      }
    }
  }

  /** A number leads to the last field described with it. */
  ghost predicate LeadsTo(es: seq<Entry>, number: int, i: int)
  {
    0 <= i < |es| && ParseField(es[i].doc).number == number > 0
    && forall j :: i < j < |es| ==> ParseField(es[j].doc).number != number
  }

  lemma {:induction false} NamesRead(es: seq<Entry>)
    ensures var s := ParseSchema(es);
      forall m :: m in s.names ==> exists i :: LeadsTo(es, m, i) && es[i].key == s.names[m]
    decreases |es|
  {
    hide ParseField;
    if es != [] {
      hide ParseSchema;
      var n := |es| - 1;
      var init := es[..n];
      NamesRead(init);
      LastField(es);
      var was, s, f := ParseSchema(init), ParseSchema(es), ParseField(es[n].doc);
      forall m | m in s.names ensures exists i :: LeadsTo(es, m, i) && es[i].key == s.names[m] {
        if f.number == m && m > 0 {
          assert LeadsTo(es, m, n) && es[n].key == s.names[m];
        } else {
          var i :| LeadsTo(init, m, i) && init[i].key == was.names[m];
          assert forall j :: i < j < n ==> init[j] == es[j];
          assert LeadsTo(es, m, i) && es[i].key == s.names[m];
        }
      }
    }
  }

  /** Numbers lead back to names exactly when they are pairwise different. */
  lemma NumbersIdentify(es: seq<Entry>)
    requires DistinctKeys(es)
    ensures var s := ParseSchema(es);
      (forall k :: k in s.fields ==> s.fields[k].number in s.names && s.names[s.fields[k].number] == k) <==> DistinctNumbers(es)
  {
    hide ParseField, ParseSchema;
    var s := ParseSchema(es);
    FieldsRead(es);
    NamesRead(es);
    if DistinctNumbers(es) {
      forall k | k in s.fields ensures s.fields[k].number in s.names && s.names[s.fields[k].number] == k {
        var i :| 0 <= i < |es| && es[i].key == k;
        var m := s.fields[k].number;
        var j :| LeadsTo(es, m, j) && es[j].key == s.names[m];
        assert i == j;
      }
    }
    if forall k :: k in s.fields ==> s.names[s.fields[k].number] == k {
      forall i, j | 0 <= i < j < |es| && ParseField(es[i].doc).number > 0 && ParseField(es[j].doc).number > 0
        ensures ParseField(es[i].doc).number != ParseField(es[j].doc).number
      {
        assert es[i].key in s.fields && es[j].key in s.fields;
        assert s.names[s.fields[es[i].key].number] == es[i].key;
        assert s.names[s.fields[es[j].key].number] == es[j].key;
      }
    }
  }

  /** A field the codec can use: named, a message only with fields of its own that are usable, and not both packed and
      of a type that is read from behind a length as something else than elements. */
  ghost predicate Usable(name: Bytes, f: Field)
  {
    && name != [] && !f.kind.Bare? && (f.kind.Message? ==> SchemaOk(f.kind.schema))
    && (f.repeated && f.packed ==> !f.kind.Untyped? && !f.kind.Raw?)
  }

  /** A description gives a usable schema exactly when its fields are numbered apart and each is usable, and so at every
      level. */
  lemma SchemaFit(es: seq<Entry>)
    requires DistinctKeys(es)
    ensures SchemaOk(ParseSchema(es)) <==>
      DistinctNumbers(es)
      && forall i :: 0 <= i < |es| && ParseField(es[i].doc).number > 0 ==> Usable(es[i].key, ParseField(es[i].doc))
  {
    hide ParseField, ParseSchema, SchemaOk, FieldOk, Usable, DistinctNumbers;
    var s := ParseSchema(es);
    FieldsRead(es);
    NumbersIdentify(es);
    SchemaIs(s);
    if SchemaOk(s) {
      forall i | 0 <= i < |es| && ParseField(es[i].doc).number > 0 ensures Usable(es[i].key, ParseField(es[i].doc)) {
        assert es[i].key in s.fields;
        FieldIs(s, es[i].key);
      }
      forall k | k in s.fields ensures s.fields[k].number in s.names && s.names[s.fields[k].number] == k { FieldIs(s, k); }
    }
    if DistinctNumbers(es)
       && forall i :: 0 <= i < |es| && ParseField(es[i].doc).number > 0 ==> Usable(es[i].key, ParseField(es[i].doc))
    {
      forall k | k in s.fields ensures FieldOk(s, k) && (s.fields[k].kind.Message? ==> SchemaOk(s.fields[k].kind.schema)) {
        var i := Described(es, k);
        NumberRange(es[i].doc);
        FieldIs(s, k);
      }
    }
  }

  lemma Described(es: seq<Entry>, k: Bytes) returns (i: nat)
    requires DistinctKeys(es) && k in ParseSchema(es).fields
    ensures i < |es| && es[i].key == k && ParseSchema(es).fields[k] == ParseField(es[i].doc) && ParseField(es[i].doc).number > 0
  {
    hide ParseField, ParseSchema, DistinctKeys;
    FieldsRead(es);
    i :| 0 <= i < |es| && es[i].key == k;
  }

  lemma SchemaIs(s: Schema)
    ensures SchemaOk(s) <==> forall k :: k in s.fields ==>
      FieldOk(s, k) && (s.fields[k].kind.Message? ==> SchemaOk(s.fields[k].kind.schema))
  {
  }

  lemma FieldIs(s: Schema, k: Bytes)
    requires k in s.fields
    ensures FieldOk(s, k) && (s.fields[k].kind.Message? ==> SchemaOk(s.fields[k].kind.schema))
       <==> Usable(k, s.fields[k]) && 0 < s.fields[k].number < 0x8000_0000
            && s.fields[k].number in s.names && s.names[s.fields[k].number] == k
  {
    hide SchemaOk;
  }

  lemma NumberRange(d: Doc)
    ensures ParseField(d).number < 0x8000_0000
  {
  }
}
