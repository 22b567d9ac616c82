/** Expanding what was hoisted: exactly when every object gets its members back. */
module TronHoist {
  import opened Bytes
  import opened Values
  import opened Json
  import opened Tron
  import opened TronSchemas

  // ---------- Expanding ----------

  function ExpandScalar(plat: Platform, s: Scalar): (r: Option<Value>)
  {
    if IsString(s) then ReadString(plat, StringOf(s))
    else if s.Timestamp? then Some(Leaf(Int(s.seconds)))
    else if s.Text? then ReadNumber(plat, s.text)
    else Some(Leaf(s))
  }

  /** The value a printed tree is read as, given the properties of each class. */
  function Expand(plat: Platform, cs: Classes, t: Tree): (r: Option<Value>)
    decreases t
  {
    match t
    case Token(s) => ExpandScalar(plat, s)
    case Listing(items) =>
      (match ExpandAll(plat, cs, items) case None => None case Some(vs) => Some(Array(vs)))
    case Plain(members, keys) =>
      (match ExpandAll(plat, cs, members)
       case None => None
       case Some(vs) => Some(Object(Build(Fill(keys, vs, map[]), map[]))))
    case Instance(name, args) =>
      if name !in cs then None
      else
        match ExpandAll(plat, cs, args)
        case None => None
        case Some(vs) => Some(Object(Build(Fill(cs[name], vs, map[]), map[])))
  }

  function ExpandAll(plat: Platform, cs: Classes, ts: seq<Tree>): (r: Option<seq<Value>>)
    ensures r.Some? ==> |r.value| == |ts|
    decreases ts
  {
    if ts == [] then Some([])
    else
      match (Expand(plat, cs, ts[0]), ExpandAll(plat, cs, ts[1..]))
      case (Some(v), Some(vs)) => Some([v] + vs)
      case _ => None
  }

  lemma {:induction false} ExpandAllAt(plat: Platform, cs: Classes, ts: seq<Tree>)
    ensures ExpandAll(plat, cs, ts).Some? <==> forall i :: 0 <= i < |ts| ==> Expand(plat, cs, ts[i]).Some?
    ensures ExpandAll(plat, cs, ts).Some? ==>
      forall i :: 0 <= i < |ts| ==> Expand(plat, cs, ts[i]) == Some(ExpandAll(plat, cs, ts).value[i])
  {
    hide Expand;
    if ts != [] {
      ExpandAllAt(plat, cs, ts[1..]);
      assert forall i :: 1 <= i < |ts| ==> ts[i] == ts[1..][i - 1];
      assert ExpandAll(plat, cs, ts[1..]).Some? <==> forall i :: 1 <= i < |ts| ==> Expand(plat, cs, ts[i]).Some? by {
        assert forall i :: 0 <= i < |ts[1..]| ==> ts[1..][i] == ts[i + 1];
      }
    }
  }

  // ---------- The condition ----------

  ghost predicate Declares(m: Classes, cs: seq<Class>)
  {
    forall c :: c in cs ==> c.name in m && m[c.name] == c.keys && Distinct(c.keys)
  }

  function Found(cs: seq<Class>, es: seq<Entry>): (r: Option<Class>)
  {
    if es == [] then None else Lookup(cs, Signature(es))
  }

  /** Every scalar survives; every hoisted object has exactly the keys of its class, and nothing but
      null under an empty key. */
  ghost predicate Kept(plat: Platform, cs: seq<Class>, d: Doc)
    decreases d
  {
    match d
    case Atom(s) => ExpandScalar(plat, s) == Some(Leaf(s))
    case List(items) => KeptAll(plat, cs, items)
    case Table(es) =>
      (Found(cs, es).Some? ==> SameKeys(Found(cs, es).value.keys, Keys(es)))
      && KeptEntries(plat, cs, es, Found(cs, es).Some?)
  }

  ghost predicate KeptAll(plat: Platform, cs: seq<Class>, ds: seq<Doc>)
    decreases ds
  {
    ds == [] || (Kept(plat, cs, ds[0]) && KeptAll(plat, cs, ds[1..]))
  }

  ghost predicate KeptEntries(plat: Platform, cs: seq<Class>, es: seq<Entry>, hoisted: bool)
    decreases es
  {
    es == []
    || ((if hoisted && es[0].key == [] then Meaning(es[0].doc) == Leaf(Null) else Kept(plat, cs, es[0].doc))
        && KeptEntries(plat, cs, es[1..], hoisted))
  }

  // ---------- Lists, and objects written out ----------

  /** A document is read back as its meaning exactly when it is kept. */
  lemma {:induction false} HoistKeeps(plat: Platform, m: Classes, cs: seq<Class>, d: Doc)
    requires WellFormed(d) && Declares(m, cs)
    ensures Expand(plat, m, Hoist(cs, d)) == Some(Meaning(d)) <==> Kept(plat, cs, d)
    decreases d
  {
    hide ExpandScalar, Build, SameKeys, Signature, Declares, Distinct;
    match d
    case Atom(s) =>
    case List(items) => HoistKeepsAll(plat, m, cs, items);
    case Table(es) =>
      if Found(cs, es).None? {
        HoistKeepsPlain(plat, m, cs, es);
        PlainObject(plat, m, es, HoistEntries(cs, es));
      } else {
        HoistKeepsInstance(plat, m, cs, es);
      }
  }

  lemma {:induction false} HoistKeepsAll(plat: Platform, m: Classes, cs: seq<Class>, ds: seq<Doc>)
    requires AllWellFormed(ds) && Declares(m, cs)
    ensures ExpandAll(plat, m, HoistAll(cs, ds)) == Some(Images(Same(), ds)) <==> KeptAll(plat, cs, ds)
    decreases ds
  {
    hide Expand, Kept, Hoist, Image, Declares;
    if ds != [] {
      HoistKeeps(plat, m, cs, ds[0]);
      HoistKeepsAll(plat, m, cs, ds[1..]);
      var ts := HoistAll(cs, ds);
      assert ts[0] == Hoist(cs, ds[0]) && ts[1..] == HoistAll(cs, ds[1..]);
      var v, vs := Expand(plat, m, ts[0]), ExpandAll(plat, m, ts[1..]);
      if v.Some? && vs.Some? {
        ConsEqual(v.value, vs.value, Image(Same(), ds[0]), Images(Same(), ds[1..]));
      }
    }
  }

  /** The meanings of the members, in order. */
  function Meanings(es: seq<Entry>): (r: seq<Value>)
    ensures |r| == |es|
  {
    if es == [] then [] else [Meaning(es[0].doc)] + Meanings(es[1..])
  }

  lemma {:induction false} MeaningsAt(es: seq<Entry>)
    ensures forall i :: 0 <= i < |es| ==> Meanings(es)[i] == Meaning(es[i].doc)
    ensures forall i :: 0 <= i < |es| ==> ImagePairs(Same(), es)[i] == (es[i].key, Meaning(es[i].doc))
  {
    hide Image;
    if es != [] { MeaningsAt(es[1..]); }
  }

  lemma {:induction false} HoistKeepsPlain(plat: Platform, m: Classes, cs: seq<Class>, es: seq<Entry>)
    requires EntriesWellFormed(es) && Declares(m, cs)
    ensures ExpandAll(plat, m, HoistEntries(cs, es)) == Some(Meanings(es)) <==> KeptEntries(plat, cs, es, false)
    decreases es
  {
    hide Expand, Kept, Hoist, Image, Declares;
    if es != [] {
      HoistKeeps(plat, m, cs, es[0].doc);
      HoistKeepsPlain(plat, m, cs, es[1..]);
      var ts := HoistEntries(cs, es);
      assert ts[0] == Hoist(cs, es[0].doc) && ts[1..] == HoistEntries(cs, es[1..]);
      var v, vs := Expand(plat, m, ts[0]), ExpandAll(plat, m, ts[1..]);
      if v.Some? && vs.Some? {
        ConsEqual(v.value, vs.value, Meaning(es[0].doc), Meanings(es[1..]));
      }
    }
  }

  lemma {:induction false} FillAt(keys: seq<Bytes>, vs: seq<Value>)
    requires |keys| == |vs|
    ensures forall i :: 0 <= i < |keys| ==> Fill(keys, vs, map[])[i] == (keys[i], vs[i])
  {
    if keys != [] { FillAt(keys[1..], vs[1..]); }
  }

  /** An object written out member by member. */
  lemma PlainObject(plat: Platform, m: Classes, es: seq<Entry>, children: seq<Tree>)
    requires |children| == |es| && DistinctKeys(es)
    ensures Expand(plat, m, Plain(children, Keys(es))) == Some(Meaning(Table(es)))
       <==> ExpandAll(plat, m, children) == Some(Meanings(es))
  {
    hide ExpandAll, Meanings, Fill, ImagePairs, Build;
    var vs, qs := ExpandAll(plat, m, children), ImagePairs(Same(), es);
    ExpandPlain(plat, m, children, Keys(es));
    if vs.Some? {
      var ps := Fill(Keys(es), vs.value, map[]);
      FillAt(Keys(es), vs.value);
      MeaningsAt(es);
      BuildInjective(ps, qs, map[]);
      PairsAndValues(Keys(es), vs.value, Meanings(es), ps, qs);
    }
  }

  lemma ExpandPlain(plat: Platform, m: Classes, children: seq<Tree>, keys: seq<Bytes>)
    ensures Expand(plat, m, Plain(children, keys))
         == match ExpandAll(plat, m, children)
            case None => None
            case Some(vs) => Some(Object(Build(Fill(keys, vs, map[]), map[])))
  {
    hide ExpandAll, Build, Fill;
  }

  lemma PairsAndValues(keys: seq<Bytes>, vs: seq<Value>, ws: seq<Value>, ps: seq<(Bytes, Value)>, qs: seq<(Bytes, Value)>)
    requires |keys| == |vs| == |ws| == |ps| == |qs|
    requires forall i :: 0 <= i < |keys| ==> ps[i] == (keys[i], vs[i]) && qs[i] == (keys[i], ws[i])
    ensures ps == qs <==> vs == ws
  {
    if ps == qs {
      forall i | 0 <= i < |vs| ensures vs[i] == ws[i] { assert ps[i].1 == qs[i].1; }
    }
  }

  // ---------- Instances ----------

  lemma {:induction false} ArrangeAt(es: seq<Entry>, children: seq<Tree>, keys: seq<Bytes>)
    requires |children| == |es|
    ensures forall i :: 0 <= i < |keys| ==>
      Arrange(es, children, keys)[i]
      == (if IndexOf(es, keys[i]).Some? then children[IndexOf(es, keys[i]).value] else Token(Null))
  {
    if keys != [] { ArrangeAt(es, children, keys[1..]); }
  }

  ghost predicate EntryKept(plat: Platform, cs: seq<Class>, e: Entry)
  {
    if e.key == [] then Meaning(e.doc) == Leaf(Null) else Kept(plat, cs, e.doc)
  }

  lemma {:induction false} EntriesKeptAt(plat: Platform, cs: seq<Class>, es: seq<Entry>)
    ensures KeptEntries(plat, cs, es, true) <==> forall j :: 0 <= j < |es| ==> EntryKept(plat, cs, es[j])
  {
    hide Kept;
    if es != [] {
      EntriesKeptAt(plat, cs, es[1..]);
      assert forall j :: 1 <= j < |es| ==> es[j] == es[1..][j - 1];
      assert forall j :: 0 <= j < |es[1..]| ==> es[1..][j] == es[j + 1];
    }
  }

  lemma {:induction false} HoistKeepsEach(plat: Platform, m: Classes, cs: seq<Class>, es: seq<Entry>)
    requires EntriesWellFormed(es) && Declares(m, cs)
    ensures forall j :: 0 <= j < |es| ==>
      (Expand(plat, m, HoistEntries(cs, es)[j]) == Some(Meaning(es[j].doc)) <==> Kept(plat, cs, es[j].doc))
    decreases es, 0
  {
    hide Expand, Kept, Hoist, Image, Declares;
    if es != [] {
      HoistKeeps(plat, m, cs, es[0].doc);
      HoistKeepsEach(plat, m, cs, es[1..]);
      var ts := HoistEntries(cs, es);
      assert ts[0] == Hoist(cs, es[0].doc);
      forall j | 1 <= j < |es|
        ensures Expand(plat, m, ts[j]) == Some(Meaning(es[j].doc)) <==> Kept(plat, cs, es[j].doc)
      {
        assert ts[j] == HoistEntries(cs, es[1..])[j - 1] && es[j] == es[1..][j - 1];
      }
    }
  }

  /** The argument under a member's key carries that member. */
  lemma ArgumentKept(plat: Platform, m: Classes, cs: seq<Class>, es: seq<Entry>, keys: seq<Bytes>, i: nat, j: nat)
    requires EntriesWellFormed(es) && DistinctKeys(es) && Declares(m, cs)
    requires i < |keys| && j < |es| && keys[i] == es[j].key
    requires Expand(plat, m, HoistEntries(cs, es)[j]) == Some(Meaning(es[j].doc)) <==> Kept(plat, cs, es[j].doc)
    ensures Expand(plat, m, Arrange(es, HoistEntries(cs, es), keys)[i]) == Some(Meaning(es[j].doc))
       <==> EntryKept(plat, cs, es[j])
  {
    hide Expand, Kept, HoistEntries, Image, Declares, Arrange, ExpandScalar;
    ArrangeAt(es, HoistEntries(cs, es), keys);
    NullExpands(plat, m);
    if keys[i] != [] {
      assert IndexOf(es, keys[i]) == Some(j);
    }
  }

  lemma NullExpands(plat: Platform, m: Classes)
    ensures Expand(plat, m, Token(Null)) == Some(Leaf(Null))
  {
  }

  lemma {:induction false} HoistKeepsInstance(plat: Platform, m: Classes, cs: seq<Class>, es: seq<Entry>)
    requires EntriesWellFormed(es) && DistinctKeys(es) && Declares(m, cs) && Found(cs, es).Some?
    ensures Expand(plat, m, Hoist(cs, Table(es))) == Some(Meaning(Table(es)))
       <==> SameKeys(Found(cs, es).value.keys, Keys(es)) && KeptEntries(plat, cs, es, true)
    decreases es, 1
  {
    hide Expand, Kept, HoistEntries, Meaning, Arrange, ExpandScalar, KeptEntries, ExpandAll, Build, EntryKept, Signature, Lookup, Fill;
    var c := Found(cs, es).value;
    var args := Arrange(es, HoistEntries(cs, es), c.keys);
    HoistKeepsEach(plat, m, cs, es);
    EntriesKeptAt(plat, cs, es);
    forall i, j | 0 <= i < |c.keys| && 0 <= j < |es| && c.keys[i] == es[j].key
      ensures Expand(plat, m, args[i]) == Some(Meaning(es[j].doc)) <==> EntryKept(plat, cs, es[j])
    {
      ArgumentKept(plat, m, cs, es, c.keys, i, j);
    }
    ExpandAllAt(plat, m, args);
    InstanceKept(plat, m, cs, es, c.keys, args);
    ExpandInstance(plat, m, c.name, args);
    HoistInstance(cs, es);
    TableMeaning(es);
  }

  lemma TableMeaning(es: seq<Entry>)
    ensures Meaning(Table(es)) == Object(Build(ImagePairs(Same(), es), map[]))
  {
  }

  lemma HoistInstance(cs: seq<Class>, es: seq<Entry>)
    requires Found(cs, es).Some?
    ensures var c := Found(cs, es).value; Hoist(cs, Table(es)) == Instance(c.name, Arrange(es, HoistEntries(cs, es), c.keys))
  {
    hide Signature, Arrange, HoistEntries;
  }

  lemma ExpandInstance(plat: Platform, m: Classes, name: Bytes, args: seq<Tree>)
    requires name in m
    ensures Expand(plat, m, Instance(name, args))
         == match ExpandAll(plat, m, args)
            case None => None
            case Some(vs) => Some(Object(Build(Fill(m[name], vs, map[]), map[])))
  {
    hide ExpandAll, Build, Fill;
  }

  lemma InstanceKept(plat: Platform, m: Classes, cs: seq<Class>, es: seq<Entry>, keys: seq<Bytes>, args: seq<Tree>)
    requires DistinctKeys(es) && Distinct(keys) && |args| == |keys|
    requires forall i, j :: 0 <= i < |keys| && 0 <= j < |es| && keys[i] == es[j].key ==>
      (Expand(plat, m, args[i]) == Some(Meaning(es[j].doc)) <==> EntryKept(plat, cs, es[j]))
    ensures var r := ExpandAll(plat, m, args);
      (r.Some? && Build(Fill(keys, r.value, map[]), map[]) == Build(ImagePairs(Same(), es), map[]))
      <==> SameKeys(keys, Keys(es)) && forall j :: 0 <= j < |es| ==> EntryKept(plat, cs, es[j])
  {
    hide Expand, Image, ExpandAll, Build, EntryKept, Fill, ImagePairs;
    var r, qs := ExpandAll(plat, m, args), ImagePairs(Same(), es);
    ExpandAllAt(plat, m, args);
    MeaningsAt(es);
    if SameKeys(keys, Keys(es)) && forall j :: 0 <= j < |es| ==> EntryKept(plat, cs, es[j]) {
      forall i | 0 <= i < |keys| ensures Expand(plat, m, args[i]).Some? {
        var j := KeyAt(es, keys, i);
      }
    }
    if r.Some? {
      var ps := Fill(keys, r.value, map[]);
      FillAt(keys, r.value);
      BuildUnordered(ps, qs);
      if SamePairs(ps, qs) { PairsKept(plat, m, cs, es, keys, args, ps, qs); }
      if SameKeys(keys, Keys(es)) && forall j :: 0 <= j < |es| ==> EntryKept(plat, cs, es[j]) {
        KeptPairs(plat, m, cs, es, keys, args, ps, qs);
      }
    }
  }

  lemma KeyAt(es: seq<Entry>, keys: seq<Bytes>, i: nat) returns (j: nat)
    requires SameKeys(keys, Keys(es)) && i < |keys|
    ensures j < |es| && es[j].key == keys[i]
  {
    assert keys[i] in keys;
    j :| 0 <= j < |es| && Keys(es)[j] == keys[i];
  }

  lemma PairsKept(plat: Platform, m: Classes, cs: seq<Class>, es: seq<Entry>, keys: seq<Bytes>, args: seq<Tree>,
                  ps: seq<(Bytes, Value)>, qs: seq<(Bytes, Value)>)
    requires |args| == |keys| == |ps| && |qs| == |es| && SamePairs(ps, qs)
    requires forall i :: 0 <= i < |keys| ==> ps[i].0 == keys[i] && Expand(plat, m, args[i]) == Some(ps[i].1)
    requires forall j :: 0 <= j < |es| ==> qs[j] == (es[j].key, Meaning(es[j].doc))
    requires forall i, j :: 0 <= i < |keys| && 0 <= j < |es| && keys[i] == es[j].key ==>
      (Expand(plat, m, args[i]) == Some(Meaning(es[j].doc)) <==> EntryKept(plat, cs, es[j]))
    ensures SameKeys(keys, Keys(es)) && forall j :: 0 <= j < |es| ==> EntryKept(plat, cs, es[j])
  {
    hide Expand, Meaning, EntryKept;
    forall j | 0 <= j < |es| ensures EntryKept(plat, cs, es[j]) && es[j].key in keys {
      assert qs[j] in ps;
      var i :| 0 <= i < |ps| && ps[i] == qs[j];
      assert keys[i] == es[j].key;
    }
    forall i | 0 <= i < |keys| ensures keys[i] in Keys(es) {
      assert ps[i] in qs;
      var j :| 0 <= j < |qs| && qs[j] == ps[i];
      assert Keys(es)[j] == keys[i];
    }
  }

  lemma KeptPairs(plat: Platform, m: Classes, cs: seq<Class>, es: seq<Entry>, keys: seq<Bytes>, args: seq<Tree>,
                  ps: seq<(Bytes, Value)>, qs: seq<(Bytes, Value)>)
    requires |args| == |keys| == |ps| && |qs| == |es| && SameKeys(keys, Keys(es))
    requires forall j :: 0 <= j < |es| ==> EntryKept(plat, cs, es[j])
    requires forall i :: 0 <= i < |keys| ==> ps[i].0 == keys[i] && Expand(plat, m, args[i]) == Some(ps[i].1)
    requires forall j :: 0 <= j < |es| ==> qs[j] == (es[j].key, Meaning(es[j].doc))
    requires forall i, j :: 0 <= i < |keys| && 0 <= j < |es| && keys[i] == es[j].key ==>
      (Expand(plat, m, args[i]) == Some(Meaning(es[j].doc)) <==> EntryKept(plat, cs, es[j]))
    ensures SamePairs(ps, qs)
  {
    hide Expand, Meaning, EntryKept;
    forall i | 0 <= i < |ps| ensures ps[i] in qs {
      var j := KeyAt(es, keys, i);
      assert keys[i] == es[j].key;
      assert qs[j] == (ps[i].0, ps[i].1);
    }
    forall j | 0 <= j < |qs| ensures qs[j] in ps {
      assert Keys(es)[j] in Keys(es);
      var i :| 0 <= i < |keys| && keys[i] == es[j].key;
      assert (ps[i].0, ps[i].1) == qs[j];
    }
  }
}
