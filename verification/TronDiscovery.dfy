/** Which key sets are hoisted, and why clean keys make hoisting safe. */
module TronDiscovery {
  import opened Bytes
  import opened Values
  import opened Json
  import opened Tron
  import opened TronSchemas
  import opened TronHoist

  // ---------- The objects of a document ----------

  /** The non-empty objects, each before those inside it. */
  function Objects(d: Doc): (r: seq<seq<Entry>>)
    decreases d
  {
    match d
    case Atom(_) => []
    case List(items) => ObjectsIn(items)
    case Table(es) => (if es == [] then [] else [es]) + ObjectsUnder(es)
  }

  function ObjectsIn(ds: seq<Doc>): (r: seq<seq<Entry>>)
    decreases ds
  {
    if ds == [] then [] else Objects(ds[0]) + ObjectsIn(ds[1..])
  }

  function ObjectsUnder(es: seq<Entry>): (r: seq<seq<Entry>>)
    decreases es
  {
    if es == [] then [] else Objects(es[0].doc) + ObjectsUnder(es[1..])
  }

  function Count(objs: seq<seq<Entry>>, signature: Bytes): (r: nat)
  {
    if objs == [] then 0
    else Count(objs[..|objs| - 1], signature) + (if Signature(objs[|objs| - 1]) == signature then 1 else 0)
  }

  /** The sorted keys of the first object with the signature. */
  function FirstKeys(objs: seq<seq<Entry>>, signature: Bytes): (r: Option<seq<Bytes>>)
  {
    if objs == [] then None
    else if Signature(objs[0]) == signature then Some(SortedKeys(objs[0]))
    else FirstKeys(objs[1..], signature)
  }

  /** A signature is hoisted when it has more than one key and occurs more than once. */
  ghost predicate Qualifies(objs: seq<seq<Entry>>, signature: Bytes)
  {
    FirstKeys(objs, signature).Some? && |FirstKeys(objs, signature).value| > 1 && Count(objs, signature) > 1
  }

  /** The classes toTRON defines: every qualifying signature once, in any order, named by position. */
  ghost predicate Chosen(d: Doc, cs: seq<Class>)
  {
    && (forall i :: 0 <= i < |cs| ==> cs[i].name == ClassName(i))
    && (forall i, j :: 0 <= i < j < |cs| ==> cs[i].signature != cs[j].signature)
    && (forall i :: 0 <= i < |cs| ==>
          Qualifies(Objects(d), cs[i].signature) && FirstKeys(Objects(d), cs[i].signature) == Some(cs[i].keys))
    && (forall s :: Qualifies(Objects(d), s) ==> exists i :: 0 <= i < |cs| && cs[i].signature == s)
  }

  // ---------- Clean keys ----------

  ghost predicate CleanKeys(es: seq<Entry>)
  {
    CommaFree(Keys(es)) && [] !in Keys(es) && DistinctKeys(es)
  }

  ghost predicate Clean(objs: seq<seq<Entry>>)
  {
    forall es :: es in objs ==> es != [] && CleanKeys(es)
  }

  ghost predicate ScalarsKept(plat: Platform, d: Doc)
    decreases d
  {
    match d
    case Atom(s) => ExpandScalar(plat, s) == Some(Leaf(s))
    case List(items) => ScalarsKeptIn(plat, items)
    case Table(es) => ScalarsKeptUnder(plat, es)
  }

  ghost predicate ScalarsKeptIn(plat: Platform, ds: seq<Doc>)
    decreases ds
  {
    ds == [] || (ScalarsKept(plat, ds[0]) && ScalarsKeptIn(plat, ds[1..]))
  }

  ghost predicate ScalarsKeptUnder(plat: Platform, es: seq<Entry>)
    decreases es
  {
    es == [] || (ScalarsKept(plat, es[0].doc) && ScalarsKeptUnder(plat, es[1..]))
  }

  lemma {:induction false} FirstKeysFound(objs: seq<seq<Entry>>, signature: Bytes)
    requires FirstKeys(objs, signature).Some?
    ensures exists es :: es in objs && Signature(es) == signature && FirstKeys(objs, signature).value == SortedKeys(es)
  {
    hide Signature, SortedKeys;
    if Signature(objs[0]) == signature {
      assert objs[0] in objs;
    } else {
      FirstKeysFound(objs[1..], signature);
      var es :| es in objs[1..] && Signature(es) == signature && FirstKeys(objs, signature).value == SortedKeys(es);
      assert es in objs;
    }
  }

  /** Every class has the keys of some object of the document. */
  ghost predicate DrawnFrom(cs: seq<Class>, objs: seq<seq<Entry>>)
  {
    forall c :: c in cs ==> FirstKeys(objs, c.signature) == Some(c.keys)
  }

  /** With clean keys, an object found under a class has the keys of the class. */
  lemma CleanFound(cs: seq<Class>, objs: seq<seq<Entry>>, es: seq<Entry>)
    requires DrawnFrom(cs, objs) && Clean(objs) && es in objs && Found(cs, es).Some?
    ensures SameKeys(Found(cs, es).value.keys, Keys(es)) && Distinct(Found(cs, es).value.keys)
  {
    hide Signature, SortedKeys, Lookup;
    var c := Found(cs, es).value;
    FirstKeysFound(objs, c.signature);
    var other :| other in objs && Signature(other) == c.signature && c.keys == SortedKeys(other);
    SignatureIdentifies(es, other);
    SortedSame(other);
  }

  lemma SortedSame(es: seq<Entry>)
    requires DistinctKeys(es)
    ensures SameKeys(SortedKeys(es), Keys(es)) && Distinct(SortedKeys(es))
  {
    KeysDistinct(es);
    SortSorts(Keys(es));
    AscendingDistinct(SortedKeys(es));
  }

  lemma AscendingDistinct(ks: seq<Bytes>)
    requires Ascending(ks)
    ensures Distinct(ks)
  {
    forall i, j | 0 <= i < j < |ks| ensures ks[i] != ks[j] { LessAsymmetric(ks[i], ks[j]); }
  }

  /** With clean keys, hoisting loses nothing: only the scalars matter. */
  lemma {:induction false} CleanKept(plat: Platform, cs: seq<Class>, objs: seq<seq<Entry>>, d: Doc)
    requires DrawnFrom(cs, objs) && Clean(objs)
    requires forall es :: es in Objects(d) ==> es in objs
    ensures Kept(plat, cs, d) <==> ScalarsKept(plat, d)
    decreases d
  {
    hide ExpandScalar, DrawnFrom, Clean, SameKeys, Signature;
    match d
    case Atom(_) =>
    case List(items) => CleanKeptAll(plat, cs, objs, items);
    case Table(es) =>
      assert es != [] ==> Objects(d)[0] == es;
      forall o | o in ObjectsUnder(es) ensures o in objs { assert o in Objects(d); }
      if es != [] { NonEmptyKeys(objs, es); }
      if Found(cs, es).Some? { CleanFound(cs, objs, es); }
      CleanKeptEntries(plat, cs, objs, es, Found(cs, es).Some?);
  }

  lemma NonEmptyKeys(objs: seq<seq<Entry>>, es: seq<Entry>)
    requires Clean(objs) && es in objs
    ensures forall i :: 0 <= i < |es| ==> es[i].key != []
  {
    forall i | 0 <= i < |es| ensures es[i].key != [] { assert Keys(es)[i] in Keys(es); }
  }

  lemma {:induction false} CleanKeptAll(plat: Platform, cs: seq<Class>, objs: seq<seq<Entry>>, ds: seq<Doc>)
    requires DrawnFrom(cs, objs) && Clean(objs)
    requires forall es :: es in ObjectsIn(ds) ==> es in objs
    ensures KeptAll(plat, cs, ds) <==> ScalarsKeptIn(plat, ds)
    decreases ds
  {
    hide Kept, ScalarsKept, DrawnFrom, Clean, Objects;
    if ds != [] {
      CleanKept(plat, cs, objs, ds[0]);
      CleanKeptAll(plat, cs, objs, ds[1..]);
    }
  }

  lemma {:induction false} CleanKeptEntries(plat: Platform, cs: seq<Class>, objs: seq<seq<Entry>>, es: seq<Entry>, hoisted: bool)
    requires DrawnFrom(cs, objs) && Clean(objs)
    requires forall o :: o in ObjectsUnder(es) ==> o in objs
    requires forall i :: 0 <= i < |es| ==> es[i].key != []
    ensures KeptEntries(plat, cs, es, hoisted) <==> ScalarsKeptUnder(plat, es)
    decreases es
  {
    hide Kept, ScalarsKept, DrawnFrom, Clean, Objects, Meaning;
    if es != [] {
      CleanKept(plat, cs, objs, es[0].doc);
      CleanKeptEntries(plat, cs, objs, es[1..], hoisted);
    }
  }

  lemma {:induction false} CountPositions(objs: seq<seq<Entry>>, signature: Bytes)
    ensures Count(objs, signature) > 0 <==> exists i :: 0 <= i < |objs| && Signature(objs[i]) == signature
    ensures Count(objs, signature) > 1 <==>
      exists i, j :: 0 <= i < j < |objs| && Signature(objs[i]) == signature && Signature(objs[j]) == signature
  {
    hide Signature;
    if objs != [] {
      var n := |objs| - 1;
      var init := objs[..n];
      CountPositions(init, signature);
      assert forall i :: 0 <= i < n ==> init[i] == objs[i];
      if Count(init, signature) > 0 && Signature(objs[n]) == signature {
        var i :| 0 <= i < n && Signature(init[i]) == signature;
        assert Signature(objs[i]) == signature;
      }
      if Count(init, signature) > 1 {
        var i, j :| 0 <= i < j < n && Signature(init[i]) == signature && Signature(init[j]) == signature;
        assert Signature(objs[i]) == signature && Signature(objs[j]) == signature;
      }
      if Count(init, signature) > 0 {
        var i :| 0 <= i < n && Signature(init[i]) == signature;
        assert Signature(objs[i]) == signature;
      }
      if i, j :| 0 <= i < j < |objs| && Signature(objs[i]) == signature && Signature(objs[j]) == signature {
        assert Signature(init[i]) == signature;
        if j < n { assert Signature(init[j]) == signature; }
      }
      if i :| 0 <= i < |objs| && Signature(objs[i]) == signature {
        if i < n { assert Signature(init[i]) == signature; }
      }
    }
  }

  /** With clean keys, an object is written as an instance exactly when it has several keys and another
      object has the same ones. */
  lemma HoistedExactly(d: Doc, cs: seq<Class>, i: nat)
    requires Chosen(d, cs) && Clean(Objects(d)) && i < |Objects(d)|
    ensures var objs := Objects(d);
      Found(cs, objs[i]).Some?
      <==> |objs[i]| > 1 && exists j :: 0 <= j < |objs| && j != i && SameKeys(Keys(objs[i]), Keys(objs[j]))
  {
    hide Signature, SortedKeys, Qualifies, Chosen, CleanKeys, Found, SameKeys;
    var objs := Objects(d);
    assert objs[i] in objs;
    FoundQualifies(d, cs, i);
    QualifiesExactly(objs, i);
  }

  /** Exactly the objects whose signature qualifies are found under a class. */
  lemma FoundQualifies(d: Doc, cs: seq<Class>, i: nat)
    requires Chosen(d, cs) && i < |Objects(d)| && Objects(d)[i] != []
    ensures Found(cs, Objects(d)[i]).Some? <==> Qualifies(Objects(d), Signature(Objects(d)[i]))
  {
    hide Signature, Lookup, SortedKeys, Count, Qualifies;
    var es := Objects(d)[i];
    if Qualifies(Objects(d), Signature(es)) {
      var k :| 0 <= k < |cs| && cs[k].signature == Signature(es);
      assert cs[k] in cs;
    }
    if Found(cs, es).Some? {
      var k :| 0 <= k < |cs| && cs[k] == Found(cs, es).value;
    }
  }

  /** With clean keys, a signature qualifies exactly when it stands for several keys and two objects have them. */
  lemma QualifiesExactly(objs: seq<seq<Entry>>, i: nat)
    requires Clean(objs) && i < |objs|
    ensures Qualifies(objs, Signature(objs[i]))
       <==> |objs[i]| > 1 && exists j :: 0 <= j < |objs| && j != i && SameKeys(Keys(objs[i]), Keys(objs[j]))
  {
    hide Signature, SortedKeys, Count, CleanKeys, SameKeys;
    var es, s := objs[i], Signature(objs[i]);
    FirstKeysExists(objs, i);
    FirstKeysFound(objs, s);
    var other :| other in objs && Signature(other) == s && FirstKeys(objs, s).value == SortedKeys(other);
    assert es in objs;
    SameSize(es, other);
    CountPositions(objs, s);
    forall j | 0 <= j < |objs| ensures Signature(objs[j]) == s <==> SameKeys(Keys(es), Keys(objs[j])) {
      assert objs[j] in objs;
      SameSignature(es, objs[j]);
    }
    if Qualifies(objs, s) {
      var a, b :| 0 <= a < b < |objs| && Signature(objs[a]) == s && Signature(objs[b]) == s;
      assert SameKeys(Keys(es), Keys(objs[if a == i then b else a]));
    }
    if |es| > 1 && exists j :: 0 <= j < |objs| && j != i && SameKeys(Keys(es), Keys(objs[j])) {
      var j :| 0 <= j < |objs| && j != i && SameKeys(Keys(es), Keys(objs[j]));
      var a, b := if i < j then i else j, if i < j then j else i;
      assert Signature(objs[a]) == s && Signature(objs[b]) == s;
    }
  }

  lemma SameSignature(a: seq<Entry>, b: seq<Entry>)
    requires a != [] && b != [] && CleanKeys(a) && CleanKeys(b)
    ensures Signature(b) == Signature(a) <==> SameKeys(Keys(a), Keys(b))
  {
    SignatureIdentifies(a, b);
  }

  lemma {:induction false} FirstKeysExists(objs: seq<seq<Entry>>, i: nat)
    requires i < |objs|
    ensures FirstKeys(objs, Signature(objs[i])).Some?
  {
    hide Signature, SortedKeys;
    if Signature(objs[0]) != Signature(objs[i]) { FirstKeysExists(objs[1..], i - 1); }
  }

  lemma SameSize(a: seq<Entry>, b: seq<Entry>)
    requires a != [] && b != [] && CleanKeys(a) && CleanKeys(b) && Signature(a) == Signature(b)
    ensures |a| == |b| == |SortedKeys(b)|
  {
    KeysDistinct(a);
    KeysDistinct(b);
    SignatureIdentifies(a, b);
    SortSorts(Keys(a));
    SortSorts(Keys(b));
    AscendingUnique(SortedKeys(a), SortedKeys(b));
  }
}
