/** toTRON as the library runs it: maps filled in place while walking the tree, then text appended. */
module TronPrinter {
  import opened Bytes
  import opened Values
  import opened Text
  import opened Tron
  import opened TronSchemas
  import opened TronHoist
  import opened TronDiscovery
  import opened TronDocument
  import Base64
  import Base64Codec
  import Json
  import JsonPrinter
  import JsonFaithful

  // ---------- Discovery ----------

  method SchemaSignature(es: seq<Entry>) returns (r: Bytes)
    requires es != []
    ensures r == Signature(es)
  {
    var keys: seq<Bytes> := [];
    for i := 0 to |es|
      invariant keys == Keys(es)[..i]
    {
      keys := keys + [es[i].key];
    }
    assert Keys(es)[..|es|] == Keys(es);
    keys := Sort(keys);
    assert keys == SortedKeys(es);
    r := [];
    for i := 0 to |keys|
      invariant i == 0 ==> r == []
      invariant r + (if i == 0 || i == |keys| then [] else [COMMA]) + Join(keys[i..]) == Join(keys)
    {
      ghost var before := r;
      if i > 0 { r := r + [COMMA]; }
      r := r + keys[i];
      assert keys[i..][1..] == keys[i + 1..];
      assert Join(keys[i..]) == keys[i] + (if i + 1 == |keys| then [] else [COMMA] + Join(keys[i + 1..]));
      assert r + (if i + 1 == |keys| then [] else [COMMA]) + Join(keys[i + 1..])
          == before + (if i == 0 then [] else [COMMA]) + Join(keys[i..]);
    }
    assert keys[|keys|..] == [];
    assert r + [] + [] == r;
  }

  lemma {:induction false} FirstKeysGrow(objs: seq<seq<Entry>>, es: seq<Entry>, signature: Bytes)
    ensures FirstKeys(objs + [es], signature)
         == if FirstKeys(objs, signature).Some? then FirstKeys(objs, signature)
            else if Signature(es) == signature then Some(SortedKeys(es)) else None
  {
    hide Signature, SortedKeys;
    if objs == [] {
      assert [] + [es] == [es] && [es][1..] == [];
    } else {
      FirstKeysGrow(objs[1..], es, signature);
      assert (objs + [es])[1..] == objs[1..] + [es];
    }
  }

  lemma CountGrow(objs: seq<seq<Entry>>, es: seq<Entry>, signature: Bytes)
    ensures Count(objs + [es], signature) == Count(objs, signature) + (if Signature(es) == signature then 1 else 0)
  {
    hide Signature;
    var all := objs + [es];
    assert all[..|all| - 1] == objs && all[|all| - 1] == es;
  }

  /** The two maps tronDiscoverSchemas fills: how often each signature occurs, and its first keys. */
  class Discovery {
    var firstKeys: map<Bytes, seq<Bytes>>
    var counts: map<Bytes, nat>

    /** The maps describe exactly these objects. */
    ghost predicate Tallies(objs: seq<seq<Entry>>)
      reads this
    {
      && (forall s :: s in counts <==> FirstKeys(objs, s).Some?)
      && (forall s :: s in firstKeys <==> FirstKeys(objs, s).Some?)
      && (forall s :: s in counts ==> counts[s] == Count(objs, s))
      && (forall s :: s in firstKeys ==> FirstKeys(objs, s) == Some(firstKeys[s]))
    }

    constructor ()
      ensures Tallies([])
    {
      firstKeys := map[];
      counts := map[];
    }

    method Tally(es: seq<Entry>, ghost seen: seq<seq<Entry>>)
      requires Tallies(seen) && es != []
      modifies this
      ensures Tallies(seen + [es])
    {
      hide Signature, SortedKeys, Count, FirstKeys;
      var signature := SchemaSignature(es);
      NeverCounted(seen, signature);
      counts := counts[signature := (if signature in counts then counts[signature] else 0) + 1];
      if signature !in firstKeys {
        firstKeys := firstKeys[signature := SortedKeys(es)];
      }
      forall s ensures FirstKeys(seen + [es], s)
         == (if FirstKeys(seen, s).Some? then FirstKeys(seen, s) else if Signature(es) == s then Some(SortedKeys(es)) else None)
         && Count(seen + [es], s) == Count(seen, s) + (if Signature(es) == s then 1 else 0)
      {
        FirstKeysGrow(seen, es, s);
        CountGrow(seen, es, s);
      }
    }

    /** Walks a document, each object before those inside it. */
    method Discover(d: Doc, ghost seen: seq<seq<Entry>>)
      requires Tallies(seen)
      modifies this
      ensures Tallies(seen + Objects(d))
      decreases d, 1
    {
      hide Tallies;
      match d
      case Atom(_) =>
        assert seen + [] == seen;
      case List(items) =>
        DiscoverItems(items, seen);
      case Table(es) =>
        if es == [] {
          assert ([] + ObjectsUnder([])) == [];
          assert seen + [] == seen;
        } else {
          Tally(es, seen);
          DiscoverMembers(es, seen + [es]);
          assert seen + [es] + ObjectsUnder(es) == seen + ([es] + ObjectsUnder(es));
        }
    }

    method DiscoverItems(items: seq<Doc>, ghost seen: seq<seq<Entry>>)
      requires Tallies(seen)
      modifies this
      ensures Tallies(seen + ObjectsIn(items))
      decreases items, 0
    {
      hide Tallies, Objects;
      ghost var done := seen;
      for i := 0 to |items|
        invariant Tallies(done)
        invariant done + ObjectsIn(items[i..]) == seen + ObjectsIn(items)
      {
        Discover(items[i], done);
        assert items[i..][1..] == items[i + 1..];
        assert done + ObjectsIn(items[i..]) == (done + Objects(items[i])) + ObjectsIn(items[i + 1..]);
        done := done + Objects(items[i]);
      }
      assert done + [] == done;
    }

    method DiscoverMembers(es: seq<Entry>, ghost seen: seq<seq<Entry>>)
      requires Tallies(seen)
      modifies this
      ensures Tallies(seen + ObjectsUnder(es))
      decreases es, 0
    {
      hide Tallies, Objects;
      ghost var done := seen;
      for i := 0 to |es|
        invariant Tallies(done)
        invariant done + ObjectsUnder(es[i..]) == seen + ObjectsUnder(es)
      {
        Discover(es[i].doc, done);
        assert es[i..][1..] == es[i + 1..];
        assert done + ObjectsUnder(es[i..]) == (done + Objects(es[i].doc)) + ObjectsUnder(es[i + 1..]);
        done := done + Objects(es[i].doc);
      }
      assert done + [] == done;
    }
  }

  lemma {:induction false} NeverCounted(objs: seq<seq<Entry>>, signature: Bytes)
    ensures FirstKeys(objs, signature).None? ==> Count(objs, signature) == 0
  {
    hide Signature, SortedKeys;
    if objs != [] {
      var n := |objs| - 1;
      NeverCounted(objs[..n], signature);
      assert objs[..n] + [objs[n]] == objs;
      FirstKeysGrow(objs[..n], objs[n], signature);
    }
  }

  /** The qualifying signatures in the order the hash table happens to enumerate them, each with its keys. */
  method Qualified(disc: Discovery, ghost d: Doc) returns (order: seq<Bytes>)
    requires disc.Tallies(Objects(d))
    ensures forall i, j :: 0 <= i < j < |order| ==> order[i] != order[j]
    ensures forall s :: s in order <==> Qualifies(Objects(d), s)
    ensures forall s :: s in order ==> s in disc.firstKeys
  {
    hide Objects;
    order := [];
    var remaining := disc.firstKeys.Keys;
    while remaining != {}
      invariant remaining <= disc.firstKeys.Keys
      invariant forall i, j :: 0 <= i < j < |order| ==> order[i] != order[j]
      invariant forall s :: s in order ==> s in disc.firstKeys && s !in remaining && Qualifies(Objects(d), s)
      invariant forall s :: s in disc.firstKeys && s !in remaining && Qualifies(Objects(d), s) ==> s in order
      decreases |remaining|
    {
      var signature :| signature in remaining;
      remaining := remaining - {signature};
      if signature in disc.counts && |disc.firstKeys[signature]| > 1 && disc.counts[signature] > 1 {
        order := order + [signature];
      }
    }
  }

  // ---------- Naming ----------

  /** The two maps hold exactly the classes: names by signature, keys by name. */
  ghost predicate Mirrors(sigToClass: map<Bytes, Bytes>, classKeys: map<Bytes, seq<Bytes>>, cs: seq<Class>)
  {
    && (forall s :: s in sigToClass <==> Lookup(cs, s).Some?)
    && (forall s :: s in sigToClass ==> sigToClass[s] == Lookup(cs, s).value.name)
    && (forall c :: c in cs ==> c.name in classKeys && classKeys[c.name] == c.keys)
  }

  lemma {:induction false} LookupGrows(cs: seq<Class>, c: Class, signature: Bytes)
    ensures Lookup(cs + [c], signature)
         == if Lookup(cs, signature).Some? then Lookup(cs, signature) else if c.signature == signature then Some(c) else None
  {
    if cs == [] {
      assert [] + [c] == [c] && [c][1..] == [];
    } else {
      LookupGrows(cs[1..], c, signature);
      assert (cs + [c])[1..] == cs[1..] + [c];
    }
  }

  lemma MirrorsGrow(sigToClass: map<Bytes, Bytes>, classKeys: map<Bytes, seq<Bytes>>, cs: seq<Class>, c: Class)
    requires Mirrors(sigToClass, classKeys, cs)
    requires forall k :: k in cs ==> k.name != c.name && k.signature != c.signature
    ensures Mirrors(sigToClass[c.signature := c.name], classKeys[c.name := c.keys], cs + [c])
  {
    hide Lookup;
    forall s ensures Lookup(cs + [c], s)
         == (if Lookup(cs, s).Some? then Lookup(cs, s) else if c.signature == s then Some(c) else None)
    {
      LookupGrows(cs, c, s);
    }
  }

  method Name(disc: Discovery, order: seq<Bytes>, ghost d: Doc)
    returns (sigToClass: map<Bytes, Bytes>, classKeys: map<Bytes, seq<Bytes>>, cs: seq<Class>)
    requires disc.Tallies(Objects(d))
    requires forall i, j :: 0 <= i < j < |order| ==> order[i] != order[j]
    requires forall s :: s in order <==> Qualifies(Objects(d), s)
    requires forall s :: s in order ==> s in disc.firstKeys
    ensures Chosen(d, cs) && Mirrors(sigToClass, classKeys, cs)
  {
    hide Objects, ClassName, Mirrors, disc.Tallies, Chosen, Qualifies;
    sigToClass, classKeys, cs := map[], map[], [];
    NothingMirrored();
    for idx := 0 to |order|
      invariant |cs| == idx && Mirrors(sigToClass, classKeys, cs)
      invariant forall i :: 0 <= i < idx ==>
        order[i] in disc.firstKeys && cs[i] == Class(order[i], ClassName(i), disc.firstKeys[order[i]])
    {
      var signature := order[idx];
      var c := Class(signature, ClassName(idx), disc.firstKeys[signature]);
      forall k | k in cs ensures k.name != c.name && k.signature != signature {
        var i :| 0 <= i < idx && cs[i] == k;
        ClassNamesDistinct(i, idx);
      }
      MirrorsGrow(sigToClass, classKeys, cs, c);
      sigToClass := sigToClass[signature := c.name];
      classKeys := classKeys[c.name := c.keys];
      cs := cs + [c];
    }
    ChosenBy(disc, order, cs, d);
  }

  lemma NothingMirrored()
    ensures Mirrors(map[], map[], [])
  {
  }

  lemma ChosenBy(disc: Discovery, order: seq<Bytes>, cs: seq<Class>, d: Doc)
    requires disc.Tallies(Objects(d)) && |cs| == |order|
    requires forall i, j :: 0 <= i < j < |order| ==> order[i] != order[j]
    requires forall s :: s in order <==> Qualifies(Objects(d), s)
    requires forall s :: s in order ==> s in disc.firstKeys
    requires forall i :: 0 <= i < |cs| ==> cs[i] == Class(order[i], ClassName(i), disc.firstKeys[order[i]])
    ensures Chosen(d, cs)
  {
    hide Objects, ClassName, Count, FirstKeys, Qualifies;
    forall s | Qualifies(Objects(d), s) ensures exists i :: 0 <= i < |cs| && cs[i].signature == s {
      var i :| 0 <= i < |order| && order[i] == s;
      assert cs[i].signature == s;
    }
    forall i | 0 <= i < |cs|
      ensures Qualifies(Objects(d), cs[i].signature) && FirstKeys(Objects(d), cs[i].signature) == Some(cs[i].keys)
    {
      assert order[i] in order;
    }
  }

  // ---------- Header ----------

  /** Smaller classes first, equal ones by name. */
  predicate Before(a: Class, b: Class)
  {
    if |a.keys| != |b.keys| then |a.keys| < |b.keys| else Less(a.name, b.name)
  }

  ghost predicate Ordered(cs: seq<Class>)
  {
    forall i, j :: 0 <= i < j < |cs| ==> !Before(cs[j], cs[i])
  }

  lemma BeforeOrders(a: Class, b: Class, c: Class)
    ensures Before(a, b) ==> !Before(b, a)
    ensures Before(a, b) && !Before(c, b) ==> !Before(c, a)
  {
    if Less(a.name, b.name) { LessAsymmetric(a.name, b.name); }
    LessTotal(b.name, c.name);
    if Less(c.name, a.name) && Less(a.name, b.name) { LessTransitive(c.name, a.name, b.name); }
  }

  method SortHeader(cs: seq<Class>) returns (header: seq<Class>)
    requires DistinctNames(cs)
    ensures Ordered(header) && DistinctNames(header) && forall c :: c in header <==> c in cs
  {
    hide Before;
    header := [];
    for i := 0 to |cs|
      invariant Ordered(header) && DistinctNames(header)
      invariant forall c :: c in header <==> c in cs[..i]
    {
      ghost var before := header;
      var j := 0;
      while j < |header| && !Before(cs[i], header[j])
        invariant 0 <= j <= |header|
        invariant forall k :: 0 <= k < j ==> !Before(cs[i], header[k])
      {
        j := j + 1;
      }
      forall k | j <= k < |header| ensures !Before(header[k], cs[i]) {
        BeforeOrders(cs[i], header[j], header[k]);
        if k == j { BeforeOrders(cs[i], header[j], header[j]); }
      }
      forall k | 0 <= k < |header| ensures header[k].name != cs[i].name {
        assert header[k] in cs[..i];
      }
      header := header[..j] + [cs[i]] + header[j..];
      assert before == before[..j] + before[j..];
      assert cs[..i + 1] == cs[..i] + [cs[i]];
    }
    assert cs[..|cs|] == cs;
  }

  method AppendHeader(header: seq<Class>, out: Buffer)
    modifies out
    ensures out.bytes == old(out.bytes) + HeaderText(header)
  {
    hide HeaderText, ClassText;
    assert header[0..] == header;
    for i := 0 to |header|
      invariant out.bytes + HeaderText(header[i..]) == old(out.bytes) + HeaderText(header)
    {
      ghost var before := out.bytes;
      AppendClass(header[i], out);
      assert header[i..][1..] == header[i + 1..];
      HeaderStep(header[i..]);
      assert before + HeaderText(header[i..]) == out.bytes + HeaderText(header[i + 1..]);
    }
    assert header[|header|..] == [];
    HeaderStep([]);
    assert out.bytes + [] == out.bytes;
  }

  lemma HeaderStep(cs: seq<Class>)
    ensures HeaderText(cs) == if cs == [] then [] else ClassText(cs[0]) + HeaderText(cs[1..])
  {
    hide ClassText;
  }

  method AppendClass(c: Class, out: Buffer)
    modifies out
    ensures out.bytes == old(out.bytes) + ClassText(c)
  {
    hide KeysText;
    ghost var before := out.bytes;
    out.Append(CLASS_WORD + [SPACE] + c.name + [COLON]);
    AppendKeys(c.keys, out);
    out.Push(NEWLINE);
    assert out.bytes == before + (CLASS_WORD + ([SPACE] + (c.name + ([COLON] + (KeysText(c.keys) + [NEWLINE])))));
  }

  method AppendKeys(keys: seq<Bytes>, out: Buffer)
    modifies out
    ensures out.bytes == old(out.bytes) + KeysText(keys)
  {
    hide Json.Quoted, KeysText, KeysFrom;
    ghost var before := out.bytes;
    KeysEnds(keys);
    for i := 0 to |keys|
      invariant out.bytes + KeysFrom(keys, i) == before + KeysText(keys)
    {
      KeysStep(keys, i, out.bytes);
      if i > 0 { out.Push(COMMA); }
      JsonPrinter.AppendQuoted(out, keys[i]);
    }
    assert out.bytes + [] == out.bytes;
  }

  lemma KeysStep(keys: seq<Bytes>, i: nat, written: Bytes)
    requires i < |keys|
    ensures written + KeysFrom(keys, i)
         == (written + (if i == 0 then [] else [COMMA])) + Json.Quoted(keys[i]) + KeysFrom(keys, i + 1)
  {
    hide Json.Quoted;
    assert keys[i..][1..] == keys[i + 1..];
  }

  lemma KeysEnds(keys: seq<Bytes>)
    ensures KeysFrom(keys, 0) == KeysText(keys) && KeysFrom(keys, |keys|) == []
  {
    assert keys[0..] == keys;
  }

  function KeysFrom(keys: seq<Bytes>, i: nat): (r: Bytes)
    requires i <= |keys|
  {
    if i == |keys| then [] else (if i == 0 then [] else [COMMA]) + KeysText(keys[i..])
  }

  // ---------- Values ----------

  function TextsFrom(plat: Json.Platform, ts: seq<Tree>, i: nat): (r: Bytes)
    requires i <= |ts|
  {
    if i == |ts| then [] else (if i == 0 then [] else [COMMA]) + TextsOf(plat, ts[i..])
  }

  lemma TextsStep(plat: Json.Platform, ts: seq<Tree>, i: nat, written: Bytes)
    requires i < |ts|
    ensures written + TextsFrom(plat, ts, i)
         == (written + (if i == 0 then [] else [COMMA])) + TextOf(plat, ts[i]) + TextsFrom(plat, ts, i + 1)
  {
    hide TextOf;
    assert ts[i..][1..] == ts[i + 1..];
  }

  lemma TextsEnds(plat: Json.Platform, ts: seq<Tree>)
    ensures TextsFrom(plat, ts, 0) == TextsOf(plat, ts) && TextsFrom(plat, ts, |ts|) == []
  {
    assert ts[0..] == ts;
  }

  function MembersFrom(plat: Json.Platform, ts: seq<Tree>, keys: seq<Bytes>, i: nat): (r: Bytes)
    requires i <= |ts| == |keys|
  {
    if i == |ts| then [] else (if i == 0 then [] else [COMMA]) + MembersText(plat, ts[i..], keys[i..])
  }

  lemma MembersStep(plat: Json.Platform, ts: seq<Tree>, keys: seq<Bytes>, i: nat, written: Bytes)
    requires i < |ts| == |keys|
    ensures written + MembersFrom(plat, ts, keys, i)
         == (written + (if i == 0 then [] else [COMMA])) + Json.Quoted(keys[i]) + [COLON] + TextOf(plat, ts[i])
            + MembersFrom(plat, ts, keys, i + 1)
  {
    hide TextOf, Json.Quoted;
    assert ts[i..][1..] == ts[i + 1..] && keys[i..][1..] == keys[i + 1..];
  }

  lemma MembersEnds(plat: Json.Platform, ts: seq<Tree>, keys: seq<Bytes>)
    requires |ts| == |keys|
    ensures MembersFrom(plat, ts, keys, 0) == MembersText(plat, ts, keys) && MembersFrom(plat, ts, keys, |ts|) == []
  {
    assert ts[0..] == ts && keys[0..] == keys;
  }

  lemma {:induction false} HoistAllAt(cs: seq<Class>, ds: seq<Doc>)
    ensures forall i :: 0 <= i < |ds| ==> HoistAll(cs, ds)[i] == Hoist(cs, ds[i])
  {
    hide Hoist;
    if ds != [] { HoistAllAt(cs, ds[1..]); }
  }

  lemma {:induction false} HoistEntriesAt(cs: seq<Class>, es: seq<Entry>)
    ensures forall i :: 0 <= i < |es| ==> HoistEntries(cs, es)[i] == Hoist(cs, es[i].doc)
  {
    hide Hoist;
    if es != [] { HoistEntriesAt(cs, es[1..]); }
  }

  /** tronSerializeVal: appends the text of the hoisted tree. */
  method SerializeValue(plat: Json.Platform, d: Doc, sigToClass: map<Bytes, Bytes>, classKeys: map<Bytes, seq<Bytes>>,
                        ghost cs: seq<Class>, out: Buffer)
    requires Mirrors(sigToClass, classKeys, cs)
    modifies out
    ensures out.bytes == old(out.bytes) + TextOf(plat, Hoist(cs, d))
    decreases d, 1
  {
    hide ScalarText, TextsOf, MembersText, Signature, Arrange, HoistAll, HoistEntries;
    match d
    case Atom(s) => AppendScalar(plat, s, out);
    case List(items) => SerializeArray(plat, items, sigToClass, classKeys, cs, out);
    case Table(es) =>
      if es == [] {
        EmptyTable(plat, cs);
        out.Append([LBRACE, RBRACE]);
      } else {
        var signature := SchemaSignature(es);
        if signature in sigToClass {
          var name := sigToClass[signature];
          SerializeInstance(plat, es, name, classKeys[name], sigToClass, classKeys, cs, out);
        } else {
          SerializeObject(plat, es, sigToClass, classKeys, cs, out);
        }
      }
  }

  lemma EmptyTable(plat: Json.Platform, cs: seq<Class>)
    ensures TextOf(plat, Hoist(cs, Table([]))) == [LBRACE, RBRACE]
  {
  }

  method SerializeArray(plat: Json.Platform, items: seq<Doc>, sigToClass: map<Bytes, Bytes>,
                        classKeys: map<Bytes, seq<Bytes>>, ghost cs: seq<Class>, out: Buffer)
    requires Mirrors(sigToClass, classKeys, cs)
    modifies out
    ensures out.bytes == old(out.bytes) + TextOf(plat, Listing(HoistAll(cs, items)))
    decreases items, 1
  {
    hide TextsOf, Hoist, HoistAll, Mirrors;
    ghost var before, ts := out.bytes, HoistAll(cs, items);
    out.Push(LBRACKET);
    SerializeItems(plat, items, sigToClass, classKeys, cs, out);
    out.Push(RBRACKET);
    assert out.bytes == before + ([LBRACKET] + (TextsOf(plat, ts) + [RBRACKET]));
  }

  method SerializeItems(plat: Json.Platform, items: seq<Doc>, sigToClass: map<Bytes, Bytes>,
                        classKeys: map<Bytes, seq<Bytes>>, ghost cs: seq<Class>, out: Buffer)
    requires Mirrors(sigToClass, classKeys, cs)
    modifies out
    ensures out.bytes == old(out.bytes) + TextsOf(plat, HoistAll(cs, items))
    decreases items, 0
  {
    hide TextsOf, TextsFrom, TextOf, Hoist, HoistAll, Mirrors;
    ghost var before, ts := out.bytes, HoistAll(cs, items);
    HoistAllAt(cs, items);
    TextsEnds(plat, ts);
    for i := 0 to |items|
      invariant out.bytes + TextsFrom(plat, ts, i) == before + TextsOf(plat, ts)
    {
      TextsStep(plat, ts, i, out.bytes);
      if i > 0 { out.Push(COMMA); }
      SerializeValue(plat, items[i], sigToClass, classKeys, cs, out);
    }
    assert out.bytes + [] == out.bytes;
  }

  method SerializeObject(plat: Json.Platform, es: seq<Entry>, sigToClass: map<Bytes, Bytes>,
                         classKeys: map<Bytes, seq<Bytes>>, ghost cs: seq<Class>, out: Buffer)
    requires Mirrors(sigToClass, classKeys, cs)
    modifies out
    ensures out.bytes == old(out.bytes) + TextOf(plat, Plain(HoistEntries(cs, es), Keys(es)))
    decreases es, 1
  {
    hide MembersText, Hoist, HoistEntries, Mirrors;
    ghost var before, ts := out.bytes, HoistEntries(cs, es);
    out.Push(LBRACE);
    SerializeMembers(plat, es, sigToClass, classKeys, cs, out);
    out.Push(RBRACE);
    HoistEntriesAt(cs, es);
    assert out.bytes == before + ([LBRACE] + (MembersText(plat, ts, Keys(es)) + [RBRACE]));
  }

  method SerializeMembers(plat: Json.Platform, es: seq<Entry>, sigToClass: map<Bytes, Bytes>,
                          classKeys: map<Bytes, seq<Bytes>>, ghost cs: seq<Class>, out: Buffer)
    requires Mirrors(sigToClass, classKeys, cs)
    modifies out
    ensures out.bytes == old(out.bytes) + MembersText(plat, HoistEntries(cs, es), Keys(es))
    decreases es, 0
  {
    hide MembersText, MembersFrom, Hoist, HoistEntries, TextOf, Json.Quoted, Mirrors;
    ghost var before, ts, keys := out.bytes, HoistEntries(cs, es), Keys(es);
    HoistEntriesAt(cs, es);
    MembersEnds(plat, ts, keys);
    var first := true;
    for i := 0 to |es|
      invariant first <==> i == 0
      invariant out.bytes + MembersFrom(plat, ts, keys, i) == before + MembersText(plat, ts, keys)
    {
      MembersStep(plat, ts, keys, i, out.bytes);
      if !first { out.Push(COMMA); }
      first := false;
      JsonPrinter.AppendQuoted(out, es[i].key);
      out.Push(COLON);
      SerializeValue(plat, es[i].doc, sigToClass, classKeys, cs, out);
    }
    assert out.bytes + [] == out.bytes;
  }

  method SerializeInstance(plat: Json.Platform, es: seq<Entry>, name: Bytes, keys: seq<Bytes>, sigToClass: map<Bytes, Bytes>,
                           classKeys: map<Bytes, seq<Bytes>>, ghost cs: seq<Class>, out: Buffer)
    requires Mirrors(sigToClass, classKeys, cs)
    modifies out
    ensures out.bytes == old(out.bytes) + TextOf(plat, Instance(name, Arrange(es, HoistEntries(cs, es), keys)))
    decreases es, 1
  {
    hide TextsOf, Hoist, HoistEntries, Arrange, Mirrors;
    ghost var before, ts := out.bytes, Arrange(es, HoistEntries(cs, es), keys);
    out.Append(name);
    out.Push(LPAREN);
    SerializeArgs(plat, es, keys, sigToClass, classKeys, cs, out);
    out.Push(RPAREN);
    assert out.bytes == before + (name + ([LPAREN] + (TextsOf(plat, ts) + [RPAREN])));
  }

  method SerializeArgs(plat: Json.Platform, es: seq<Entry>, keys: seq<Bytes>, sigToClass: map<Bytes, Bytes>,
                       classKeys: map<Bytes, seq<Bytes>>, ghost cs: seq<Class>, out: Buffer)
    requires Mirrors(sigToClass, classKeys, cs)
    modifies out
    ensures out.bytes == old(out.bytes) + TextsOf(plat, Arrange(es, HoistEntries(cs, es), keys))
    decreases es, 0
  {
    hide TextsOf, TextsFrom, Hoist, HoistEntries, Arrange, TextOf, Mirrors;
    ghost var before, ts := out.bytes, Arrange(es, HoistEntries(cs, es), keys);
    HoistEntriesAt(cs, es);
    ArrangeAt(es, HoistEntries(cs, es), keys);
    TextsEnds(plat, ts);
    NullText(plat);
    for i := 0 to |keys|
      invariant out.bytes + TextsFrom(plat, ts, i) == before + TextsOf(plat, ts)
    {
      TextsStep(plat, ts, i, out.bytes);
      if i > 0 { out.Push(COMMA); }
      var child := IndexOf(es, keys[i]);
      if child.Some? {
        SerializeValue(plat, es[child.value].doc, sigToClass, classKeys, cs, out);
      } else {
        out.Append(Json.NULL_TEXT);
      }
    }
    assert out.bytes + [] == out.bytes;
  }

  lemma NullText(plat: Json.Platform)
    ensures TextOf(plat, Token(Null)) == Json.NULL_TEXT
  {
  }

  method AppendScalar(plat: Json.Platform, s: Scalar, out: Buffer)
    modifies out
    ensures out.bytes == old(out.bytes) + ScalarText(plat, s)
  {
    hide Json.Quoted, Base64.Encode, Json.Hex;
    if IsString(s) {
      AppendString(s, out);
    } else if s.Timestamp? {
      out.Append(Decimal(s.seconds));
    } else {
      TokenIsPlain(plat, s);
      JsonPrinter.AppendToken(plat, s, out);
      assert out.bytes == old(out.bytes) + Json.Render(plat, Atom(s), false, 0);
    }
  }

  lemma TokenIsPlain(plat: Json.Platform, s: Scalar)
    requires !IsString(s) && !s.Timestamp?
    ensures Json.Render(plat, Atom(s), false, 0) == Json.PlainToken(plat, s)
  {
  }

  lemma {:induction false} EscapeConcat(a: Bytes, b: Bytes)
    ensures Escape(a + b) == Escape(a) + Escape(b)
  {
    hide EscapeByte;
    if a == [] {
      assert [] + b == b;
    } else {
      EscapeConcat(a[1..], b);
      assert (a + b)[1..] == a[1..] + b;
      assert EscapeByte(a[0]) + (Escape(a[1..]) + Escape(b)) == (EscapeByte(a[0]) + Escape(a[1..])) + Escape(b);
    }
  }

  lemma VerbatimConcat(a: Bytes, b: Bytes)
    requires JsonFaithful.AllVerbatim(a) && JsonFaithful.AllVerbatim(b)
    ensures JsonFaithful.AllVerbatim(a + b)
  {
  }

  /** Strings are escaped; marked forms need no escaping and are appended as they are. */
  method AppendString(s: Scalar, out: Buffer)
    requires IsString(s)
    modifies out
    ensures out.bytes == old(out.bytes) + Json.Quoted(StringOf(s))
  {
    hide Escape, StringOf;
    out.Push(QUOTE);
    AppendForm(s, out);
    out.Push(QUOTE);
    assert out.bytes == old(out.bytes) + ([QUOTE] + Escape(StringOf(s)) + [QUOTE]);
  }

  /** What stands between the quotes. */
  method AppendForm(s: Scalar, out: Buffer)
    requires IsString(s)
    modifies out
    ensures out.bytes == old(out.bytes) + Escape(StringOf(s))
  {
    hide Escape, Base64.Encode, Json.Hex, LastIndexOf, Decimal, JsonFaithful.AllVerbatim;
    ghost var before := out.bytes;
    match s {
      case Text(t, _) => JsonPrinter.AppendEscaped(out, t);
      case Binary(data) =>
        BinaryVerbatim(data);
        out.Append(B64_PREFIX);
        var text := Base64Codec.EncodeBlocks(Base64.Default(), data);
        out.Append(text);
        assert out.bytes == before + (B64_PREFIX + text);
      case ObjectId(oid) =>
        JsonFaithful.HexVerbatim(oid);
        JsonFaithful.EscapeVerbatim(Json.Hex(oid));
        JsonPrinter.AppendHex(out, oid);
      case Regex(source) => AppendRegexText(source, out);
      case Extension(t, payload) =>
        ExtensionVerbatim(t, payload);
        out.Append(EXT_PREFIX);
        out.Append(Decimal(t));
        out.Append(SEPARATOR);
        var text := Base64Codec.EncodeBlocks(Base64.Default(), payload);
        out.Append(text);
        assert out.bytes == before + (EXT_PREFIX + Decimal(t) + SEPARATOR + text);
    }
  }

  lemma BinaryVerbatim(data: Bytes)
    ensures Escape(StringOf(Binary(data))) == StringOf(Binary(data))
  {
    hide Escape, Base64.Encode;
    JsonFaithful.EncodedVerbatim(data);
    VerbatimConcat(B64_PREFIX, Base64.Encode(Base64.Default(), data));
    JsonFaithful.EscapeVerbatim(StringOf(Binary(data)));
  }

  lemma ExtensionVerbatim(t: Int8, payload: Bytes)
    ensures Escape(StringOf(Extension(t, payload))) == StringOf(Extension(t, payload))
  {
    hide Escape, Base64.Encode, Decimal;
    var text := Base64.Encode(Base64.Default(), payload);
    JsonFaithful.EncodedVerbatim(payload);
    DecimalBytes(t);
    VerbatimConcat(EXT_PREFIX, Decimal(t));
    VerbatimConcat(EXT_PREFIX + Decimal(t), SEPARATOR);
    VerbatimConcat(EXT_PREFIX + Decimal(t) + SEPARATOR, text);
    JsonFaithful.EscapeVerbatim(EXT_PREFIX + Decimal(t) + SEPARATOR + text);
  }

  lemma RegexEscaped(source: Bytes)
    ensures var k := LastIndexOf(source, 0);
      Escape(StringOf(Regex(source)))
      == if k >= 0 then Escape(source[..k]) + [BAR] + Escape(source[k + 1..]) else Escape(source)
  {
    hide Escape, LastIndexOf;
    var k := LastIndexOf(source, 0);
    if k >= 0 {
      var p, o := source[..k], source[k + 1..];
      EscapeConcat(p + [BAR], o);
      EscapeConcat(p, [BAR]);
      BarVerbatim();
    }
  }

  /** Pattern, bar, options: escaped part by part. */
  method AppendRegexText(source: Bytes, out: Buffer)
    modifies out
    ensures out.bytes == old(out.bytes) + Escape(StringOf(Regex(source)))
  {
    hide Escape, LastIndexOf, StringOf;
    ghost var before := out.bytes;
    RegexEscaped(source);
    var sep := LastIndexOf(source, 0);
    if sep >= 0 {
      var p, o := source[..sep], source[sep + 1..];
      JsonPrinter.AppendEscaped(out, p);
      out.Push(BAR);
      JsonPrinter.AppendEscaped(out, o);
      assert out.bytes == before + (Escape(p) + [BAR] + Escape(o));
    } else {
      JsonPrinter.AppendEscaped(out, source);
    }
  }

  lemma BarVerbatim()
    ensures Escape([BAR]) == [BAR]
  {
    JsonFaithful.EscapeVerbatim([BAR]);
  }

  /** Class definitions, an empty line if there are any, the root value. */
  method PrintDocument(plat: Json.Platform, d: Doc, header: seq<Class>, sigToClass: map<Bytes, Bytes>,
                       classKeys: map<Bytes, seq<Bytes>>, ghost cs: seq<Class>) returns (text: Bytes)
    requires Mirrors(sigToClass, classKeys, cs)
    ensures text == DocumentText(plat, header, cs, d)
  {
    hide Mirrors, Hoist, TextOf, HeaderText;
    var out := new Buffer();
    AppendHeader(header, out);
    if header != [] { out.Push(NEWLINE); }
    SerializeValue(plat, d, sigToClass, classKeys, cs, out);
    out.Push(NEWLINE);
    text := out.bytes;
    assert text == HeaderText(header) + ((if header == [] then [] else [NEWLINE]) + (TextOf(plat, Hoist(cs, d)) + [NEWLINE]));
  }

  /** toTRON: discovers, names, defines and prints. */
  method ToTron(plat: Json.Platform, d: Doc) returns (text: Bytes, header: seq<Class>, cs: seq<Class>)
    ensures Chosen(d, cs) && Ordered(header) && DistinctNames(header) && (forall c :: c in header <==> c in cs)
    ensures text == DocumentText(plat, header, cs, d)
  {
    hide *;
    var disc := new Discovery();
    disc.Discover(d, []);
    assert [] + Objects(d) == Objects(d);
    var order := Qualified(disc, d);
    var sigToClass, classKeys;
    sigToClass, classKeys, cs := Name(disc, order, d);
    ChosenNames(d, cs);
    header := SortHeader(cs);
    text := PrintDocument(plat, d, header, sigToClass, classKeys, cs);
  }

  lemma ChosenNames(d: Doc, cs: seq<Class>)
    requires Chosen(d, cs)
    ensures DistinctNames(cs)
  {
    hide ClassName;
    forall i, j | 0 <= i < j < |cs| ensures cs[i].name != cs[j].name { ClassNamesDistinct(i, j); }
  }
}
