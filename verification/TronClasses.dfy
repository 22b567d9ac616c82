/** TRON class definitions: property lists, parents, and whole documents that use them. */
module TronClasses {
  import opened Bytes
  import opened Values
  import opened Text
  import opened Tron
  import opened TronProofs
  import opened TronGrammar
  import Json
  import TronDocument

  // ---------- Syntax ----------

  /** A property name, bare or quoted, and what separates it from the next. */
  datatype Prop = Prop(name: Tok, before: seq<Tok>, comma: bool, after: seq<Tok>)

  datatype Definition = Definition(name: Bytes, parent: Option<Bytes>, gap: seq<Tok>, props: seq<Prop>)

  ghost predicate PropsOk(ps: seq<Prop>)
  {
    && (forall i :: 0 <= i < |ps| ==>
         && (ps[i].name.Ident? || ps[i].name.Str?) && Breaks(ps[i].before) && Breaks(ps[i].after)
         && (!ps[i].comma ==> ps[i].after == []))
    && forall i :: 0 <= i < |ps| - 1 ==> ps[i].comma
  }

  ghost predicate DefinitionOk(d: Definition) { d.props != [] && Breaks(d.gap) && PropsOk(d.props) }

  function PropToks(p: Prop): (r: seq<Tok>)
  {
    [p.name] + (p.before + (if p.comma then [Punct(COMMA)] + p.after else []))
  }

  function PropsToks(ps: seq<Prop>): (r: seq<Tok>)
  {
    if ps == [] then [] else PropToks(ps[0]) + PropsToks(ps[1..])
  }

  function ParentToks(d: Definition): (r: seq<Tok>)
  {
    match d.parent case None => [] case Some(parent) => [Punct(LPAREN), Ident(parent), Punct(RPAREN)]
  }

  function DefinitionToks(d: Definition): (r: seq<Tok>)
  {
    [Keyword, Ident(d.name)] + (ParentToks(d) + ([Punct(COLON)] + (d.gap + PropsToks(d.props))))
  }

  function DefinitionsToks(ds: seq<Definition>): (r: seq<Tok>)
  {
    if ds == [] then [] else DefinitionToks(ds[0]) + DefinitionsToks(ds[1..])
  }

  // ---------- Meaning ----------

  /** The names of a list, if each can be unescaped. */
  function NamesOf(ps: seq<Prop>): (r: Option<seq<Bytes>>)
  {
    if ps == [] then Some([])
    else
      match (NameOf(ps[0].name), NamesOf(ps[1..]))
      case (Some(k), Some(ks)) => Some([k] + ks)
      case _ => None
  }

  /** The members of `own` that are neither among `inherited` nor repeated, in order. */
  function Added(inherited: seq<Bytes>, own: seq<Bytes>): (r: seq<Bytes>)
  {
    if own == [] then []
    else
      var init, k := own[..|own| - 1], own[|own| - 1];
      Added(inherited, init) + (if k in inherited || k in init then [] else [k])
  }

  /** The properties of each class: those of its parent, then its own that are new. None where a parent is not declared
      or a name is malformed. */
  function DeclareAll(ds: seq<Definition>, cs: Classes): (r: Option<Classes>)
  {
    if ds == [] then Some(cs)
    else
      match (if ds[0].parent.None? then Some([]) else if ds[0].parent.value in cs then Some(cs[ds[0].parent.value]) else None)
      case None => None
      case Some(inherited) =>
        match NamesOf(ds[0].props)
        case None => None
        case Some(own) => DeclareAll(ds[1..], cs[ds[0].name := inherited + Added(inherited, own)])
  }

  // ---------- Inheritance ----------

  lemma {:induction false} AddedHas(inherited: seq<Bytes>, own: seq<Bytes>, k: Bytes)
    ensures k in Added(inherited, own) <==> k in own && k !in inherited
  {
    if own != [] {
      var init := own[..|own| - 1];
      AddedHas(inherited, init, k);
      assert own == init + [own[|own| - 1]];
    }
  }

  /** One more name in front. */
  lemma {:induction false} AddedFirst(inherited: seq<Bytes>, k: Bytes, own: seq<Bytes>)
    ensures inherited + Added(inherited, [k] + own)
         == if k in inherited then inherited + Added(inherited, own)
            else inherited + [k] + Added(inherited + [k], own)
    decreases |own|
  {
    var all := [k] + own;
    if own == [] {
      assert all[..0] == [];
      assert Added(inherited, []) == [] && Added(inherited + [k], []) == [];
    } else {
      var init, last := own[..|own| - 1], own[|own| - 1];
      assert all[..|all| - 1] == [k] + init && all[|all| - 1] == last;
      AddedFirst(inherited, k, init);
      AddedUnfold(inherited, all);
      AddedUnfold(inherited, own);
      AddedUnfold(inherited + [k], own);
      AddedRegroup(inherited, k, own);
    }
  }

  lemma AddedUnfold(inherited: seq<Bytes>, own: seq<Bytes>)
    requires own != []
    ensures var init, k := own[..|own| - 1], own[|own| - 1];
      Added(inherited, own) == Added(inherited, init) + if k in inherited || k in init then [] else [k]
  {
  }

  lemma AddedRegroup(inherited: seq<Bytes>, k: Bytes, own: seq<Bytes>)
    requires own != []
    requires var init, last := own[..|own| - 1], own[|own| - 1];
      && inherited + Added(inherited, [k] + init)
         == (if k in inherited then inherited + Added(inherited, init) else inherited + [k] + Added(inherited + [k], init))
      && Added(inherited, [k] + own)
         == Added(inherited, [k] + init) + (if last in inherited || last in [k] + init then [] else [last])
      && Added(inherited, own) == Added(inherited, init) + (if last in inherited || last in init then [] else [last])
      && Added(inherited + [k], own)
         == Added(inherited + [k], init) + if last in inherited + [k] || last in init then [] else [last]
    ensures inherited + Added(inherited, [k] + own)
         == if k in inherited then inherited + Added(inherited, own)
            else inherited + [k] + Added(inherited + [k], own)
  {
    hide Added;
    var init, last := own[..|own| - 1], own[|own| - 1];
    var tail := if last in inherited || last in [k] + init then [] else [last];
    Regrouped(inherited, Added(inherited, [k] + init), tail);
    if k in inherited {
      Regrouped(inherited, Added(inherited, init), tail);
    } else {
      Regrouped(inherited + [k], Added(inherited + [k], init), tail);
    }
  }

  lemma {:induction false} MergeIs(inherited: seq<Bytes>, own: seq<Bytes>)
    ensures Merge(inherited, own) == inherited + Added(inherited, own)
    decreases |own|
  {
    if own == [] {
      assert inherited + [] == inherited;
    } else {
      assert [own[0]] + own[1..] == own;
      AddedFirst(inherited, own[0], own[1..]);
      MergeIs(if own[0] in inherited then inherited else inherited + [own[0]], own[1..]);
    }
  }

  // ---------- Property lists ----------

  lemma PropStep(ts: seq<Tok>, p: nat, acc: seq<Bytes>)
    requires Peek(ts, p).Ident? || Peek(ts, p).Str?
    ensures var q := SkipLines(ts, p + 1); var name := NameOf(Peek(ts, p));
      ParseProps(ts, p, acc)
      == if name.None? then Err(BadText)
         else if Peek(ts, q) == Punct(COMMA) then ParseProps(ts, SkipLines(ts, q + 1), acc + [name.value])
         else Ok(acc + [name.value], q)
  {
    hide Unescape, SkipLines;
  }

  lemma PropsUnfold(ps: seq<Prop>)
    requires ps != [] && PropsOk(ps)
    ensures var k, ks := NameOf(ps[0].name), NamesOf(ps[1..]);
      NamesOf(ps) == if k.Some? && ks.Some? then Some([k.value] + ks.value) else None
    ensures PropsToks(ps) == [ps[0].name] + (ps[0].before + ((if ps[0].comma then [Punct(COMMA)] + ps[0].after else []) + PropsToks(ps[1..])))
    ensures (ps[0].name.Ident? || ps[0].name.Str?) && Breaks(ps[0].before) && Breaks(ps[0].after)
    ensures !ps[0].comma ==> ps[0].after == [] && ps[1..] == []
    ensures PropsOk(ps[1..])
    ensures NamesOf([]) == Some([]) && PropsToks([]) == []
  {
    hide NameOf, Breaks;
    var comma := if ps[0].comma then [Punct(COMMA)] + ps[0].after else [];
    Regrouped(ps[0].before, comma, PropsToks(ps[1..]));
    Regrouped([ps[0].name], ps[0].before + comma, PropsToks(ps[1..]));
    assert forall i :: 0 <= i < |ps[1..]| ==> ps[1..][i] == ps[i + 1];
  }

  /** What may stand behind a property list. */
  predicate EndsProps(ps: seq<Prop>, t: Tok)
  {
    !IsBreak(t) && t != Punct(COMMA) && (ps != [] && ps[|ps| - 1].comma ==> !t.Ident? && !t.Str?)
  }

  ghost predicate PropsRead(ps: seq<Prop>, ts: seq<Tok>, p: nat, acc: seq<Bytes>, end: nat)
  {
    match NamesOf(ps)
    case None => ParseProps(ts, p, acc).Err?
    case Some(ks) => ParseProps(ts, p, acc) == Ok(acc + ks, end)
  }

  lemma {:induction false} ReadProps(ps: seq<Prop>, ts: seq<Tok>, p: nat, acc: seq<Bytes>)
    requires PropsOk(ps) && At(ts, p, PropsToks(ps)) && EndsProps(ps, Peek(ts, p + |PropsToks(ps)|))
    requires ps == [] ==> !Peek(ts, p).Ident? && !Peek(ts, p).Str?
    ensures PropsRead(ps, ts, p, acc, p + |PropsToks(ps)|)
    decreases |ps|
  {
    hide *;
    if ps == [] {
      PropsNone(ts, p, acc);
    } else {
      PropsUnfold(ps);
      var comma := if ps[0].comma then [Punct(COMMA)] + ps[0].after else [];
      var q := p + 1 + |ps[0].before|;
      AtSplit(ts, p, [ps[0].name], ps[0].before + (comma + PropsToks(ps[1..])));
      AtSplit(ts, p + 1, ps[0].before, comma + PropsToks(ps[1..]));
      AtSplit(ts, q, comma, PropsToks(ps[1..]));
      PeekAt(ts, p, [ps[0].name]);
      PropStep(ts, p, acc);
      if ps[0].comma {
        PropComma(ps, ts, p, q);
        if NameOf(ps[0].name).Some? {
          MoreProps(ps, ts, q + 1 + |ps[0].after|);
          ReadProps(ps[1..], ts, q + 1 + |ps[0].after|, acc + [NameOf(ps[0].name).value]);
        }
      } else {
        EndsPropsIs(ps, Peek(ts, q));
        SkipBreaks(ts, p + 1, ps[0].before);
      }
      PropJoined(ps, ts, p, if ps[0].comma then q + 1 + |ps[0].after| else q, acc, p + |PropsToks(ps)|);
    }
  }

  lemma PropsNone(ts: seq<Tok>, p: nat, acc: seq<Bytes>)
    requires !Peek(ts, p).Ident? && !Peek(ts, p).Str?
    ensures PropsRead([], ts, p, acc, p) && PropsToks([]) == []
  {
    assert acc + [] == acc;
  }

  lemma EndsPropsIs(ps: seq<Prop>, t: Tok)
    requires EndsProps(ps, t)
    ensures !IsBreak(t) && t != Punct(COMMA)
  {
  }

  /** The comma behind the first name, and where the next name starts. */
  lemma PropComma(ps: seq<Prop>, ts: seq<Tok>, p: nat, q: nat)
    requires ps != [] && PropsOk(ps) && ps[0].comma && q == p + 1 + |ps[0].before|
    requires At(ts, p + 1, ps[0].before) && At(ts, q, [Punct(COMMA)] + ps[0].after)
    requires var n := q + 1 + |ps[0].after|; At(ts, n, PropsToks(ps[1..])) && EndsProps(ps, Peek(ts, n + |PropsToks(ps[1..])|))
    ensures SkipLines(ts, p + 1) == q && Peek(ts, q) == Punct(COMMA) && SkipLines(ts, q + 1) == q + 1 + |ps[0].after|
  {
    hide *;
    var n := q + 1 + |ps[0].after|;
    PropsUnfold(ps);
    AtSplit(ts, q, [Punct(COMMA)], ps[0].after);
    PeekAt(ts, q, [Punct(COMMA)]);
    CommaNoBreak();
    SkipBreaks(ts, p + 1, ps[0].before);
    NextPropNoBreak(ps[1..], ts, n, Peek(ts, n + |PropsToks(ps[1..])|));
    EndsPropsIs(ps, Peek(ts, n + |PropsToks(ps[1..])|));
    SkipBreaks(ts, q + 1, ps[0].after);
  }

  lemma NextPropNoBreak(ps: seq<Prop>, ts: seq<Tok>, n: nat, next: Tok)
    requires PropsOk(ps) && At(ts, n, PropsToks(ps)) && Peek(ts, n + |PropsToks(ps)|) == next
    ensures ps != [] ==> !IsBreak(Peek(ts, n))
    ensures ps == [] ==> Peek(ts, n) == next
  {
    hide Breaks;
    if ps != [] {
      PropsUnfold(ps);
      PeekAt(ts, n, PropsToks(ps));
    }
  }

  lemma MoreProps(ps: seq<Prop>, ts: seq<Tok>, n: nat)
    requires ps != [] && PropsOk(ps) && ps[0].comma && At(ts, n, PropsToks(ps[1..]))
    requires EndsProps(ps, Peek(ts, n + |PropsToks(ps[1..])|))
    ensures EndsProps(ps[1..], Peek(ts, n + |PropsToks(ps[1..])|))
    ensures ps[1..] == [] ==> !Peek(ts, n).Ident? && !Peek(ts, n).Str?
  {
    hide PropsOk;
    if ps[1..] == [] { assert PropsToks(ps[1..]) == []; }
  }

  lemma PropJoined(ps: seq<Prop>, ts: seq<Tok>, p: nat, next: nat, acc: seq<Bytes>, end: nat)
    requires ps != [] && PropsOk(ps)
    requires NameOf(ps[0].name).None? ==> ParseProps(ts, p, acc).Err?
    requires NameOf(ps[0].name).Some? ==>
      var acc' := acc + [NameOf(ps[0].name).value];
      if ps[0].comma then ParseProps(ts, p, acc) == ParseProps(ts, next, acc') && PropsRead(ps[1..], ts, next, acc', end)
      else ParseProps(ts, p, acc) == Ok(acc', end)
    ensures PropsRead(ps, ts, p, acc, end)
  {
    hide NamesOf, ParseProps, NameOf, PropsToks, Breaks;
    PropsUnfold(ps);
    var k, ks := NameOf(ps[0].name), NamesOf(ps[1..]);
    if k.Some? && ks.Some? {
      Regrouped(acc, [k.value], ks.value);
      if !ps[0].comma { assert [k.value] + [] == [k.value]; }
    }
  }

  // ---------- Definitions ----------

  /** The properties a definition gives its class, if the parser accepts it. */
  function PropertiesOf(d: Definition, cs: Classes): (r: Option<seq<Bytes>>)
  {
    match (if d.parent.None? then Some([]) else if d.parent.value in cs then Some(cs[d.parent.value]) else None)
    case None => None
    case Some(inherited) =>
      match NamesOf(d.props) case None => None case Some(own) => Some(inherited + Added(inherited, own))
  }

  lemma DeclareStep(ds: seq<Definition>, cs: Classes)
    requires ds != []
    ensures var props := PropertiesOf(ds[0], cs);
      DeclareAll(ds, cs) == if props.None? then None else DeclareAll(ds[1..], cs[ds[0].name := props.value])
  {
    hide NamesOf, Added;
  }

  lemma ClassStep(ts: seq<Tok>, p: nat, cs: Classes)
    requires Peek(ts, p) == Keyword && Peek(ts, p + 1).Ident?
    ensures var name, parent := Peek(ts, p + 1).name, ParseParent(cs, ts, p + 2);
      parent.Ok? && Peek(ts, parent.pos) == Punct(COLON) ==>
        var props := ParseProps(ts, SkipLines(ts, parent.pos + 1), []);
        ParseClasses(ts, p, cs)
        == if props.Err? then Err(props.error)
           else if props.value == [] then Err(BadText)
           else ParseClasses(ts, props.pos, cs[name := Merge(parent.value, props.value)])
    ensures ParseParent(cs, ts, p + 2).Err? ==> ParseClasses(ts, p, cs).Err?
  {
    hide ParseParent, ParseProps, Merge, SkipLines;
  }

  /** The parent in parentheses. */
  lemma ReadParent(d: Definition, ts: seq<Tok>, p: nat, cs: Classes)
    requires At(ts, p, ParentToks(d)) && Peek(ts, p + |ParentToks(d)|) == Punct(COLON)
    ensures ParseParent(cs, ts, p)
         == if d.parent.None? then Ok([], p)
            else if d.parent.value !in cs then Err(BadText)
            else Ok(cs[d.parent.value], p + |ParentToks(d)|)
  {
    if d.parent.Some? {
      AtHead(ts, p, ParentToks(d));
      AtHead(ts, p + 1, ParentToks(d)[1..]);
      AtHead(ts, p + 2, ParentToks(d)[1..][1..]);
    }
  }

  lemma DefinitionAt(d: Definition, ts: seq<Tok>, p: nat)
    requires At(ts, p, DefinitionToks(d))
    ensures var q := p + 2 + |ParentToks(d)|; var n := q + 1 + |d.gap|;
      && Peek(ts, p) == Keyword && Peek(ts, p + 1) == Ident(d.name) && At(ts, p + 2, ParentToks(d))
      && Peek(ts, q) == Punct(COLON) && At(ts, q + 1, d.gap) && At(ts, n, PropsToks(d.props))
      && p + |DefinitionToks(d)| == n + |PropsToks(d.props)|
  {
    hide ParentToks, PropsToks, Peek;
    var head, colon := [Keyword, Ident(d.name)], [Punct(COLON)];
    var q := p + 2 + |ParentToks(d)|;
    AtSplit(ts, p, head, ParentToks(d) + (colon + (d.gap + PropsToks(d.props))));
    AtSplit(ts, p + 2, ParentToks(d), colon + (d.gap + PropsToks(d.props)));
    AtSplit(ts, q, colon, d.gap + PropsToks(d.props));
    AtSplit(ts, q + 1, d.gap, PropsToks(d.props));
    PeekAt(ts, p, head);
    AtHead(ts, p, head);
    PeekAt(ts, p + 1, head[1..]);
    PeekAt(ts, q, colon);
  }

  /** A class definition declares its class with its parent's properties and then its own new ones. */
  lemma ReadDefinition(d: Definition, ts: seq<Tok>, p: nat, cs: Classes)
    requires DefinitionOk(d) && At(ts, p, DefinitionToks(d)) && EndsProps(d.props, Peek(ts, p + |DefinitionToks(d)|))
    ensures var props := PropertiesOf(d, cs);
      if props.None? then ParseClasses(ts, p, cs).Err?
      else ParseClasses(ts, p, cs) == ParseClasses(ts, p + |DefinitionToks(d)|, cs[d.name := props.value])
  {
    hide *;
    DefinitionAt(d, ts, p);
    DefinitionIs(d);
    var q := p + 2 + |ParentToks(d)|;
    ReadParent(d, ts, p + 2, cs);
    ClassStep(ts, p, cs);
    ParentLength(d);
    NextPropNoBreak(d.props, ts, q + 1 + |d.gap|, Peek(ts, p + |DefinitionToks(d)|));
    SkipBreaks(ts, q + 1, d.gap);
    ReadProps(d.props, ts, q + 1 + |d.gap|, []);
    var parent := if d.parent.None? then Some([]) else if d.parent.value in cs then Some(cs[d.parent.value]) else None;
    PropertiesAre(d, cs, parent);
    if parent.Some? {
      PropsAre(d.props, ts, q + 1 + |d.gap|, p + |DefinitionToks(d)|);
      if NamesOf(d.props).Some? { MergeIs(parent.value, NamesOf(d.props).value); }
    }
  }

  lemma PropertiesAre(d: Definition, cs: Classes, parent: Option<seq<Bytes>>)
    requires parent == if d.parent.None? then Some([]) else if d.parent.value in cs then Some(cs[d.parent.value]) else None
    ensures PropertiesOf(d, cs)
         == if parent.None? || NamesOf(d.props).None? then None
            else Some(parent.value + Added(parent.value, NamesOf(d.props).value))
  {
    hide NamesOf, Added;
  }

  lemma ParentLength(d: Definition)
    ensures d.parent.None? ==> ParentToks(d) == []
  {
  }

  lemma DefinitionIs(d: Definition)
    requires DefinitionOk(d)
    ensures d.props != [] && Breaks(d.gap) && PropsOk(d.props)
  {
  }

  lemma PropsAre(ps: seq<Prop>, ts: seq<Tok>, p: nat, end: nat)
    requires ps != [] && PropsRead(ps, ts, p, [], end)
    ensures NamesOf(ps).None? ==> ParseProps(ts, p, []).Err?
    ensures NamesOf(ps).Some? ==> NamesOf(ps).value != [] && ParseProps(ts, p, []) == Ok(NamesOf(ps).value, end)
  {
    hide ParseProps, NameOf;
    if NamesOf(ps).Some? { assert [] + NamesOf(ps).value == NamesOf(ps).value; }
  }

  /** What may stand behind the definitions. */
  predicate EndsDefinitions(ds: seq<Definition>, t: Tok)
  {
    !IsBreak(t) && t != Keyword && t != Punct(COMMA)
    && (ds != [] ==> EndsProps(ds[|ds| - 1].props, t))
  }

  ghost predicate ClassesRead(ds: seq<Definition>, ts: seq<Tok>, p: nat, cs: Classes, end: nat)
  {
    match DeclareAll(ds, cs)
    case None => ParseClasses(ts, p, cs).Err?
    case Some(m) => ParseClasses(ts, p, cs) == Ok(m, end)
  }

  lemma {:induction false} ReadDefinitions(ds: seq<Definition>, ts: seq<Tok>, p: nat, cs: Classes)
    requires (forall d :: d in ds ==> DefinitionOk(d)) && At(ts, p, DefinitionsToks(ds))
    requires EndsDefinitions(ds, Peek(ts, p + |DefinitionsToks(ds)|))
    ensures ClassesRead(ds, ts, p, cs, p + |DefinitionsToks(ds)|)
    decreases |ds|
  {
    hide *;
    DefinitionsSplit(ds);
    EndsAre(ds, Peek(ts, p + |DefinitionsToks(ds)|));
    if ds == [] {
      NoDefinitions(ts, p, cs);
    } else {
      var n := p + |DefinitionToks(ds[0])|;
      assert ds[0] in ds;
      AtSplit(ts, p, DefinitionToks(ds[0]), DefinitionsToks(ds[1..]));
      DefinitionsSplit(ds[1..]);
      NextDefinition(ds, ts, n);
      ReadDefinition(ds[0], ts, p, cs);
      DeclareStep(ds, cs);
      var props := PropertiesOf(ds[0], cs);
      if props.Some? { ReadDefinitions(ds[1..], ts, n, cs[ds[0].name := props.value]); }
      DefinitionsJoined(ds, ts, p, n, cs, p + |DefinitionsToks(ds)|);
    }
  }

  lemma DefinitionsSplit(ds: seq<Definition>)
    ensures ds == [] ==> DefinitionsToks(ds) == []
    ensures ds != [] ==> DefinitionsToks(ds) == DefinitionToks(ds[0]) + DefinitionsToks(ds[1..])
  {
    hide DefinitionToks;
  }

  lemma EndsAre(ds: seq<Definition>, t: Tok)
    requires EndsDefinitions(ds, t)
    ensures !IsBreak(t) && t != Keyword && t != Punct(COMMA)
    ensures |ds| == 1 ==> EndsProps(ds[0].props, t)
    ensures ds != [] ==> EndsDefinitions(ds[1..], t)
  {
  }

  lemma NoDefinitions(ts: seq<Tok>, p: nat, cs: Classes)
    requires Peek(ts, p) != Keyword
    ensures ClassesRead([], ts, p, cs, p)
  {
  }

  lemma NextDefinition(ds: seq<Definition>, ts: seq<Tok>, n: nat)
    requires ds != [] && At(ts, n, DefinitionsToks(ds[1..]))
    requires |ds| == 1 ==> EndsProps(ds[0].props, Peek(ts, n))
    ensures EndsProps(ds[0].props, Peek(ts, n))
  {
    if |ds| > 1 { PeekAt(ts, n, DefinitionsToks(ds[1..])); }
  }

  lemma DefinitionsJoined(ds: seq<Definition>, ts: seq<Tok>, p: nat, n: nat, cs: Classes, end: nat)
    requires ds != []
    requires var props := PropertiesOf(ds[0], cs);
      if props.None? then ParseClasses(ts, p, cs).Err?
      else
        var cs' := cs[ds[0].name := props.value];
        ParseClasses(ts, p, cs) == ParseClasses(ts, n, cs') && ClassesRead(ds[1..], ts, n, cs', end)
    ensures ClassesRead(ds, ts, p, cs, end)
  {
    hide ParseClasses, DeclareAll, PropertiesOf;
    DeclareStep(ds, cs);
  }

  // ---------- Documents ----------

  /** A document: breaks, definitions, a value, breaks. */
  datatype Document = Document(lead: seq<Tok>, definitions: seq<Definition>, root: Node, trail: seq<Tok>)

  ghost predicate DocumentOk(d: Document)
  {
    && Breaks(d.lead) && Breaks(d.trail) && NodeOk(d.root) && (forall c :: c in d.definitions ==> DefinitionOk(c))
    && EndsDefinitions(d.definitions, NodeToks(d.root)[0])
  }

  function DocumentToks(d: Document): (r: seq<Tok>)
  {
    d.lead + (DefinitionsToks(d.definitions) + (NodeToks(d.root) + (d.trail + [End])))
  }

  function DocumentValue(plat: Json.Platform, d: Document): (r: Option<Value>)
  {
    match DeclareAll(d.definitions, map[]) case None => None case Some(cs) => Denote(plat, cs, d.root)
  }

  lemma DocumentAt(d: Document, ts: seq<Tok>)
    requires DocumentOk(d) && ts == DocumentToks(d)
    ensures var p := |d.lead|; var q := p + |DefinitionsToks(d.definitions)|; var e := q + |NodeToks(d.root)|;
      && At(ts, 0, d.lead) && At(ts, p, DefinitionsToks(d.definitions)) && At(ts, q, NodeToks(d.root))
      && Peek(ts, q) == NodeToks(d.root)[0] && At(ts, e, d.trail) && Peek(ts, e + |d.trail|) == End
  {
    hide *;
    DocumentParts(d);
    DocumentLaid(d, ts);
    var rest := NodeToks(d.root) + (d.trail + [End]);
    var p := |d.lead|;
    TronDocument.Whole(ts);
    AtSplit(ts, 0, d.lead, DefinitionsToks(d.definitions) + rest);
    AtSplit(ts, p, DefinitionsToks(d.definitions), rest);
    RootAt(NodeToks(d.root), d.trail, ts, p + |DefinitionsToks(d.definitions)|);
  }

  lemma RootAt(root: seq<Tok>, trail: seq<Tok>, ts: seq<Tok>, q: nat)
    requires root != [] && At(ts, q, root + (trail + [End]))
    ensures At(ts, q, root) && Peek(ts, q) == root[0]
    ensures At(ts, q + |root|, trail) && Peek(ts, q + |root| + |trail|) == End
  {
    hide *;
    AtSplit(ts, q, root, trail + [End]);
    AtSplit(ts, q + |root|, trail, [End]);
    PeekAt(ts, q, root);
    PeekAt(ts, q + |root| + |trail|, [End]);
  }

  lemma DocumentLaid(d: Document, ts: seq<Tok>)
    requires ts == DocumentToks(d)
    ensures ts == d.lead + (DefinitionsToks(d.definitions) + (NodeToks(d.root) + (d.trail + [End])))
  {
  }

  lemma DocumentParts(d: Document)
    requires DocumentOk(d)
    ensures Breaks(d.lead) && Breaks(d.trail) && NodeOk(d.root) && (forall c :: c in d.definitions ==> DefinitionOk(c))
    ensures NodeToks(d.root) != [] && EndsDefinitions(d.definitions, NodeToks(d.root)[0])
  {
    hide NodeToks, EndsDefinitions, Breaks, NodeOk, DefinitionOk;
    NodeBegins(d.root);
  }

  /** Where the first definition or the root starts there is no break. */
  lemma DocumentStarts(d: Document, ts: seq<Tok>, p: nat)
    requires DocumentOk(d) && At(ts, p, DefinitionsToks(d.definitions))
    requires d.definitions == [] ==> Peek(ts, p) == NodeToks(d.root)[0]
    ensures !IsBreak(Peek(ts, p))
  {
    hide NodeToks;
    if d.definitions != [] { PeekAt(ts, p, DefinitionsToks(d.definitions)); }
  }

  /** The parser on the tokens of a document: its value, or failure where it has none. */
  lemma ReadDocument(plat: Json.Platform, d: Document, text: Bytes)
    requires DocumentOk(d) && Tokens(text, 0) == DocumentToks(d)
    ensures ParseDocument(plat, text) == DocumentValue(plat, d)
  {
    hide *;
    var ts, p := Tokens(text, 0), |d.lead|;
    var q := p + |DefinitionsToks(d.definitions)|;
    var e := q + |NodeToks(d.root)|;
    DocumentParts(d);
    DocumentAt(d, ts);
    DefinitionsSplit(d.definitions);
    DocumentStarts(d, ts, p);
    SkipBreaks(ts, 0, d.lead);
    ReadDefinitions(d.definitions, ts, p, map[]);
    EndIsNoBreak();
    SkipBreaks(ts, e, d.trail);
    var m := DeclareAll(d.definitions, map[]);
    if m.Some? { ReadNode(plat, m.value, d.root, ts, q); }
    DocumentRead(plat, d, text, p, q, e);
  }

  lemma EndIsNoBreak()
    ensures !IsBreak(End)
  {
  }

  lemma DocumentRead(plat: Json.Platform, d: Document, text: Bytes, p: nat, q: nat, e: nat)
    requires var ts := Tokens(text, 0); var m := DeclareAll(d.definitions, map[]);
      && SkipLines(ts, 0) == p && ClassesRead(d.definitions, ts, p, map[], q) && Peek(ts, SkipLines(ts, e)) == End
      && (m.Some? ==> NodeRead(plat, m.value, d.root, ts, q, e))
    ensures ParseDocument(plat, text) == DocumentValue(plat, d)
  {
    hide Tokens, DeclareAll, ParseClasses, ParseValue, Denote, SkipLines;
  }

  // ---------- Flattening ----------

  ghost predicate Unique(ks: seq<Bytes>) { forall i, j :: 0 <= i < j < |ks| ==> ks[i] != ks[j] }

  /** Extending a list without repetitions keeps it so. */
  lemma {:induction false} AddedUnique(inherited: seq<Bytes>, own: seq<Bytes>)
    requires Unique(inherited)
    ensures Unique(inherited + Added(inherited, own))
  {
    if own != [] {
      var init, k := own[..|own| - 1], own[|own| - 1];
      AddedUnique(inherited, init);
      AddedHas(inherited, init, k);
      var before := inherited + Added(inherited, init);
      Regrouped(inherited, Added(inherited, init), if k in inherited || k in init then [] else [k]);
      if k !in inherited && k !in init { assert k !in before; UniqueMore(before, k); }
    }
  }

  lemma UniqueMore(ks: seq<Bytes>, k: Bytes)
    requires Unique(ks) && k !in ks
    ensures Unique(ks + [k])
  {
  }

  lemma {:induction false} AddedNothingLost(own: seq<Bytes>)
    requires Unique(own)
    ensures Added([], own) == own
  {
    if own != [] {
      var init, k := own[..|own| - 1], own[|own| - 1];
      AddedNothingLost(init);
      assert own == init + [k];
      assert k !in init;
    }
  }

  ghost predicate AllUnique(cs: Classes) { forall name :: name in cs ==> Unique(cs[name]) }

  /** No class has a property twice. */
  lemma {:induction false} DeclaredUnique(ds: seq<Definition>, cs: Classes)
    requires AllUnique(cs)
    ensures DeclareAll(ds, cs).Some? ==> AllUnique(DeclareAll(ds, cs).value)
    decreases |ds|
  {
    hide Added, NamesOf, Unique, PropertiesOf;
    if ds != [] {
      DeclareStep(ds, cs);
      var props := PropertiesOf(ds[0], cs);
      if props.Some? {
        PropertiesUnique(ds[0], cs);
        DeclaredUnique(ds[1..], cs[ds[0].name := props.value]);
      }
    }
  }

  lemma PropertiesUnique(d: Definition, cs: Classes)
    requires AllUnique(cs)
    ensures PropertiesOf(d, cs).Some? ==> Unique(PropertiesOf(d, cs).value)
  {
    hide Added, NamesOf, Unique;
    NothingRepeated();
    if PropertiesOf(d, cs).Some? {
      AddedUnique(if d.parent.None? then [] else cs[d.parent.value], NamesOf(d.props).value);
    }
  }

  lemma NothingRepeated()
    ensures Unique([])
  {
  }

  lemma {:induction false} DeclareBoth(a: seq<Definition>, b: seq<Definition>, cs: Classes)
    ensures DeclareAll(a + b, cs)
         == match DeclareAll(a, cs) case None => None case Some(m) => DeclareAll(b, m)
    decreases |a|
  {
    if a == [] {
      assert a + b == b;
    } else {
      assert (a + b)[1..] == a[1..] + b;
      DeclareStep(a, cs);
      DeclareStep(a + b, cs);
      var props := PropertiesOf(a[0], cs);
      if props.Some? { DeclareBoth(a[1..], b, cs[a[0].name := props.value]); }
    }
  }

  /** A class with a parent is the class without one that lists the parent's properties first and then its own new ones:
      replacing one by the other leaves every document the same. */
  lemma Flattened(before: seq<Definition>, d: Definition, flat: Definition, behind: seq<Definition>)
    requires d.parent.Some? && flat.parent.None? && flat.name == d.name
    requires var m := DeclareAll(before, map[]);
      && m.Some? && d.parent.value in m.value && NamesOf(d.props).Some?
      && NamesOf(flat.props) == Some(m.value[d.parent.value] + Added(m.value[d.parent.value], NamesOf(d.props).value))
    ensures DeclareAll(before + ([d] + behind), map[]) == DeclareAll(before + ([flat] + behind), map[])
  {
    hide DeclareAll, NamesOf, Unique;
    var cs := DeclareAll(before, map[]).value;
    DeclaredUnique(before, map[]);
    DeclareBoth(before, [d] + behind, map[]);
    DeclareBoth(before, [flat] + behind, map[]);
    DeclareStep([d] + behind, cs);
    DeclareStep([flat] + behind, cs);
    assert ([d] + behind)[1..] == behind == ([flat] + behind)[1..];
    var inherited, own := cs[d.parent.value], NamesOf(d.props).value;
    AddedUnique(inherited, own);
    var all := inherited + Added(inherited, own);
    AddedNothingLost(all);
    assert [] + all == all;
    assert PropertiesOf(d, cs) == Some(all) == PropertiesOf(flat, cs);
  }

  /** A parent that is not declared is refused, whatever else the document holds. */
  lemma UnknownParent(before: seq<Definition>, d: Definition, behind: seq<Definition>)
    requires DeclareAll(before, map[]).Some? && d.parent.Some? && d.parent.value !in DeclareAll(before, map[]).value
    ensures DeclareAll(before + ([d] + behind), map[]) == None
  {
    hide NamesOf, Added;
    DeclareBoth(before, [d] + behind, map[]);
  }
}
