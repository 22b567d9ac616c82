/** Whole TRON documents: class definitions, root value, and what survives. */
module TronDocument {
  import opened Bytes
  import opened Values
  import opened Text
  import opened Tron
  import opened TronSchemas
  import opened TronHoist
  import opened TronDiscovery
  import opened TronTokens
  import opened TronProofs
  import opened JsonProofs
  import Base64
  import Json
  import JsonTokens
  import JsonFaithful

  // ---------- Tokens of the header ----------

  function KeyTokens(keys: seq<Bytes>): (r: seq<Tok>)
  {
    if keys == [] then []
    else [Str(Escape(keys[0]))] + (if |keys| == 1 then [] else [Punct(COMMA)] + KeyTokens(keys[1..]))
  }

  function ClassTokens(c: Class): (r: seq<Tok>)
  {
    [Keyword, Ident(c.name), Punct(COLON)] + (KeyTokens(c.keys) + [Newline])
  }

  function HeaderTokens(cs: seq<Class>): (r: seq<Tok>)
  {
    if cs == [] then [] else ClassTokens(cs[0]) + HeaderTokens(cs[1..])
  }

  lemma LexNewline(s: Bytes, i: nat)
    requires At(s, i, [NEWLINE])
    ensures Tokens(s, i) == [Newline] + Tokens(s, i + 1)
  {
    AtHead(s, i, [NEWLINE]);
  }

  lemma LexClassWord(s: Bytes, i: nat)
    requires At(s, i, CLASS_WORD) && At(s, i + 5, [SPACE])
    ensures Tokens(s, i) == [Keyword] + Tokens(s, i + 6)
  {
    AtHead(s, i + 5, [SPACE]);
    LexKeyword(s, i);
    LexSpace(s, i + 5);
  }

  lemma LexKeyword(s: Bytes, i: nat)
    requires At(s, i, CLASS_WORD) && !Json.IsIdent(Json.Cur(s, i + 5))
    ensures Tokens(s, i) == [Keyword] + Tokens(s, i + 5)
  {
    hide Tokens;
    LexWord(CLASS_WORD, s, i);
  }

  lemma LexSpace(s: Bytes, i: nat)
    requires At(s, i, [SPACE])
    ensures Tokens(s, i) == Tokens(s, i + 1)
  {
    AtHead(s, i, [SPACE]);
  }

  lemma KeysTextStep(keys: seq<Bytes>)
    requires keys != []
    ensures KeysText(keys) + [NEWLINE]
         == Json.Quoted(keys[0]) + (if |keys| == 1 then [NEWLINE] else [COMMA] + (KeysText(keys[1..]) + [NEWLINE]))
    ensures |KeysText(keys)| == |Json.Quoted(keys[0])| + (if |keys| == 1 then 0 else 1 + |KeysText(keys[1..])|)
  {
    hide Json.Quoted;
  }

  lemma KeyTokensStep(keys: seq<Bytes>, rest: seq<Tok>)
    requires keys != []
    ensures (KeyTokens(keys) + [Newline]) + rest
         == [Str(Escape(keys[0]))]
            + (if |keys| == 1 then [Newline] + rest else [Punct(COMMA)] + ((KeyTokens(keys[1..]) + [Newline]) + rest))
  {
    hide Escape, KeyTokens;
    KeyTokensShape(keys);
    Regrouped([Str(Escape(keys[0]))],
              if |keys| == 1 then [Newline] else [Punct(COMMA)] + (KeyTokens(keys[1..]) + [Newline]), rest);
    if |keys| > 1 { Regrouped([Punct(COMMA)], KeyTokens(keys[1..]) + [Newline], rest); }
  }

  lemma {:induction false} LexKeys(keys: seq<Bytes>, s: Bytes, i: nat)
    requires At(s, i, KeysText(keys) + [NEWLINE])
    ensures Tokens(s, i) == (KeyTokens(keys) + [Newline]) + Tokens(s, i + |KeysText(keys)| + 1)
    decreases keys
  {
    hide *;
    if keys == [] {
      LexNoKeys(keys, s, i);
    } else {
      var key := Json.Quoted(keys[0]);
      var p := i + |key|;
      KeysTextStep(keys);
      KeyTokensStep(keys, Tokens(s, i + |KeysText(keys)| + 1));
      if |keys| == 1 {
        AtSplit(s, i, key, [NEWLINE]);
        LexQuoted(keys[0], s, i);
        LexNewline(s, p);
      } else {
        var more := KeysText(keys[1..]) + [NEWLINE];
        AtSplit(s, i, key, [COMMA] + more);
        LexQuoted(keys[0], s, i);
        LexComma(more, s, p);
        LexKeys(keys[1..], s, p + 1);
      }
    }
  }

  lemma LexNoKeys(keys: seq<Bytes>, s: Bytes, i: nat)
    requires keys == [] && At(s, i, KeysText(keys) + [NEWLINE])
    ensures Tokens(s, i) == (KeyTokens(keys) + [Newline]) + Tokens(s, i + |KeysText(keys)| + 1)
  {
    hide Tokens;
    AtSplit(s, i, [], [NEWLINE]);
    LexNewline(s, i);
  }

  lemma LexClass(c: Class, s: Bytes, i: nat)
    requires At(s, i, ClassText(c)) && NameOk(c.name)
    ensures Lexes(s, i, ClassTokens(c), i + |ClassText(c)|)
  {
    hide Tokens, KeysText, KeyTokens, NameOk;
    var keys := KeysText(c.keys) + [NEWLINE];
    LexClassName(c.name, keys, s, i);
    LexKeys(c.keys, s, i + 7 + |c.name|);
    Regrouped([Keyword, Ident(c.name), Punct(COLON)], KeyTokens(c.keys) + [Newline], Tokens(s, i + |ClassText(c)|));
  }

  lemma LexClassName(name: Bytes, rest: Bytes, s: Bytes, i: nat)
    requires At(s, i, CLASS_WORD + ([SPACE] + (name + ([COLON] + rest)))) && NameOk(name)
    ensures At(s, i + 7 + |name|, rest)
    ensures Tokens(s, i) == [Keyword, Ident(name), Punct(COLON)] + Tokens(s, i + 7 + |name|)
  {
    hide Tokens, NameOk;
    AtSplit(s, i, CLASS_WORD, [SPACE] + (name + ([COLON] + rest)));
    AtSplit(s, i + 5, [SPACE], name + ([COLON] + rest));
    LexClassWord(s, i);
    AtSplit(s, i + 6, name, [COLON] + rest);
    var p := i + 6 + |name|;
    AtSplit(s, p, [COLON], rest);
    AtHead(s, p, [COLON]);
    LexName(name, s, i + 6);
    LexPunct(COLON, s, p);
  }

  /** Reading from `i` gives these tokens and goes on at `j`. */
  ghost predicate Lexes(s: Bytes, i: nat, toks: seq<Tok>, j: nat)
  {
    Tokens(s, i) == toks + Tokens(s, j)
  }

  lemma LexThen(s: Bytes, i: nat, a: seq<Tok>, j: nat, b: seq<Tok>, k: nat)
    requires Lexes(s, i, a, j) && Lexes(s, j, b, k)
    ensures Lexes(s, i, a + b, k)
  {
    hide Tokens;
    assert a + (b + Tokens(s, k)) == (a + b) + Tokens(s, k);
  }

  lemma LexNothing(s: Bytes, i: nat)
    ensures Lexes(s, i, [], i)
  {
    hide Tokens;
  }

  lemma {:induction false} LexHeader(cs: seq<Class>, s: Bytes, i: nat)
    requires At(s, i, HeaderText(cs)) && forall c :: c in cs ==> NameOk(c.name)
    ensures Lexes(s, i, HeaderTokens(cs), i + |HeaderText(cs)|)
    decreases cs
  {
    hide *;
    HeaderSteps(cs);
    if cs != [] {
      assert cs[0] in cs;
      var j := i + |ClassText(cs[0])|;
      AtSplit(s, i, ClassText(cs[0]), HeaderText(cs[1..]));
      LexClass(cs[0], s, i);
      LexHeader(cs[1..], s, j);
      LexThen(s, i, ClassTokens(cs[0]), j, HeaderTokens(cs[1..]), i + |HeaderText(cs)|);
    } else {
      LexNothing(s, i);
    }
  }

  lemma HeaderSteps(cs: seq<Class>)
    ensures cs == [] ==> HeaderText(cs) == [] && HeaderTokens(cs) == []
    ensures cs != [] ==> HeaderText(cs) == ClassText(cs[0]) + HeaderText(cs[1..])
    ensures cs != [] ==> HeaderTokens(cs) == ClassTokens(cs[0]) + HeaderTokens(cs[1..])
  {
    hide ClassText, ClassTokens;
  }

  // ---------- Parsing the header ----------

  lemma PropStep(key: Bytes, ts: seq<Tok>, p: nat, acc: seq<Bytes>)
    requires Peek(ts, p) == Str(Escape(key))
    ensures var q := SkipLines(ts, p + 1);
      ParseProps(ts, p, acc)
      == if Peek(ts, q) == Punct(COMMA) then ParseProps(ts, SkipLines(ts, q + 1), acc + [key]) else Ok(acc + [key], q)
  {
    hide Escape, Unescape, SkipLines;
    JsonTokens.Unescaped(key);
  }

  lemma KeyTokensShape(keys: seq<Bytes>)
    requires keys != []
    ensures KeyTokens(keys) + [Newline]
         == [Str(Escape(keys[0]))]
            + (if |keys| == 1 then [Newline] else [Punct(COMMA)] + (KeyTokens(keys[1..]) + [Newline]))
    ensures |KeyTokens(keys)| == if |keys| == 1 then 1 else 2 + |KeyTokens(keys[1..])|
  {
    hide Escape;
  }

  lemma OneMore(acc: seq<Bytes>, keys: seq<Bytes>)
    requires keys != []
    ensures acc + [keys[0]] + keys[1..] == acc + keys && (|keys| == 1 ==> acc + [keys[0]] == acc + keys)
  {
  }

  lemma CommaIsNoLine()
    ensures COMMA != SEMICOLON
  {
  }

  lemma LastKey(keys: seq<Bytes>, ts: seq<Tok>, p: nat, acc: seq<Bytes>)
    requires |keys| == 1 && At(ts, p, KeyTokens(keys) + [Newline]) && Peek(ts, SkipLines(ts, p + 2)) != Punct(COMMA)
    ensures |KeyTokens(keys)| == 1 && ParseProps(ts, p, acc) == Ok(acc + [keys[0]], SkipLines(ts, p + 2))
  {
    hide *;
    KeyTokensShape(keys);
    var first := Str(Escape(keys[0]));
    PeekAt(ts, p, [first] + [Newline]);
    PropStep(keys[0], ts, p, acc);
    AtSplit(ts, p, [first], [Newline]);
    PeekAt(ts, p + 1, [Newline]);
    SkipNewline(ts, p + 1);
  }

  lemma NextKey(keys: seq<Bytes>, ts: seq<Tok>, p: nat, acc: seq<Bytes>)
    requires |keys| > 1 && At(ts, p, KeyTokens(keys) + [Newline])
    ensures |KeyTokens(keys)| == 2 + |KeyTokens(keys[1..])| && At(ts, p + 2, KeyTokens(keys[1..]) + [Newline])
    ensures ParseProps(ts, p, acc) == ParseProps(ts, p + 2, acc + [keys[0]])
  {
    hide *;
    CommaIsNoLine();
    KeyTokensShape(keys);
    KeyTokensShape(keys[1..]);
    var first, more := Str(Escape(keys[0])), KeyTokens(keys[1..]) + [Newline];
    PeekAt(ts, p, [first] + ([Punct(COMMA)] + more));
    PropStep(keys[0], ts, p, acc);
    AtSplit(ts, p, [first], [Punct(COMMA)] + more);
    AtSplit(ts, p + 1, [Punct(COMMA)], more);
    PeekAt(ts, p + 1, [Punct(COMMA)]);
    PeekAt(ts, p + 2, more);
    SkipNothing(ts, p + 1);
    SkipNothing(ts, p + 2);
  }

  lemma {:induction false} ParseKeys(keys: seq<Bytes>, ts: seq<Tok>, p: nat, acc: seq<Bytes>)
    requires keys != [] && At(ts, p, KeyTokens(keys) + [Newline])
    requires Peek(ts, SkipLines(ts, p + |KeyTokens(keys)| + 1)) != Punct(COMMA)
    ensures ParseProps(ts, p, acc) == Ok(acc + keys, SkipLines(ts, p + |KeyTokens(keys)| + 1))
    decreases keys
  {
    hide *;
    OneMore(acc, keys);
    if |keys| == 1 {
      KeyTokensShape(keys);
      LastKey(keys, ts, p, acc);
    } else {
      NextKey(keys, ts, p, acc);
      ParseKeys(keys[1..], ts, p + 2, acc + [keys[0]]);
    }
  }

  lemma {:induction false} MergeDistinct(parent: seq<Bytes>, props: seq<Bytes>)
    requires Distinct(parent + props)
    ensures Merge(parent, props) == parent + props
    decreases props
  {
    if props == [] {
      assert parent + [] == parent;
    } else {
      assert (parent + props)[|parent|] == props[0];
      assert parent + [props[0]] + props[1..] == parent + props;
      forall i | 0 <= i < |parent| ensures parent[i] != props[0] { assert (parent + props)[i] == parent[i]; }
      MergeDistinct(parent + [props[0]], props[1..]);
    }
  }

  ghost predicate ClassOk(c: Class)
  {
    NameOk(c.name) && c.keys != [] && Distinct(c.keys)
  }

  lemma ParseClass(c: Class, ts: seq<Tok>, p: nat, cs: Classes)
    requires ClassOk(c) && At(ts, p, ClassTokens(c))
    requires var next := Peek(ts, SkipLines(ts, p + |ClassTokens(c)|)); Opens(next) || next == Keyword
    ensures ParseClasses(ts, p, cs) == ParseClasses(ts, SkipLines(ts, p + |ClassTokens(c)|), cs[c.name := c.keys])
  {
    hide KeyTokens, ParseProps, Merge;
    var lead, keys := [Keyword, Ident(c.name), Punct(COLON)], KeyTokens(c.keys) + [Newline];
    AtSplit(ts, p, lead, keys);
    AtHead(ts, p, lead);
    AtHead(ts, p + 1, lead[1..]);
    AtHead(ts, p + 2, lead[1..][1..]);
    FirstKeyToken(c.keys);
    PeekAt(ts, p + 3, keys);
    SkipNothing(ts, p + 3);
    ParseKeys(c.keys, ts, p + 3, []);
    assert [] + c.keys == c.keys;
    MergeDistinct([], c.keys);
  }

  lemma FirstKeyToken(keys: seq<Bytes>)
    requires keys != []
    ensures (KeyTokens(keys) + [Newline])[0].Str?
  {
  }

  function Declared(cs: seq<Class>, acc: Classes): (r: Classes)
    decreases cs
  {
    if cs == [] then acc else Declared(cs[1..], acc[cs[0].name := cs[0].keys])
  }

  lemma {:induction false} ParseHeader(cs: seq<Class>, ts: seq<Tok>, p: nat, acc: Classes)
    requires At(ts, p, HeaderTokens(cs)) && (forall c :: c in cs ==> ClassOk(c))
    requires Opens(Peek(ts, SkipLines(ts, p + |HeaderTokens(cs)|)))
    ensures ParseClasses(ts, SkipLines(ts, p), acc) == Ok(Declared(cs, acc), SkipLines(ts, p + |HeaderTokens(cs)|))
    ensures cs != [] ==> Peek(ts, SkipLines(ts, p)) == Keyword
    decreases cs
  {
    hide ClassTokens, ClassOk, ParseClasses;
    if cs == [] {
      NoMoreClasses(ts, SkipLines(ts, p), acc);
    } else {
      AtSplit(ts, p, ClassTokens(cs[0]), HeaderTokens(cs[1..]));
      var q := p + |ClassTokens(cs[0])|;
      ClassStarts(cs[0], ts, p);
      ParseHeader(cs[1..], ts, q, acc[cs[0].name := cs[0].keys]);
      ParseClass(cs[0], ts, p, acc);
    }
  }

  lemma ClassStarts(c: Class, ts: seq<Tok>, p: nat)
    requires At(ts, p, ClassTokens(c))
    ensures Peek(ts, p) == Keyword && SkipLines(ts, p) == p
  {
    PeekAt(ts, p, ClassTokens(c));
    SkipNothing(ts, p);
  }

  lemma NoMoreClasses(ts: seq<Tok>, p: nat, cs: Classes)
    requires Peek(ts, p) != Keyword
    ensures ParseClasses(ts, p, cs) == Ok(cs, p)
  {
  }

  ghost predicate DistinctNames(cs: seq<Class>)
  {
    forall i, j :: 0 <= i < j < |cs| ==> cs[i].name != cs[j].name
  }

  lemma {:induction false} DeclaredHas(cs: seq<Class>, acc: Classes)
    requires DistinctNames(cs)
    ensures forall c :: c in cs ==> c.name in Declared(cs, acc) && Declared(cs, acc)[c.name] == c.keys
    ensures forall n :: n in acc && (forall c :: c in cs ==> c.name != n) ==> n in Declared(cs, acc) && Declared(cs, acc)[n] == acc[n]
    decreases cs
  {
    if cs != [] {
      var rest := cs[1..];
      assert forall c :: c in rest ==> c.name != cs[0].name by {
        forall c | c in rest ensures c.name != cs[0].name {
          var j :| 0 <= j < |rest| && rest[j] == c;
          assert cs[j + 1] == c;
        }
      }
      DeclaredHas(rest, acc[cs[0].name := cs[0].keys]);
      assert cs == [cs[0]] + rest;
    }
  }

  // ---------- Documents ----------

  lemma {:induction false} HoistPrintable(cs: seq<Class>, d: Doc)
    requires AllTextual(d) && forall c :: c in cs ==> NameOk(c.name)
    ensures Printable(Hoist(cs, d))
    decreases d
  {
    hide NameOk, Signature, Arrange;
    match d
    case Atom(_) =>
    case List(items) => HoistAllPrintable(cs, items);
    case Table(es) =>
      HoistEntriesPrintable(cs, es);
      if Found(cs, es).Some? { ArrangePrintable(es, HoistEntries(cs, es), Found(cs, es).value.keys); }
  }

  lemma {:induction false} HoistAllPrintable(cs: seq<Class>, ds: seq<Doc>)
    requires ItemsTextual(ds) && forall c :: c in cs ==> NameOk(c.name)
    ensures AllPrintable(HoistAll(cs, ds))
    decreases ds
  {
    hide NameOk, Hoist;
    if ds != [] {
      HoistPrintable(cs, ds[0]);
      HoistAllPrintable(cs, ds[1..]);
    }
  }

  lemma {:induction false} HoistEntriesPrintable(cs: seq<Class>, es: seq<Entry>)
    requires EntriesTextual(es) && forall c :: c in cs ==> NameOk(c.name)
    ensures AllPrintable(HoistEntries(cs, es))
    decreases es
  {
    hide NameOk, Hoist;
    if es != [] {
      HoistPrintable(cs, es[0].doc);
      HoistEntriesPrintable(cs, es[1..]);
    }
  }

  lemma {:induction false} PrintableAt(ts: seq<Tree>)
    ensures AllPrintable(ts) <==> forall i :: 0 <= i < |ts| ==> Printable(ts[i])
  {
    hide Printable;
    if ts != [] {
      PrintableAt(ts[1..]);
      assert forall i :: 1 <= i < |ts| ==> ts[i] == ts[1..][i - 1];
      assert forall i :: 0 <= i < |ts[1..]| ==> ts[1..][i] == ts[i + 1];
    }
  }

  lemma {:induction false} ArrangePrintable(es: seq<Entry>, children: seq<Tree>, keys: seq<Bytes>)
    requires |children| == |es| && AllPrintable(children)
    ensures AllPrintable(Arrange(es, children, keys))
    decreases keys
  {
    PrintableAt(children);
    if keys != [] { ArrangePrintable(es, children, keys[1..]); }
  }

  ghost predicate HeaderOk(header: seq<Class>, cs: seq<Class>)
  {
    && (forall c :: c in cs <==> c in header)
    && (forall c :: c in header ==> ClassOk(c))
    && DistinctNames(header)
  }

  function Gap(header: seq<Class>): (r: Bytes)
  {
    if header == [] then [] else [NEWLINE]
  }

  function GapTokens(header: seq<Class>): (r: seq<Tok>)
  {
    if header == [] then [] else [Newline]
  }

  lemma LexGap(header: seq<Class>, s: Bytes, i: nat)
    requires At(s, i, Gap(header))
    ensures Tokens(s, i) == GapTokens(header) + Tokens(s, i + |Gap(header)|)
  {
    hide Tokens;
    if header != [] { LexNewline(s, i); }
  }

  lemma LexRoot(plat: Json.Platform, t: Tree, s: Bytes, i: nat)
    requires Printable(t) && At(s, i, TextOf(plat, t) + [NEWLINE]) && |s| == i + |TextOf(plat, t)| + 1
    ensures Tokens(s, i) == TokensOf(t) + [Newline, End]
  {
    hide Tokens, Printable, TextOf, TokensOf;
    var q := i + |TextOf(plat, t)|;
    AtSplit(s, i, TextOf(plat, t), [NEWLINE]);
    EndsAt(s, q, [NEWLINE]);
    LexTree(plat, t, s, i);
    LexNewline(s, q);
    LexEnd(s);
    assert [Newline] + [End] == [Newline, End];
  }

  lemma LexDocument(plat: Json.Platform, header: seq<Class>, t: Tree, body: Bytes)
    requires Printable(t) && (forall c :: c in header ==> NameOk(c.name))
    requires body == HeaderText(header) + (Gap(header) + (TextOf(plat, t) + [NEWLINE]))
    ensures Tokens(body, 0) == HeaderTokens(header) + (GapTokens(header) + (TokensOf(t) + [Newline, End]))
  {
    hide Tokens, Printable, TextOf, TokensOf, HeaderText, HeaderTokens, Gap, GapTokens, NameOk;
    var rest := TextOf(plat, t) + [NEWLINE];
    Whole(body);
    AtSplit(body, 0, HeaderText(header), Gap(header) + rest);
    LexHeader(header, body, 0);
    var p := |HeaderText(header)|;
    AtSplit(body, p, Gap(header), rest);
    LexGap(header, body, p);
    LexRoot(plat, t, body, p + |Gap(header)|);
  }

  lemma Whole<T>(s: seq<T>)
    ensures At(s, 0, s)
  {
    assert s[0..0 + |s|] == s;
  }

  lemma LexEnd(s: Bytes)
    ensures Tokens(s, |s|) == [End]
  {
  }

  /** The parser's whole behaviour on printed text: class definitions in any order, then the root. */
  lemma ParsePrinted(plat: Json.Platform, header: seq<Class>, t: Tree)
    requires Printable(t) && (forall c :: c in header ==> ClassOk(c))
    ensures ParseDocument(plat, HeaderText(header) + (Gap(header) + (TextOf(plat, t) + [NEWLINE])))
         == Expand(plat, Declared(header, map[]), t)
  {
    hide Tokens, Printable, TextOf, TokensOf, HeaderText, HeaderTokens, ParseClasses, ParseValue, Expand, Declared, SkipLines, Gap, GapTokens;
    var body := HeaderText(header) + (Gap(header) + (TextOf(plat, t) + [NEWLINE]));
    var m := Declared(header, map[]);
    LexDocument(plat, header, t, body);
    var ts := Tokens(body, 0);
    var e := RootRead(plat, header, t, ts);
  }

  lemma RootRead(plat: Json.Platform, header: seq<Class>, t: Tree, ts: seq<Tok>) returns (e: nat)
    requires Printable(t) && (forall c :: c in header ==> ClassOk(c))
    requires ts == HeaderTokens(header) + (GapTokens(header) + (TokensOf(t) + [Newline, End]))
    ensures ParseClasses(ts, SkipLines(ts, 0), map[]).Ok?
    ensures var cs := ParseClasses(ts, SkipLines(ts, 0), map[]);
      cs.value == Declared(header, map[]) && TreeRead(plat, cs.value, t, ts, cs.pos, e)
    ensures Peek(ts, SkipLines(ts, e)) == End
  {
    hide *;
    var p := |HeaderTokens(header)|;
    var q := p + |GapTokens(header)|;
    RootPlace(header, t, ts, p, q);
    ParseHeader(header, ts, 0, map[]);
    ParseTree(plat, Declared(header, map[]), t, ts, q);
    e := q + |TokensOf(t)|;
  }

  /** Where the root's tokens lie. */
  lemma RootPlace(header: seq<Class>, t: Tree, ts: seq<Tok>, p: nat, q: nat)
    requires Printable(t) && p == |HeaderTokens(header)| && q == p + |GapTokens(header)|
    requires ts == HeaderTokens(header) + (GapTokens(header) + (TokensOf(t) + [Newline, End]))
    ensures At(ts, 0, HeaderTokens(header)) && SkipLines(ts, p) == q && Opens(Peek(ts, q))
    ensures At(ts, q, TokensOf(t)) && Peek(ts, SkipLines(ts, q + |TokensOf(t)|)) == End
  {
    hide *;
    Whole(ts);
    GapIs(header);
    var e := q + |TokensOf(t)|;
    AtSplit(ts, 0, HeaderTokens(header), GapTokens(header) + (TokensOf(t) + [Newline, End]));
    AtSplit(ts, p, GapTokens(header), TokensOf(t) + [Newline, End]);
    AtSplit(ts, q, TokensOf(t), [Newline, End]);
    TokensOpen(t);
    PeekAt(ts, q, TokensOf(t));
    OpensSkip(ts, q);
    if header != [] {
      PeekAt(ts, p, GapTokens(header));
      SkipNewline(ts, p);
    }
    EndAfter(ts, e);
  }

  lemma GapIs(header: seq<Class>)
    ensures GapTokens(header) == if header == [] then [] else [Newline]
  {
  }

  lemma EndAfter(ts: seq<Tok>, e: nat)
    requires At(ts, e, [Newline, End])
    ensures Peek(ts, SkipLines(ts, e)) == End
  {
    AtHead(ts, e, [Newline, End]);
    PeekAt(ts, e + 1, [Newline, End][1..]);
  }

  lemma SkipNewline(ts: seq<Tok>, p: nat)
    requires Peek(ts, p) == Newline
    ensures SkipLines(ts, p) == SkipLines(ts, p + 1)
  {
  }

  lemma OpensSkip(ts: seq<Tok>, p: nat)
    requires Opens(Peek(ts, p))
    ensures SkipLines(ts, p) == p
  {
  }

  /** A printed document is read back as its meaning exactly when it is kept, whatever was hoisted and
      in whatever order the classes were defined. */
  lemma DocumentRoundTrip(plat: Json.Platform, header: seq<Class>, cs: seq<Class>, d: Doc)
    requires AllTextual(d) && WellFormed(d) && HeaderOk(header, cs)
    ensures ParseDocument(plat, DocumentText(plat, header, cs, d)) == Some(Meaning(d)) <==> Kept(plat, cs, d)
  {
    hide ParseDocument, Hoist, Expand, Meaning, Kept, AllTextual, WellFormed, Declared, HeaderText, TextOf;
    forall c | c in cs ensures NameOk(c.name) { assert c in header; }
    HoistPrintable(cs, d);
    ParsePrinted(plat, header, Hoist(cs, d));
    DeclaredHas(header, map[]);
    assert Declares(Declared(header, map[]), cs);
    HoistKeeps(plat, Declared(header, map[]), cs, d);
  }

  lemma ChosenOk(d: Doc, header: seq<Class>, cs: seq<Class>)
    requires Chosen(d, cs) && Clean(Objects(d)) && DistinctNames(header) && forall c :: c in cs <==> c in header
    ensures HeaderOk(header, cs) && DrawnFrom(cs, Objects(d))
  {
    hide Signature, ClassName, SortedKeys, Count;
    forall c | c in cs ensures ClassOk(c) && FirstKeys(Objects(d), c.signature) == Some(c.keys) {
      var i :| 0 <= i < |cs| && cs[i] == c;
      ClassNameOk(i);
      FirstKeysFound(Objects(d), c.signature);
      var es :| es in Objects(d) && Signature(es) == c.signature && c.keys == SortedKeys(es);
      SortedSame(es);
    }
  }

  /** toTRON then fromTRON: with clean keys, the document comes back exactly when its scalars do. */
  lemma HoistingPreservesMeaning(plat: Json.Platform, header: seq<Class>, cs: seq<Class>, d: Doc)
    requires AllTextual(d) && WellFormed(d) && Chosen(d, cs) && Clean(Objects(d))
    requires DistinctNames(header) && forall c :: c in cs <==> c in header
    ensures ParseDocument(plat, DocumentText(plat, header, cs, d)) == Some(Meaning(d)) <==> ScalarsKept(plat, d)
  {
    hide ParseDocument, DocumentText, Meaning, Kept, AllTextual, WellFormed, Chosen, Clean, ScalarsKept;
    ChosenOk(d, header, cs);
    DocumentRoundTrip(plat, header, cs, d);
    CleanKept(plat, cs, Objects(d), d);
  }

  /** Without clean keys meaning can be lost: keys holding commas make two different objects share a class. */
  lemma {:induction false} CommaKeysLost(plat: Json.Platform)
    ensures var a, b := [Entry([97, COMMA, 98], Atom(Null)), Entry([99], Atom(Null))],
                        [Entry([97], Atom(Null)), Entry([98, COMMA, 99], Atom(Null))];
      var d, cs := List([Table(a), Table(b)]), [Class(Signature(a), ClassName(0), SortedKeys(a))];
      Chosen(d, cs) && ParseDocument(plat, DocumentText(plat, cs, cs, d)) != Some(Meaning(d))
  {
    hide Signature, SortedKeys, ClassName, Meaning, DocumentText, ParseDocument;
    var a, b := [Entry([97, COMMA, 98], Atom(Null)), Entry([99], Atom(Null))],
                [Entry([97], Atom(Null)), Entry([98, COMMA, 99], Atom(Null))];
    var ta, tb := Table(a), Table(b);
    var c := Class(Signature(a), ClassName(0), SortedKeys(a));
    SignaturesCollide();
    TwoNulls(a);
    TwoNulls(b);
    TwoChosen(a, b, c);
    SortedSame(a);
    ClassNameOk(0);
    var d := List([ta, tb]);
    assert [ta, tb][1..] == [tb] && [tb][1..] == [];
    assert ItemsTextual([]) && AllWellFormed([]);
    assert ItemsTextual([tb]) && AllWellFormed([tb]);
    assert AllTextual(d) && WellFormed(d);
    DocumentRoundTrip(plat, [c], [c], d);
    NotShared(plat, a, b, c);
    assert !Kept(plat, [c], tb) ==> !KeptAll(plat, [c], [tb]) && !KeptAll(plat, [c], [ta, tb]);
  }

  lemma {:induction false} NotShared(plat: Json.Platform, a: seq<Entry>, b: seq<Entry>, c: Class)
    requires a != [] && b != [] && Signature(a) == Signature(b) && !SameKeys(Keys(a), Keys(b)) && SameKeys(SortedKeys(a), Keys(a))
    requires c.signature == Signature(a) && c.keys == SortedKeys(a)
    ensures !Kept(plat, [c], Table(b))
  {
    hide Signature, SortedKeys;
    assert Found([c], b) == Some(c);
  }

  lemma {:induction false} TwoNulls(es: seq<Entry>)
    requires |es| == 2 && es[0].doc == Atom(Null) && es[1].doc == Atom(Null) && DistinctKeys(es)
    ensures AllTextual(Table(es)) && WellFormed(Table(es)) && ObjectsUnder(es) == []
  {
    assert es[1..][1..] == [];
    assert EntriesTextual([]) && EntriesTextual(es[1..]);
    assert EntriesWellFormed(es[1..][1..]);
    assert EntriesWellFormed(es[1..]);
    assert ObjectsUnder([]) == [] && ObjectsUnder(es[1..]) == [];
  }

  lemma {:induction false} TwoChosen(a: seq<Entry>, b: seq<Entry>, c: Class)
    requires |a| == 2 && b != [] && Signature(a) == Signature(b) && ObjectsUnder(a) == [] && ObjectsUnder(b) == []
    requires c == Class(Signature(a), ClassName(0), SortedKeys(a))
    ensures Chosen(List([Table(a), Table(b)]), [c])
  {
    hide Signature, SortedKeys, ClassName;
    var ds := [Table(a), Table(b)];
    assert ds[1..] == [Table(b)] && ds[1..][1..] == [];
    assert ObjectsIn([]) == [] && ObjectsIn(ds[1..]) == [b];
    assert Objects(ds[0]) == [a];
    assert ObjectsIn(ds) == Objects(ds[0]) + ObjectsIn(ds[1..]) == [a] + [b];
    var objs := Objects(List(ds));
    assert objs == [a, b] && objs[1..] == [b] && objs[1..][1..] == [] && objs[..1] == [a] && [a][..0] == [];
    forall s ensures FirstKeys(objs, s).Some? <==> s == Signature(a) {
      assert FirstKeys([], s) == None;
    }
    assert Count([], Signature(a)) == 0 && Count([a], Signature(a)) == 1 && Count(objs, Signature(a)) == 2;
    assert [c][0].signature == Signature(a);
  }

  // ---------- Scalars ----------

  /** What survives: everything but exact literals and the types TRON writes as plain text, and strings
      that look like one of the marked forms. */
  ghost predicate ScalarKept(plat: Json.Platform, s: Scalar)
  {
    match s
    case Text(t, false) =>
      |t| <= MAX_STRING_LEN && !HasPrefix(t, B64_PREFIX) && !ExtensionForm(t) && Json.ReadDate(plat, t) == None
    case Binary(data) => data != [] && |data| <= MAX_STRING_LEN
    case Extension(_, payload) => |payload| <= MAX_STRING_LEN
    case Null => true
    case Bool(_) => true
    case Int(_) => true
    case _ => false
  }

  lemma ScalarSurvives(plat: Json.Platform, s: Scalar)
    requires Textual(s)
    ensures ExpandScalar(plat, s) == Some(Leaf(s)) <==> ScalarKept(plat, s)
  {
    hide ReadString, ExtensionForm, HasPrefix, Base64.Encode, Json.Hex, Decimal;
    match s
    case Text(t, false) => TextRead(plat, t);
    case Binary(data) => BinaryRead(plat, data);
    case Extension(t, payload) => ExtensionRead(plat, t, payload);
    case ObjectId(_) => ReadStringForms(plat, StringOf(s));
    case Regex(_) => ReadStringForms(plat, StringOf(s));
    case _ =>
  }

  lemma ReadStringForms(plat: Json.Platform, s: Bytes)
    ensures var r := ReadString(plat, s);
      r.Some? ==> r.value.Leaf? && (r.value.scalar.Binary? || r.value.scalar.Extension? || r.value.scalar.DateTime? || r.value.scalar.Text?)
  {
    hide Base64.Decode, ExtensionForm, HasPrefix, WholeInt;
  }

  lemma TextRead(plat: Json.Platform, t: Bytes)
    ensures ReadString(plat, t) == Some(Leaf(Text(t, false))) <==> ScalarKept(plat, Text(t, false))
  {
    hide Base64.Decode, WholeInt;
  }

  lemma OtherPrefix(s: Bytes, prefix: Bytes)
    requires |s| > 2 && |prefix| > 2 && s[2] != prefix[2]
    ensures !HasPrefix(s, prefix)
  {
    assert |s| >= |prefix| ==> s[..|prefix|][2] == s[2];
  }

  lemma BinaryRead(plat: Json.Platform, data: Bytes)
    ensures ReadString(plat, StringOf(Binary(data))) == Some(Leaf(Binary(data)))
       <==> data != [] && |data| <= MAX_STRING_LEN
  {
    hide Base64.Decode, Base64.Encode, WholeInt;
    var text := Base64.Encode(Base64.Default(), data);
    var s := B64_PREFIX + text;
    assert s[..10] == B64_PREFIX && s[10..] == text;
    Base64.DefaultIsAlphabet();
    Base64.RoundTrip(Base64.Default(), data);
    if data == [] {
      assert s[2] == 66;
      OtherPrefix(s, EXT_PREFIX);
    }
  }

  lemma {:induction false} SeparatorAfter(s: Bytes, i: nat, j: nat)
    requires i <= j && j + 2 <= |s| && s[j] == 95 && s[j + 1] == 95
    requires forall k :: i <= k < j ==> s[k] != 95
    ensures FindSeparator(s, i) == Some(j)
    decreases j - i
  {
    if i < j { SeparatorAfter(s, i + 1, j); }
  }

  lemma ExtensionRead(plat: Json.Platform, t: Int8, payload: Bytes)
    ensures ReadString(plat, StringOf(Extension(t, payload))) == Some(Leaf(Extension(t, payload)))
       <==> |payload| <= MAX_STRING_LEN
  {
    hide Base64.Decode, Base64.Encode, WholeInt, FindSeparator;
    var text, n := Base64.Encode(Base64.Default(), payload), Decimal(t);
    var s := EXT_PREFIX + n + SEPARATOR + text;
    var sep := 7 + |n|;
    assert s[..7] == EXT_PREFIX && s[7..sep] == n && s[sep + 2..] == text;
    assert s[sep] == 95 && s[sep + 1] == 95;
    DecimalBytes(t);
    forall k | 7 <= k < sep ensures s[k] != 95 { assert s[k] == n[k - 7]; }
    SeparatorAfter(s, 7, sep);
    WholeDecimal(t);
    assert s[2] == 69;
    OtherPrefix(s, B64_PREFIX);
    JsonFaithful.ExtensionType(t);
    Base64.DefaultIsAlphabet();
    Base64.RoundTrip(Base64.Default(), payload);
  }

  lemma DecimalBytes(n: int)
    ensures forall i :: 0 <= i < |Decimal(n)| ==> Decimal(n)[i] == MINUS || IsDigit(Decimal(n)[i])
  {
  }

  lemma WholeDecimal(n: int)
    requires -128 <= n < 128
    ensures WholeInt(Decimal(n), 0x8000_0000) == Some(n)
  {
    JsonTokens.DecimalIsLiteral(n);
    DigitsOnlyIs(JsonTokens.Magnitude(Decimal(n)));
  }
}
