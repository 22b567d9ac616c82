/** The TRON parser on the tokens of printed trees. */
module TronProofs {
  import opened Bytes
  import opened Values
  import opened Text
  import opened Tron
  import opened TronHoist
  import opened TronTokens
  import opened JsonProofs
  import Json
  import JsonTokens

  // ---------- First tokens ----------

  /** Tokens a value can start with. */
  predicate Opens(t: Tok)
  {
    !t.Newline? && !t.End? && !t.Keyword? && (t.Punct? ==> t.mark == LBRACE || t.mark == LBRACKET)
  }

  lemma TokensOpen(t: Tree)
    requires Printable(t)
    ensures TokensOf(t) != [] && Opens(TokensOf(t)[0])
  {
    hide ListTokens, MemberTokens, Escape;
  }

  lemma SkipNothing(ts: seq<Tok>, p: nat)
    requires Peek(ts, p) != Newline && Peek(ts, p) != Punct(SEMICOLON)
    ensures SkipLines(ts, p) == p
  {
  }

  lemma PeekAt(ts: seq<Tok>, p: nat, chunk: seq<Tok>)
    requires At(ts, p, chunk) && chunk != []
    ensures Peek(ts, p) == chunk[0]
  {
    AtHead(ts, p, chunk);
  }

  // ---------- One step of the parser ----------

  lemma StepListing(plat: Json.Platform, cs: Classes, ts: seq<Tok>, p: nat)
    requires p < |ts| && ts[p] == Punct(LBRACKET)
    ensures ParseValue(plat, cs, ts, p)
         == match ParseArray(plat, cs, ts, p) case Err(e) => Err(e) case Ok(vs, q) => Ok(Array(vs), q)
  {
    hide ParseArray, ParseObject, ParseArgs;
    SkipNothing(ts, p);
  }

  lemma StepPlain(plat: Json.Platform, cs: Classes, ts: seq<Tok>, p: nat)
    requires p < |ts| && ts[p] == Punct(LBRACE)
    ensures ParseValue(plat, cs, ts, p)
         == match ParseObject(plat, cs, ts, p) case Err(e) => Err(e) case Ok(m, q) => Ok(Object(m), q)
  {
    hide ParseArray, ParseObject, ParseArgs;
    SkipNothing(ts, p);
  }

  lemma StepInstance(plat: Json.Platform, cs: Classes, ts: seq<Tok>, p: nat, name: Bytes)
    requires Peek(ts, p) == Ident(name) && Peek(ts, p + 1) == Punct(LPAREN)
    ensures ParseValue(plat, cs, ts, p)
         == if name !in cs then Err(BadText)
            else match ParseArgs(plat, cs, ts, SkipLines(ts, p + 2), [], map[])
                 case Err(e) => Err(e)
                 case Ok(a, q) =>
                   if Peek(ts, q) != Punct(RPAREN) then Err(BadText)
                   else Ok(Object(Build(Fill(cs[name], a.0, a.1), map[])), q + 1)
  {
    hide ParseArray, ParseObject, ParseArgs, Build, Fill;
    SkipNothing(ts, p);
  }

  // ---------- Scalars ----------

  lemma ScalarRead(plat: Json.Platform, cs: Classes, s: Scalar, ts: seq<Tok>, p: nat)
    requires Textual(s) && At(ts, p, [ScalarToken(s)])
    ensures ParseValue(plat, cs, ts, p) == AtPos(ExpandScalar(plat, s), p + 1)
  {
    hide ParseArray, ParseObject, ParseArgs, ReadString, StringOf, Decimal, Escape, Unescape;
    PeekAt(ts, p, [ScalarToken(s)]);
    SkipNothing(ts, p);
    if IsString(s) {
      JsonTokens.Unescaped(StringOf(s));
    } else if s.Int? {
      IntRead(plat, s.num);
    } else if s.Timestamp? {
      IntRead(plat, s.seconds);
    }
  }

  lemma IntRead(plat: Json.Platform, n: Int64)
    ensures ReadNumber(plat, Decimal(n)) == Some(Leaf(Int(n)))
  {
    JsonTokens.DecimalIsLiteral(n);
    NoExponent(Decimal(n));
    DigitsOnlyIs(JsonTokens.Magnitude(Decimal(n)));
  }

  lemma NoExponent(s: Bytes)
    requires JsonTokens.IntegerLiteral(s)
    ensures Json.DOT !in s && 101 !in s && 69 !in s
  {
    forall i | 0 <= i < |s| ensures s[i] == MINUS || IsDigit(s[i]) {
      var m := JsonTokens.Magnitude(s);
      if s[0] == MINUS { assert i > 0 ==> s[i] == m[i - 1]; } else { assert s[i] == m[i]; }
    }
  }

  // ---------- Lists ----------

  /** An array body is read as expected, up to its closing bracket at `end`. */
  ghost predicate ElementsRead(plat: Json.Platform, cs: Classes, trees: seq<Tree>, ts: seq<Tok>, pos: nat,
                               acc: seq<Value>, end: nat)
  {
    match ExpandAll(plat, cs, trees)
    case None => ParseElements(plat, cs, ts, pos, acc).Err?
    case Some(vs) => ParseElements(plat, cs, ts, pos, acc) == Ok(acc + vs, end)
  }

  ghost predicate ArgsRead(plat: Json.Platform, cs: Classes, trees: seq<Tree>, ts: seq<Tok>, pos: nat,
                           acc: seq<Value>, end: nat)
  {
    match ExpandAll(plat, cs, trees)
    case None => ParseArgs(plat, cs, ts, pos, acc, map[]).Err?
    case Some(vs) => ParseArgs(plat, cs, ts, pos, acc, map[]) == Ok((acc + vs, map[]), end)
  }

  ghost predicate MembersRead(plat: Json.Platform, cs: Classes, trees: seq<Tree>, keys: seq<Bytes>, ts: seq<Tok>, pos: nat,
                              acc: map<Bytes, Value>, end: nat)
  {
    match ExpandAll(plat, cs, trees)
    case None => ParseMembers(plat, cs, ts, pos, acc).Err?
    case Some(vs) => ParseMembers(plat, cs, ts, pos, acc) == Ok(Build(Fill(keys, vs, map[]), acc), end)
  }

  ghost predicate TreeRead(plat: Json.Platform, cs: Classes, t: Tree, ts: seq<Tok>, pos: nat, end: nat)
  {
    match Expand(plat, cs, t)
    case None => ParseValue(plat, cs, ts, pos).Err?
    case Some(v) => ParseValue(plat, cs, ts, pos) == Ok(v, end)
  }

  /** One turn of the array loop. */
  lemma StepElement(plat: Json.Platform, cs: Classes, trees: seq<Tree>, ts: seq<Tok>, pos: nat, q: nat,
                    acc: seq<Value>, end: nat)
    requires trees != [] && Peek(ts, pos) != Punct(RBRACKET) && TreeRead(plat, cs, trees[0], ts, pos, q)
    requires |trees| == 1 ==> Peek(ts, q) == Punct(RBRACKET) && end == q
    requires |trees| > 1 ==> Peek(ts, q) == Punct(COMMA) && Opens(Peek(ts, q + 1))
    requires |trees| > 1 && Expand(plat, cs, trees[0]).Some? ==>
      ElementsRead(plat, cs, trees[1..], ts, q + 1, acc + [Expand(plat, cs, trees[0]).value], end)
    ensures ElementsRead(plat, cs, trees, ts, pos, acc, end)
  {
    hide ParseValue, Expand;
    SkipNothing(ts, q);
    if |trees| > 1 { SkipNothing(ts, q + 1); }
    if Expand(plat, cs, trees[0]).Some? && ExpandAll(plat, cs, trees[1..]).Some? {
      var v, vs := Expand(plat, cs, trees[0]).value, ExpandAll(plat, cs, trees[1..]).value;
      assert acc + [v] + vs == acc + ([v] + vs);
      assert |trees| == 1 ==> acc + [v] + vs == acc + [v];
    }
  }

  lemma StepArg(plat: Json.Platform, cs: Classes, trees: seq<Tree>, ts: seq<Tok>, pos: nat, q: nat,
                acc: seq<Value>, end: nat)
    requires trees != [] && Opens(Peek(ts, pos)) && TreeRead(plat, cs, trees[0], ts, pos, q)
    requires Peek(ts, pos + 1) != Punct(EQUALS) || !(Peek(ts, pos).Ident? || Peek(ts, pos).Str?)
    requires |trees| == 1 ==> Peek(ts, q) == Punct(RPAREN) && end == q
    requires |trees| > 1 ==> Peek(ts, q) == Punct(COMMA) && Opens(Peek(ts, q + 1))
    requires |trees| > 1 && Expand(plat, cs, trees[0]).Some? ==>
      ArgsRead(plat, cs, trees[1..], ts, q + 1, acc + [Expand(plat, cs, trees[0]).value], end)
    ensures ArgsRead(plat, cs, trees, ts, pos, acc, end)
  {
    hide ParseValue, Expand, ExpandAll, ParseArgs, Unescape, SkipLines, Build, Fill, ReadString;
    SkipNothing(ts, pos);
    SkipNothing(ts, q);
    if |trees| > 1 { SkipNothing(ts, q + 1); }
    AllExpand(plat, cs, trees);
    if Expand(plat, cs, trees[0]).Some? {
      var v := Expand(plat, cs, trees[0]).value;
      ArgTaken(plat, cs, ts, pos, q, acc, v);
      AfterArg(plat, cs, ts, q, acc + [v]);
      if ExpandAll(plat, cs, trees[1..]).Some? {
        var vs := ExpandAll(plat, cs, trees[1..]).value;
        Regrouped(acc, [v], vs);
        if |trees| == 1 { assert [v] + vs == [v]; }
      }
    } else {
      ArgRefused(plat, cs, ts, pos, acc);
    }
  }

  lemma AllExpand(plat: Json.Platform, cs: Classes, trees: seq<Tree>)
    requires trees != []
    ensures var v, vs := Expand(plat, cs, trees[0]), ExpandAll(plat, cs, trees[1..]);
      ExpandAll(plat, cs, trees) == if v.Some? && vs.Some? then Some([v.value] + vs.value) else None
    ensures |trees| == 1 ==> ExpandAll(plat, cs, trees[1..]) == Some([])
  {
    hide Expand;
  }

  lemma ArgRefused(plat: Json.Platform, cs: Classes, ts: seq<Tok>, pos: nat, acc: seq<Value>)
    requires Opens(Peek(ts, pos)) && ParseValue(plat, cs, ts, pos).Err?
    requires Peek(ts, pos + 1) != Punct(EQUALS) || !(Peek(ts, pos).Ident? || Peek(ts, pos).Str?)
    ensures ParseArgs(plat, cs, ts, pos, acc, map[]).Err?
  {
    hide ParseValue, Unescape;
    SkipNothing(ts, pos);
  }

  lemma ArgTaken(plat: Json.Platform, cs: Classes, ts: seq<Tok>, pos: nat, q: nat, acc: seq<Value>, v: Value)
    requires Opens(Peek(ts, pos)) && ParseValue(plat, cs, ts, pos) == Ok(v, q) && SkipLines(ts, q) == q
    requires Peek(ts, pos + 1) != Punct(EQUALS) || !(Peek(ts, pos).Ident? || Peek(ts, pos).Str?)
    ensures ParseArgs(plat, cs, ts, pos, acc, map[]) == ParseArgs(plat, cs, ts, q, acc + [v], map[])
  {
    hide ParseValue, Unescape;
    SkipNothing(ts, pos);
  }

  lemma AfterArg(plat: Json.Platform, cs: Classes, ts: seq<Tok>, q: nat, args: seq<Value>)
    requires args != []
    ensures Peek(ts, q) == Punct(RPAREN) ==> ParseArgs(plat, cs, ts, q, args, map[]) == Ok((args, map[]), q)
    ensures Peek(ts, q) == Punct(COMMA) ==>
      ParseArgs(plat, cs, ts, q, args, map[]) == ParseArgs(plat, cs, ts, SkipLines(ts, q + 1), args, map[])
  {
    hide ParseValue, Unescape;
  }

  lemma StepMember(plat: Json.Platform, cs: Classes, trees: seq<Tree>, keys: seq<Bytes>, ts: seq<Tok>, pos: nat, q: nat,
                   acc: map<Bytes, Value>, end: nat)
    requires trees != [] && |keys| == |trees| && Peek(ts, pos) == Str(Escape(keys[0])) && Peek(ts, pos + 1) == Punct(COLON)
    requires Opens(Peek(ts, pos + 2)) && TreeRead(plat, cs, trees[0], ts, pos + 2, q)
    requires |trees| == 1 ==> Peek(ts, q) == Punct(RBRACE) && end == q
    requires |trees| > 1 ==> Peek(ts, q) == Punct(COMMA) && Peek(ts, q + 1).Str?
    requires |trees| > 1 && Expand(plat, cs, trees[0]).Some? ==>
      MembersRead(plat, cs, trees[1..], keys[1..], ts, q + 1, Emplace(acc, keys[0], Expand(plat, cs, trees[0]).value), end)
    ensures MembersRead(plat, cs, trees, keys, ts, pos, acc, end)
  {
    hide ParseValue, Expand, Unescape, Escape, Build, Emplace;
    JsonTokens.Unescaped(keys[0]);
    SkipNothing(ts, pos + 2);
    SkipNothing(ts, q);
    if |trees| > 1 { SkipNothing(ts, q + 1); }
    if Expand(plat, cs, trees[0]).Some? && ExpandAll(plat, cs, trees[1..]).Some? {
      FillFirst(keys, Expand(plat, cs, trees[0]).value, ExpandAll(plat, cs, trees[1..]).value, acc);
      if |trees| == 1 { NothingFilled(Emplace(acc, keys[0], Expand(plat, cs, trees[0]).value)); }
    }
  }

  lemma FillFirst(keys: seq<Bytes>, v: Value, vs: seq<Value>, acc: map<Bytes, Value>)
    requires keys != []
    ensures Build(Fill(keys, [v] + vs, map[]), acc) == Build(Fill(keys[1..], vs, map[]), Emplace(acc, keys[0], v))
  {
    hide Emplace;
    assert ([v] + vs)[1..] == vs;
    FirstPair(keys[0], v, Fill(keys[1..], vs, map[]), acc);
  }

  lemma NothingFilled(acc: map<Bytes, Value>)
    ensures Build(Fill([], [], map[]), acc) == acc
  {
  }

  // ---------- Trees ----------

  lemma {:induction false} ParseTree(plat: Json.Platform, cs: Classes, t: Tree, ts: seq<Tok>, p: nat)
    requires Printable(t) && At(ts, p, TokensOf(t))
    ensures TreeRead(plat, cs, t, ts, p, p + |TokensOf(t)|)
    decreases t, 0
  {
    hide ParseValue, ExpandAll, ListTokens, MemberTokens, ScalarToken, ExpandScalar, AllPrintable, Build, Fill, NameOk,
         ParseArray, ParseObject, ParseArgs, TreeRead;
    match t
    case Token(s) => TokenRead(plat, cs, s, ts, p);
    case Listing(items) =>
      AtHead(ts, p, TokensOf(t));
      AtSplit(ts, p, [Punct(LBRACKET)], ListTokens(items) + [Punct(RBRACKET)]);
      ListRead(plat, cs, items, ts, p);
      ListingRead(plat, cs, items, ts, p, p + |TokensOf(t)|);
    case Plain(members, keys) =>
      AtHead(ts, p, TokensOf(t));
      AtSplit(ts, p, [Punct(LBRACE)], MemberTokens(members, keys) + [Punct(RBRACE)]);
      PlainRead(plat, cs, members, keys, ts, p);
      ObjectRead(plat, cs, members, keys, ts, p, p + |TokensOf(t)|);
    case Instance(name, args) =>
      CallAt(name, ListTokens(args) + [Punct(RPAREN)], ts, p);
      if name in cs { InstanceRead(plat, cs, args, ts, p); }
      CallRead(plat, cs, name, args, ts, p, p + |TokensOf(t)|);
  }

  lemma TokenRead(plat: Json.Platform, cs: Classes, s: Scalar, ts: seq<Tok>, p: nat)
    requires Printable(Token(s)) && At(ts, p, TokensOf(Token(s)))
    ensures TreeRead(plat, cs, Token(s), ts, p, p + |TokensOf(Token(s))|)
  {
    hide ParseValue, ScalarToken, ExpandScalar;
    ScalarRead(plat, cs, s, ts, p);
  }

  lemma ListingRead(plat: Json.Platform, cs: Classes, items: seq<Tree>, ts: seq<Tok>, p: nat, end: nat)
    requires p < |ts| && ts[p] == Punct(LBRACKET)
    requires match ExpandAll(plat, cs, items)
      case None => ParseArray(plat, cs, ts, p).Err?
      case Some(vs) => ParseArray(plat, cs, ts, p) == Ok(vs, end)
    ensures TreeRead(plat, cs, Listing(items), ts, p, end)
  {
    hide ParseValue, ParseArray, ExpandAll;
    StepListing(plat, cs, ts, p);
  }

  lemma ObjectRead(plat: Json.Platform, cs: Classes, trees: seq<Tree>, keys: seq<Bytes>, ts: seq<Tok>, p: nat, end: nat)
    requires p < |ts| && ts[p] == Punct(LBRACE) && |keys| == |trees|
    requires match ExpandAll(plat, cs, trees)
      case None => ParseObject(plat, cs, ts, p).Err?
      case Some(vs) => ParseObject(plat, cs, ts, p) == Ok(Build(Fill(keys, vs, map[]), map[]), end)
    ensures TreeRead(plat, cs, Plain(trees, keys), ts, p, end)
  {
    hide ParseValue, ParseObject, ExpandAll, Build, Fill;
    StepPlain(plat, cs, ts, p);
  }

  lemma CallRead(plat: Json.Platform, cs: Classes, name: Bytes, args: seq<Tree>, ts: seq<Tok>, p: nat, end: nat)
    requires p + 1 < |ts| && ts[p] == Ident(name) && ts[p + 1] == Punct(LPAREN) && 0 < end
    requires name in cs ==> Peek(ts, end - 1) == Punct(RPAREN)
    requires name in cs ==>
      match ExpandAll(plat, cs, args)
      case None => ParseArgs(plat, cs, ts, SkipLines(ts, p + 2), [], map[]).Err?
      case Some(vs) => ParseArgs(plat, cs, ts, SkipLines(ts, p + 2), [], map[]) == Ok((vs, map[]), end - 1)
    ensures TreeRead(plat, cs, Instance(name, args), ts, p, end)
  {
    hide ParseValue, ParseArgs, ExpandAll, Build, Fill, SkipLines;
    StepInstance(plat, cs, ts, p, name);
  }

  lemma CallAt(name: Bytes, inner: seq<Tok>, ts: seq<Tok>, p: nat)
    requires At(ts, p, [Ident(name), Punct(LPAREN)] + inner)
    ensures p + 1 < |ts| && ts[p] == Ident(name) && ts[p + 1] == Punct(LPAREN) && At(ts, p + 2, inner)
  {
    AtSplit(ts, p, [Ident(name), Punct(LPAREN)], inner);
    AtHead(ts, p, [Ident(name), Punct(LPAREN)]);
    AtHead(ts, p + 1, [Ident(name), Punct(LPAREN)][1..]);
  }

  lemma {:induction false} ListRead(plat: Json.Platform, cs: Classes, items: seq<Tree>, ts: seq<Tok>, p: nat)
    requires AllPrintable(items) && p < |ts| && At(ts, p + 1, ListTokens(items) + [Punct(RBRACKET)])
    ensures match ExpandAll(plat, cs, items)
      case None => ParseArray(plat, cs, ts, p).Err?
      case Some(vs) => ParseArray(plat, cs, ts, p) == Ok(vs, p + 2 + |ListTokens(items)|)
    decreases items, 2
  {
    hide ParseElements, ListTokens, ExpandAll, AllPrintable;
    NoTokens();
    if items == [] {
      PeekAt(ts, p + 1, [] + [Punct(RBRACKET)]);
      SkipNothing(ts, p + 1);
      ExpandNone(plat, cs);
    } else {
      ListOpens(items, ts, p + 1, RBRACKET);
      SkipNothing(ts, p + 1);
      ElementsParsed(plat, cs, items, ts, p + 1, []);
      AtSplit(ts, p + 1, ListTokens(items), [Punct(RBRACKET)]);
      PeekAt(ts, p + 1 + |ListTokens(items)|, [Punct(RBRACKET)]);
      if ExpandAll(plat, cs, items).Some? {
        assert [] + ExpandAll(plat, cs, items).value == ExpandAll(plat, cs, items).value;
      }
    }
  }

  lemma NoTokens()
    ensures AllPrintable([]) && ListTokens([]) == [] && MemberTokens([], []) == []
  {
  }

  lemma ExpandNone(plat: Json.Platform, cs: Classes)
    ensures ExpandAll(plat, cs, []) == Some([])
  {
  }

  lemma ListOpens(trees: seq<Tree>, ts: seq<Tok>, p: nat, close: Byte)
    requires trees != [] && AllPrintable(trees) && At(ts, p, ListTokens(trees) + [Punct(close)])
    ensures Opens(Peek(ts, p))
  {
    hide TokensOf, Printable;
    TokensOpen(trees[0]);
    PeekAt(ts, p, ListTokens(trees) + [Punct(close)]);
  }

  ghost function ListTail(trees: seq<Tree>, close: Byte): (r: seq<Tok>)
    requires trees != [] && AllPrintable(trees)
  {
    if |trees| == 1 then [Punct(close)] else [Punct(COMMA)] + (ListTokens(trees[1..]) + [Punct(close)])
  }

  lemma ListTailIs(trees: seq<Tree>, close: Byte)
    requires trees != [] && AllPrintable(trees)
    ensures ListTokens(trees) + [Punct(close)] == TokensOf(trees[0]) + ListTail(trees, close)
    ensures |ListTokens(trees)| == |TokensOf(trees[0])| + |ListTail(trees, close)| - 1
  {
    hide TokensOf, Printable;
  }

  /** The tokens of the first item, and where the rest begins. */
  lemma FirstTokens(trees: seq<Tree>, ts: seq<Tok>, p: nat, close: Byte)
    requires trees != [] && AllPrintable(trees) && At(ts, p, ListTokens(trees) + [Punct(close)])
    ensures Printable(trees[0]) && AllPrintable(trees[1..])
    ensures At(ts, p, TokensOf(trees[0])) && Opens(Peek(ts, p))
    ensures At(ts, p + |TokensOf(trees[0])|, ListTail(trees, close))
  {
    hide TokensOf, Printable, ListTokens, ListTail, Opens;
    AllPrintableParts(trees);
    ListTailIs(trees, close);
    TokensOpen(trees[0]);
    AtSplit(ts, p, TokensOf(trees[0]), ListTail(trees, close));
    PeekAt(ts, p, TokensOf(trees[0]));
  }

  lemma LastItem(trees: seq<Tree>, ts: seq<Tok>, q: nat, close: Byte)
    requires |trees| == 1 && AllPrintable(trees) && At(ts, q, ListTail(trees, close))
    ensures Peek(ts, q) == Punct(close) && |ListTokens(trees)| == |TokensOf(trees[0])|
  {
    hide TokensOf, Printable;
    PeekAt(ts, q, ListTail(trees, close));
  }

  lemma MoreItems(trees: seq<Tree>, ts: seq<Tok>, q: nat, close: Byte)
    requires |trees| > 1 && AllPrintable(trees) && At(ts, q, ListTail(trees, close))
    ensures AllPrintable(trees[1..])
    ensures Peek(ts, q) == Punct(COMMA) && Opens(Peek(ts, q + 1)) && At(ts, q + 1, ListTokens(trees[1..]) + [Punct(close)])
    ensures |ListTokens(trees)| == |TokensOf(trees[0])| + 1 + |ListTokens(trees[1..])|
  {
    hide TokensOf, Printable, ListTokens, Opens;
    AllPrintableParts(trees);
    ListTailIs(trees, close);
    var more := ListTokens(trees[1..]) + [Punct(close)];
    AtSplit(ts, q, [Punct(COMMA)], more);
    PeekAt(ts, q, [Punct(COMMA)]);
    ListOpens(trees[1..], ts, q + 1, close);
  }

  lemma {:induction false} ElementsParsed(plat: Json.Platform, cs: Classes, trees: seq<Tree>, ts: seq<Tok>, p: nat, acc: seq<Value>)
    requires trees != [] && AllPrintable(trees) && At(ts, p, ListTokens(trees) + [Punct(RBRACKET)])
    ensures ElementsRead(plat, cs, trees, ts, p, acc, p + |ListTokens(trees)|)
    decreases trees, 1
  {
    hide *;
    FirstTokens(trees, ts, p, RBRACKET);
    ParseTree(plat, cs, trees[0], ts, p);
    NotClosing(Peek(ts, p));
    var q := p + |TokensOf(trees[0])|;
    if |trees| == 1 {
      LastItem(trees, ts, q, RBRACKET);
    } else {
      MoreItems(trees, ts, q, RBRACKET);
      if Expand(plat, cs, trees[0]).Some? {
        ElementsParsed(plat, cs, trees[1..], ts, q + 1, acc + [Expand(plat, cs, trees[0]).value]);
      }
    }
    StepElement(plat, cs, trees, ts, p, q, acc, p + |ListTokens(trees)|);
  }

  lemma NotClosing(t: Tok)
    requires Opens(t)
    ensures t != Punct(RBRACKET) && t != Punct(RPAREN) && t != Punct(EQUALS) && t != Punct(COMMA)
  {
  }

  lemma {:induction false} ArgsParsed(plat: Json.Platform, cs: Classes, trees: seq<Tree>, ts: seq<Tok>, p: nat, acc: seq<Value>)
    requires trees != [] && AllPrintable(trees) && At(ts, p, ListTokens(trees) + [Punct(RPAREN)])
    ensures ArgsRead(plat, cs, trees, ts, p, acc, p + |ListTokens(trees)|)
    decreases trees, 1
  {
    hide *;
    FirstTokens(trees, ts, p, RPAREN);
    ParseTree(plat, cs, trees[0], ts, p);
    var q := p + |TokensOf(trees[0])|;
    if |trees| == 1 {
      LastItem(trees, ts, q, RPAREN);
    } else {
      MoreItems(trees, ts, q, RPAREN);
      if Expand(plat, cs, trees[0]).Some? {
        ArgsParsed(plat, cs, trees[1..], ts, q + 1, acc + [Expand(plat, cs, trees[0]).value]);
      }
    }
    NotNamed(trees[0], ts, p);
    StepArg(plat, cs, trees, ts, p, q, acc, p + |ListTokens(trees)|);
  }

  /** A positional argument is never mistaken for a named one. */
  lemma NotNamed(t: Tree, ts: seq<Tok>, p: nat)
    requires Printable(t) && At(ts, p, TokensOf(t))
    requires Peek(ts, p + |TokensOf(t)|) == Punct(COMMA) || Peek(ts, p + |TokensOf(t)|) == Punct(RPAREN)
    ensures Peek(ts, p + 1) != Punct(EQUALS) || !(Peek(ts, p).Ident? || Peek(ts, p).Str?)
  {
    hide ListTokens, MemberTokens, Escape;
    PeekAt(ts, p, TokensOf(t));
    if t.Instance? { AtHead(ts, p, TokensOf(t)); PeekAt(ts, p + 1, TokensOf(t)[1..]); }
  }

  lemma {:induction false} InstanceRead(plat: Json.Platform, cs: Classes, args: seq<Tree>, ts: seq<Tok>, p: nat)
    requires AllPrintable(args) && At(ts, p + 2, ListTokens(args) + [Punct(RPAREN)])
    ensures var q := p + 2 + |ListTokens(args)|;
      Peek(ts, q) == Punct(RPAREN) &&
      match ExpandAll(plat, cs, args)
      case None => ParseArgs(plat, cs, ts, SkipLines(ts, p + 2), [], map[]).Err?
      case Some(vs) => ParseArgs(plat, cs, ts, SkipLines(ts, p + 2), [], map[]) == Ok((vs, map[]), q)
    decreases args, 2
  {
    hide *;
    NoTokens();
    ParenIsNoLine();
    AtSplit(ts, p + 2, ListTokens(args), [Punct(RPAREN)]);
    PeekAt(ts, p + 2 + |ListTokens(args)|, [Punct(RPAREN)]);
    if args == [] {
      SkipNothing(ts, p + 2);
      NoArgs(plat, cs, ts, p + 2);
    } else {
      ListOpens(args, ts, p + 2, RPAREN);
      OpensNoLine(Peek(ts, p + 2));
      SkipNothing(ts, p + 2);
      ArgsParsed(plat, cs, args, ts, p + 2, []);
      FromNothing(plat, cs, args, ts, p + 2, p + 2 + |ListTokens(args)|);
    }
  }

  lemma ParenIsNoLine()
    ensures RPAREN != SEMICOLON
  {
  }

  lemma OpensNoLine(t: Tok)
    requires Opens(t)
    ensures t != Newline && t != Punct(SEMICOLON)
  {
  }

  lemma NoArgs(plat: Json.Platform, cs: Classes, ts: seq<Tok>, p: nat)
    requires Peek(ts, p) == Punct(RPAREN)
    ensures ParseArgs(plat, cs, ts, p, [], map[]) == Ok(([], map[]), p) && ExpandAll(plat, cs, []) == Some([])
  {
  }

  lemma FromNothing(plat: Json.Platform, cs: Classes, args: seq<Tree>, ts: seq<Tok>, p: nat, end: nat)
    requires ArgsRead(plat, cs, args, ts, p, [], end)
    ensures match ExpandAll(plat, cs, args)
      case None => ParseArgs(plat, cs, ts, p, [], map[]).Err?
      case Some(vs) => ParseArgs(plat, cs, ts, p, [], map[]) == Ok((vs, map[]), end)
  {
    hide ExpandAll, ParseArgs;
    var r := ExpandAll(plat, cs, args);
    if r.Some? { assert [] + r.value == r.value; }
  }

  // ---------- Members ----------

  lemma {:induction false} PlainRead(plat: Json.Platform, cs: Classes, trees: seq<Tree>, keys: seq<Bytes>, ts: seq<Tok>, p: nat)
    requires AllPrintable(trees) && |keys| == |trees| && p < |ts| && At(ts, p + 1, MemberTokens(trees, keys) + [Punct(RBRACE)])
    ensures match ExpandAll(plat, cs, trees)
      case None => ParseObject(plat, cs, ts, p).Err?
      case Some(vs) => ParseObject(plat, cs, ts, p) == Ok(Build(Fill(keys, vs, map[]), map[]), p + 2 + |MemberTokens(trees, keys)|)
    decreases trees, 2
  {
    hide *;
    NoTokens();
    BracesAreNoLine();
    if trees == [] {
      PeekAt(ts, p + 1, [] + [Punct(RBRACE)]);
      SkipNothing(ts, p + 1);
      ExpandNone(plat, cs);
      NothingFilled(map[]);
      ObjectClosed(plat, cs, ts, p);
    } else {
      FirstMemberTokens(trees, keys, ts, p + 1);
      SkipNothing(ts, p + 1);
      MembersParsed(plat, cs, trees, keys, ts, p + 1, map[]);
      AtSplit(ts, p + 1, MemberTokens(trees, keys), [Punct(RBRACE)]);
      PeekAt(ts, p + 1 + |MemberTokens(trees, keys)|, [Punct(RBRACE)]);
      ObjectOpened(plat, cs, trees, keys, ts, p, p + 1 + |MemberTokens(trees, keys)|);
    }
  }

  lemma BracesAreNoLine()
    ensures RBRACE != SEMICOLON
  {
  }

  lemma ObjectClosed(plat: Json.Platform, cs: Classes, ts: seq<Tok>, p: nat)
    requires p < |ts| && SkipLines(ts, p + 1) == p + 1 && Peek(ts, p + 1) == Punct(RBRACE)
    ensures ParseObject(plat, cs, ts, p) == Ok(map[], p + 2)
  {
  }

  lemma ObjectOpened(plat: Json.Platform, cs: Classes, trees: seq<Tree>, keys: seq<Bytes>, ts: seq<Tok>, p: nat, end: nat)
    requires p < |ts| && SkipLines(ts, p + 1) == p + 1 && Peek(ts, p + 1) != Punct(RBRACE) && Peek(ts, end) == Punct(RBRACE)
    requires |keys| == |trees| && MembersRead(plat, cs, trees, keys, ts, p + 1, map[], end)
    ensures match ExpandAll(plat, cs, trees)
      case None => ParseObject(plat, cs, ts, p).Err?
      case Some(vs) => ParseObject(plat, cs, ts, p) == Ok(Build(Fill(keys, vs, map[]), map[]), end + 1)
  {
    hide ParseMembers, ExpandAll, Build, Fill, SkipLines;
  }

  lemma FirstMemberTokens(trees: seq<Tree>, keys: seq<Bytes>, ts: seq<Tok>, p: nat)
    requires trees != [] && |keys| == |trees| && AllPrintable(trees) && At(ts, p, MemberTokens(trees, keys) + [Punct(RBRACE)])
    ensures Printable(trees[0]) && AllPrintable(trees[1..])
    ensures Peek(ts, p) == Str(Escape(keys[0])) && Peek(ts, p + 1) == Punct(COLON)
    ensures At(ts, p + 2, TokensOf(trees[0])) && Opens(Peek(ts, p + 2))
    ensures At(ts, p + 2 + |TokensOf(trees[0])|, MemberTail(trees, keys))
  {
    hide TokensOf, Printable, Escape, MemberTokens, Opens, MemberTail;
    AllPrintableParts(trees);
    TokensOpen(trees[0]);
    MemberTailIs(trees, keys);
    PairThen([Str(Escape(keys[0])), Punct(COLON)], TokensOf(trees[0]), MemberTail(trees, keys), ts, p);
  }

  lemma LastMember(trees: seq<Tree>, keys: seq<Bytes>, ts: seq<Tok>, q: nat)
    requires |trees| == 1 && |keys| == 1 && AllPrintable(trees) && At(ts, q, MemberTail(trees, keys))
    ensures Peek(ts, q) == Punct(RBRACE) && |MemberTokens(trees, keys)| == 2 + |TokensOf(trees[0])|
  {
    hide TokensOf, Printable, Escape;
    PeekAt(ts, q, MemberTail(trees, keys));
  }

  lemma MoreMembers(trees: seq<Tree>, keys: seq<Bytes>, ts: seq<Tok>, q: nat)
    requires |trees| > 1 && |keys| == |trees| && AllPrintable(trees) && At(ts, q, MemberTail(trees, keys))
    ensures AllPrintable(trees[1..])
    ensures Peek(ts, q) == Punct(COMMA) && Peek(ts, q + 1).Str?
    ensures At(ts, q + 1, MemberTokens(trees[1..], keys[1..]) + [Punct(RBRACE)])
    ensures |MemberTokens(trees, keys)| == 2 + |TokensOf(trees[0])| + 1 + |MemberTokens(trees[1..], keys[1..])|
  {
    hide TokensOf, Printable, Escape, MemberTokens;
    AllPrintableParts(trees);
    MemberTailIs(trees, keys);
    var more := MemberTokens(trees[1..], keys[1..]) + [Punct(RBRACE)];
    AtSplit(ts, q, [Punct(COMMA)], more);
    PeekAt(ts, q, [Punct(COMMA)]);
    MemberTailIs(trees[1..], keys[1..]);
    PeekAt(ts, q + 1, more);
  }

  ghost function MemberTail(trees: seq<Tree>, keys: seq<Bytes>): (r: seq<Tok>)
    requires trees != [] && |keys| == |trees| && AllPrintable(trees)
  {
    if |trees| == 1 then [Punct(RBRACE)] else [Punct(COMMA)] + (MemberTokens(trees[1..], keys[1..]) + [Punct(RBRACE)])
  }

  lemma MemberTailIs(trees: seq<Tree>, keys: seq<Bytes>)
    requires trees != [] && |keys| == |trees| && AllPrintable(trees)
    ensures MemberTokens(trees, keys) + [Punct(RBRACE)]
         == [Str(Escape(keys[0])), Punct(COLON)] + (TokensOf(trees[0]) + MemberTail(trees, keys))
    ensures (MemberTokens(trees, keys) + [Punct(RBRACE)])[0] == Str(Escape(keys[0]))
    ensures |MemberTokens(trees, keys)| == 2 + |TokensOf(trees[0])| + |MemberTail(trees, keys)| - 1
  {
    hide TokensOf, Printable, Escape;
  }

  lemma PairThen(pair: seq<Tok>, head: seq<Tok>, rest: seq<Tok>, ts: seq<Tok>, p: nat)
    requires |pair| == 2 && head != [] && At(ts, p, pair + (head + rest))
    ensures Peek(ts, p) == pair[0] && Peek(ts, p + 1) == pair[1] && Peek(ts, p + 2) == head[0]
    ensures At(ts, p + 2, head) && At(ts, p + 2 + |head|, rest)
  {
    AtSplit(ts, p, pair, head + rest);
    AtHead(ts, p, pair);
    AtHead(ts, p + 1, pair[1..]);
    AtSplit(ts, p + 2, head, rest);
    AtHead(ts, p + 2, head);
  }

  lemma {:induction false} MembersParsed(plat: Json.Platform, cs: Classes, trees: seq<Tree>, keys: seq<Bytes>, ts: seq<Tok>,
                                         p: nat, acc: map<Bytes, Value>)
    requires trees != [] && |keys| == |trees| && AllPrintable(trees) && At(ts, p, MemberTokens(trees, keys) + [Punct(RBRACE)])
    ensures MembersRead(plat, cs, trees, keys, ts, p, acc, p + |MemberTokens(trees, keys)|)
    decreases trees, 1
  {
    hide *;
    FirstMemberTokens(trees, keys, ts, p);
    ParseTree(plat, cs, trees[0], ts, p + 2);
    var q := p + 2 + |TokensOf(trees[0])|;
    if |trees| == 1 {
      LastMember(trees, keys, ts, q);
    } else {
      MoreMembers(trees, keys, ts, q);
      if Expand(plat, cs, trees[0]).Some? {
        MembersParsed(plat, cs, trees[1..], keys[1..], ts, q + 1, Emplace(acc, keys[0], Expand(plat, cs, trees[0]).value));
      }
    }
    StepMember(plat, cs, trees, keys, ts, p, q, acc, p + |MemberTokens(trees, keys)|);
  }
}
