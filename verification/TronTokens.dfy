/** Tokenizing what the TRON encoder prints. */
module TronTokens {
  import opened Bytes
  import opened Values
  import opened Text
  import opened Tron
  import opened JsonTokens
  import opened JsonProofs
  import Json

  // ---------- The tokens of a tree ----------

  function ScalarToken(s: Scalar): (r: Tok)
    requires Textual(s)
  {
    if IsString(s) then Str(Escape(StringOf(s)))
    else
      match s
      case Timestamp(n) => Num(Decimal(n))
      case Int(n) => Num(Decimal(n))
      case Text(t, _) => Num(t)
      case Bool(flag) => if flag then True else False
      case _ => Nul
  }

  /** Class names lex as identifiers. */
  ghost predicate NameOk(name: Bytes)
  {
    name != [] && 65 <= name[0] <= 90 && forall i :: 0 <= i < |name| ==> Json.IsIdent(name[i])
  }

  lemma ClassNameOk(i: nat)
    ensures NameOk(ClassName(i))
  {
  }

  ghost predicate Printable(t: Tree)
    decreases t
  {
    match t
    case Token(s) => Textual(s)
    case Listing(items) => AllPrintable(items)
    case Plain(members, keys) => |members| == |keys| && AllPrintable(members)
    case Instance(name, args) => NameOk(name) && AllPrintable(args)
  }

  ghost predicate AllPrintable(ts: seq<Tree>)
    decreases ts
  {
    ts == [] || (Printable(ts[0]) && AllPrintable(ts[1..]))
  }

  ghost function TokensOf(t: Tree): (r: seq<Tok>)
    requires Printable(t)
    decreases t, 0
  {
    match t
    case Token(s) => [ScalarToken(s)]
    case Listing(items) => [Punct(LBRACKET)] + (ListTokens(items) + [Punct(RBRACKET)])
    case Plain(members, keys) => [Punct(LBRACE)] + (MemberTokens(members, keys) + [Punct(RBRACE)])
    case Instance(name, args) => [Ident(name), Punct(LPAREN)] + (ListTokens(args) + [Punct(RPAREN)])
  }

  ghost function ListTokens(ts: seq<Tree>): (r: seq<Tok>)
    requires AllPrintable(ts)
    decreases ts, 1
  {
    if ts == [] then []
    else TokensOf(ts[0]) + (if |ts| == 1 then [] else [Punct(COMMA)] + ListTokens(ts[1..]))
  }

  ghost function MemberTokens(ts: seq<Tree>, keys: seq<Bytes>): (r: seq<Tok>)
    requires AllPrintable(ts) && |ts| == |keys|
    decreases ts, 1
  {
    if ts == [] then []
    else
      [Str(Escape(keys[0])), Punct(COLON)]
      + (TokensOf(ts[0]) + (if |ts| == 1 then [] else [Punct(COMMA)] + MemberTokens(ts[1..], keys[1..])))
  }

  // ---------- Single tokens ----------

  lemma QuoteByte(b: Byte, s: Bytes, i: nat)
    requires At(s, i, EscapeByte(b)) && i + |EscapeByte(b)| < |s|
    ensures QuoteEnd(s, i) == QuoteEnd(s, i + |EscapeByte(b)|)
  {
    var e := EscapeByte(b);
    AtHead(s, i, e);
    if |e| > 1 {
      AtHead(s, i + 1, e[1..]);
      if |e| == 6 {
        AtHead(s, i + 2, e[1..][1..]);
        AtHead(s, i + 3, e[1..][1..][1..]);
        AtHead(s, i + 4, e[1..][1..][1..][1..]);
        AtHead(s, i + 5, e[1..][1..][1..][1..][1..]);
        PlainQuote(s, i + 2);
        PlainQuote(s, i + 3);
        PlainQuote(s, i + 4);
        PlainQuote(s, i + 5);
      }
    }
  }

  lemma PlainQuote(s: Bytes, i: nat)
    requires i < |s| && s[i] != QUOTE && s[i] != BACKSLASH
    ensures QuoteEnd(s, i) == QuoteEnd(s, i + 1)
  {
  }

  lemma {:induction false} QuoteEscaped(k: Bytes, s: Bytes, i: nat)
    requires At(s, i, Escape(k) + [QUOTE])
    ensures QuoteEnd(s, i) == i + |Escape(k)|
    decreases |k|
  {
    hide QuoteEnd, EscapeByte;
    if k == [] {
      AtHead(s, i, [] + [QUOTE]);
      QuoteHere(s, i);
    } else {
      var e := EscapeByte(k[0]);
      assert Escape(k) + [QUOTE] == e + (Escape(k[1..]) + [QUOTE]);
      AtSplit(s, i, e, Escape(k[1..]) + [QUOTE]);
      QuoteByte(k[0], s, i);
      QuoteEscaped(k[1..], s, i + |e|);
    }
  }

  lemma QuoteHere(s: Bytes, i: nat)
    requires i < |s| && s[i] == QUOTE
    ensures QuoteEnd(s, i) == i
  {
  }

  lemma LexQuoted(k: Bytes, s: Bytes, i: nat)
    requires At(s, i, Json.Quoted(k))
    ensures Tokens(s, i) == [Str(Escape(k))] + Tokens(s, i + |Json.Quoted(k)|)
  {
    hide QuoteEnd, Escape;
    assert Json.Quoted(k) == [QUOTE] + (Escape(k) + [QUOTE]);
    AtSplit(s, i, [QUOTE], Escape(k) + [QUOTE]);
    AtHead(s, i, [QUOTE]);
    AtSplit(s, i + 1, Escape(k), [QUOTE]);
    QuoteEscaped(k, s, i + 1);
  }

  lemma LexPunct(b: Byte, s: Bytes, i: nat)
    requires At(s, i, [b]) && IsPunct(b)
    ensures Tokens(s, i) == [Punct(b)] + Tokens(s, i + 1)
  {
    AtHead(s, i, [b]);
  }

  lemma LexNumber(n: Bytes, s: Bytes, i: nat)
    requires IntegerLiteral(n) && At(s, i, n) && Ends(s, i + |n|)
    ensures Tokens(s, i) == [Num(n)] + Tokens(s, i + |n|)
  {
    hide Tokens;
    AtHead(s, i, n);
    var m := Magnitude(n);
    var start := if n[0] == MINUS then i + 1 else i;
    LiteralStarts(n);
    AtHead(s, start, m);
    DigitsEndIs(s, start, m);
    assert NumberEnd(s, i) == i + |n|;
    StepNumberToken(s, i);
    assert s[i..i + |n|] == n;
  }

  lemma StepNumberToken(s: Bytes, i: nat)
    requires i < |s| && (s[i] == MINUS || IsDigit(s[i]))
    ensures Tokens(s, i) == [Num(s[i..NumberEnd(s, i)])] + Tokens(s, NumberEnd(s, i))
  {
    hide NumberEnd;
  }

  lemma {:induction false} WordEndIs(w: Bytes, s: Bytes, i: nat)
    requires At(s, i, w) && !Json.IsIdent(Json.Cur(s, i + |w|))
    requires forall k :: 0 <= k < |w| ==> Json.IsIdent(w[k])
    ensures WordEnd(s, i) == i + |w|
    decreases |w|
  {
    if w != [] {
      AtHead(s, i, w);
      WordEndIs(w[1..], s, i + 1);
    }
  }

  lemma LexWord(w: Bytes, s: Bytes, i: nat)
    requires At(s, i, w) && w != [] && StartsWord(w[0]) && !Json.IsIdent(Json.Cur(s, i + |w|))
    requires forall k :: 0 <= k < |w| ==> Json.IsIdent(w[k])
    ensures Tokens(s, i) == [Word(w)] + Tokens(s, i + |w|)
  {
    hide WordEnd, Word;
    AtHead(s, i, w);
    WordEndIs(w, s, i);
    assert s[i..i + |w|] == w;
  }

  lemma LexName(name: Bytes, s: Bytes, i: nat)
    requires At(s, i, name) && NameOk(name) && !Json.IsIdent(Json.Cur(s, i + |name|))
    ensures Tokens(s, i) == [Ident(name)] + Tokens(s, i + |name|)
  {
    hide Tokens;
    LexWord(name, s, i);
    assert CLASS_WORD[0] == 99 && Json.TRUE_TEXT[0] == 116 && Json.FALSE_TEXT[0] == 102 && Json.NULL_TEXT[0] == 110;
  }

  lemma LexScalar(plat: Json.Platform, x: Scalar, s: Bytes, i: nat)
    requires Textual(x) && At(s, i, ScalarText(plat, x)) && Ends(s, i + |ScalarText(plat, x)|)
    ensures Tokens(s, i) == [ScalarToken(x)] + Tokens(s, i + |ScalarText(plat, x)|)
  {
    hide Tokens, Escape, StringOf, IntegerLiteral, Decimal;
    if IsString(x) {
      LexQuoted(StringOf(x), s, i);
    } else {
      match x
      case Timestamp(n) => DecimalIsLiteral(n); LexNumber(Decimal(n), s, i);
      case Int(n) => DecimalIsLiteral(n); LexNumber(Decimal(n), s, i);
      case Text(t, _) => LexNumber(t, s, i);
      case Bool(flag) => if flag { LexTrue(s, i); } else { LexFalse(s, i); }
      case Null => LexNull(s, i);
    }
  }

  lemma LexTrue(s: Bytes, i: nat)
    requires At(s, i, Json.TRUE_TEXT) && Ends(s, i + 4)
    ensures Tokens(s, i) == [True] + Tokens(s, i + 4)
  {
    hide Tokens;
    LexWord(Json.TRUE_TEXT, s, i);
  }

  lemma LexFalse(s: Bytes, i: nat)
    requires At(s, i, Json.FALSE_TEXT) && Ends(s, i + 5)
    ensures Tokens(s, i) == [False] + Tokens(s, i + 5)
  {
    hide Tokens;
    LexWord(Json.FALSE_TEXT, s, i);
    assert CLASS_WORD[0] == 99;
  }

  lemma LexNull(s: Bytes, i: nat)
    requires At(s, i, Json.NULL_TEXT) && Ends(s, i + 4)
    ensures Tokens(s, i) == [Nul] + Tokens(s, i + 4)
  {
    hide Tokens;
    LexWord(Json.NULL_TEXT, s, i);
    assert Json.TRUE_TEXT[0] == 116;
  }

  // ---------- Trees ----------

  lemma EndsAt(s: Bytes, i: nat, rest: Bytes)
    requires At(s, i, rest) && rest != [] && !Json.IsIdent(rest[0]) && rest[0] != Json.DOT
    ensures Ends(s, i)
  {
    AtHead(s, i, rest);
  }

  lemma {:induction false} LexTree(plat: Json.Platform, t: Tree, s: Bytes, i: nat)
    requires Printable(t) && At(s, i, TextOf(plat, t)) && Ends(s, i + |TextOf(plat, t)|)
    ensures Tokens(s, i) == TokensOf(t) + Tokens(s, i + |TextOf(plat, t)|)
    decreases t, 0
  {
    hide Tokens, ScalarText, ScalarToken, ListTokens, MemberTokens, TextsOf, MembersText, NameOk, AllPrintable;
    match t
    case Token(x) => LexScalar(plat, x, s, i);
    case Listing(items) =>
      AtSplit(s, i, [LBRACKET], TextsOf(plat, items) + [RBRACKET]);
      LexPunct(LBRACKET, s, i);
      LexList(plat, items, RBRACKET, s, i + 1);
    case Plain(members, keys) =>
      AtSplit(s, i, [LBRACE], MembersText(plat, members, keys) + [RBRACE]);
      LexPunct(LBRACE, s, i);
      LexMembers(plat, members, keys, s, i + 1);
    case Instance(name, args) =>
      var inner := TextsOf(plat, args) + [RPAREN];
      LexCall(name, inner, s, i);
      LexList(plat, args, RPAREN, s, i + |name| + 1);
      assert TokensOf(t) == [Ident(name), Punct(LPAREN)] + (ListTokens(args) + [Punct(RPAREN)]);
      assert |TextOf(plat, t)| == |name| + 1 + |inner|;
      Regrouped([Ident(name), Punct(LPAREN)], ListTokens(args) + [Punct(RPAREN)], Tokens(s, i + |TextOf(plat, t)|));
  }

  lemma LexCall(name: Bytes, inner: Bytes, s: Bytes, i: nat)
    requires NameOk(name) && At(s, i, name + ([LPAREN] + inner))
    ensures At(s, i + |name| + 1, inner)
    ensures Tokens(s, i) == [Ident(name), Punct(LPAREN)] + Tokens(s, i + |name| + 1)
  {
    hide Tokens, NameOk;
    var p := i + |name|;
    AtSplit(s, i, name, [LPAREN] + inner);
    EndsAt(s, p, [LPAREN] + inner);
    LexName(name, s, i);
    AtSplit(s, p, [LPAREN], inner);
    LexPunct(LPAREN, s, p);
  }

  /** A printed tree and the delimiter after it. */
  lemma {:induction false} LexFirst(plat: Json.Platform, t: Tree, rest: Bytes, s: Bytes, i: nat)
    requires Printable(t) && At(s, i, TextOf(plat, t) + rest)
    requires rest != [] && (rest[0] == COMMA || rest[0] == RBRACKET || rest[0] == RBRACE || rest[0] == RPAREN)
    ensures At(s, i + |TextOf(plat, t)|, rest)
    ensures Tokens(s, i) == TokensOf(t) + Tokens(s, i + |TextOf(plat, t)|)
    decreases t, 1
  {
    hide Tokens, TextOf, TokensOf, Printable;
    AtSplit(s, i, TextOf(plat, t), rest);
    EndsAt(s, i + |TextOf(plat, t)|, rest);
    LexTree(plat, t, s, i);
  }

  lemma LexComma(rest: Bytes, s: Bytes, i: nat)
    requires At(s, i, [COMMA] + rest)
    ensures At(s, i + 1, rest) && Tokens(s, i) == [Punct(COMMA)] + Tokens(s, i + 1)
  {
    hide Tokens;
    AtSplit(s, i, [COMMA], rest);
    LexPunct(COMMA, s, i);
  }

  lemma TextsStep(plat: Json.Platform, ts: seq<Tree>, close: Byte)
    requires ts != []
    ensures TextsOf(plat, ts) + [close]
         == TextOf(plat, ts[0]) + (if |ts| == 1 then [close] else [COMMA] + (TextsOf(plat, ts[1..]) + [close]))
    ensures |TextsOf(plat, ts)| == |TextOf(plat, ts[0])| + (if |ts| == 1 then 0 else 1 + |TextsOf(plat, ts[1..])|)
  {
    hide TextOf;
  }

  lemma ListTokensStep(ts: seq<Tree>, close: Tok, rest: seq<Tok>)
    requires ts != [] && AllPrintable(ts)
    ensures (ListTokens(ts) + [close]) + rest
         == TokensOf(ts[0])
            + (if |ts| == 1 then [close] + rest else [Punct(COMMA)] + ((ListTokens(ts[1..]) + [close]) + rest))
  {
    hide TokensOf, Printable;
  }

  lemma {:induction false} LexList(plat: Json.Platform, ts: seq<Tree>, close: Byte, s: Bytes, i: nat)
    requires AllPrintable(ts) && (close == RBRACKET || close == RPAREN)
    requires At(s, i, TextsOf(plat, ts) + [close])
    ensures Tokens(s, i) == (ListTokens(ts) + [Punct(close)]) + Tokens(s, i + |TextsOf(plat, ts)| + 1)
    decreases ts, 1
  {
    hide *;
    ClosesArePunct();
    if ts == [] {
      LexNoItems(plat, ts, close, s, i);
    } else {
      AllPrintableParts(ts);
      var p := i + |TextOf(plat, ts[0])|;
      TextsStep(plat, ts, close);
      ListTokensStep(ts, Punct(close), Tokens(s, i + |TextsOf(plat, ts)| + 1));
      if |ts| == 1 {
        LexFirst(plat, ts[0], [close], s, i);
        LexPunct(close, s, p);
      } else {
        var more := TextsOf(plat, ts[1..]) + [close];
        LexFirst(plat, ts[0], [COMMA] + more, s, i);
        LexComma(more, s, p);
        LexList(plat, ts[1..], close, s, p + 1);
      }
    }
  }

  lemma LexNoItems(plat: Json.Platform, ts: seq<Tree>, close: Byte, s: Bytes, i: nat)
    requires ts == [] && IsPunct(close) && At(s, i, TextsOf(plat, ts) + [close])
    ensures AllPrintable(ts)
    ensures Tokens(s, i) == (ListTokens(ts) + [Punct(close)]) + Tokens(s, i + |TextsOf(plat, ts)| + 1)
  {
    hide Tokens;
    AtSplit(s, i, [], [close]);
    LexPunct(close, s, i);
  }

  lemma ClosesArePunct()
    ensures IsPunct(RBRACKET) && IsPunct(RPAREN)
  {
  }

  lemma LexKey(key: Bytes, rest: Bytes, s: Bytes, i: nat)
    requires At(s, i, Json.Quoted(key) + ([COLON] + rest))
    ensures var p := i + |Json.Quoted(key)| + 1;
      At(s, p, rest) && Tokens(s, i) == [Str(Escape(key)), Punct(COLON)] + Tokens(s, p)
  {
    hide Tokens, Json.Quoted, Escape;
    AtSplit(s, i, Json.Quoted(key), [COLON] + rest);
    LexQuoted(key, s, i);
    var p := i + |Json.Quoted(key)|;
    AtSplit(s, p, [COLON], rest);
    LexPunct(COLON, s, p);
  }

  lemma MembersTextStep(plat: Json.Platform, ts: seq<Tree>, keys: seq<Bytes>)
    requires ts != [] && |ts| == |keys|
    ensures MembersText(plat, ts, keys) + [RBRACE]
         == Json.Quoted(keys[0]) + ([COLON] + (TextOf(plat, ts[0])
            + (if |ts| == 1 then [RBRACE] else [COMMA] + (MembersText(plat, ts[1..], keys[1..]) + [RBRACE]))))
    ensures |MembersText(plat, ts, keys)| == |Json.Quoted(keys[0])| + 1 + |TextOf(plat, ts[0])|
            + (if |ts| == 1 then 0 else 1 + |MembersText(plat, ts[1..], keys[1..])|)
  {
    hide TextOf, Json.Quoted;
  }

  lemma MemberTokensStep(ts: seq<Tree>, keys: seq<Bytes>, rest: seq<Tok>)
    requires ts != [] && |ts| == |keys| && AllPrintable(ts)
    ensures (MemberTokens(ts, keys) + [Punct(RBRACE)]) + rest
         == [Str(Escape(keys[0])), Punct(COLON)] + (TokensOf(ts[0])
            + (if |ts| == 1 then [Punct(RBRACE)] + rest
               else [Punct(COMMA)] + ((MemberTokens(ts[1..], keys[1..]) + [Punct(RBRACE)]) + rest)))
  {
    hide TokensOf, Printable, Escape;
  }

  lemma AllPrintableParts(ts: seq<Tree>)
    requires ts != [] && AllPrintable(ts)
    ensures Printable(ts[0]) && AllPrintable(ts[1..])
  {
  }

  lemma {:induction false} LexMembers(plat: Json.Platform, ts: seq<Tree>, keys: seq<Bytes>, s: Bytes, i: nat)
    requires AllPrintable(ts) && |ts| == |keys|
    requires At(s, i, MembersText(plat, ts, keys) + [RBRACE])
    ensures Tokens(s, i) == (MemberTokens(ts, keys) + [Punct(RBRACE)]) + Tokens(s, i + |MembersText(plat, ts, keys)| + 1)
    decreases ts, 1
  {
    hide *;
    if ts == [] {
      LexNoMembers(plat, ts, keys, s, i);
    } else {
      AllPrintableParts(ts);
      var p := i + |Json.Quoted(keys[0])| + 1;
      var q := p + |TextOf(plat, ts[0])|;
      MembersTextStep(plat, ts, keys);
      MemberTokensStep(ts, keys, Tokens(s, i + |MembersText(plat, ts, keys)| + 1));
      if |ts| == 1 {
        LexKey(keys[0], TextOf(plat, ts[0]) + [RBRACE], s, i);
        LexFirst(plat, ts[0], [RBRACE], s, p);
        BraceIsPunct();
        LexPunct(RBRACE, s, q);
      } else {
        var more := MembersText(plat, ts[1..], keys[1..]) + [RBRACE];
        LexKey(keys[0], TextOf(plat, ts[0]) + ([COMMA] + more), s, i);
        LexFirst(plat, ts[0], [COMMA] + more, s, p);
        LexComma(more, s, q);
        LexMembers(plat, ts[1..], keys[1..], s, q + 1);
      }
    }
  }

  lemma LexNoMembers(plat: Json.Platform, ts: seq<Tree>, keys: seq<Bytes>, s: Bytes, i: nat)
    requires ts == [] && keys == [] && At(s, i, MembersText(plat, ts, keys) + [RBRACE])
    ensures AllPrintable(ts)
    ensures Tokens(s, i) == (MemberTokens(ts, keys) + [Punct(RBRACE)]) + Tokens(s, i + |MembersText(plat, ts, keys)| + 1)
  {
    hide Tokens;
    AtSplit(s, i, [], [RBRACE]);
    LexPunct(RBRACE, s, i);
  }

  lemma BraceIsPunct()
    ensures IsPunct(RBRACE)
  {
  }
}
