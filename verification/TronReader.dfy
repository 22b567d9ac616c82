/** fromTRON as the library runs it: an index loop over characters, then a cursor over tokens that never
    runs past the end token. */
module TronReader {
  import opened Bytes
  import opened Values
  import opened Text
  import opened Tron
  import Json
  import JsonReader

  // ---------- Tokenizer ----------

  method SkipComment(s: Bytes, i0: nat) returns (i: nat)
    ensures i == NewlineEnd(s, i0)
  {
    i := i0;
    while i < |s| && s[i] != NEWLINE
      invariant i0 <= i && NewlineEnd(s, i) == NewlineEnd(s, i0)
      decreases |s| - i
    {
      i := i + 1;
    }
  }

  /** The body of a string, character by character; a backslash takes the next one along. */
  method ScanString(s: Bytes, i0: nat) returns (raw: Bytes, i: nat)
    requires i0 <= |s|
    ensures i == QuoteEnd(s, i0) && raw == s[i0..i]
  {
    i, raw := i0, [];
    while i < |s| && s[i] != QUOTE
      invariant i0 <= i <= |s| && raw == s[i0..i] && QuoteEnd(s, i) == QuoteEnd(s, i0)
      decreases |s| - i
    {
      if s[i] == BACKSLASH && i + 1 < |s| {
        raw := raw + [s[i]] + [s[i + 1]];
        i := i + 2;
      } else {
        raw := raw + [s[i]];
        i := i + 1;
      }
    }
  }

  method SkipDigits(s: Bytes, i0: nat) returns (i: nat)
    ensures i == Json.DigitsEnd(s, i0)
  {
    i := i0;
    while i < |s| && IsDigit(s[i])
      invariant i0 <= i && Json.DigitsEnd(s, i) == Json.DigitsEnd(s, i0)
      decreases |s| - i
    {
      i := i + 1;
    }
  }

  method ScanNumber(s: Bytes, i0: nat) returns (i: nat)
    requires i0 < |s| && (s[i0] == MINUS || IsDigit(s[i0]))
    ensures i == NumberEnd(s, i0)
  {
    hide Json.DigitsEnd;
    i := i0;
    if s[i] == MINUS { i := i + 1; }
    i := SkipDigits(s, i);
    if i < |s| && s[i] == Json.DOT { i := SkipDigits(s, i + 1); }
    if i < |s| && Json.IsExponent(s[i]) {
      i := i + 1;
      if i < |s| && (s[i] == Json.PLUS || s[i] == MINUS) { i := i + 1; }
      i := SkipDigits(s, i);
    }
  }

  method ScanWord(s: Bytes, i0: nat) returns (i: nat)
    ensures i == WordEnd(s, i0)
  {
    i := i0;
    while i < |s| && Json.IsIdent(s[i])
      invariant i0 <= i && WordEnd(s, i) == WordEnd(s, i0)
      decreases |s| - i
    {
      i := i + 1;
    }
  }

  /** What the tokenizer does at one position: the token it adds, if any, and where it goes on. */
  function Step(s: Bytes, i: nat): (r: (seq<Tok>, nat))
    requires i < |s|
    ensures i < r.1 <= |s|
  {
    var c := s[i];
    if c == Json.HASH then CommentMoves(s, i); ([], NewlineEnd(s, i))
    else if c == NEWLINE then ([Newline], i + 1)
    else if c == QUOTE then
      var e := QuoteEnd(s, i + 1);
      ([Str(s[i + 1..e])], if e < |s| then e + 1 else e)
    else if c == MINUS || IsDigit(c) then ([Num(s[i..NumberEnd(s, i)])], NumberEnd(s, i))
    else if StartsWord(c) then WordMoves(s, i); ([Word(s[i..WordEnd(s, i)])], WordEnd(s, i))
    else if IsPunct(c) then ([Punct(c)], i + 1)
    else ([], i + 1)
  }

  lemma StepIs(s: Bytes, i: nat)
    requires i < |s|
    ensures Tokens(s, i) == Step(s, i).0 + Tokens(s, Step(s, i).1)
  {
    hide QuoteEnd, NumberEnd, WordEnd, NewlineEnd, Word;
    var (t, e) := Step(s, i);
    if t == [] { assert t + Tokens(s, e) == Tokens(s, e); }
  }

  lemma StepTokens(s: Bytes, i: nat, toks: seq<Tok>)
    requires i < |s|
    ensures toks + Tokens(s, i) == (toks + Step(s, i).0) + Tokens(s, Step(s, i).1)
  {
    hide Step, Tokens;
    StepIs(s, i);
    assert toks + (Step(s, i).0 + Tokens(s, Step(s, i).1)) == (toks + Step(s, i).0) + Tokens(s, Step(s, i).1);
  }

  method ReadToken(s: Bytes, i: nat) returns (toks: seq<Tok>, e: nat)
    requires i < |s|
    ensures (toks, e) == Step(s, i)
  {
    hide QuoteEnd, NumberEnd, WordEnd, NewlineEnd, Word;
    var c := s[i];
    toks, e := [], i + 1;
    if c == RETURN {
    } else if c == Json.HASH {
      e := SkipComment(s, i);
    } else if c == NEWLINE {
      toks := [Newline];
    } else if c == SPACE || c == TAB {
    } else if c == QUOTE {
      var raw;
      raw, e := ScanString(s, i + 1);
      if e < |s| { e := e + 1; }
      toks := [Str(raw)];
    } else if c == MINUS || IsDigit(c) {
      e := ScanNumber(s, i);
      toks := [Num(s[i..e])];
    } else if StartsWord(c) {
      e := ScanWord(s, i);
      WordMoves(s, i);
      toks := [Word(s[i..e])];
    } else if IsPunct(c) {
      toks := [Punct(c)];
    }
  }

  /** tronTokenize. */
  method Tokenize(s: Bytes) returns (toks: seq<Tok>)
    ensures toks == Tokens(s, 0)
  {
    hide Step;
    toks := [];
    var i := 0;
    assert [] + Tokens(s, 0) == Tokens(s, 0);
    while i < |s|
      invariant i <= |s| && toks + Tokens(s, i) == Tokens(s, 0)
      decreases |s| - i
    {
      StepTokens(s, i, toks);
      var more, e := ReadToken(s, i);
      toks := toks + more;
      i := e;
    }
    toks := toks + [End];
  }

  lemma CommentMoves(s: Bytes, i: nat)
    requires i < |s| && s[i] == Json.HASH
    ensures NewlineEnd(s, i) > i
  {
  }

  lemma WordMoves(s: Bytes, i: nat)
    requires i < |s| && StartsWord(s[i])
    ensures WordEnd(s, i) > i
  {
  }

  // ---------- Parser ----------

  /** One argument, named or positional, and the lines behind it. */
  function ArgTurn(plat: Json.Platform, cs: Classes, ts: seq<Tok>, pos: nat, args: seq<Value>, named: map<Bytes, Value>)
    : (r: Parsed<(seq<Value>, map<Bytes, Value>)>)
  {
    var p := SkipLines(ts, pos);
    var t := Peek(ts, p);
    if (t.Ident? || t.Str?) && Peek(ts, p + 1) == Punct(EQUALS) then
      match if t.Str? then Unescape(t.raw, 0) else Some(t.name)
      case None => Err(BadText)
      case Some(name) =>
        match Tron.ParseValue(plat, cs, ts, SkipLines(ts, p + 2))
        case Err(e) => Err(e)
        case Ok(v, q) => Ok((args, named[name := v]), SkipLines(ts, q))
    else if named != map[] then Err(BadText)
    else
      match Tron.ParseValue(plat, cs, ts, p)
      case Err(e) => Err(e)
      case Ok(v, q) => Ok((args + [v], named), SkipLines(ts, q))
  }

  /** One turn of the argument loop. */
  lemma ArgsStep(plat: Json.Platform, cs: Classes, ts: seq<Tok>, pos: nat, args: seq<Value>, named: map<Bytes, Value>)
    requires Peek(ts, pos) != Punct(RPAREN) && Peek(ts, pos) != End
    ensures Tron.ParseArgs(plat, cs, ts, pos, args, named)
      == if (args != [] || named != map[]) && Peek(ts, pos) == Punct(COMMA) then
           Tron.ParseArgs(plat, cs, ts, SkipLines(ts, pos + 1), args, named)
         else
           match ArgTurn(plat, cs, ts, pos, args, named)
           case Err(e) => Err(e)
           case Ok(a, q) => Tron.ParseArgs(plat, cs, ts, q, a.0, a.1)
  {
    hide Tron.ParseValue, SkipLines, Unescape;
  }

  lemma ArgsEnd(plat: Json.Platform, cs: Classes, ts: seq<Tok>, pos: nat, args: seq<Value>, named: map<Bytes, Value>)
    requires Peek(ts, pos) == Punct(RPAREN) || Peek(ts, pos) == End
    ensures Tron.ParseArgs(plat, cs, ts, pos, args, named) == Ok((args, named), pos)
  {
  }

  class ParseState {
    const plat: Json.Platform
    const toks: seq<Tok>
    var pos: nat
    var classes: Classes

    /** The cursor is on a token: the end token is the last one and is never passed. */
    ghost predicate Valid()
      reads this
    {
      pos < |toks| && toks[|toks| - 1] == End && forall k :: 0 <= k < |toks| - 1 ==> toks[k] != End
    }

    constructor (plat: Json.Platform, toks: seq<Tok>)
      requires toks != [] && toks[|toks| - 1] == End && forall k :: 0 <= k < |toks| - 1 ==> toks[k] != End
      ensures Valid() && this.plat == plat && this.toks == toks && pos == 0 && classes == map[]
    {
      this.plat := plat;
      this.toks := toks;
      pos := 0;
      classes := map[];
    }

    method Advance() returns (t: Tok)
      requires Valid() && toks[pos] != End
      modifies this`pos
      ensures Valid() && t == toks[old(pos)] && pos == old(pos) + 1
    {
      t := toks[pos];
      pos := pos + 1;
    }

    method Accept(t: Tok) returns (ok: bool)
      requires Valid() && t != End
      modifies this`pos
      ensures Valid() && ok == (toks[old(pos)] == t) && pos == if ok then old(pos) + 1 else old(pos)
    {
      if toks[pos] == t { pos := pos + 1; return true; }
      ok := false;
    }

    method SkipNewlines()
      requires Valid()
      modifies this`pos
      ensures Valid() && pos == SkipLines(toks, old(pos))
    {
      while toks[pos] == Newline || toks[pos] == Punct(SEMICOLON)
        invariant Valid() && SkipLines(toks, pos) == SkipLines(toks, old(pos))
        decreases |toks| - pos
      {
        pos := pos + 1;
      }
    }

    method ParseString(raw: Bytes) returns (r: Result<Value>)
      ensures r == match Unescape(raw, 0)
        case None => Failure(BadText)
        case Some(s) => (match ReadString(plat, s) case None => Failure(BadText) case Some(v) => Success(v))
    {
      hide Unescape, ReadString;
      var s := JsonReader.UnescapeString(raw);
      if s.None? { return Failure(BadText); }
      var v := ReadString(plat, s.value);
      r := if v.None? then Failure(BadText) else Success(v.value);
    }

    method ParseAny() returns (r: Result<Value>)
      requires Valid()
      modifies this`pos
      ensures Valid() && Agrees(Tron.ParseValue(plat, classes, toks, old(pos)), r, pos)
      decreases |toks| - pos, 2
    {
      hide ReadString, Unescape, ReadNumber, Tron.ParseObject, Tron.ParseArray, Tron.ParseArgs, Fill, Build, SkipLines;
      SkipNewlines();
      match toks[pos] {
        case Punct(c) =>
          if c == LBRACE {
            var m := ParseObject();
            r := if m.Failure? then Failure(m.error) else Success(Object(m.value));
          } else if c == LBRACKET {
            var vs := ParseArray();
            r := if vs.Failure? then Failure(vs.error) else Success(Array(vs.value));
          } else {
            r := Failure(BadText);
          }
        case Str(raw) =>
          var _ := Advance();
          r := ParseString(raw);
        case Num(n) =>
          var _ := Advance();
          var v := ReadNumber(plat, n);
          r := if v.None? then Failure(BadText) else Success(v.value);
        case True => var _ := Advance(); r := Success(Leaf(Bool(true)));
        case False => var _ := Advance(); r := Success(Leaf(Bool(false)));
        case Nul => var _ := Advance(); r := Success(Leaf(Null));
        case Ident(name) =>
          if toks[pos + 1] == Punct(LPAREN) {
            r := ParseInstance();
          } else {
            r := Failure(BadText);
          }
        case _ => r := Failure(BadText);
      }
    }

    method ParseObject() returns (r: Result<map<Bytes, Value>>)
      requires Valid() && toks[pos] == Punct(LBRACE)
      modifies this`pos
      ensures Valid() && Agrees(Tron.ParseObject(plat, classes, toks, old(pos)), r, pos)
      decreases |toks| - pos, 1
    {
      hide Tron.ParseMembers, SkipLines;
      var _ := Advance();
      SkipNewlines();
      if toks[pos] == Punct(RBRACE) { var _ := Advance(); return Success(map[]); }
      var m := ParseMembers();
      if m.Failure? { return m; }
      var closed := Accept(Punct(RBRACE));
      r := if closed then m else Failure(BadText);
    }

    /** The member loop; the first member is not preceded by a comma. */
    method ParseMembers() returns (r: Result<map<Bytes, Value>>)
      requires Valid()
      modifies this`pos
      ensures Valid() && Agrees(Tron.ParseMembers(plat, classes, toks, old(pos), map[]), r, pos)
      decreases |toks| - pos, 3
    {
      hide Tron.ParseValue, Unescape, SkipLines, Emplace;
      var obj: map<Bytes, Value> := map[];
      while true
        invariant Valid() && old(pos) <= pos
        invariant Tron.ParseMembers(plat, classes, toks, pos, obj) == Tron.ParseMembers(plat, classes, toks, old(pos), map[])
        decreases |toks| - pos
      {
        if toks[pos] == Punct(RBRACE) { return Success(obj); }
        if !toks[pos].Str? { return Failure(BadText); }
        var t := Advance();
        var key := JsonReader.UnescapeString(t.raw);
        if key.None? { return Failure(BadText); }
        var colon := Accept(Punct(COLON));
        if !colon { return Failure(BadText); }
        SkipNewlines();
        var v := ParseAny();
        if v.Failure? { return Failure(v.error); }
        obj := Emplace(obj, key.value, v.value);
        SkipNewlines();
        if toks[pos] != Punct(COMMA) { return Success(obj); }
        var _ := Advance();
        SkipNewlines();
      }
    }

    method ParseArray() returns (r: Result<seq<Value>>)
      requires Valid() && toks[pos] == Punct(LBRACKET)
      modifies this`pos
      ensures Valid() && Agrees(Tron.ParseArray(plat, classes, toks, old(pos)), r, pos)
      decreases |toks| - pos, 1
    {
      hide Tron.ParseElements, SkipLines;
      var _ := Advance();
      SkipNewlines();
      if toks[pos] == Punct(RBRACKET) { var _ := Advance(); return Success([]); }
      var vs := ParseElements();
      if vs.Failure? { return vs; }
      var closed := Accept(Punct(RBRACKET));
      r := if closed then vs else Failure(BadText);
    }

    method ParseElements() returns (r: Result<seq<Value>>)
      requires Valid()
      modifies this`pos
      ensures Valid() && Agrees(Tron.ParseElements(plat, classes, toks, old(pos), []), r, pos)
      decreases |toks| - pos, 3
    {
      hide Tron.ParseValue, SkipLines;
      var arr: seq<Value> := [];
      while true
        invariant Valid() && old(pos) <= pos
        invariant Tron.ParseElements(plat, classes, toks, pos, arr) == Tron.ParseElements(plat, classes, toks, old(pos), [])
        decreases |toks| - pos
      {
        if toks[pos] == Punct(RBRACKET) { return Success(arr); }
        var v := ParseAny();
        if v.Failure? { return Failure(v.error); }
        arr := arr + [v.value];
        SkipNewlines();
        if toks[pos] != Punct(COMMA) { return Success(arr); }
        var _ := Advance();
        SkipNewlines();
      }
    }

    /** A class name and its arguments. */
    method ParseInstance() returns (r: Result<Value>)
      requires Valid() && toks[pos].Ident? && toks[pos + 1] == Punct(LPAREN)
      modifies this`pos
      ensures Valid() && Agrees(
        if toks[old(pos)].name !in classes then Err(BadText)
        else match Tron.ParseArgs(plat, classes, toks, SkipLines(toks, old(pos) + 2), [], map[])
             case Err(e) => Err(e)
             case Ok(a, q) =>
               if Tron.Peek(toks, q) != Punct(RPAREN) then Err(BadText)
               else Ok(Object(Build(Fill(classes[toks[old(pos)].name], a.0, a.1), map[])), q + 1), r, pos)
      decreases |toks| - pos, 1
    {
      hide Tron.ParseArgs, SkipLines;
      var t := Advance();
      if t.name !in classes { return Failure(BadText); }
      var props := classes[t.name];
      var _ := Accept(Punct(LPAREN));
      SkipNewlines();
      var a := ParseArgs();
      if a.Failure? { return Failure(a.error); }
      var closed := Accept(Punct(RPAREN));
      if !closed { return Failure(BadText); }
      var obj := FillProps(props, a.value.0, a.value.1);
      r := Success(Object(obj));
    }

    method ParseArgs() returns (r: Result<(seq<Value>, map<Bytes, Value>)>)
      requires Valid()
      modifies this`pos
      ensures Valid() && Agrees(Tron.ParseArgs(plat, classes, toks, old(pos), [], map[]), r, pos)
      decreases |toks| - pos, 4
    {
      hide Tron.ParseArgs, ArgTurn, SkipLines;
      var args: (seq<Value>, map<Bytes, Value>) := ([], map[]);
      while toks[pos] != Punct(RPAREN) && toks[pos] != End
        invariant Valid() && old(pos) <= pos
        invariant Tron.ParseArgs(plat, classes, toks, pos, args.0, args.1)
               == Tron.ParseArgs(plat, classes, toks, old(pos), [], map[])
        decreases |toks| - pos
      {
        ArgsStep(plat, classes, toks, pos, args.0, args.1);
        if (args.0 != [] || args.1 != map[]) && toks[pos] == Punct(COMMA) {
          var _ := Advance();
          SkipNewlines();
        } else {
          var more := ParseArg(args.0, args.1);
          if more.Failure? { return Failure(more.error); }
          args := more.value;
        }
      }
      ArgsEnd(plat, classes, toks, pos, args.0, args.1);
      r := Success(args);
    }

    /** One argument; a positional one may not follow a named one. */
    method ParseArg(posArgs: seq<Value>, namedArgs: map<Bytes, Value>) returns (r: Result<(seq<Value>, map<Bytes, Value>)>)
      requires Valid()
      modifies this`pos
      ensures Valid() && Agrees(ArgTurn(plat, classes, toks, old(pos), posArgs, namedArgs), r, pos)
      ensures r.Success? ==> pos > old(pos)
      decreases |toks| - pos, 3
    {
      hide Tron.ParseValue, SkipLines, Unescape;
      SkipNewlines();
      if (toks[pos].Ident? || toks[pos].Str?) && toks[pos + 1] == Punct(EQUALS) {
        var t := Advance();
        var name := if t.Str? then None else Some(t.name);
        if t.Str? { name := JsonReader.UnescapeString(t.raw); }
        if name.None? { return Failure(BadText); }
        var _ := Advance();
        SkipNewlines();
        var v := ParseAny();
        if v.Failure? { return Failure(v.error); }
        SkipNewlines();
        return Success((posArgs, namedArgs[name.value := v.value]));
      }
      if namedArgs != map[] { return Failure(BadText); }
      var v := ParseAny();
      if v.Failure? { return Failure(v.error); }
      SkipNewlines();
      r := Success((posArgs + [v.value], namedArgs));
    }

    /** The properties in order: positional, then named, then null. */
    method FillProps(props: seq<Bytes>, posArgs: seq<Value>, namedArgs: map<Bytes, Value>) returns (obj: map<Bytes, Value>)
      ensures obj == Build(Fill(props, posArgs, namedArgs), map[])
    {
      hide Emplace;
      obj := map[];
      for i := 0 to |props|
        invariant Build(Fill(props[i..], Rest(posArgs, i), namedArgs), obj) == Build(Fill(props, posArgs, namedArgs), map[])
      {
        var v := Leaf(Null);
        if i < |posArgs| { v := posArgs[i]; }
        else if props[i] in namedArgs { v := namedArgs[props[i]]; }
        FillStep(props, posArgs, namedArgs, i, obj);
        obj := Emplace(obj, props[i], v);
      }
      assert props[|props|..] == [];
    }

    // ---------- Class definitions ----------

    method ParseProps() returns (r: Result<seq<Bytes>>)
      requires Valid()
      modifies this`pos
      ensures Valid() && Agrees(Tron.ParseProps(toks, old(pos), []), r, pos)
    {
      hide Unescape, SkipLines;
      var props: seq<Bytes> := [];
      while toks[pos].Ident? || toks[pos].Str?
        invariant Valid() && old(pos) <= pos
        invariant Tron.ParseProps(toks, pos, props) == Tron.ParseProps(toks, old(pos), [])
        decreases |toks| - pos
      {
        var t := Advance();
        if t.Str? {
          var s := JsonReader.UnescapeString(t.raw);
          if s.None? { return Failure(BadText); }
          props := props + [s.value];
        } else {
          props := props + [t.name];
        }
        SkipNewlines();
        if toks[pos] != Punct(COMMA) { return Success(props); }
        var _ := Advance();
        SkipNewlines();
      }
      r := Success(props);
    }

    method MergeProps(parent: seq<Bytes>, props: seq<Bytes>) returns (all: seq<Bytes>)
      ensures all == Merge(parent, props)
    {
      all := parent;
      for i := 0 to |props|
        invariant Merge(all, props[i..]) == Merge(parent, props)
      {
        assert props[i..][1..] == props[i + 1..];
        if props[i] !in all { all := all + [props[i]]; }
      }
      assert props[|props|..] == [];
    }

    method ParseParent() returns (r: Result<seq<Bytes>>)
      requires Valid()
      modifies this`pos
      ensures Valid() && Agrees(Tron.ParseParent(classes, toks, old(pos)), r, pos)
    {
      var open := Accept(Punct(LPAREN));
      if !open { return Success([]); }
      if !toks[pos].Ident? { return Failure(BadText); }
      var t := Advance();
      if t.name !in classes { return Failure(BadText); }
      var closed := Accept(Punct(RPAREN));
      r := if closed then Success(classes[t.name]) else Failure(BadText);
    }

    method ParseClasses() returns (r: Result<()>)
      requires Valid()
      modifies this
      ensures Valid()
      ensures match Tron.ParseClasses(toks, old(pos), old(classes))
        case Err(e) => r == Failure(e)
        case Ok(cs, p) => r == Success(()) && classes == cs && pos == p
    {
      hide Tron.ParseProps, Tron.ParseParent, Merge, SkipLines;
      while toks[pos] == Keyword
        invariant Valid()
        invariant Tron.ParseClasses(toks, pos, classes) == Tron.ParseClasses(toks, old(pos), old(classes))
        decreases |toks| - pos
      {
        var _ := Advance();
        if !toks[pos].Ident? { return Failure(BadText); }
        var t := Advance();
        var parent := ParseParent();
        if parent.Failure? { return Failure(parent.error); }
        var colon := Accept(Punct(COLON));
        if !colon { return Failure(BadText); }
        SkipNewlines();
        var props := ParseProps();
        if props.Failure? { return Failure(props.error); }
        if props.value == [] { return Failure(BadText); }
        var all := MergeProps(parent.value, props.value);
        classes := classes[t.name := all];
      }
      r := Success(());
    }
  }

  function Rest(s: seq<Value>, i: nat): (r: seq<Value>)
  {
    if i <= |s| then s[i..] else []
  }

  lemma FillStep(props: seq<Bytes>, args: seq<Value>, named: map<Bytes, Value>, i: nat, obj: map<Bytes, Value>)
    requires i < |props|
    ensures var v := if i < |args| then args[i] else if props[i] in named then named[props[i]] else Leaf(Null);
      Build(Fill(props[i..], Rest(args, i), named), obj)
      == Build(Fill(props[i + 1..], Rest(args, i + 1), named), Emplace(obj, props[i], v))
  {
    hide Emplace;
    assert props[i..][1..] == props[i + 1..];
    if i < |args| { assert Rest(args, i)[1..] == Rest(args, i + 1); }
    var ps := Fill(props[i..], Rest(args, i), named);
    assert ps[1..] == Fill(props[i + 1..], Rest(args, i + 1), named);
  }

  /** fromTRON. */
  method FromTron(plat: Json.Platform, text: Bytes) returns (root: Option<Value>)
    ensures root == ParseDocument(plat, text)
  {
    hide Tokens, ParseClasses, ParseValue, SkipLines;
    var toks := Tokenize(text);
    var state := new ParseState(plat, toks);
    state.SkipNewlines();
    var defined := state.ParseClasses();
    if defined.Failure? { return None; }
    var v := state.ParseAny();
    if v.Failure? { return None; }
    state.SkipNewlines();
    root := if toks[state.pos] == End then Some(v.value) else None;
  }
}
