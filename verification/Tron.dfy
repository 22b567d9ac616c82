/** TRON: hoisting repeated key sets into classes, the text it is printed as, and the parser. */
module Tron {
  import opened Bytes
  import opened Values
  import opened Text
  import opened Regexes
  import opened Json
  import Base64

  // ---------- Schemas ----------

  /** std::string::operator<: bytewise lexicographic order. */
  predicate Less(a: Bytes, b: Bytes)
  {
    b != [] && (a == [] || a[0] < b[0] || (a[0] == b[0] && Less(a[1..], b[1..])))
  }

  function Insert(k: Bytes, ks: seq<Bytes>): (r: seq<Bytes>)
    ensures |r| == |ks| + 1
  {
    if ks == [] || Less(k, ks[0]) then [k] + ks else [ks[0]] + Insert(k, ks[1..])
  }

  function Sort(ks: seq<Bytes>): (r: seq<Bytes>)
    ensures |r| == |ks|
  {
    if ks == [] then [] else Insert(ks[0], Sort(ks[1..]))
  }

  function Join(ks: seq<Bytes>): (r: Bytes)
  {
    if ks == [] then [] else if |ks| == 1 then ks[0] else ks[0] + [COMMA] + Join(ks[1..])
  }

  function Keys(es: seq<Entry>): (r: seq<Bytes>)
    ensures |r| == |es| && forall i :: 0 <= i < |es| ==> r[i] == es[i].key
  {
    if es == [] then [] else [es[0].key] + Keys(es[1..])
  }

  function SortedKeys(es: seq<Entry>): (r: seq<Bytes>)
    ensures |r| == |es|
  {
    Sort(Keys(es))
  }

  /** tronSchemaSignature of a non-empty object. */
  function Signature(es: seq<Entry>): (r: Bytes)
  {
    Join(SortedKeys(es))
  }

  /** A letter, then a number once the letters have run out. */
  function ClassName(idx: nat): (r: Bytes)
    ensures r != []
  {
    [65 + idx % 26] + (if idx / 26 > 0 then Digits(idx / 26) else [])
  }

  datatype Class = Class(signature: Bytes, name: Bytes, keys: seq<Bytes>)

  /** The class an object is written as, if its signature was hoisted. */
  function Lookup(cs: seq<Class>, signature: Bytes): (r: Option<Class>)
    ensures r.Some? ==> r.value in cs && r.value.signature == signature
    ensures r.None? ==> forall c :: c in cs ==> c.signature != signature
  {
    if cs == [] then None else if cs[0].signature == signature then Some(cs[0]) else Lookup(cs[1..], signature)
  }

  // ---------- Hoisting ----------

  /** What the encoder writes: values, plain objects, and positional instances of classes. */
  datatype Tree =
    | Token(scalar: Scalar)
    | Listing(items: seq<Tree>)
    | Plain(members: seq<Tree>, keys: seq<Bytes>)
    | Instance(name: Bytes, args: seq<Tree>)

  /** The position of a key among the entries; getConst finds nothing under the empty key. */
  function IndexOf(es: seq<Entry>, key: Bytes): (r: Option<nat>)
    ensures r.Some? ==> r.value < |es| && es[r.value].key == key && key != []
    ensures r.None? ==> key == [] || forall i :: 0 <= i < |es| ==> es[i].key != key
  {
    if key == [] || es == [] then None
    else if es[0].key == key then Some(0)
    else match IndexOf(es[1..], key) case None => None case Some(i) => Some(i + 1)
  }

  /** The arguments of an instance, in the order of the class. */
  function Arrange(es: seq<Entry>, children: seq<Tree>, keys: seq<Bytes>): (r: seq<Tree>)
    requires |children| == |es|
    ensures |r| == |keys|
  {
    if keys == [] then []
    else
      var i := IndexOf(es, keys[0]);
      [if i.Some? then children[i.value] else Token(Null)] + Arrange(es, children, keys[1..])
  }

  function Hoist(cs: seq<Class>, d: Doc): (r: Tree)
    decreases d
  {
    match d
    case Atom(s) => Token(s)
    case List(items) => Listing(HoistAll(cs, items))
    case Table(es) =>
      var children := HoistEntries(cs, es);
      var c := if es == [] then None else Lookup(cs, Signature(es));
      if c.None? then Plain(children, Keys(es)) else Instance(c.value.name, Arrange(es, children, c.value.keys))
  }

  function HoistAll(cs: seq<Class>, ds: seq<Doc>): (r: seq<Tree>)
    ensures |r| == |ds|
    decreases ds
  {
    if ds == [] then [] else [Hoist(cs, ds[0])] + HoistAll(cs, ds[1..])
  }

  function HoistEntries(cs: seq<Class>, es: seq<Entry>): (r: seq<Tree>)
    ensures |r| == |es|
    decreases es
  {
    if es == [] then [] else [Hoist(cs, es[0].doc)] + HoistEntries(cs, es[1..])
  }

  // ---------- Text ----------

  const B64_PREFIX: Bytes := [95, 95, 66, 65, 83, 69, 54, 52, 95, 95]   // __BASE64__
  const EXT_PREFIX: Bytes := [95, 95, 69, 88, 84, 95, 95]               // __EXT__
  const SEPARATOR: Bytes := [95, 95]                                    // __
  const BAR: Byte := 124

  predicate IsString(s: Scalar)
  {
    (s.Text? && !s.rawNumber) || s.Binary? || s.ObjectId? || s.Regex? || s.Extension?
  }

  /** The string a scalar is written as, before escaping. */
  function StringOf(s: Scalar): (r: Bytes)
    requires IsString(s)
  {
    match s
    case Text(t, _) => t
    case Binary(data) => B64_PREFIX + Base64.Encode(Base64.Default(), data)
    case ObjectId(oid) => Hex(oid)
    case Regex(source) => if LastIndexOf(source, 0) >= 0 then PatternOf(source) + [BAR] + OptionsOf(source) else source
    case Extension(t, payload) => EXT_PREFIX + Decimal(t) + SEPARATOR + Base64.Encode(Base64.Default(), payload)
  }

  function ScalarText(plat: Platform, s: Scalar): (r: Bytes)
  {
    if IsString(s) then Quoted(StringOf(s))
    else if s.Timestamp? then Decimal(s.seconds)
    else PlainToken(plat, s)
  }

  const LPAREN: Byte := 40
  const RPAREN: Byte := 41
  const EQUALS: Byte := 61
  const SEMICOLON: Byte := 59

  function TextOf(plat: Platform, t: Tree): (r: Bytes)
    decreases t, 0
  {
    match t
    case Token(s) => ScalarText(plat, s)
    case Listing(items) => [LBRACKET] + (TextsOf(plat, items) + [RBRACKET])
    case Plain(members, keys) => [LBRACE] + (MembersText(plat, members, keys) + [RBRACE])
    case Instance(name, args) => name + ([LPAREN] + (TextsOf(plat, args) + [RPAREN]))
  }

  function TextsOf(plat: Platform, ts: seq<Tree>): (r: Bytes)
    decreases ts, 1
  {
    if ts == [] then []
    else TextOf(plat, ts[0]) + (if |ts| == 1 then [] else [COMMA] + TextsOf(plat, ts[1..]))
  }

  function MembersText(plat: Platform, ts: seq<Tree>, keys: seq<Bytes>): (r: Bytes)
    decreases ts, 1
  {
    if ts == [] || keys == [] then []
    else
      Quoted(keys[0]) + ([COLON] + (TextOf(plat, ts[0])
      + (if |ts| == 1 then [] else [COMMA] + MembersText(plat, ts[1..], keys[1..]))))
  }

  const CLASS_WORD: Bytes := [99, 108, 97, 115, 115]   // class

  function KeysText(keys: seq<Bytes>): (r: Bytes)
  {
    if keys == [] then []
    else Quoted(keys[0]) + (if |keys| == 1 then [] else [COMMA] + KeysText(keys[1..]))
  }

  function ClassText(c: Class): (r: Bytes)
  {
    CLASS_WORD + ([SPACE] + (c.name + ([COLON] + (KeysText(c.keys) + [NEWLINE]))))
  }

  function HeaderText(cs: seq<Class>): (r: Bytes)
  {
    if cs == [] then [] else ClassText(cs[0]) + HeaderText(cs[1..])
  }

  /** toTRON for a choice of hoisted classes, printed in the order `header`. */
  function DocumentText(plat: Platform, header: seq<Class>, cs: seq<Class>, d: Doc): (r: Bytes)
  {
    HeaderText(header) + ((if header == [] then [] else [NEWLINE]) + (TextOf(plat, Hoist(cs, d)) + [NEWLINE]))
  }

  // ---------- Tokenizer ----------

  datatype Tok =
    | Keyword          // class
    | Ident(name: Bytes)
    | Str(raw: Bytes)
    | Num(digits: Bytes)
    | True
    | False
    | Nul
    | Punct(mark: Byte)
    | Newline
    | End

  /** The closing quote, or the end of the input. */
  function QuoteEnd(s: Bytes, i: nat): (r: nat)
    ensures i <= r && (i <= |s| ==> r <= |s|)
    decreases Remaining(s, i)
  {
    if i >= |s| || s[i] == QUOTE then i
    else if s[i] == BACKSLASH && i + 1 < |s| then QuoteEnd(s, i + 2)
    else QuoteEnd(s, i + 1)
  }

  function NumberEnd(s: Bytes, i: nat): (r: nat)
    requires Cur(s, i) == MINUS || IsDigit(Cur(s, i))
    ensures i < r && (i <= |s| ==> r <= |s|)
  {
    var a := DigitsEnd(s, if Cur(s, i) == MINUS then i + 1 else i);
    var b := if Cur(s, a) == DOT then DigitsEnd(s, a + 1) else a;
    if IsExponent(Cur(s, b)) then
      DigitsEnd(s, if Cur(s, b + 1) == PLUS || Cur(s, b + 1) == MINUS then b + 2 else b + 1)
    else b
  }

  function WordEnd(s: Bytes, i: nat): (r: nat)
    ensures i <= r && (i <= |s| ==> r <= |s|)
    decreases Remaining(s, i)
  {
    if i < |s| && IsIdent(s[i]) then WordEnd(s, i + 1) else i
  }

  function NewlineEnd(s: Bytes, i: nat): (r: nat)
    ensures i <= r && (i <= |s| ==> r <= |s|)
    decreases Remaining(s, i)
  {
    if i < |s| && s[i] != NEWLINE then NewlineEnd(s, i + 1) else i
  }

  function Word(w: Bytes): (r: Tok)
  {
    if w == CLASS_WORD then Keyword else if w == TRUE_TEXT then True else if w == FALSE_TEXT then False
    else if w == NULL_TEXT then Nul else Ident(w)
  }

  predicate IsPunct(b: Byte)
  {
    b == LPAREN || b == RPAREN || b == LBRACKET || b == RBRACKET || b == LBRACE || b == RBRACE || b == COMMA
    || b == COLON || b == SEMICOLON || b == EQUALS
  }

  predicate StartsWord(b: Byte) { 97 <= b <= 122 || 65 <= b <= 90 || b == 95 }

  /** tronTokenize from position `i`; characters it does not know are dropped. */
  function Tokens(s: Bytes, i: nat): (r: seq<Tok>)
    ensures r != [] && r[|r| - 1] == End && forall k :: 0 <= k < |r| - 1 ==> r[k] != End
    decreases Remaining(s, i)
  {
    if i >= |s| then [End]
    else
      var c := s[i];
      if c == RETURN || c == SPACE || c == TAB then Tokens(s, i + 1)
      else if c == HASH then Tokens(s, NewlineEnd(s, i))
      else if c == NEWLINE then [Newline] + Tokens(s, i + 1)
      else if c == QUOTE then
        var e := QuoteEnd(s, i + 1);
        [Str(s[i + 1..e])] + Tokens(s, if e < |s| then e + 1 else e)
      else if c == MINUS || IsDigit(c) then
        [Num(s[i..NumberEnd(s, i)])] + Tokens(s, NumberEnd(s, i))
      else if StartsWord(c) then
        [Word(s[i..WordEnd(s, i)])] + Tokens(s, WordEnd(s, i))
      else if IsPunct(c) then [Punct(c)] + Tokens(s, i + 1)
      else Tokens(s, i + 1)
  }

  // ---------- Parser ----------

  type Classes = map<Bytes, seq<Bytes>>

  function Peek(ts: seq<Tok>, p: nat): (r: Tok)
  {
    if p < |ts| then ts[p] else End
  }

  function Left(ts: seq<Tok>, p: nat): nat
  {
    if p < |ts| then |ts| - p else 0
  }

  /** Past newlines and semicolons. */
  function SkipLines(ts: seq<Tok>, p: nat): (r: nat)
    ensures p <= r && (p <= |ts| ==> r <= |ts|)
    decreases Left(ts, p)
  {
    if Peek(ts, p) == Newline || Peek(ts, p) == Punct(SEMICOLON) then SkipLines(ts, p + 1) else p
  }

  predicate HasPrefix(s: Bytes, prefix: Bytes)
  {
    |s| > |prefix| && s[..|prefix|] == prefix
  }

  /** find("__", i); None stands for npos. */
  function FindSeparator(s: Bytes, i: nat): (r: Option<nat>)
    ensures r.Some? ==> i <= r.value && r.value + 2 <= |s|
    decreases Remaining(s, i)
  {
    if i + 1 >= |s| then None else if s[i] == 95 && s[i + 1] == 95 then Some(i) else FindSeparator(s, i + 1)
  }

  predicate DigitsOnly(s: Bytes)
  {
    if s == [] then true else IsDigit(s[0]) && DigitsOnly(s[1..])
  }

  lemma {:induction false} DigitsOnlyIs(s: Bytes)
    ensures DigitsOnly(s) <==> forall i :: 0 <= i < |s| ==> IsDigit(s[i])
  {
    if s != [] {
      DigitsOnlyIs(s[1..]);
      assert forall i :: 1 <= i < |s| ==> s[i] == s[1..][i - 1];
    }
  }

  /** std::from_chars of a whole text into a signed integer of the given bound. */
  function WholeInt(s: Bytes, bound: nat): (r: Option<int>)
    ensures r.Some? ==> 0 - bound <= r.value < bound
  {
    var m := if s != [] && s[0] == MINUS then s[1..] else s;
    DigitsOnlyIs(m);
    if m == [] || !DigitsOnly(m) then None
    else
      var n: int := if s[0] == MINUS then 0 - FromDigits(m) else FromDigits(m);
      if 0 - bound <= n < bound then Some(n) else None
  }

  function OrEmpty(r: Option<Bytes>): (s: Bytes)
  {
    match r case None => [] case Some(s) => s
  }

  predicate ExtensionForm(s: Bytes)
  {
    HasPrefix(s, EXT_PREFIX) && FindSeparator(s, 7).Some? && FindSeparator(s, 7).value > 7
  }

  /** The value of a string token, after unescaping; None where the parser throws. */
  function ReadString(plat: Platform, s: Bytes): (r: Option<Value>)
  {
    if HasPrefix(s, B64_PREFIX) then
      var data := OrEmpty(Base64.Decode(Base64.Default(), s[10..]));
      if |data| > MAX_STRING_LEN then None else Some(Leaf(Binary(data)))
    else if ExtensionForm(s) then
      var sep := FindSeparator(s, 7).value;
      match WholeInt(s[7..sep], 0x8000_0000)
      case None => None
      case Some(t) =>
        var data := OrEmpty(Base64.Decode(Base64.Default(), s[sep + 2..]));
        if |data| > MAX_STRING_LEN then None else Some(Leaf(Extension(Signed(t % 256, 256), data)))
    else
      match ReadDate(plat, s)
      case Some(t) => Some(Leaf(DateTime(t.0, t.1)))
      case None => if |s| > MAX_STRING_LEN then None else Some(Leaf(Text(s, false)))
  }

  /** The value of a number token. */
  function ReadNumber(plat: Platform, s: Bytes): (r: Option<Value>)
  {
    if DOT in s || 101 in s || 69 in s then
      match plat.parseDouble(s) case None => None case Some(bits) => Some(Leaf(Double(bits)))
    else
      match WholeInt(s, TWO_63) case None => None case Some(n) => Some(Leaf(Int(n)))
  }

  function AtPos(v: Option<Value>, p: nat): (r: Parsed<Value>)
  {
    match v case None => Err(BadText) case Some(x) => Ok(x, p)
  }

  function ParseValue(plat: Platform, cs: Classes, ts: seq<Tok>, pos: nat): (r: Parsed<Value>)
    ensures r.Ok? ==> pos < r.pos <= |ts|
    decreases Left(ts, pos), 0
  {
    var p := SkipLines(ts, pos);
    match Peek(ts, p)
    case Punct(c) =>
      if c == LBRACE then
        match ParseObject(plat, cs, ts, p) case Err(e) => Err(e) case Ok(m, q) => Ok(Object(m), q)
      else if c == LBRACKET then
        match ParseArray(plat, cs, ts, p) case Err(e) => Err(e) case Ok(vs, q) => Ok(Array(vs), q)
      else Err(BadText)
    case Str(raw) =>
      (match Unescape(raw, 0) case None => Err(BadText) case Some(s) => AtPos(ReadString(plat, s), p + 1))
    case Num(n) => AtPos(ReadNumber(plat, n), p + 1)
    case True => Ok(Leaf(Bool(true)), p + 1)
    case False => Ok(Leaf(Bool(false)), p + 1)
    case Nul => Ok(Leaf(Null), p + 1)
    case Ident(name) =>
      (if Peek(ts, p + 1) != Punct(LPAREN) || name !in cs then Err(BadText)
       else
         match ParseArgs(plat, cs, ts, SkipLines(ts, p + 2), [], map[])
         case Err(e) => Err(e)
         case Ok(a, q) =>
           if Peek(ts, q) != Punct(RPAREN) then Err(BadText)
           else Ok(Object(Build(Fill(cs[name], a.0, a.1), map[])), q + 1))
    case _ => Err(BadText)
  }

  function ParseObject(plat: Platform, cs: Classes, ts: seq<Tok>, pos: nat): (r: Parsed<map<Bytes, Value>>)
    requires pos < |ts|
    ensures r.Ok? ==> pos < r.pos <= |ts|
    decreases Left(ts, pos), -1
  {
    var p := SkipLines(ts, pos + 1);
    if Peek(ts, p) == Punct(RBRACE) then Ok(map[], p + 1)
    else
      match ParseMembers(plat, cs, ts, p, map[])
      case Err(e) => Err(e)
      case Ok(m, q) => if Peek(ts, q) == Punct(RBRACE) then Ok(m, q + 1) else Err(BadText)
  }

  function ParseMembers(plat: Platform, cs: Classes, ts: seq<Tok>, pos: nat, acc: map<Bytes, Value>)
    : (r: Parsed<map<Bytes, Value>>)
    ensures r.Ok? ==> pos <= r.pos && (pos <= |ts| ==> r.pos <= |ts|)
    decreases Left(ts, pos), 1
  {
    match Peek(ts, pos)
    case Str(raw) =>
      (match Unescape(raw, 0)
       case None => Err(BadText)
       case Some(key) =>
         if Peek(ts, pos + 1) != Punct(COLON) then Err(BadText)
         else
           match ParseValue(plat, cs, ts, SkipLines(ts, pos + 2))
           case Err(e) => Err(e)
           case Ok(v, p) =>
             var q := SkipLines(ts, p);
             if Peek(ts, q) == Punct(COMMA) then ParseMembers(plat, cs, ts, SkipLines(ts, q + 1), Emplace(acc, key, v))
             else Ok(Emplace(acc, key, v), q))
    case Punct(c) => if c == RBRACE then Ok(acc, pos) else Err(BadText)
    case _ => Err(BadText)
  }

  function ParseArray(plat: Platform, cs: Classes, ts: seq<Tok>, pos: nat): (r: Parsed<seq<Value>>)
    requires pos < |ts|
    ensures r.Ok? ==> pos < r.pos <= |ts|
    decreases Left(ts, pos), -1
  {
    var p := SkipLines(ts, pos + 1);
    if Peek(ts, p) == Punct(RBRACKET) then Ok([], p + 1)
    else
      match ParseElements(plat, cs, ts, p, [])
      case Err(e) => Err(e)
      case Ok(vs, q) => if Peek(ts, q) == Punct(RBRACKET) then Ok(vs, q + 1) else Err(BadText)
  }

  function ParseElements(plat: Platform, cs: Classes, ts: seq<Tok>, pos: nat, acc: seq<Value>): (r: Parsed<seq<Value>>)
    ensures r.Ok? ==> pos <= r.pos && (pos <= |ts| ==> r.pos <= |ts|)
    decreases Left(ts, pos), 1
  {
    if Peek(ts, pos) == Punct(RBRACKET) then Ok(acc, pos)
    else
      match ParseValue(plat, cs, ts, pos)
      case Err(e) => Err(e)
      case Ok(v, p) =>
        var q := SkipLines(ts, p);
        if Peek(ts, q) == Punct(COMMA) then ParseElements(plat, cs, ts, SkipLines(ts, q + 1), acc + [v])
        else Ok(acc + [v], q)
  }

  /** Positional arguments, then named ones. */
  function ParseArgs(plat: Platform, cs: Classes, ts: seq<Tok>, pos: nat, args: seq<Value>, named: map<Bytes, Value>)
    : (r: Parsed<(seq<Value>, map<Bytes, Value>)>)
    ensures r.Ok? ==> pos <= r.pos && (pos <= |ts| ==> r.pos <= |ts|)
    decreases Left(ts, pos), 1
  {
    if Peek(ts, pos) == Punct(RPAREN) || Peek(ts, pos) == End then Ok((args, named), pos)
    else if (args != [] || named != map[]) && Peek(ts, pos) == Punct(COMMA) then
      ParseArgs(plat, cs, ts, SkipLines(ts, pos + 1), args, named)
    else
      var p := SkipLines(ts, pos);
      if (Peek(ts, p).Ident? || Peek(ts, p).Str?) && Peek(ts, p + 1) == Punct(EQUALS) then
        match if Peek(ts, p).Str? then Unescape(Peek(ts, p).raw, 0) else Some(Peek(ts, p).name)
        case None => Err(BadText)
        case Some(name) =>
          match ParseValue(plat, cs, ts, SkipLines(ts, p + 2))
          case Err(e) => Err(e)
          case Ok(v, q) => ParseArgs(plat, cs, ts, SkipLines(ts, q), args, named[name := v])
      else if named != map[] then Err(BadText)
      else
        match ParseValue(plat, cs, ts, p)
        case Err(e) => Err(e)
        case Ok(v, q) => ParseArgs(plat, cs, ts, SkipLines(ts, q), args + [v], named)
  }

  /** The members of an instance: positional arguments first, then named ones, null for the rest. */
  function Fill(props: seq<Bytes>, args: seq<Value>, named: map<Bytes, Value>): (r: seq<(Bytes, Value)>)
    ensures |r| == |props|
    ensures forall i :: 0 <= i < |props| ==> r[i].0 == props[i]
  {
    if props == [] then []
    else
      var v := if args != [] then args[0] else if props[0] in named then named[props[0]] else Leaf(Null);
      [(props[0], v)] + Fill(props[1..], if args != [] then args[1..] else [], named)
  }

  /** The property list of a class definition, newlines and commas between names. */
  function ParseProps(ts: seq<Tok>, pos: nat, acc: seq<Bytes>): (r: Parsed<seq<Bytes>>)
    ensures r.Ok? ==> pos <= r.pos && (pos <= |ts| ==> r.pos <= |ts|)
    decreases Left(ts, pos)
  {
    var t := Peek(ts, pos);
    if !t.Ident? && !t.Str? then Ok(acc, pos)
    else
      match if t.Str? then Unescape(t.raw, 0) else Some(t.name)
      case None => Err(BadText)
      case Some(prop) =>
        var p := SkipLines(ts, pos + 1);
        if Peek(ts, p) == Punct(COMMA) then ParseProps(ts, SkipLines(ts, p + 1), acc + [prop]) else Ok(acc + [prop], p)
  }

  /** Names not among the parent's are appended. */
  function Merge(parent: seq<Bytes>, props: seq<Bytes>): (r: seq<Bytes>)
    decreases props
  {
    if props == [] then parent
    else Merge(if props[0] in parent then parent else parent + [props[0]], props[1..])
  }

  /** The parent's properties, if the class names one, and the position after it. */
  function ParseParent(cs: Classes, ts: seq<Tok>, p: nat): (r: Parsed<seq<Bytes>>)
    ensures r.Ok? ==> p <= r.pos && (p <= |ts| ==> r.pos <= |ts|)
  {
    if Peek(ts, p) != Punct(LPAREN) then Ok([], p)
    else if !Peek(ts, p + 1).Ident? then Err(BadText)
    else
      var parent := Peek(ts, p + 1).name;
      if parent !in cs || Peek(ts, p + 2) != Punct(RPAREN) then Err(BadText) else Ok(cs[parent], p + 3)
  }

  function ParseClasses(ts: seq<Tok>, pos: nat, cs: Classes): (r: Parsed<Classes>)
    ensures r.Ok? ==> pos <= r.pos && (pos <= |ts| ==> r.pos <= |ts|)
    decreases Left(ts, pos)
  {
    if Peek(ts, pos) != Keyword then Ok(cs, pos)
    else if !Peek(ts, pos + 1).Ident? then Err(BadText)
    else
      var name := Peek(ts, pos + 1).name;
      match ParseParent(cs, ts, pos + 2)
      case Err(e) => Err(e)
      case Ok(parent, p) =>
        if Peek(ts, p) != Punct(COLON) then Err(BadText)
        else
          match ParseProps(ts, SkipLines(ts, p + 1), [])
          case Err(e) => Err(e)
          case Ok(props, q) =>
            if props == [] then Err(BadText) else ParseClasses(ts, q, cs[name := Merge(parent, props)])
  }

  /** fromTRON. */
  function ParseDocument(plat: Platform, text: Bytes): (r: Option<Value>)
  {
    var ts := Tokens(text, 0);
    match ParseClasses(ts, SkipLines(ts, 0), map[])
    case Err(_) => None
    case Ok(cs, p) =>
      match ParseValue(plat, cs, ts, p)
      case Err(_) => None
      case Ok(v, q) => if Peek(ts, SkipLines(ts, q)) == End then Some(v) else None
  }
}
