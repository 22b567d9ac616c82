/** CBOR as RFC 8949 allows it to be written: heads of any width, definite and indefinite lengths in any nesting, tags,
    simple values, floating point of three sizes. */
module CborFormats {
  import opened Bytes
  import opened Values
  import opened Cbor

  // ---------- Formats ----------

  /** Widths are those of a head's argument in bytes, zero for one in the initial byte; `open` is an indefinite length. */
  datatype Form =
    | Natural(w: nat, u: nat)
    | Minus(w: nat, u: nat)
    | Bin(w: nat, bytes: Bytes)
    | Str(w: nat, bytes: Bytes)
    | Chunked(text: bool, chunks: seq<Form>)
    | Arr(open: bool, w: nat, items: seq<Form>)
    | Dict(open: bool, w: nat, members: seq<Member>)
    | Tag(w: nat, u: nat, content: Form)
    | Simple(u: nat)
    | SimpleByte(u: nat)
    | Half(u: nat)
    | Single(u: nat)
    | Real(u: nat)

  datatype Member = Member(key: Form, value: Form)

  /** A key and a value are parts of their member. */
  ghost predicate Parts(m: Member) { m.key < m && m.value < m }

  predicate ArgOk(w: nat, n: nat) { (w == 0 && n < 24) || (w in {1, 2, 4, 8} && n < Pow256(w)) }

  ghost predicate FormOk(f: Form)
    decreases f
  {
    match f
    case Natural(w, u) => ArgOk(w, u)
    case Minus(w, u) => ArgOk(w, u)
    case Bin(w, s) => ArgOk(w, |s|)
    case Str(w, s) => ArgOk(w, |s|)
    case Chunked(_, chunks) => FormsOk(chunks)
    case Arr(open, w, items) => (open || ArgOk(w, |items|)) && FormsOk(items)
    case Dict(open, w, members) => (open || ArgOk(w, |members|)) && MembersOk(members)
    case Tag(w, u, content) => ArgOk(w, u) && FormOk(content)
    case Simple(u) => u < 24
    case SimpleByte(u) => u < 256
    case Half(u) => u < 0x1_0000
    case Single(u) => u < TWO_32
    case Real(u) => u < TWO_64
  }

  ghost predicate FormsOk(fs: seq<Form>)
    decreases fs
  {
    fs == [] || (FormOk(fs[0]) && FormsOk(fs[1..]))
  }

  ghost predicate MembersOk(ms: seq<Member>)
    decreases ms
  {
    ms == [] || (assert Parts(ms[0]); FormOk(ms[0].key) && FormOk(ms[0].value) && MembersOk(ms[1..]))
  }

  function HeadText(major: nat, w: nat, n: nat): (r: Bytes)
    requires major < 7 && ArgOk(w, n)
    ensures r != []
  {
    if w == 0 then [major * 32 + n]
    else [major * 32 + (if w == 1 then 24 else if w == 2 then 25 else if w == 4 then 26 else 27)] + Big(n, w)
  }

  ghost function FormText(f: Form): (r: Bytes)
    requires FormOk(f)
    decreases f, 0
  {
    match f
    case Natural(w, u) => HeadText(0, w, u)
    case Minus(w, u) => HeadText(1, w, u)
    case Bin(w, s) => HeadText(2, w, |s|) + s
    case Str(w, s) => HeadText(3, w, |s|) + s
    case Chunked(text, chunks) => [if text then 0x7F else 0x5F] + (FormsText(chunks) + [0xFF])
    case Arr(open, w, items) =>
      if open then [0x9F] + (FormsText(items) + [0xFF]) else HeadText(4, w, |items|) + FormsText(items)
    case Dict(open, w, members) =>
      if open then [0xBF] + (MembersText(members) + [0xFF]) else HeadText(5, w, |members|) + MembersText(members)
    case Tag(w, u, content) => HeadText(6, w, u) + FormText(content)
    case Simple(u) => [0xE0 + u]
    case SimpleByte(u) => [0xF8, u]
    case Half(u) => [0xF9] + Big(u, 2)
    case Single(u) => [0xFA] + Big(u, 4)
    case Real(u) => [0xFB] + Big(u, 8)
  }

  ghost function FormsText(fs: seq<Form>): (r: Bytes)
    requires FormsOk(fs)
    decreases fs, 1
  {
    if fs == [] then [] else FormText(fs[0]) + FormsText(fs[1..])
  }

  ghost function MembersText(ms: seq<Member>): (r: Bytes)
    requires MembersOk(ms)
    decreases ms, 1
  {
    if ms == [] then []
    else
      assert Parts(ms[0]);
      FormText(ms[0].key) + (FormText(ms[0].value) + MembersText(ms[1..]))
  }

  // ---------- Meaning ----------

  /** What a tag makes of its content: 1 a date-time, 35 a regular expression, 257 an extension; other tags, and content of
      other types, are passed over. */
  function TagMeaning(fp: Floats, tag: nat, v: Value): (r: Value)
  {
    match v
    case Leaf(Double(bits)) => if tag == 1 then Leaf(DateTime(fp.epochOf(bits).0, fp.epochOf(bits).1)) else v
    case Leaf(Float32(bits)) =>
      if tag == 1 then Leaf(DateTime(fp.epochOf(fp.widen(bits)).0, fp.epochOf(fp.widen(bits)).1)) else v
    case Leaf(Int(n)) => if tag == 1 then Leaf(DateTime(n, 0)) else v
    case Leaf(Text(s, _)) => if tag == 35 && RegexOf(s).Some? then Leaf(RegexOf(s).value) else v
    case Array(items) =>
      if tag == 257 && |items| == 2 && items[0].Leaf? && items[0].scalar.Int? && items[1].Leaf? && items[1].scalar.Binary? then
        var t := items[0].scalar.num % 256;
        Leaf(Extension(if t < 128 then t else t - 256, items[1].scalar.data))
      else v
    case _ => v
  }

  function SimpleMeaning(u: nat): (r: Option<Value>)
  {
    if u == 20 then Some(Leaf(Bool(false))) else if u == 21 then Some(Leaf(Bool(true)))
    else if u == 22 || u == 23 then Some(Leaf(Null)) else None
  }

  /** A chunk is text, or bytes that are not empty. */
  function ChunkBytes(v: Value): (r: Option<Bytes>)
  {
    match v
    case Leaf(Text(s, _)) => Some(s)
    case Leaf(Binary(s)) => if s == [] then None else Some(s)
    case _ => None
  }

  ghost function Denote(fp: Floats, f: Form, depth: nat): (r: Option<Value>)
    requires FormOk(f)
    decreases f
  {
    if depth > MAX_NESTING_DEPTH then None
    else
      match f
      case Natural(w, u) => Pow256Values(); Some(Leaf(Int(if u < TWO_63 then u else u - TWO_64)))
      case Minus(w, u) => Pow256Values(); Some(Leaf(Int(if u < TWO_63 then -1 - u else TWO_64 - 1 - u)))
      case Bin(_, s) => if |s| > MAX_STRING_LEN then None else Some(Leaf(Binary(s)))
      case Str(_, s) => if |s| > MAX_STRING_LEN then None else Some(Leaf(Text(s, false)))
      case Chunked(text, chunks) =>
        (match DenoteChunks(fp, chunks, depth + 1, 0)
         case None => None
         case Some(s) => Some(Leaf(if text then Text(s, false) else Binary(s))))
      case Arr(_, _, items) =>
        if |items| > MAX_ARRAY_SIZE then None
        else (match DenoteAll(fp, items, depth + 1) case None => None case Some(vs) => Some(Array(vs)))
      case Dict(_, _, members) =>
        if |members| > MAX_OBJECT_SIZE then None
        else (match DenoteMembers(fp, members, depth + 1) case None => None case Some(ps) => Some(Object(Build(ps, map[]))))
      case Tag(_, u, content) =>
        (match Denote(fp, content, depth + 1) case None => None case Some(v) => Some(TagMeaning(fp, u, v)))
      case Simple(u) => SimpleMeaning(u)
      case SimpleByte(u) => Some(Leaf(if u == 20 then Bool(false) else if u == 21 then Bool(true) else Null))
      case Half(u) => Some(Leaf(Double(fp.halfBits(u))))
      case Single(u) => Some(Leaf(Float32(u)))
      case Real(u) => Some(Leaf(Double(u)))
  }

  ghost function DenoteAll(fp: Floats, fs: seq<Form>, depth: nat): (r: Option<seq<Value>>)
    requires FormsOk(fs)
    decreases fs
  {
    if fs == [] then Some([])
    else
      match (Denote(fp, fs[0], depth), DenoteAll(fp, fs[1..], depth))
      case (Some(v), Some(vs)) => Some([v] + vs)
      case _ => None
  }

  /** The chunks of a string behind `len` bytes, up to the length limit. */
  ghost function DenoteChunks(fp: Floats, fs: seq<Form>, depth: nat, len: nat): (r: Option<Bytes>)
    requires FormsOk(fs)
    decreases fs
  {
    if fs == [] then Some([])
    else
      match Denote(fp, fs[0], depth)
      case None => None
      case Some(v) =>
        match ChunkBytes(v)
        case None => None
        case Some(s) =>
          if len + |s| > MAX_STRING_LEN then None else Prepend(s, DenoteChunks(fp, fs[1..], depth, len + |s|))
  }

  /** Keys are text; of members with one key the first stays. */
  ghost function DenoteMembers(fp: Floats, ms: seq<Member>, depth: nat): (r: Option<seq<(Bytes, Value)>>)
    requires MembersOk(ms)
    decreases ms
  {
    if ms == [] then Some([])
    else
      assert Parts(ms[0]);
      match (Denote(fp, ms[0].key, depth), Denote(fp, ms[0].value, depth), DenoteMembers(fp, ms[1..], depth))
      case (Some(k), Some(v), Some(ps)) => if k.Leaf? && k.scalar.Text? then Some([(k.scalar.text, v)] + ps) else None
      case _ => None
  }

  // ---------- Heads ----------

  lemma HeadRead(major: nat, w: nat, n: nat, data: Bytes, pos: nat)
    requires major < 7 && ArgOk(w, n) && At(data, pos, HeadText(major, w, n))
    ensures n < TWO_64 && pos < |data| && data[pos] / 32 == major && data[pos] % 32 < 28
    ensures ReadArg(data, pos + 1, data[pos] % 32) == Ok(n, pos + |HeadText(major, w, n)|)
  {
    hide ReadWide, Big, Pow256;
    Pow256Values();
    if w == 0 {
      AtHead(data, pos, [major * 32 + n]);
    } else {
      var info := if w == 1 then 24 else if w == 2 then 25 else if w == 4 then 26 else 27;
      AtSplit(data, pos, [major * 32 + info], Big(n, w));
      AtHead(data, pos, [major * 32 + info]);
      BigRead(n, w, data, pos + 1);
    }
  }

  ghost predicate FormReads(fp: Floats, data: Input, pos: nat, depth: nat, v: Option<Value>, end: nat)
  {
    match v case None => Parse(fp, data, pos, depth).Err? case Some(x) => Parse(fp, data, pos, depth) == Ok(x, end)
  }

  lemma FormReadsIs(fp: Floats, data: Input, pos: nat, depth: nat, v: Option<Value>, end: nat)
    requires FormReads(fp, data, pos, depth, v, end)
    ensures v.None? ==> Parse(fp, data, pos, depth).Err?
    ensures v.Some? ==> Parse(fp, data, pos, depth) == Ok(v.value, end)
  {
    hide Parse;
  }

  /** One step of the decoder on a head with an argument. */
  lemma HeadStep(fp: Floats, data: Input, pos: nat, depth: nat, major: nat, arg: UInt64, p: nat)
    requires depth <= MAX_NESTING_DEPTH && pos < |data| && data[pos] / 32 == major < 7 && data[pos] % 32 < 28
    requires ReadArg(data, pos + 1, data[pos] % 32) == Ok(arg, p) && p <= |data|
    ensures var r := Parse(fp, data, pos, depth);
      && (major == 0 ==> r == Ok(Leaf(Int(ToI64(arg))), p))
      && (major == 1 ==> r == Ok(Leaf(Int(-1 - ToI64(arg))), p))
      && (major == 2 ==>
            r == match ReadString(data, p, arg) case Err(e) => Err(e) case Ok(s, q) => Ok(Leaf(Binary(s)), q))
      && (major == 3 ==>
            r == match ReadString(data, p, arg) case Err(e) => Err(e) case Ok(s, q) => Ok(Leaf(Text(s, false)), q))
  {
    hide ReadArg, ReadString, ParseItems, ParseEntries, ParseIndefinite, ParseSimple, Tagged;
  }

  lemma ContainerStep(fp: Floats, data: Input, pos: nat, depth: nat, major: nat, arg: UInt64, p: nat)
    requires depth <= MAX_NESTING_DEPTH && pos < |data| && data[pos] / 32 == major < 7 && data[pos] % 32 < 28
    requires ReadArg(data, pos + 1, data[pos] % 32) == Ok(arg, p) && p <= |data|
    ensures var r := Parse(fp, data, pos, depth);
      && (major == 4 ==>
            r == if arg > MAX_ARRAY_SIZE then Err(TooLarge)
                 else match ParseItems(fp, data, p, arg, depth + 1, [])
                      case Err(e) => Err(e)
                      case Ok(vs, q) => Ok(Array(vs), q))
      && (major == 5 ==>
            r == if arg > MAX_OBJECT_SIZE then Err(TooLarge)
                 else match ParseEntries(fp, data, p, arg, depth + 1, map[])
                      case Err(e) => Err(e)
                      case Ok(m, q) => Ok(Object(m), q))
      && (major == 6 ==>
            r == match Parse(fp, data, p, depth + 1) case Err(e) => Err(e) case Ok(v, q) => Ok(Tagged(fp, arg, v), q))
  {
    hide ReadArg, ReadString, ParseItems, ParseEntries, ParseIndefinite, ParseSimple, Tagged;
  }

  lemma TooDeepForm(fp: Floats, f: Form, data: Input, pos: nat, depth: nat, end: nat)
    requires FormOk(f) && depth > MAX_NESTING_DEPTH
    ensures FormReads(fp, data, pos, depth, Denote(fp, f, depth), end)
  {
    hide FormOk;
  }

  lemma TagIs(fp: Floats, tag: UInt64, v: Value)
    ensures Tagged(fp, tag, v) == TagMeaning(fp, tag, v)
  {
  }

  // ---------- Formats without parts ----------

  lemma IntRead(fp: Floats, f: Form, data: Input, pos: nat, depth: nat)
    requires FormOk(f) && (f.Natural? || f.Minus?) && At(data, pos, FormText(f)) && depth <= MAX_NESTING_DEPTH
    ensures FormReads(fp, data, pos, depth, Denote(fp, f, depth), pos + |FormText(f)|)
  {
    hide ReadArg, Parse, HeadText;
    var major := if f.Natural? then 0 else 1;
    HeadRead(major, f.w, f.u, data, pos);
    HeadStep(fp, data, pos, depth, major, f.u, pos + |FormText(f)|);
  }

  lemma StringRead(fp: Floats, f: Form, data: Input, pos: nat, depth: nat)
    requires FormOk(f) && (f.Bin? || f.Str?) && At(data, pos, FormText(f)) && depth <= MAX_NESTING_DEPTH
    ensures FormReads(fp, data, pos, depth, Denote(fp, f, depth), pos + |FormText(f)|)
  {
    hide ReadArg, Parse, HeadText, ReadString;
    var major := if f.Bin? then 2 else 3;
    var head := HeadText(major, f.w, |f.bytes|);
    AtSplit(data, pos, head, f.bytes);
    HeadRead(major, f.w, |f.bytes|, data, pos);
    HeadStep(fp, data, pos, depth, major, |f.bytes|, pos + |head|);
    BytesRead(f.bytes, data, pos + |head|);
  }

  lemma BytesRead(s: Bytes, data: Input, pos: nat)
    requires At(data, pos, s)
    ensures |s| < TWO_64 && pos <= |data|
    ensures var r := ReadString(data, pos, |s|); if |s| > MAX_STRING_LEN then r.Err? else r == Ok(s, pos + |s|)
  {
  }

  lemma SimpleRead(fp: Floats, f: Form, data: Input, pos: nat, depth: nat)
    requires FormOk(f) && (f.Simple? || f.SimpleByte? || f.Half? || f.Single? || f.Real?)
    requires At(data, pos, FormText(f)) && depth <= MAX_NESTING_DEPTH
    ensures FormReads(fp, data, pos, depth, Denote(fp, f, depth), pos + |FormText(f)|)
  {
    hide ReadWide, Big, Pow256, Parse;
    Pow256Values();
    AtHead(data, pos, FormText(f));
    SimpleStep(fp, data, pos, depth);
    match f
    case Simple(_) =>
    case SimpleByte(_) => AtHead(data, pos + 1, FormText(f)[1..]);
    case Half(u) => AtSplit(data, pos, [0xF9], Big(u, 2)); BigRead(u, 2, data, pos + 1);
    case Single(u) => AtSplit(data, pos, [0xFA], Big(u, 4)); BigRead(u, 4, data, pos + 1);
    case Real(u) => AtSplit(data, pos, [0xFB], Big(u, 8)); BigRead(u, 8, data, pos + 1);
  }

  lemma SimpleStep(fp: Floats, data: Input, pos: nat, depth: nat)
    requires depth <= MAX_NESTING_DEPTH && pos < |data| && data[pos] / 32 == 7 && data[pos] % 32 < 31
    ensures Parse(fp, data, pos, depth) == ParseSimple(fp, data, pos + 1, data[pos] % 32)
  {
    hide ParseSimple, ParseItems, ParseEntries, ParseIndefinite;
  }

  // ---------- Any form ----------

  lemma NoBreak(f: Form)
    requires FormOk(f)
    ensures FormText(f) != [] && FormText(f)[0] != BREAK
  {
    hide FormsOk, MembersOk, FormsText, MembersText, Big;
  }

  lemma FormsSplit(fp: Floats, fs: seq<Form>, depth: nat)
    requires fs != [] && FormsOk(fs)
    ensures FormOk(fs[0]) && FormsOk(fs[1..]) && FormsText(fs) == FormText(fs[0]) + FormsText(fs[1..])
    ensures var v, vs := Denote(fp, fs[0], depth), DenoteAll(fp, fs[1..], depth);
      DenoteAll(fp, fs, depth) == if v.Some? && vs.Some? then Some([v.value] + vs.value) else None
  {
    hide FormOk, FormText, Denote;
  }

  lemma NoForms(fp: Floats, depth: nat)
    ensures FormsOk([]) && FormsText([]) == [] && DenoteAll(fp, [], depth) == Some([])
    ensures MembersOk([]) && MembersText([]) == [] && DenoteMembers(fp, [], depth) == Some([])
    ensures forall len :: DenoteChunks(fp, [], depth, len) == Some([])
    ensures forall acc :: Build([], acc) == acc
  {
  }

  /** A recursive reading: any form on its own. */
  lemma {:induction false} ReadForm(fp: Floats, f: Form, data: Input, pos: nat, depth: nat)
    requires FormOk(f) && At(data, pos, FormText(f))
    ensures FormReads(fp, data, pos, depth, Denote(fp, f, depth), pos + |FormText(f)|)
    decreases f, 0
  {
    hide *;
    if depth > MAX_NESTING_DEPTH {
      TooDeepForm(fp, f, data, pos, depth, pos + |FormText(f)|);
    } else {
      match f
      case Natural(_, _) => IntRead(fp, f, data, pos, depth);
      case Minus(_, _) => IntRead(fp, f, data, pos, depth);
      case Bin(_, _) => StringRead(fp, f, data, pos, depth);
      case Str(_, _) => StringRead(fp, f, data, pos, depth);
      case Simple(_) => SimpleRead(fp, f, data, pos, depth);
      case SimpleByte(_) => SimpleRead(fp, f, data, pos, depth);
      case Half(_) => SimpleRead(fp, f, data, pos, depth);
      case Single(_) => SimpleRead(fp, f, data, pos, depth);
      case Real(_) => SimpleRead(fp, f, data, pos, depth);
      case Tag(w, u, content) => ReadTag(fp, w, u, content, data, pos, depth);
      case Chunked(text, chunks) => ReadChunked(fp, text, chunks, data, pos, depth);
      case Arr(open, w, items) => ReadArray(fp, open, w, items, data, pos, depth);
      case Dict(open, w, members) => ReadDict(fp, open, w, members, data, pos, depth);
    }
  }

  lemma {:induction false} ReadTag(fp: Floats, w: nat, u: nat, content: Form, data: Input, pos: nat, depth: nat)
    requires FormOk(Tag(w, u, content)) && At(data, pos, FormText(Tag(w, u, content))) && depth <= MAX_NESTING_DEPTH
    ensures var f := Tag(w, u, content); FormReads(fp, data, pos, depth, Denote(fp, f, depth), pos + |FormText(f)|)
    decreases content, 9
  {
    hide *;
    TagParts(fp, w, u, content, depth);
    var head := HeadText(6, w, u);
    AtSplit(data, pos, head, FormText(content));
    HeadRead(6, w, u, data, pos);
    ReadForm(fp, content, data, pos + |head|, depth + 1);
    ContainerStep(fp, data, pos, depth, 6, u, pos + |head|);
    TagClosed(fp, w, u, content, data, pos, pos + |head|, depth, pos + |head| + |FormText(content)|);
  }

  lemma TagParts(fp: Floats, w: nat, u: nat, content: Form, depth: nat)
    requires FormOk(Tag(w, u, content)) && depth <= MAX_NESTING_DEPTH
    ensures ArgOk(w, u) && FormOk(content) && FormText(Tag(w, u, content)) == HeadText(6, w, u) + FormText(content)
    ensures var v := Denote(fp, content, depth + 1);
      Denote(fp, Tag(w, u, content), depth) == if v.None? then None else Some(TagMeaning(fp, u, v.value))
  {
    hide HeadText, TagMeaning;
  }

  lemma TagClosed(fp: Floats, w: nat, u: UInt64, content: Form, data: Input, pos: nat, p: nat, depth: nat, end: nat)
    requires FormOk(Tag(w, u, content)) && FormOk(content) && depth <= MAX_NESTING_DEPTH
    requires FormReads(fp, data, p, depth + 1, Denote(fp, content, depth + 1), end)
    requires Parse(fp, data, pos, depth)
      == match Parse(fp, data, p, depth + 1) case Err(e) => Err(e) case Ok(v, q) => Ok(Tagged(fp, u, v), q)
    ensures FormReads(fp, data, pos, depth, Denote(fp, Tag(w, u, content), depth), end)
  {
    hide FormOk, Parse, Tagged, TagMeaning, Denote, FormText;
    TagParts(fp, w, u, content, depth);
    FormReadsIs(fp, data, p, depth + 1, Denote(fp, content, depth + 1), end);
    if Denote(fp, content, depth + 1).Some? { TagIs(fp, u, Denote(fp, content, depth + 1).value); }
  }

  // ---------- Arrays ----------

  /** The items before a break, or as many as the count says. */
  function Items(fp: Floats, data: Input, pos: nat, open: bool, n: nat, depth: nat, acc: seq<Value>): (r: Parsed<seq<Value>>)
    requires pos <= |data|
  {
    if open then ParseUntilBreak(fp, data, pos, depth, acc) else ParseItems(fp, data, pos, n, depth, acc)
  }

  ghost predicate ItemsRead(fp: Floats, fs: seq<Form>, data: Input, pos: nat, open: bool, depth: nat, acc: seq<Value>, end: nat)
    requires FormsOk(fs) && pos <= |data|
  {
    var vs, r := DenoteAll(fp, fs, depth), Items(fp, data, pos, open, |fs|, depth, acc);
    if vs.None? || (open && |acc| + |fs| > MAX_ARRAY_SIZE) then r.Err?
    else r == Ok(acc + vs.value, if open then end + 1 else end)
  }

  lemma ItemStep(fp: Floats, data: Input, pos: nat, open: bool, n: nat, depth: nat, acc: seq<Value>)
    requires n > 0 && pos < |data| && data[pos] != BREAK
    ensures var r := Parse(fp, data, pos, depth);
      Items(fp, data, pos, open, n, depth, acc)
      == if open && |acc| >= MAX_ARRAY_SIZE then Err(TooLarge)
         else if r.Err? then Err(r.error)
         else Items(fp, data, r.pos, open, n - 1, depth, acc + [r.value])
  {
    hide Parse;
  }

  lemma ItemsEnd(fp: Floats, data: Input, pos: nat, open: bool, depth: nat, acc: seq<Value>)
    requires pos <= |data| && (open ==> pos < |data| && data[pos] == BREAK)
    ensures Items(fp, data, pos, open, 0, depth, acc) == Ok(acc, if open then pos + 1 else pos)
  {
  }

  lemma {:induction false} ReadItems(fp: Floats, fs: seq<Form>, data: Input, pos: nat, open: bool, depth: nat, acc: seq<Value>)
    requires FormsOk(fs) && At(data, pos, FormsText(fs)) && pos + |FormsText(fs)| <= |data|
    requires open ==> At(data, pos + |FormsText(fs)|, [BREAK]) && |acc| <= MAX_ARRAY_SIZE
    ensures pos <= |data| && ItemsRead(fp, fs, data, pos, open, depth, acc, pos + |FormsText(fs)|)
    decreases fs, 1
  {
    hide *;
    if fs == [] {
      NoForms(fp, depth);
      if open { AtHead(data, pos, [BREAK]); }
      ItemsEnd(fp, data, pos, open, depth, acc);
      ItemsNone(fp, data, pos, open, depth, acc);
    } else {
      FormsSplit(fp, fs, depth);
      NoBreak(fs[0]);
      var p := pos + |FormText(fs[0])|;
      AtSplit(data, pos, FormText(fs[0]), FormsText(fs[1..]));
      AtHead(data, pos, FormText(fs[0]));
      ReadForm(fp, fs[0], data, pos, depth);
      FormReadsIs(fp, data, pos, depth, Denote(fp, fs[0], depth), p);
      ItemStep(fp, data, pos, open, |fs|, depth, acc);
      if Denote(fp, fs[0], depth).Some? && !(open && |acc| >= MAX_ARRAY_SIZE) {
        ReadItems(fp, fs[1..], data, p, open, depth, acc + [Denote(fp, fs[0], depth).value]);
      }
      ItemJoined(fp, fs, data, pos, p, open, depth, acc, pos + |FormsText(fs)|);
    }
  }

  lemma ItemsNone(fp: Floats, data: Input, pos: nat, open: bool, depth: nat, acc: seq<Value>)
    requires pos <= |data| && (open ==> |acc| <= MAX_ARRAY_SIZE)
    requires Items(fp, data, pos, open, 0, depth, acc) == Ok(acc, if open then pos + 1 else pos)
    ensures FormsOk([]) && ItemsRead(fp, [], data, pos, open, depth, acc, pos)
  {
    assert acc + [] == acc;
  }

  lemma ItemJoined(fp: Floats, fs: seq<Form>, data: Input, pos: nat, p: nat, open: bool, depth: nat, acc: seq<Value>, end: nat)
    requires fs != [] && FormsOk(fs) && FormOk(fs[0]) && FormsOk(fs[1..]) && pos <= p <= |data|
    requires var v, r := Denote(fp, fs[0], depth), Items(fp, data, pos, open, |fs|, depth, acc);
      if v.None? || (open && |acc| >= MAX_ARRAY_SIZE) then r.Err?
      else r == Items(fp, data, p, open, |fs| - 1, depth, acc + [v.value])
           && ItemsRead(fp, fs[1..], data, p, open, depth, acc + [v.value], end)
    ensures ItemsRead(fp, fs, data, pos, open, depth, acc, end)
  {
    hide FormsOk, FormOk, DenoteAll, Items, Denote, FormsText, FormText;
    FormsSplit(fp, fs, depth);
    var v, vs := Denote(fp, fs[0], depth), DenoteAll(fp, fs[1..], depth);
    if v.Some? && vs.Some? { Regrouped(acc, [v.value], vs.value); }
  }

  lemma {:induction false} ReadArray(fp: Floats, open: bool, w: nat, items: seq<Form>, data: Input, pos: nat, depth: nat)
    requires FormOk(Arr(open, w, items)) && At(data, pos, FormText(Arr(open, w, items))) && depth <= MAX_NESTING_DEPTH
    ensures var f := Arr(open, w, items); FormReads(fp, data, pos, depth, Denote(fp, f, depth), pos + |FormText(f)|)
    decreases items, 2
  {
    hide *;
    ArrayParts(fp, open, w, items, depth);
    var mark: Bytes := [0x9F];
    var head := if open then mark else HeadText(4, w, |items|);
    var p := pos + |head|;
    if open {
      AtSplit(data, pos, mark, FormsText(items) + [BREAK]);
      AtHead(data, pos, mark);
      AtSplit(data, p, FormsText(items), [BREAK]);
      OpenStep(fp, data, pos, depth);
    } else {
      AtSplit(data, pos, head, FormsText(items));
      HeadRead(4, w, |items|, data, pos);
      ContainerStep(fp, data, pos, depth, 4, |items|, p);
    }
    BreakFits(data, p, FormsText(items));
    ReadItems(fp, items, data, p, open, depth + 1, []);
    ItemsAre(fp, data, p, open, |items|, depth + 1, []);
    ArrayClosed(fp, open, w, items, data, pos, p, depth, p + |FormsText(items)|);
  }

  lemma ItemsAre(fp: Floats, data: Input, pos: nat, open: bool, n: nat, depth: nat, acc: seq<Value>)
    requires pos <= |data|
    ensures Items(fp, data, pos, open, n, depth, acc)
         == if open then ParseUntilBreak(fp, data, pos, depth, acc) else ParseItems(fp, data, pos, n, depth, acc)
  {
    hide ParseUntilBreak, ParseItems;
  }

  lemma BreakFits(data: Input, p: nat, text: Bytes)
    requires At(data, p, text)
    ensures p <= |data| && p + |text| <= |data|
    ensures 0 <= MAX_ARRAY_SIZE
  {
  }

  lemma OpenStep(fp: Floats, data: Input, pos: nat, depth: nat)
    requires depth <= MAX_NESTING_DEPTH && pos < |data|
    ensures data[pos] == 0x9F ==>
      Parse(fp, data, pos, depth)
      == match ParseUntilBreak(fp, data, pos + 1, depth + 1, []) case Err(e) => Err(e) case Ok(vs, q) => Ok(Array(vs), q)
    ensures data[pos] == 0xBF ==>
      Parse(fp, data, pos, depth)
      == match ParseEntriesUntilBreak(fp, data, pos + 1, depth + 1, 0, map[]) case Err(e) => Err(e) case Ok(m, q) => Ok(Object(m), q)
    ensures data[pos] == 0x5F || data[pos] == 0x7F ==>
      Parse(fp, data, pos, depth)
      == match ParseChunks(fp, data, pos + 1, depth + 1, [])
         case Err(e) => Err(e)
         case Ok(s, q) => Ok(Leaf(if data[pos] == 0x7F then Text(s, false) else Binary(s)), q)
  {
    hide ParseUntilBreak, ParseEntriesUntilBreak, ParseChunks;
  }

  lemma ArrayParts(fp: Floats, open: bool, w: nat, items: seq<Form>, depth: nat)
    requires FormOk(Arr(open, w, items)) && depth <= MAX_NESTING_DEPTH
    ensures FormsOk(items) && (open || ArgOk(w, |items|))
    ensures FormText(Arr(open, w, items))
         == if open then [0x9F] + (FormsText(items) + [BREAK]) else HeadText(4, w, |items|) + FormsText(items)
    ensures var vs := DenoteAll(fp, items, depth + 1);
      Denote(fp, Arr(open, w, items), depth) == if |items| > MAX_ARRAY_SIZE || vs.None? then None else Some(Array(vs.value))
  {
    hide FormsText, HeadText, DenoteAll, FormsOk, ArgOk;
  }

  lemma ArrayClosed(fp: Floats, open: bool, w: nat, items: seq<Form>, data: Input, pos: nat, p: nat, depth: nat, end: nat)
    requires FormOk(Arr(open, w, items)) && FormsOk(items) && depth <= MAX_NESTING_DEPTH && p <= |data|
    requires ItemsRead(fp, items, data, p, open, depth + 1, [], end)
    requires Parse(fp, data, pos, depth)
      == if !open && |items| > MAX_ARRAY_SIZE then Err(TooLarge)
         else match Items(fp, data, p, open, |items|, depth + 1, []) case Err(e) => Err(e) case Ok(vs, q) => Ok(Array(vs), q)
    ensures FormReads(fp, data, pos, depth, Denote(fp, Arr(open, w, items), depth), if open then end + 1 else end)
  {
    hide FormOk, FormsOk, DenoteAll, Parse, FormText, FormsText, Denote, HeadText, Items;
    ArrayParts(fp, open, w, items, depth);
    var vs := DenoteAll(fp, items, depth + 1);
    if vs.Some? { assert [] + vs.value == vs.value; }
  }

  // ---------- Maps ----------

  function Entries(fp: Floats, data: Input, pos: nat, open: bool, n: nat, depth: nat, count: nat, acc: map<Bytes, Value>)
    : (r: Parsed<map<Bytes, Value>>)
    requires pos <= |data|
  {
    if open then ParseEntriesUntilBreak(fp, data, pos, depth, count, acc) else ParseEntries(fp, data, pos, n, depth, acc)
  }

  ghost predicate MembersRead(fp: Floats, ms: seq<Member>, data: Input, pos: nat, open: bool, depth: nat, count: nat,
                              acc: map<Bytes, Value>, end: nat)
    requires MembersOk(ms) && pos <= |data|
  {
    var ps, r := DenoteMembers(fp, ms, depth), Entries(fp, data, pos, open, |ms|, depth, count, acc);
    if ps.None? || (open && count + |ms| > MAX_OBJECT_SIZE) then r.Err?
    else r == Ok(Build(ps.value, acc), if open then end + 1 else end)
  }

  lemma MembersSplit(fp: Floats, ms: seq<Member>, depth: nat)
    requires ms != [] && MembersOk(ms)
    ensures FormOk(ms[0].key) && FormOk(ms[0].value) && MembersOk(ms[1..])
    ensures MembersText(ms) == FormText(ms[0].key) + (FormText(ms[0].value) + MembersText(ms[1..]))
    ensures var k, v, ps := Denote(fp, ms[0].key, depth), Denote(fp, ms[0].value, depth), DenoteMembers(fp, ms[1..], depth);
      DenoteMembers(fp, ms, depth)
      == if k.Some? && v.Some? && ps.Some? && k.value.Leaf? && k.value.scalar.Text? then Some([(k.value.scalar.text, v.value)] + ps.value)
         else None
  {
    hide FormOk, FormText, Denote;
  }

  /** The pair at the front, or none. */
  lemma PairRead(fp: Floats, data: Input, pos: nat, p: nat, q: nat, depth: nat, k: Option<Value>, v: Option<Value>)
    requires FormReads(fp, data, pos, depth, k, p) && FormReads(fp, data, p, depth, v, q)
    ensures if k.Some? && v.Some? && k.value.Leaf? && k.value.scalar.Text?
            then ParsePair(fp, data, pos, depth) == Ok((k.value.scalar.text, v.value), q)
            else ParsePair(fp, data, pos, depth).Err?
  {
    hide Parse;
  }

  lemma EntryStep(fp: Floats, data: Input, pos: nat, open: bool, n: nat, depth: nat, count: nat, acc: map<Bytes, Value>)
    requires n > 0 && pos < |data| && data[pos] != BREAK
    ensures var r := ParsePair(fp, data, pos, depth);
      Entries(fp, data, pos, open, n, depth, count, acc)
      == if open && count >= MAX_OBJECT_SIZE then Err(TooLarge)
         else if r.Err? then Err(r.error)
         else Entries(fp, data, r.pos, open, n - 1, depth, count + 1, Emplace(acc, r.value.0, r.value.1))
  {
    hide ParsePair, Emplace;
  }

  lemma EntriesEnd(fp: Floats, data: Input, pos: nat, open: bool, depth: nat, count: nat, acc: map<Bytes, Value>)
    requires pos <= |data| && (open ==> pos < |data| && data[pos] == BREAK && count <= MAX_OBJECT_SIZE)
    ensures MembersOk([]) && MembersRead(fp, [], data, pos, open, depth, count, acc, pos)
  {
  }

  lemma {:induction false} ReadMembers(fp: Floats, ms: seq<Member>, data: Input, pos: nat, open: bool, depth: nat, count: nat,
                                       acc: map<Bytes, Value>)
    requires MembersOk(ms) && At(data, pos, MembersText(ms)) && pos + |MembersText(ms)| <= |data|
    requires open ==> At(data, pos + |MembersText(ms)|, [BREAK]) && count <= MAX_OBJECT_SIZE
    ensures pos <= |data| && MembersRead(fp, ms, data, pos, open, depth, count, acc, pos + |MembersText(ms)|)
    decreases ms, 1
  {
    hide *;
    if ms == [] {
      NoForms(fp, depth);
      if open { AtHead(data, pos, [BREAK]); }
      EntriesEnd(fp, data, pos, open, depth, count, acc);
    } else {
      assert ms[0].key < ms[0] && ms[0].value < ms[0];
      MembersSplit(fp, ms, depth);
      var m := ms[0];
      var p := pos + |FormText(m.key)|;
      var q := p + |FormText(m.value)|;
      NoBreak(m.key);
      AtSplit(data, pos, FormText(m.key), FormText(m.value) + MembersText(ms[1..]));
      AtHead(data, pos, FormText(m.key));
      AtSplit(data, p, FormText(m.value), MembersText(ms[1..]));
      BreakFits(data, q, MembersText(ms[1..]));
      ReadForm(fp, m.key, data, pos, depth);
      ReadForm(fp, m.value, data, p, depth);
      var k, v := Denote(fp, m.key, depth), Denote(fp, m.value, depth);
      PairRead(fp, data, pos, p, q, depth, k, v);
      EntryStep(fp, data, pos, open, |ms|, depth, count, acc);
      if k.Some? && v.Some? && k.value.Leaf? && k.value.scalar.Text? && !(open && count >= MAX_OBJECT_SIZE) {
        ReadMembers(fp, ms[1..], data, q, open, depth, count + 1, Emplace(acc, k.value.scalar.text, v.value));
      }
      MemberJoined(fp, ms, data, pos, q, open, depth, count, acc, pos + |MembersText(ms)|);
    }
  }

  lemma MemberJoined(fp: Floats, ms: seq<Member>, data: Input, pos: nat, q: nat, open: bool, depth: nat, count: nat,
                     acc: map<Bytes, Value>, end: nat)
    requires ms != [] && MembersOk(ms) && FormOk(ms[0].key) && FormOk(ms[0].value) && MembersOk(ms[1..]) && pos <= q <= |data|
    requires var k, v, r := Denote(fp, ms[0].key, depth), Denote(fp, ms[0].value, depth),
                            Entries(fp, data, pos, open, |ms|, depth, count, acc);
      if k.Some? && v.Some? && k.value.Leaf? && k.value.scalar.Text? && !(open && count >= MAX_OBJECT_SIZE) then
        var acc' := Emplace(acc, k.value.scalar.text, v.value);
        r == Entries(fp, data, q, open, |ms| - 1, depth, count + 1, acc')
        && MembersRead(fp, ms[1..], data, q, open, depth, count + 1, acc', end)
      else r.Err?
    ensures MembersRead(fp, ms, data, pos, open, depth, count, acc, end)
  {
    hide MembersOk, FormOk, DenoteMembers, Entries, Denote, MembersText, FormText, Build, Emplace;
    MembersSplit(fp, ms, depth);
    var k, v, ps := Denote(fp, ms[0].key, depth), Denote(fp, ms[0].value, depth), DenoteMembers(fp, ms[1..], depth);
    if k.Some? && v.Some? && ps.Some? && k.value.Leaf? && k.value.scalar.Text? {
      FirstPair(k.value.scalar.text, v.value, ps.value, acc);
    }
  }

  lemma {:induction false} ReadDict(fp: Floats, open: bool, w: nat, members: seq<Member>, data: Input, pos: nat, depth: nat)
    requires FormOk(Dict(open, w, members)) && At(data, pos, FormText(Dict(open, w, members))) && depth <= MAX_NESTING_DEPTH
    ensures var f := Dict(open, w, members); FormReads(fp, data, pos, depth, Denote(fp, f, depth), pos + |FormText(f)|)
    decreases members, 2
  {
    hide *;
    DictParts(fp, open, w, members, depth);
    var mark: Bytes := [0xBF];
    var head := if open then mark else HeadText(5, w, |members|);
    var p := pos + |head|;
    if open {
      AtSplit(data, pos, mark, MembersText(members) + [BREAK]);
      AtHead(data, pos, mark);
      AtSplit(data, p, MembersText(members), [BREAK]);
      OpenStep(fp, data, pos, depth);
    } else {
      AtSplit(data, pos, head, MembersText(members));
      HeadRead(5, w, |members|, data, pos);
      ContainerStep(fp, data, pos, depth, 5, |members|, p);
    }
    BreakFits(data, p, MembersText(members));
    NoMembersYet();
    ReadMembers(fp, members, data, p, open, depth + 1, 0, map[]);
    EntriesAre(fp, data, p, open, |members|, depth + 1, 0, map[]);
    DictClosed(fp, open, w, members, data, pos, p, depth, p + |MembersText(members)|);
  }

  lemma NoMembersYet()
    ensures 0 <= MAX_OBJECT_SIZE
  {
  }

  lemma EntriesAre(fp: Floats, data: Input, pos: nat, open: bool, n: nat, depth: nat, count: nat, acc: map<Bytes, Value>)
    requires pos <= |data|
    ensures Entries(fp, data, pos, open, n, depth, count, acc)
         == if open then ParseEntriesUntilBreak(fp, data, pos, depth, count, acc) else ParseEntries(fp, data, pos, n, depth, acc)
  {
    hide ParseEntriesUntilBreak, ParseEntries;
  }

  lemma DictParts(fp: Floats, open: bool, w: nat, members: seq<Member>, depth: nat)
    requires FormOk(Dict(open, w, members)) && depth <= MAX_NESTING_DEPTH
    ensures MembersOk(members) && (open || ArgOk(w, |members|))
    ensures FormText(Dict(open, w, members))
         == if open then [0xBF] + (MembersText(members) + [BREAK]) else HeadText(5, w, |members|) + MembersText(members)
    ensures var ps := DenoteMembers(fp, members, depth + 1);
      Denote(fp, Dict(open, w, members), depth)
      == if |members| > MAX_OBJECT_SIZE || ps.None? then None else Some(Object(Build(ps.value, map[])))
  {
    hide MembersText, HeadText, DenoteMembers, MembersOk, ArgOk, Build;
  }

  lemma DictClosed(fp: Floats, open: bool, w: nat, members: seq<Member>, data: Input, pos: nat, p: nat, depth: nat, end: nat)
    requires FormOk(Dict(open, w, members)) && MembersOk(members) && depth <= MAX_NESTING_DEPTH && p <= |data|
    requires MembersRead(fp, members, data, p, open, depth + 1, 0, map[], end)
    requires Parse(fp, data, pos, depth)
      == if !open && |members| > MAX_OBJECT_SIZE then Err(TooLarge)
         else match Entries(fp, data, p, open, |members|, depth + 1, 0, map[])
              case Err(e) => Err(e)
              case Ok(m, q) => Ok(Object(m), q)
    ensures FormReads(fp, data, pos, depth, Denote(fp, Dict(open, w, members), depth), if open then end + 1 else end)
  {
    hide FormOk, MembersOk, DenoteMembers, Parse, FormText, MembersText, Denote, HeadText, Entries, Build;
    DictParts(fp, open, w, members, depth);
  }

  // ---------- Chunked strings ----------

  lemma ChunkIs(v: Value)
    ensures ChunkOf(v) == ChunkBytes(v)
  {
  }

  lemma ChunkStep(fp: Floats, data: Input, pos: nat, depth: nat, acc: Bytes)
    requires pos < |data| && data[pos] != BREAK
    ensures var r := Parse(fp, data, pos, depth);
      ParseChunks(fp, data, pos, depth, acc)
      == if r.Err? then Err(r.error)
         else match ChunkOf(r.value)
              case None => Err(BadChunk)
              case Some(s) =>
                if |acc| + |s| > MAX_STRING_LEN then Err(TooLarge) else ParseChunks(fp, data, r.pos, depth, acc + s)
  {
    hide Parse, ChunkOf;
  }

  ghost predicate ChunksRead(fp: Floats, fs: seq<Form>, data: Input, pos: nat, depth: nat, acc: Bytes, end: nat)
    requires FormsOk(fs) && pos <= |data|
  {
    match DenoteChunks(fp, fs, depth, |acc|)
    case None => ParseChunks(fp, data, pos, depth, acc).Err?
    case Some(s) => ParseChunks(fp, data, pos, depth, acc) == Ok(acc + s, end)
  }

  lemma ChunksSplit(fp: Floats, fs: seq<Form>, depth: nat, len: nat)
    requires fs != [] && FormsOk(fs)
    ensures FormOk(fs[0]) && FormsOk(fs[1..]) && FormsText(fs) == FormText(fs[0]) + FormsText(fs[1..])
    ensures var v := Denote(fp, fs[0], depth); var s := if v.None? then None else ChunkBytes(v.value);
      DenoteChunks(fp, fs, depth, len)
      == if s.None? || len + |s.value| > MAX_STRING_LEN then None
         else Prepend(s.value, DenoteChunks(fp, fs[1..], depth, len + |s.value|))
  {
    hide FormOk, FormText, Denote, ChunkBytes;
  }

  lemma {:induction false} ReadChunks(fp: Floats, fs: seq<Form>, data: Input, pos: nat, depth: nat, acc: Bytes)
    requires FormsOk(fs) && At(data, pos, FormsText(fs)) && At(data, pos + |FormsText(fs)|, [BREAK]) && pos <= |data|
    ensures ChunksRead(fp, fs, data, pos, depth, acc, pos + |FormsText(fs)| + 1)
    decreases fs, 1
  {
    hide *;
    if fs == [] {
      NoForms(fp, depth);
      AtHead(data, pos, [BREAK]);
      ChunksNone(fp, data, pos, depth, acc);
    } else {
      ChunksSplit(fp, fs, depth, |acc|);
      NoBreak(fs[0]);
      var p := pos + |FormText(fs[0])|;
      AtSplit(data, pos, FormText(fs[0]), FormsText(fs[1..]));
      AtHead(data, pos, FormText(fs[0]));
      BreakFits(data, p, FormsText(fs[1..]));
      ReadForm(fp, fs[0], data, pos, depth);
      var v := Denote(fp, fs[0], depth);
      FormReadsIs(fp, data, pos, depth, v, p);
      ChunkStep(fp, data, pos, depth, acc);
      if v.Some? {
        ChunkIs(v.value);
        var s := ChunkBytes(v.value);
        if s.Some? && |acc| + |s.value| <= MAX_STRING_LEN { ReadChunks(fp, fs[1..], data, p, depth, acc + s.value); }
      }
      ChunkJoined(fp, fs, data, pos, p, depth, acc, pos + |FormsText(fs)| + 1);
    }
  }

  lemma ChunksNone(fp: Floats, data: Input, pos: nat, depth: nat, acc: Bytes)
    requires pos < |data| && data[pos] == BREAK
    ensures FormsOk([]) && ChunksRead(fp, [], data, pos, depth, acc, pos + 1)
  {
    assert acc + [] == acc;
  }

  lemma ChunkJoined(fp: Floats, fs: seq<Form>, data: Input, pos: nat, p: nat, depth: nat, acc: Bytes, end: nat)
    requires fs != [] && FormsOk(fs) && FormOk(fs[0]) && FormsOk(fs[1..]) && pos <= p <= |data|
    requires var v := Denote(fp, fs[0], depth); var s := if v.None? then None else ChunkBytes(v.value);
      if s.None? || |acc| + |s.value| > MAX_STRING_LEN then ParseChunks(fp, data, pos, depth, acc).Err?
      else ParseChunks(fp, data, pos, depth, acc) == ParseChunks(fp, data, p, depth, acc + s.value)
           && ChunksRead(fp, fs[1..], data, p, depth, acc + s.value, end)
    ensures ChunksRead(fp, fs, data, pos, depth, acc, end)
  {
    hide FormsOk, FormOk, DenoteChunks, ParseChunks, Denote, FormsText, FormText, ChunkBytes;
    ChunksSplit(fp, fs, depth, |acc|);
    var v := Denote(fp, fs[0], depth);
    var s := if v.None? then None else ChunkBytes(v.value);
    if s.Some? && |acc| + |s.value| <= MAX_STRING_LEN {
      var rest := DenoteChunks(fp, fs[1..], depth, |acc| + |s.value|);
      if rest.Some? { Regrouped(acc, s.value, rest.value); }
    }
  }

  lemma {:induction false} ReadChunked(fp: Floats, text: bool, chunks: seq<Form>, data: Input, pos: nat, depth: nat)
    requires FormOk(Chunked(text, chunks)) && At(data, pos, FormText(Chunked(text, chunks))) && depth <= MAX_NESTING_DEPTH
    ensures var f := Chunked(text, chunks); FormReads(fp, data, pos, depth, Denote(fp, f, depth), pos + |FormText(f)|)
    decreases chunks, 2
  {
    hide *;
    ChunkedParts(fp, text, chunks, depth);
    var mark: Bytes := [if text then 0x7F else 0x5F];
    AtSplit(data, pos, mark, FormsText(chunks) + [BREAK]);
    AtHead(data, pos, mark);
    AtSplit(data, pos + 1, FormsText(chunks), [BREAK]);
    BreakFits(data, pos + 1, FormsText(chunks));
    OpenStep(fp, data, pos, depth);
    ReadChunks(fp, chunks, data, pos + 1, depth + 1, []);
    ChunkedClosed(fp, text, chunks, data, pos, depth, pos + |FormsText(chunks)| + 2);
  }

  lemma ChunkedParts(fp: Floats, text: bool, chunks: seq<Form>, depth: nat)
    requires FormOk(Chunked(text, chunks)) && depth <= MAX_NESTING_DEPTH
    ensures FormsOk(chunks)
    ensures FormText(Chunked(text, chunks)) == [if text then 0x7F else 0x5F] + (FormsText(chunks) + [BREAK])
    ensures var s := DenoteChunks(fp, chunks, depth + 1, 0);
      Denote(fp, Chunked(text, chunks), depth)
      == if s.None? then None else Some(Leaf(if text then Text(s.value, false) else Binary(s.value)))
  {
    hide FormsText, DenoteChunks, FormsOk;
  }

  lemma ChunkedClosed(fp: Floats, text: bool, chunks: seq<Form>, data: Input, pos: nat, depth: nat, end: nat)
    requires FormOk(Chunked(text, chunks)) && FormsOk(chunks) && depth <= MAX_NESTING_DEPTH && pos < |data|
    requires ChunksRead(fp, chunks, data, pos + 1, depth + 1, [], end)
    requires Parse(fp, data, pos, depth)
      == match ParseChunks(fp, data, pos + 1, depth + 1, [])
         case Err(e) => Err(e)
         case Ok(s, q) => Ok(Leaf(if text then Text(s, false) else Binary(s)), q)
    ensures FormReads(fp, data, pos, depth, Denote(fp, Chunked(text, chunks), depth), end)
  {
    hide FormOk, FormsOk, DenoteChunks, Parse, FormText, FormsText, Denote, ParseChunks;
    ChunkedParts(fp, text, chunks, depth);
    var s := DenoteChunks(fp, chunks, depth + 1, 0);
    if s.Some? { assert [] + s.value == s.value; }
  }

  // ---------- Beyond the formats ----------

  /** The additional information 28, 29 and 30, and 31 where no length can be indefinite, are refused. */
  lemma ReservedInfo(fp: Floats, data: Input, pos: nat, depth: nat)
    requires pos < |data| && 28 <= data[pos] % 32
    requires data[pos] % 32 == 31 ==> data[pos] / 32 in {0, 1, 6, 7}
    ensures Parse(fp, data, pos, depth).Err?
  {
  }
}
