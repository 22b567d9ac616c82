/** MessagePack as its specification allows it to be written: every format at every width, in any nesting. */
module MsgPackFormats {
  import opened Bytes
  import opened Values
  import opened MsgPack
  import opened MsgPackProofs

  // ---------- Formats ----------

  /** Widths are in bytes; zero stands for the format that holds its number in the tag. */
  datatype Form =
    | Nil
    | Flag(flag: bool)
    | Fixed(n: int)
    | Natural(w: nat, u: nat)
    | Whole(w: nat, n: int)
    | Single(bits32: nat)
    | Real(bits: nat)
    | Str(w: nat, text: Bytes)
    | Bin(w: nat, data: Bytes)
    | Seconds(u: nat)
    | Packed(nanos: nat, u: nat)
    | Wide(nanos: nat, n: int)
    | Stamp(n: int)
    | FixExt(t: int, data: Bytes)
    | Ext(w: nat, t: int, data: Bytes)
    | Arr(w: nat, items: seq<Form>)
    | Dict(w: nat, members: seq<Member>)

  datatype Member = Member(key: Form, value: Form)

  /** A key and a value are parts of their member. */
  ghost predicate Parts(m: Member) { m.key < m && m.value < m }

  predicate Signed8(t: int) { -128 <= t < 128 }

  ghost predicate FormOk(f: Form)
    decreases f
  {
    match f
    case Nil => true
    case Flag(_) => true
    case Fixed(n) => -32 <= n < 128
    case Natural(w, u) => w in {1, 2, 4, 8} && u < Pow256(w)
    case Whole(w, n) => w in {1, 2, 4, 8} && 0 - Pow256(w) / 2 <= n < Pow256(w) / 2
    case Single(bits) => bits < TWO_32
    case Real(bits) => bits < TWO_64
    case Str(w, s) => (w == 0 && |s| < 32) || (w in {1, 2, 4} && |s| < Pow256(w))
    case Bin(w, s) => w in {1, 2, 4} && |s| < Pow256(w)
    case Seconds(u) => u < TWO_32
    case Packed(nanos, u) => nanos < 0x4000_0000 && u < TWO_34
    case Wide(nanos, n) => nanos < TWO_32 && -TWO_63 <= n < TWO_63
    case Stamp(n) => -TWO_63 <= n < TWO_63
    case FixExt(t, s) =>
      Signed8(t) && |s| in {1, 2, 4, 8, 16} && !(t == -1 && |s| == 4) && !(|s| == 8 && (t == -1 || t == 3))
    case Ext(w, t, s) =>
      Signed8(t) && w in {1, 2, 4} && |s| < Pow256(w) && !(w == 1 && t == -1 && |s| == 12) && (t == 3 ==> |s| < 8)
    case Arr(w, items) => ((w == 0 && |items| < 16) || (w in {2, 4} && |items| < Pow256(w))) && FormsOk(items)
    case Dict(w, members) => ((w == 0 && |members| < 16) || (w in {2, 4} && |members| < Pow256(w))) && MembersOk(members)
  }

  ghost predicate FormsOk(fs: seq<Form>)
    decreases fs
  {
    fs == [] || (FormOk(fs[0]) && FormsOk(fs[1..]))
  }

  ghost predicate MembersOk(ms: seq<Member>)
    decreases ms
  {
    ms == [] || (assert Parts(ms[0]); FormOk(ms[0].key) && FormOk(ms[0].value) && MembersOk(ms[1..]))
  }

  /** The tag of a width among consecutive tags for 1, 2, 4 and 8 bytes. */
  function Tag(first: Byte, w: nat): (r: Byte)
    requires first < 0xE0
  {
    first + if w == 1 then 0 else if w == 2 then 1 else if w == 4 then 2 else 3
  }

  function Head(fix: Byte, first: Byte, w: nat, n: nat): (r: Bytes)
    requires first < 0xE0 && (w == 0 ==> fix + n < 256)
  {
    if w == 0 then [fix + n] else [Tag(first, w)] + Big(n, w)
  }

  ghost function FormText(f: Form): (r: Bytes)
    requires FormOk(f)
    decreases f, 0
  {
    match f
    case Nil => [0xC0]
    case Flag(flag) => [if flag then 0xC3 else 0xC2]
    case Fixed(n) => [n % 256]
    case Natural(w, u) => [Tag(0xCC, w)] + Big(u, w)
    case Whole(w, n) => [Tag(0xD0, w)] + Big(n % Pow256(w), w)
    case Single(bits) => [0xCA] + Big(bits, 4)
    case Real(bits) => [0xCB] + Big(bits, 8)
    case Str(w, s) => Head(0xA0, 0xD9, w, |s|) + s
    case Bin(w, s) => Head(0, 0xC4, w, |s|) + s
    case Seconds(u) => [0xD6, 0xFF] + Big(u, 4)
    case Packed(nanos, u) => [0xD7, 0xFF] + Big(nanos * TWO_34 + u, 8)
    case Wide(nanos, n) => [0xC7, 12, 0xFF] + (Big(nanos, 4) + Big(n % TWO_64, 8))
    case Stamp(n) => [0xD7, 3] + Big(n % TWO_64, 8)
    case FixExt(t, s) =>
      [if |s| == 1 then 0xD4 else if |s| == 2 then 0xD5 else if |s| == 4 then 0xD6 else if |s| == 8 then 0xD7 else 0xD8, t % 256] + s
    case Ext(w, t, s) => Head(0, 0xC7, w, |s|) + ([t % 256] + s)
    case Arr(w, items) => CountText(0x90, 0xDC, w, |items|) + FormsText(items)
    case Dict(w, members) => CountText(0x80, 0xDE, w, |members|) + MembersText(members)
  }

  function CountText(fix: Byte, wide: Byte, w: nat, n: nat): (r: Bytes)
    requires wide < 0xE0 && (w == 0 ==> fix + n < 256)
    ensures r != []
  {
    if w == 0 then [fix + n] else [if w == 2 then wide else wide + 1] + Big(n, w)
  }

  ghost function FormsText(fs: seq<Form>): (r: Bytes)
    requires FormsOk(fs)
    decreases fs, 1
  {
    if fs == [] then [] else FormText(fs[0]) + FormsText(fs[1..])
  }

  ghost function MembersText(ms: seq<Member>): (r: Bytes)
    requires MembersOk(ms)
    decreases ms, 1
  {
    if ms == [] then []
    else
      assert Parts(ms[0]);
      FormText(ms[0].key) + (FormText(ms[0].value) + MembersText(ms[1..]))
  }

  // ---------- Meaning ----------

  /** What an extension that is counted stands for: type 1 an object id, 2 a regular expression, 3 a timestamp that is too
      short; any other type itself, up to the length limit. */
  function ExtMeaning(t: Int8, s: Bytes): (r: Option<Scalar>)
  {
    if t == 1 then Some(if |s| == 12 then ObjectId(s) else Null)
    else if t == 2 then Some(if s == [] then Null else RegexValue(s))
    else if t == 3 then Some(Null)
    else if |s| > MAX_STRING_LEN then None
    else Some(Extension(t, s))
  }

  /** The scalar a format without parts stands for, if the decoder takes it. */
  function Scalar0(f: Form): (r: Option<Scalar>)
    requires !f.Arr? && !f.Dict? && FormOk(f)
  {
    match f
    case Nil => Some(Null)
    case Flag(flag) => Some(Bool(flag))
    case Fixed(n) => Some(Int(n))
    case Natural(w, u) => Pow256Values(); Some(Int(if u >= TWO_63 then u - TWO_64 else u))
    case Whole(w, n) => Pow256Values(); Some(Int(n))
    case Single(bits) => Some(Float32(bits))
    case Real(bits) => Some(Double(bits))
    case Str(_, s) => if |s| > MAX_STRING_LEN then None else Some(Text(s, false))
    case Bin(_, s) => if |s| > MAX_STRING_LEN then None else Some(Binary(s))
    case Seconds(u) => Some(DateTime(u, 0))
    case Packed(nanos, u) => if nanos >= 1_000_000_000 then None else Some(DateTime(u, nanos / 1_000_000))
    case Wide(nanos, n) => if nanos >= 1_000_000_000 then None else Some(DateTime(n, nanos / 1_000_000))
    case Stamp(n) => Some(Timestamp(n))
    case FixExt(t, s) => Some(Extension(t, s))
    case Ext(_, t, s) => ExtMeaning(t, s)
  }

  ghost function Denote(f: Form, depth: nat): (r: Option<Value>)
    requires FormOk(f)
    decreases f
  {
    if depth > MAX_NESTING_DEPTH then None
    else
      match f
      case Arr(_, items) =>
        if |items| > MAX_ARRAY_SIZE then None
        else (match DenoteAll(items, depth + 1) case None => None case Some(vs) => Some(Array(vs)))
      case Dict(_, members) =>
        if |members| > MAX_ARRAY_SIZE then None
        else (match DenoteMembers(members, depth + 1) case None => None case Some(ps) => Some(Object(Build(ps, map[]))))
      case _ => (match Scalar0(f) case None => None case Some(s) => Some(Leaf(s)))
  }

  ghost function DenoteAll(fs: seq<Form>, depth: nat): (r: Option<seq<Value>>)
    requires FormsOk(fs)
    decreases fs
  {
    if fs == [] then Some([])
    else
      match (Denote(fs[0], depth), DenoteAll(fs[1..], depth))
      case (Some(v), Some(vs)) => Some([v] + vs)
      case _ => None
  }

  /** Keys are strings; of members with one key the first stays. */
  ghost function DenoteMembers(ms: seq<Member>, depth: nat): (r: Option<seq<(Bytes, Value)>>)
    requires MembersOk(ms)
    decreases ms
  {
    if ms == [] then Some([])
    else
      assert Parts(ms[0]);
      match (Denote(ms[0].key, depth), Denote(ms[0].value, depth), DenoteMembers(ms[1..], depth))
      case (Some(k), Some(v), Some(ps)) => if k.Leaf? && k.scalar.Text? then Some([(k.scalar.text, v)] + ps) else None
      case _ => None
  }

  // ---------- Formats without parts ----------

  ghost predicate Gives(r: Parsed<Value>, s: Option<Scalar>, end: nat)
  {
    match s case None => r.Err? case Some(x) => r == Ok(Leaf(x), end)
  }

  ghost predicate FlatGives(data: Bytes, pos: nat, s: Option<Scalar>, end: nat)
  {
    pos < |data| && !IsArrayTag(data[pos]) && !IsMapTag(data[pos]) && Gives(ParseFlat(data, pos + 1, data[pos]), s, end)
  }

  /** A tag and a number behind it. */
  lemma TaggedAt(tag: Byte, n: nat, w: nat, data: Bytes, pos: nat)
    requires w <= 8 && n < Pow256(w) && At(data, pos, [tag] + Big(n, w))
    ensures pos < |data| && data[pos] == tag && ReadWide(data, pos + 1, w) == Ok(n, pos + 1 + w)
  {
    AtSplit(data, pos, [tag], Big(n, w));
    AtHead(data, pos, [tag]);
    BigRead(n, w, data, pos + 1);
  }

  lemma SimpleRead(f: Form, data: Bytes, pos: nat)
    requires FormOk(f) && (f.Nil? || f.Flag? || f.Fixed?) && At(data, pos, FormText(f))
    ensures FlatGives(data, pos, Scalar0(f), pos + |FormText(f)|)
  {
    AtHead(data, pos, FormText(f));
  }

  lemma IntegerRead(f: Form, data: Bytes, pos: nat)
    requires FormOk(f) && (f.Natural? || f.Whole?) && At(data, pos, FormText(f))
    ensures FlatGives(data, pos, Scalar0(f), pos + |FormText(f)|)
  {
    hide ReadWide, Big, Pow256, Gives, ParseFlat;
    Pow256Values();
    match f
    case Natural(w, u) =>
      TaggedAt(Tag(0xCC, w), u, w, data, pos);
      IntegerStep(data, pos, w, false, u);
    case Whole(w, n) =>
      Residue(n, Pow256(w));
      TaggedAt(Tag(0xD0, w), n % Pow256(w), w, data, pos);
      IntegerStep(data, pos, w, true, n % Pow256(w));
  }

  lemma IntegerStep(data: Bytes, pos: nat, w: nat, signed: bool, u: nat)
    requires w in {1, 2, 4, 8} && u < Pow256(w) && pos < |data| && data[pos] == Tag(if signed then 0xD0 else 0xCC, w)
    requires ReadWide(data, pos + 1, w) == Ok(u, pos + 1 + w)
    ensures var n := if signed || w == 8 then Signed(u, Pow256(w)) else u;
      -TWO_63 <= n < TWO_63 && Gives(ParseFlat(data, pos + 1, data[pos]), Some(Int(n)), pos + 1 + w)
  {
    hide ReadWide;
    Pow256Values();
  }

  lemma RealRead(f: Form, data: Bytes, pos: nat)
    requires FormOk(f) && (f.Single? || f.Real?) && At(data, pos, FormText(f))
    ensures FlatGives(data, pos, Scalar0(f), pos + |FormText(f)|)
  {
    hide ReadWide, Big, Pow256;
    Pow256Values();
    match f
    case Single(bits) => TaggedAt(0xCA, bits, 4, data, pos);
    case Real(bits) => TaggedAt(0xCB, bits, 8, data, pos);
  }

  /** Counted bytes behind a head of any width. */
  lemma CountedRead(first: Byte, w: nat, s: Bytes, data: Bytes, pos: nat)
    requires first < 0xE0 && w in {1, 2, 4} && |s| < Pow256(w) && At(data, pos, ([Tag(first, w)] + Big(|s|, w)) + s)
    ensures pos < |data| && data[pos] == Tag(first, w)
    ensures var r := TakeCounted(data, pos + 1, w);
      if |s| > MAX_STRING_LEN then r.Err? else r == Ok(s, pos + 1 + w + |s|)
  {
    hide ReadWide, Big, Pow256;
    AtSplit(data, pos, [Tag(first, w)] + Big(|s|, w), s);
    TaggedAt(Tag(first, w), |s|, w, data, pos);
    TakeAt(data, pos + 1 + w, s, |s|);
  }

  lemma StringRead(f: Form, data: Bytes, pos: nat)
    requires FormOk(f) && (f.Str? || f.Bin?) && At(data, pos, FormText(f))
    ensures FlatGives(data, pos, Scalar0(f), pos + |FormText(f)|)
  {
    hide TakeCounted, Take, Big, Pow256;
    match f
    case Str(w, s) =>
      if w == 0 {
        AtSplit(data, pos, [0xA0 + |s|], s);
        AtHead(data, pos, [0xA0 + |s|]);
        TakeAt(data, pos + 1, s, |s|);
      } else {
        CountedRead(0xD9, w, s, data, pos);
      }
    case Bin(w, s) => CountedRead(0xC4, w, s, data, pos);
  }

  lemma FixedExt(t: Int8, s: Bytes, tag: Byte, data: Bytes, pos: nat)
    requires |s| in {1, 2, 4, 8, 16} && At(data, pos, [tag, t % 256] + s)
    ensures pos + 2 + |s| <= |data| && data[pos] == tag && Signed(data[pos + 1], 256) == t && data[pos + 2..pos + 2 + |s|] == s
  {
    AtSplit(data, pos, [tag, t % 256], s);
    AtHead(data, pos, [tag, t % 256]);
    AtHead(data, pos + 1, [tag, t % 256][1..]);
  }

  lemma FixedExtRead(f: Form, data: Bytes, pos: nat)
    requires FormOk(f) && (f.FixExt? || f.Seconds?) && At(data, pos, FormText(f))
    ensures FlatGives(data, pos, Scalar0(f), pos + |FormText(f)|)
  {
    hide Big, FromBigEndian, Pow256;
    Pow256Values();
    match f
    case FixExt(t, s) => FixedExt(t, s, FormText(f)[0], data, pos);
    case Seconds(u) =>
      BigWhole(u, 4);
      FixedExt(-1, Big(u, 4), 0xD6, data, pos);
  }

  lemma WordExtRead(f: Form, data: Bytes, pos: nat)
    requires FormOk(f) && (f.Packed? || f.Stamp?) && At(data, pos, FormText(f))
    ensures FlatGives(data, pos, Scalar0(f), pos + |FormText(f)|)
  {
    hide Big, FromBigEndian, Pow256;
    Pow256Values();
    match f
    case Packed(nanos, u) =>
      PackedParts(nanos, u);
      BigWhole(nanos * TWO_34 + u, 8);
      FixedExt(-1, Big(nanos * TWO_34 + u, 8), 0xD7, data, pos);
    case Stamp(n) =>
      BigWhole(n % TWO_64, 8);
      Residue(n, TWO_64);
      FixedExt(3, Big(n % TWO_64, 8), 0xD7, data, pos);
  }

  lemma PackedParts(nanos: nat, u: nat)
    requires nanos < 0x4000_0000 && u < TWO_34
    ensures nanos * TWO_34 + u < TWO_64 && (nanos * TWO_34 + u) / TWO_34 == nanos && (nanos * TWO_34 + u) % TWO_34 == u
  {
  }

  lemma ExtAt(w: nat, t: Int8, s: Bytes, data: Bytes, pos: nat)
    requires w in {1, 2, 4} && |s| < Pow256(w) && At(data, pos, ([Tag(0xC7, w)] + Big(|s|, w)) + ([t % 256] + s))
    ensures pos < |data| && data[pos] == Tag(0xC7, w)
    ensures var p := pos + 2 + w;
      p + |s| <= |data| && data[p..p + |s|] == s && ReadExt(data, pos + 1, w) == ExtValue(data, p, |s|, t, w == 1)
  {
    hide ReadWide, Big, ExtValue, Pow256;
    var head := [Tag(0xC7, w)] + Big(|s|, w);
    AtSplit(data, pos, head, [t % 256] + s);
    TaggedAt(Tag(0xC7, w), |s|, w, data, pos);
    AtSplit(data, pos + 1 + w, [t % 256], s);
    AtHead(data, pos + 1 + w, [t % 256]);
    assert Signed(t % 256, 256) == t;
  }

  lemma ExtRead(f: Form, data: Bytes, pos: nat)
    requires FormOk(f) && f.Ext? && At(data, pos, FormText(f))
    ensures FlatGives(data, pos, Scalar0(f), pos + |FormText(f)|)
  {
    hide ReadExt, Big, RegexValue, Pow256, FromBigEndian;
    ExtAt(f.w, f.t, f.data, data, pos);
    assert |FormText(f)| == 2 + f.w + |f.data|;
  }

  lemma WideStampRead(f: Form, data: Bytes, pos: nat)
    requires FormOk(f) && f.Wide? && At(data, pos, FormText(f))
    ensures FlatGives(data, pos, Scalar0(f), pos + |FormText(f)|)
  {
    hide Big, Pow256, FromBigEndian, ReadExt, ExtValue;
    Pow256Values();
    var s := Big(f.nanos, 4) + Big(f.n % TWO_64, 8);
    TwelveIs();
    assert ([Tag(0xC7, 1)] + Big(12, 1)) + ([(-1) % 256] + s) == FormText(f);
    ExtAt(1, -1, s, data, pos);
    assert s[..4] == Big(f.nanos, 4) && s[4..] == Big(f.n % TWO_64, 8);
    BigWhole(f.nanos, 4);
    BigWhole(f.n % TWO_64, 8);
    Residue(f.n, TWO_64);
    StampValue(data, pos + 3, s);
  }

  lemma TwelveIs()
    ensures Big(12, 1) == [12]
  {
  }

  lemma StampValue(data: Bytes, pos: nat, s: Bytes)
    requires |s| == 12 && pos + 12 <= |data| && data[pos..pos + 12] == s
    ensures FromBigEndian(s[..4]) < TWO_32 && FromBigEndian(s[4..]) < TWO_64
    ensures ExtValue(data, pos, 12, -1, true)
         == if FromBigEndian(s[..4]) >= NANOS then Err(BadDateTime)
            else Ok(Leaf(DateTime(ToI64(FromBigEndian(s[4..])), FromBigEndian(s[..4]) / 1_000_000)), pos + 12)
  {
    hide FromBigEndian;
    FromBigEndianBound(s[..4]);
    FromBigEndianBound(s[4..]);
    Pow256Values();
  }

  lemma ScalarRead(f: Form, data: Bytes, pos: nat)
    requires FormOk(f) && !f.Arr? && !f.Dict? && At(data, pos, FormText(f))
    ensures FlatGives(data, pos, Scalar0(f), pos + |FormText(f)|)
  {
    hide *;
    match f
    case Nil => SimpleRead(f, data, pos);
    case Flag(_) => SimpleRead(f, data, pos);
    case Fixed(_) => SimpleRead(f, data, pos);
    case Natural(_, _) => IntegerRead(f, data, pos);
    case Whole(_, _) => IntegerRead(f, data, pos);
    case Single(_) => RealRead(f, data, pos);
    case Real(_) => RealRead(f, data, pos);
    case Str(_, _) => StringRead(f, data, pos);
    case Bin(_, _) => StringRead(f, data, pos);
    case Seconds(_) => FixedExtRead(f, data, pos);
    case Packed(_, _) => WordExtRead(f, data, pos);
    case Stamp(_) => WordExtRead(f, data, pos);
    case FixExt(_, _) => FixedExtRead(f, data, pos);
    case Ext(_, _, _) => ExtRead(f, data, pos);
    case Wide(_, _) => WideStampRead(f, data, pos);
  }

  // ---------- Arrays and maps ----------

  ghost predicate FormReads(data: Bytes, pos: nat, depth: nat, v: Option<Value>, end: nat)
  {
    match v case None => Parse(data, pos, depth).Err? case Some(x) => Parse(data, pos, depth) == Ok(x, end)
  }

  lemma FlatStep(data: Bytes, pos: nat, depth: nat, s: Option<Scalar>, end: nat)
    requires depth <= MAX_NESTING_DEPTH && FlatGives(data, pos, s, end)
    ensures FormReads(data, pos, depth, match s case None => None case Some(x) => Some(Leaf(x)), end)
  {
    hide Parse, ParseFlat;
    StepFlat(data, pos, depth);
  }

  /** The count behind a container tag of any width. */
  lemma CountRead(fix: Byte, wide: Byte, w: nat, n: nat, data: Bytes, pos: nat)
    requires (fix == 0x90 && wide == 0xDC) || (fix == 0x80 && wide == 0xDE)
    requires (w == 0 && n < 16) || (w in {2, 4} && n < Pow256(w))
    requires At(data, pos, CountText(fix, wide, w, n))
    ensures pos < |data| && (if fix == 0x90 then IsArrayTag(data[pos]) else !IsArrayTag(data[pos]) && IsMapTag(data[pos]))
    ensures var r := ReadCount(data, pos + 1, data[pos]);
      if n > MAX_ARRAY_SIZE then r.Err? else r == Ok(n, pos + |CountText(fix, wide, w, n)|)
  {
    hide ReadWide, Big, Pow256;
    Pow256Values();
    if w == 0 { AtHead(data, pos, [fix + n]); } else { TaggedAt(if w == 2 then wide else wide + 1, n, w, data, pos); }
  }

  lemma {:induction false} ReadForm(f: Form, data: Bytes, pos: nat, depth: nat)
    requires FormOk(f) && At(data, pos, FormText(f))
    ensures FormReads(data, pos, depth, Denote(f, depth), pos + |FormText(f)|)
    decreases f, 0
  {
    hide *;
    if depth > MAX_NESTING_DEPTH {
      TooDeepForm(f, data, pos, depth);
    } else {
      match f
      case Arr(w, items) => ReadArray(w, items, data, pos, depth);
      case Dict(w, members) => ReadDict(w, members, data, pos, depth);
      case _ => ReadScalar(f, data, pos, depth);
    }
  }

  lemma TooDeepForm(f: Form, data: Bytes, pos: nat, depth: nat)
    requires FormOk(f) && depth > MAX_NESTING_DEPTH
    ensures FormReads(data, pos, depth, Denote(f, depth), pos + |FormText(f)|)
  {
    hide FormText, FormOk;
    StepTooDeep(data, pos, depth);
  }

  lemma ReadScalar(f: Form, data: Bytes, pos: nat, depth: nat)
    requires FormOk(f) && !f.Arr? && !f.Dict? && At(data, pos, FormText(f)) && depth <= MAX_NESTING_DEPTH
    ensures FormReads(data, pos, depth, Denote(f, depth), pos + |FormText(f)|)
  {
    hide FormText, Parse, FormOk, FlatGives, Scalar0;
    ScalarRead(f, data, pos);
    FlatStep(data, pos, depth, Scalar0(f), pos + |FormText(f)|);
  }

  ghost predicate ItemsRead(fs: seq<Form>, data: Bytes, pos: nat, depth: nat, acc: seq<Value>, end: nat)
    requires FormsOk(fs)
  {
    match DenoteAll(fs, depth)
    case None => ParseItems(data, pos, |fs|, depth, acc).Err?
    case Some(vs) => ParseItems(data, pos, |fs|, depth, acc) == Ok(acc + vs, end)
  }

  lemma FormsSplit(fs: seq<Form>, depth: nat)
    requires fs != [] && FormsOk(fs)
    ensures FormOk(fs[0]) && FormsOk(fs[1..]) && FormsText(fs) == FormText(fs[0]) + FormsText(fs[1..])
    ensures var v, vs := Denote(fs[0], depth), DenoteAll(fs[1..], depth);
      DenoteAll(fs, depth) == if v.Some? && vs.Some? then Some([v.value] + vs.value) else None
  {
    hide FormOk, FormText, Denote;
  }

  lemma ItemStep(data: Bytes, pos: nat, n: nat, depth: nat, acc: seq<Value>)
    requires n > 0
    ensures var r := Parse(data, pos, depth);
      ParseItems(data, pos, n, depth, acc)
      == if r.Err? then Err(r.error) else ParseItems(data, r.pos, n - 1, depth, acc + [r.value])
  {
    hide Parse;
  }

  lemma {:induction false} ReadItems(fs: seq<Form>, data: Bytes, pos: nat, depth: nat, acc: seq<Value>)
    requires FormsOk(fs) && At(data, pos, FormsText(fs))
    ensures ItemsRead(fs, data, pos, depth, acc, pos + |FormsText(fs)|)
    decreases fs, 1
  {
    hide *;
    if fs == [] {
      NoForms(data, pos, depth, acc);
    } else {
      FormsSplit(fs, depth);
      var p := pos + |FormText(fs[0])|;
      AtSplit(data, pos, FormText(fs[0]), FormsText(fs[1..]));
      ReadForm(fs[0], data, pos, depth);
      ItemStep(data, pos, |fs|, depth, acc);
      FormReadsIs(data, pos, depth, Denote(fs[0], depth), p);
      if Denote(fs[0], depth).Some? { ReadItems(fs[1..], data, p, depth, acc + [Denote(fs[0], depth).value]); }
      ItemJoined(fs, data, pos, p, depth, acc, pos + |FormsText(fs)|);
    }
  }

  lemma NoForms(data: Bytes, pos: nat, depth: nat, acc: seq<Value>)
    ensures FormsOk([]) && FormsText([]) == [] && ItemsRead([], data, pos, depth, acc, pos)
  {
    assert acc + [] == acc;
  }

  lemma FormReadsIs(data: Bytes, pos: nat, depth: nat, v: Option<Value>, end: nat)
    requires FormReads(data, pos, depth, v, end)
    ensures v.None? ==> Parse(data, pos, depth).Err?
    ensures v.Some? ==> Parse(data, pos, depth) == Ok(v.value, end)
  {
    hide Parse;
  }

  lemma ItemJoined(fs: seq<Form>, data: Bytes, pos: nat, p: nat, depth: nat, acc: seq<Value>, end: nat)
    requires fs != [] && FormsOk(fs) && FormOk(fs[0]) && FormsOk(fs[1..])
    requires var v := Denote(fs[0], depth);
      if v.None? then ParseItems(data, pos, |fs|, depth, acc).Err?
      else ParseItems(data, pos, |fs|, depth, acc) == ParseItems(data, p, |fs| - 1, depth, acc + [v.value])
           && ItemsRead(fs[1..], data, p, depth, acc + [v.value], end)
    ensures ItemsRead(fs, data, pos, depth, acc, end)
  {
    hide FormsOk, FormOk, DenoteAll, ParseItems, Denote, FormsText, FormText;
    FormsSplit(fs, depth);
    var v, vs := Denote(fs[0], depth), DenoteAll(fs[1..], depth);
    if v.Some? && vs.Some? { Regrouped(acc, [v.value], vs.value); }
  }

  lemma {:induction false} ReadArray(w: nat, items: seq<Form>, data: Bytes, pos: nat, depth: nat)
    requires FormOk(Arr(w, items)) && At(data, pos, FormText(Arr(w, items))) && depth <= MAX_NESTING_DEPTH
    ensures FormReads(data, pos, depth, Denote(Arr(w, items), depth), pos + |FormText(Arr(w, items))|)
    decreases items, 2
  {
    hide *;
    ArrayIs(w, items, depth);
    var head := CountText(0x90, 0xDC, w, |items|);
    AtSplit(data, pos, head, FormsText(items));
    CountRead(0x90, 0xDC, w, |items|, data, pos);
    StepArray(data, pos, depth);
    ReadItems(items, data, pos + |head|, depth + 1, []);
    ArrayClosed(w, items, data, pos, pos + |head|, depth, pos + |head| + |FormsText(items)|);
  }

  lemma ArrayIs(w: nat, items: seq<Form>, depth: nat)
    requires FormOk(Arr(w, items)) && depth <= MAX_NESTING_DEPTH
    ensures FormsOk(items) && ((w == 0 && |items| < 16) || (w in {2, 4} && |items| < Pow256(w)))
    ensures FormText(Arr(w, items)) == CountText(0x90, 0xDC, w, |items|) + FormsText(items)
    ensures var vs := DenoteAll(items, depth + 1);
      Denote(Arr(w, items), depth) == if |items| > MAX_ARRAY_SIZE || vs.None? then None else Some(Array(vs.value))
  {
    hide FormsText, CountText, DenoteAll, FormsOk;
  }

  lemma ArrayClosed(w: nat, items: seq<Form>, data: Bytes, pos: nat, p: nat, depth: nat, end: nat)
    requires FormOk(Arr(w, items)) && FormsOk(items) && depth <= MAX_NESTING_DEPTH
    requires ItemsRead(items, data, p, depth + 1, [], end)
    requires pos < |data| && (IsArrayTag(data[pos]) || IsMapTag(data[pos]))
    requires var r := ReadCount(data, pos + 1, data[pos]); if |items| > MAX_ARRAY_SIZE then r.Err? else r == Ok(|items|, p)
    requires Parse(data, pos, depth)
      == match ReadCount(data, pos + 1, data[pos])
         case Err(e) => Err(e)
         case Ok(n, q) =>
           match ParseItems(data, q, n, depth + 1, [])
           case Err(e) => Err(e)
           case Ok(vs, q2) => Ok(Array(vs), q2)
    ensures FormReads(data, pos, depth, Denote(Arr(w, items), depth), end)
  {
    hide FormOk, FormsOk, DenoteAll, ParseItems, Parse, FormText, FormsText, Denote, CountText, ReadCount;
    ArrayIs(w, items, depth);
    var vs := DenoteAll(items, depth + 1);
    if vs.Some? { assert [] + vs.value == vs.value; }
  }

  // ---------- Members ----------

  ghost predicate MembersRead(ms: seq<Member>, data: Bytes, pos: nat, depth: nat, acc: map<Bytes, Value>, end: nat)
    requires MembersOk(ms)
  {
    match DenoteMembers(ms, depth)
    case None => ParseEntries(data, pos, |ms|, depth, acc).Err?
    case Some(ps) => ParseEntries(data, pos, |ms|, depth, acc) == Ok(Build(ps, acc), end)
  }

  lemma MembersSplit(ms: seq<Member>, depth: nat)
    requires ms != [] && MembersOk(ms)
    ensures FormOk(ms[0].key) && FormOk(ms[0].value) && MembersOk(ms[1..])
    ensures MembersText(ms) == FormText(ms[0].key) + (FormText(ms[0].value) + MembersText(ms[1..]))
    ensures var k, v, ps := Denote(ms[0].key, depth), Denote(ms[0].value, depth), DenoteMembers(ms[1..], depth);
      DenoteMembers(ms, depth)
      == if k.Some? && v.Some? && ps.Some? && k.value.Leaf? && k.value.scalar.Text? then Some([(k.value.scalar.text, v.value)] + ps.value)
         else None
  {
    hide FormOk, FormText, Denote;
  }

  /** The pair at the front, or none. */
  lemma PairRead(data: Bytes, pos: nat, p: nat, q: nat, depth: nat, k: Option<Value>, v: Option<Value>)
    requires FormReads(data, pos, depth, k, p) && FormReads(data, p, depth, v, q)
    ensures if k.Some? && v.Some? && k.value.Leaf? && k.value.scalar.Text?
            then ParsePair(data, pos, depth) == Ok((k.value.scalar.text, v.value), q)
            else ParsePair(data, pos, depth).Err?
  {
    hide Parse;
  }

  lemma EntryStep(data: Bytes, pos: nat, n: nat, depth: nat, acc: map<Bytes, Value>)
    requires n > 0
    ensures var r := ParsePair(data, pos, depth);
      ParseEntries(data, pos, n, depth, acc)
      == if r.Err? then Err(r.error) else ParseEntries(data, r.pos, n - 1, depth, Emplace(acc, r.value.0, r.value.1))
  {
    hide ParsePair, Emplace;
  }

  lemma {:induction false} ReadMembers(ms: seq<Member>, data: Bytes, pos: nat, depth: nat, acc: map<Bytes, Value>)
    requires MembersOk(ms) && At(data, pos, MembersText(ms))
    ensures MembersRead(ms, data, pos, depth, acc, pos + |MembersText(ms)|)
    decreases ms, 1
  {
    hide *;
    if ms == [] {
      NoMembers(data, pos, depth, acc);
    } else {
      assert ms[0].key < ms[0] && ms[0].value < ms[0];
      MembersSplit(ms, depth);
      var m := ms[0];
      var p := pos + |FormText(m.key)|;
      var q := p + |FormText(m.value)|;
      AtSplit(data, pos, FormText(m.key), FormText(m.value) + MembersText(ms[1..]));
      AtSplit(data, p, FormText(m.value), MembersText(ms[1..]));
      ReadForm(m.key, data, pos, depth);
      ReadForm(m.value, data, p, depth);
      PairRead(data, pos, p, q, depth, Denote(m.key, depth), Denote(m.value, depth));
      EntryStep(data, pos, |ms|, depth, acc);
      var k, v := Denote(m.key, depth), Denote(m.value, depth);
      if k.Some? && v.Some? && k.value.Leaf? && k.value.scalar.Text? {
        ReadMembers(ms[1..], data, q, depth, Emplace(acc, k.value.scalar.text, v.value));
      }
      MemberJoined(ms, data, pos, q, depth, acc, pos + |MembersText(ms)|);
    }
  }

  lemma NoMembers(data: Bytes, pos: nat, depth: nat, acc: map<Bytes, Value>)
    ensures MembersOk([]) && MembersText([]) == [] && MembersRead([], data, pos, depth, acc, pos)
  {
  }

  lemma MemberJoined(ms: seq<Member>, data: Bytes, pos: nat, q: nat, depth: nat, acc: map<Bytes, Value>, end: nat)
    requires ms != [] && MembersOk(ms) && FormOk(ms[0].key) && FormOk(ms[0].value) && MembersOk(ms[1..])
    requires var k, v := Denote(ms[0].key, depth), Denote(ms[0].value, depth);
      if k.Some? && v.Some? && k.value.Leaf? && k.value.scalar.Text? then
        var acc' := Emplace(acc, k.value.scalar.text, v.value);
        ParseEntries(data, pos, |ms|, depth, acc) == ParseEntries(data, q, |ms| - 1, depth, acc')
        && MembersRead(ms[1..], data, q, depth, acc', end)
      else ParseEntries(data, pos, |ms|, depth, acc).Err?
    ensures MembersRead(ms, data, pos, depth, acc, end)
  {
    hide MembersOk, FormOk, DenoteMembers, ParseEntries, Denote, MembersText, FormText, Build, Emplace;
    MembersSplit(ms, depth);
    var k, v, ps := Denote(ms[0].key, depth), Denote(ms[0].value, depth), DenoteMembers(ms[1..], depth);
    if k.Some? && v.Some? && ps.Some? && k.value.Leaf? && k.value.scalar.Text? {
      Values.FirstPair(k.value.scalar.text, v.value, ps.value, acc);
    }
  }

  lemma {:induction false} ReadDict(w: nat, members: seq<Member>, data: Bytes, pos: nat, depth: nat)
    requires FormOk(Dict(w, members)) && At(data, pos, FormText(Dict(w, members))) && depth <= MAX_NESTING_DEPTH
    ensures FormReads(data, pos, depth, Denote(Dict(w, members), depth), pos + |FormText(Dict(w, members))|)
    decreases members, 2
  {
    hide *;
    DictIs(w, members, depth);
    var head := CountText(0x80, 0xDE, w, |members|);
    AtSplit(data, pos, head, MembersText(members));
    CountRead(0x80, 0xDE, w, |members|, data, pos);
    StepMap(data, pos, depth);
    ReadMembers(members, data, pos + |head|, depth + 1, map[]);
    DictClosed(w, members, data, pos, pos + |head|, depth, pos + |head| + |MembersText(members)|);
  }

  lemma DictIs(w: nat, members: seq<Member>, depth: nat)
    requires FormOk(Dict(w, members)) && depth <= MAX_NESTING_DEPTH
    ensures MembersOk(members) && ((w == 0 && |members| < 16) || (w in {2, 4} && |members| < Pow256(w)))
    ensures FormText(Dict(w, members)) == CountText(0x80, 0xDE, w, |members|) + MembersText(members)
    ensures var ps := DenoteMembers(members, depth + 1);
      Denote(Dict(w, members), depth)
      == if |members| > MAX_ARRAY_SIZE || ps.None? then None else Some(Object(Build(ps.value, map[])))
  {
    hide MembersText, CountText, DenoteMembers, MembersOk, Build;
  }

  lemma DictClosed(w: nat, members: seq<Member>, data: Bytes, pos: nat, p: nat, depth: nat, end: nat)
    requires FormOk(Dict(w, members)) && MembersOk(members) && depth <= MAX_NESTING_DEPTH
    requires MembersRead(members, data, p, depth + 1, map[], end)
    requires pos < |data| && (IsArrayTag(data[pos]) || IsMapTag(data[pos]))
    requires var r := ReadCount(data, pos + 1, data[pos]); if |members| > MAX_ARRAY_SIZE then r.Err? else r == Ok(|members|, p)
    requires Parse(data, pos, depth)
      == match ReadCount(data, pos + 1, data[pos])
         case Err(e) => Err(e)
         case Ok(n, q) =>
           match ParseEntries(data, q, n, depth + 1, map[])
           case Err(e) => Err(e)
           case Ok(m, q2) => Ok(Object(m), q2)
    ensures FormReads(data, pos, depth, Denote(Dict(w, members), depth), end)
  {
    hide FormOk, MembersOk, DenoteMembers, ParseEntries, Parse, FormText, MembersText, Denote, CountText, ReadCount, Build;
    DictIs(w, members, depth);
  }

  // ---------- The shortest format ----------

  lemma CountedLengths(f: Form)
    requires FormOk(f) && (f.Str? || f.Bin? || f.Ext?)
    ensures f.Str? ==> |StrHead(|f.text|)| + |f.text| <= |FormText(f)|
    ensures f.Bin? ==> |BinHead(|f.data|)| + |f.data| <= |FormText(f)|
    ensures f.Ext? ==> |ExtBytes(f.t, f.data)| <= |FormText(f)|
  {
    hide Big, BigEndian;
    Pow256Values();
  }

  lemma NumberLengths(f: Form)
    requires FormOk(f) && (f.Natural? || f.Whole? || f.Fixed?)
    ensures var s := Scalar0(f).value; s.Int? && |IntBytes(s.num)| <= |FormText(f)|
  {
    hide Big, BigEndian;
    Pow256Values();
  }

  lemma StampLengths(f: Form)
    requires FormOk(f) && (f.Seconds? || f.Packed? || f.Wide?) && Scalar0(f).Some?
    ensures var s := Scalar0(f).value; s.DateTime? && |DateTimeBytes(s.timestamp, s.ms)| <= |FormText(f)|
  {
    hide Big, BigEndian;
  }

  /** The encoder writes no scalar longer than any format that stands for it. */
  lemma ShortestWritten(f: Form)
    requires FormOk(f) && !f.Arr? && !f.Dict? && Scalar0(f).Some? && !Scalar0(f).value.Regex?
    ensures |EncodeScalar(Scalar0(f).value)| <= |FormText(f)|
  {
    hide Big, BigEndian, IntBytes, StrHead, BinHead, ExtBytes, DateTimeBytes;
    if f.Str? || f.Bin? || f.Ext? { CountedLengths(f); }
    if f.Natural? || f.Whole? || f.Fixed? { NumberLengths(f); }
    if f.Seconds? || f.Packed? || f.Wide? { StampLengths(f); }
    if f.FixExt? { FixedLength(f.t, f.data); }
  }

  lemma FixedLength(t: Int8, s: Bytes)
    requires |s| in {1, 2, 4, 8, 16}
    ensures |ExtBytes(t, s)| == 2 + |s|
  {
  }

  /** And no count either. */
  lemma ShortestCount(fix: Byte, wide: Byte, w: nat, n: nat)
    requires (fix == 0x90 && wide == 0xDC) || (fix == 0x80 && wide == 0xDE)
    requires (w == 0 && n < 16) || (w in {2, 4} && n < Pow256(w))
    ensures |CountHead(fix, wide, n)| <= |CountText(fix, wide, w, n)|
  {
    Pow256Values();
  }

  // ---------- Beyond the formats ----------

  /** A counted timestamp of more than eight bytes is read from the first eight, and reading goes on right behind those. */
  lemma LongStamp(w: nat, s: Bytes, data: Bytes, pos: nat, n: Int64)
    requires w in {1, 2, 4} && 8 <= |s| < Pow256(w) && s[..8] == Big(n % TWO_64, 8)
    requires At(data, pos, ([Tag(0xC7, w)] + Big(|s|, w)) + ([3] + s))
    ensures FlatGives(data, pos, Some(Timestamp(n)), pos + 2 + w + 8)
  {
    hide ReadExt, Big, Pow256, FromBigEndian;
    ExtAt(w, 3, s, data, pos);
    Pow256Values();
    BigWhole(n % TWO_64, 8);
    Residue(n, TWO_64);
  }

  /** The tag 0xC1 is never used. */
  lemma UnusedTag(data: Bytes, pos: nat, depth: nat)
    requires pos < |data| && data[pos] == 0xC1
    ensures Parse(data, pos, depth).Err?
  {
  }
}
