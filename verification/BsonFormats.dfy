/** BSON as its specification allows it to be written: every element type the decoder knows, keys in any order. */
module BsonFormats {
  import opened Bytes
  import opened Values
  import opened Regexes
  import opened Bson
  import BsonProofs

  // ---------- Formats ----------

  datatype Form =
    | Real(bits: nat)
    | Str(text: Bytes)
    | Dict(members: seq<Member>)
    | Arr(members: seq<Member>)
    | Bin(subtype: Byte, bytes: Bytes)
    | OldBin(bytes: Bytes)
    | Undefined
    | Oid(bytes: Bytes)
    | Flag(b: Byte)
    | Date(ms: nat)
    | Nil
    | Re(pattern: Bytes, options: Bytes)
    | Short(n: int)
    | Stamp(first: nat, second: nat)
    | Long(n: int)

  datatype Member = Member(key: Bytes, value: Form)

  ghost predicate Part(m: Member) { m.value < m }

  ghost predicate FormOk(f: Form)
    decreases f
  {
    match f
    case Real(bits) => bits < TWO_64
    case Str(s) => |s| < TWO_32 - 1
    case Dict(ms) => MembersOk(ms)
    case Arr(ms) => MembersOk(ms)
    case Bin(subtype, s) => |s| < TWO_32 && (subtype == 3 ==> |s| < 4)
    case OldBin(s) => |s| < TWO_32 - 4
    case Undefined => true
    case Oid(s) => |s| == 12
    case Flag(_) => true
    case Date(ms) => ms < TWO_64
    case Nil => true
    case Re(p, o) => 0 !in p && 0 !in o
    case Short(n) => -0x8000_0000 <= n < 0x8000_0000
    case Stamp(a, b) => a < TWO_32 && b < TWO_32
    case Long(n) => -TWO_63 <= n < TWO_63
  }

  ghost predicate MembersOk(ms: seq<Member>)
    decreases ms
  {
    ms == [] || (assert Part(ms[0]); 0 !in ms[0].key && FormOk(ms[0].value) && MembersOk(ms[1..]))
  }

  function TypeByte(f: Form): (r: Byte)
  {
    match f
    case Real(_) => 0x01
    case Str(_) => 0x02
    case Dict(_) => 0x03
    case Arr(_) => 0x04
    case Bin(_, _) => 0x05
    case OldBin(_) => 0x05
    case Undefined => 0x06
    case Oid(_) => 0x07
    case Flag(_) => 0x08
    case Date(_) => 0x09
    case Nil => 0x0A
    case Re(_, _) => 0x0B
    case Short(_) => 0x10
    case Stamp(_, _) => 0x11
    case Long(_) => 0x12
  }

  ghost function FormText(f: Form): (r: Bytes)
    requires FormOk(f)
    decreases f, 1
  {
    match f
    case Real(bits) => Little(bits, 8)
    case Str(s) => Little(|s| + 1, 4) + (s + [0])
    case Dict(ms) => DocumentText(ms)
    case Arr(ms) => DocumentText(ms)
    case Bin(subtype, s) => Little(|s|, 4) + ([subtype] + s)
    case OldBin(s) => Little(|s| + 4, 4) + ([3] + (Little(|s|, 4) + s))
    case Undefined => []
    case Oid(s) => s
    case Flag(b) => [b]
    case Date(ms) => Little(ms, 8)
    case Nil => []
    case Re(p, o) => p + ([0] + (o + [0]))
    case Short(n) => Little(n % TWO_32, 4)
    case Stamp(a, b) => Little(a, 4) + Little(b, 4)
    case Long(n) => Little(n % TWO_64, 8)
  }

  /** The size of the whole, the members, a terminator. */
  ghost function DocumentText(ms: seq<Member>): (r: Bytes)
    requires MembersOk(ms)
    decreases ms, 2
  {
    Little(|MembersText(ms)| + 5, 4) + (MembersText(ms) + [0])
  }

  ghost function MembersText(ms: seq<Member>): (r: Bytes)
    requires MembersOk(ms)
    decreases ms, 1
  {
    if ms == [] then []
    else
      assert Part(ms[0]);
      ([TypeByte(ms[0].value)] + (ms[0].key + ([0] + FormText(ms[0].value)))) + MembersText(ms[1..])
  }

  // ---------- Meaning ----------

  /** Binary data of subtype 0, 5 and the old 2-length form are plain; other subtypes make extensions.  A timestamp's value is
      its first word, a date counts milliseconds without a sign. */
  function Scalar0(f: Form): (r: Option<Scalar>)
    requires !f.Dict? && !f.Arr? && FormOk(f)
  {
    match f
    case Real(bits) => Some(Double(bits))
    case Str(s) => if |s| > MAX_STRING_LEN then None else Some(Text(s, false))
    case Bin(subtype, s) =>
      if |s| > MAX_STRING_LEN then None
      else if subtype in {0, 3, 5} then Some(Binary(s))
      else Some(Extension(if subtype < 128 then subtype else subtype - 256, s))
    case OldBin(s) => if |s| > MAX_STRING_LEN then None else Some(Binary(s))
    case Undefined => Some(Null)
    case Oid(s) => Some(ObjectId(s))
    case Flag(b) => Some(Bool(b != 0))
    case Date(ms) => Some(DateTime(ms / 1000, ms % 1000))
    case Nil => Some(Null)
    case Re(p, o) => MakeRegex(p, o)
    case Short(n) => Some(Int(n))
    case Stamp(a, _) => Some(Timestamp(a))
    case Long(n) => Some(Int(n))
  }

  ghost function Denote(f: Form, depth: nat): (r: Option<Value>)
    requires FormOk(f)
    decreases f, 1
  {
    match f
    case Dict(ms) => (match DenoteDocument(ms, depth + 1) case None => None case Some(m) => Some(Object(m)))
    case Arr(ms) =>
      (match DenoteDocument(ms, depth + 1)
       case None => None
       case Some(m) => match Rebuild(m) case Failure(_) => None case Success(v) => Some(v))
    case _ => (match Scalar0(f) case None => None case Some(s) => Some(Leaf(s)))
  }

  ghost function DenoteDocument(ms: seq<Member>, depth: nat): (r: Option<map<Bytes, Value>>)
    requires MembersOk(ms)
    decreases ms, 2
  {
    if depth > MAX_NESTING_DEPTH then None
    else match DenoteMembers(ms, depth) case None => None case Some(ps) => Some(Build(ps, map[]))
  }

  /** Of members with one key the first stays. */
  ghost function DenoteMembers(ms: seq<Member>, depth: nat): (r: Option<seq<(Bytes, Value)>>)
    requires MembersOk(ms)
    decreases ms, 1
  {
    if ms == [] then Some([])
    else
      assert Part(ms[0]);
      if |ms[0].key| > MAX_STRING_LEN then None
      else
        match (Denote(ms[0].value, depth), DenoteMembers(ms[1..], depth))
        case (Some(v), Some(ps)) => Some([(ms[0].key, v)] + ps)
        case _ => None
  }

  // ---------- Formats without parts ----------

  ghost predicate Gives(r: Parsed<Value>, s: Option<Scalar>, end: nat)
  {
    match s case None => r.Err? case Some(x) => r == Ok(Leaf(x), end)
  }

  lemma NumberRead(f: Form, data: Bytes, pos: nat, end: nat)
    requires FormOk(f) && (f.Real? || f.Date? || f.Short? || f.Stamp? || f.Long?) && pos <= end < |data|
    requires At(data, pos, FormText(f))
    ensures Gives(ReadScalar(data, pos, end, TypeByte(f)), Scalar0(f), pos + |FormText(f)|)
  {
    hide Little, ReadLittle, Pow256;
    Pow256Values();
    match f
    case Real(bits) => LittleRead(bits, 8, data, pos);
    case Date(ms) => LittleRead(ms, 8, data, pos);
    case Short(n) => LittleRead(n % TWO_32, 4, data, pos); Residue(n, TWO_32);
    case Long(n) => LittleRead(n % TWO_64, 8, data, pos); Residue(n, TWO_64);
    case Stamp(a, b) =>
      AtSplit(data, pos, Little(a, 4), Little(b, 4));
      LittleRead(a, 4, data, pos);
      LittleRead(b, 4, data, pos + 4);
  }

  lemma SimpleRead(f: Form, data: Bytes, pos: nat, end: nat)
    requires FormOk(f) && (f.Undefined? || f.Oid? || f.Flag? || f.Nil?) && pos <= end < |data| && At(data, pos, FormText(f))
    ensures Gives(ReadScalar(data, pos, end, TypeByte(f)), Scalar0(f), pos + |FormText(f)|)
  {
    if f.Flag? { AtHead(data, pos, [f.b]); }
  }

  lemma StringRead(s: Bytes, data: Bytes, pos: nat, end: nat)
    requires FormOk(Str(s)) && pos <= end < |data| && At(data, pos, FormText(Str(s)))
    ensures Gives(ReadScalar(data, pos, end, 0x02), Scalar0(Str(s)), pos + |FormText(Str(s))|)
  {
    hide Little, ReadLittle, Take, Pow256;
    Pow256Values();
    AtSplit(data, pos, Little(|s| + 1, 4), s + [0]);
    LittleRead(|s| + 1, 4, data, pos);
    AtSplit(data, pos + 4, s, [0]);
    TakeAt(data, pos + 4, s, |s|);
  }

  lemma BinRead(subtype: Byte, s: Bytes, data: Bytes, pos: nat, end: nat)
    requires var f := Bin(subtype, s); FormOk(f) && pos <= end < |data| && At(data, pos, FormText(f))
    ensures var f := Bin(subtype, s); Gives(ReadScalar(data, pos, end, 0x05), Scalar0(f), pos + |FormText(f)|)
  {
    hide Little, ReadLittle, Take, Pow256;
    Pow256Values();
    AtSplit(data, pos, Little(|s|, 4), [subtype] + s);
    LittleRead(|s|, 4, data, pos);
    AtSplit(data, pos + 4, [subtype], s);
    AtHead(data, pos + 4, [subtype]);
    TakeAt(data, pos + 5, s, |s|);
  }

  lemma OldBinRead(s: Bytes, data: Bytes, pos: nat, end: nat)
    requires FormOk(OldBin(s)) && pos <= end < |data| && At(data, pos, FormText(OldBin(s)))
    ensures Gives(ReadScalar(data, pos, end, 0x05), Scalar0(OldBin(s)), pos + |FormText(OldBin(s))|)
  {
    hide Little, ReadLittle, Take, Pow256;
    Pow256Values();
    AtSplit(data, pos, Little(|s| + 4, 4), [3] + (Little(|s|, 4) + s));
    LittleRead(|s| + 4, 4, data, pos);
    AtSplit(data, pos + 4, [3], Little(|s|, 4) + s);
    AtHead(data, pos + 4, [3]);
    AtSplit(data, pos + 5, Little(|s|, 4), s);
    LittleRead(|s|, 4, data, pos + 5);
    TakeAt(data, pos + 9, s, |s|);
  }

  lemma ReRead(p: Bytes, o: Bytes, data: Bytes, pos: nat, end: nat)
    requires var f := Re(p, o); FormOk(f) && At(data, pos, FormText(f)) && pos + |FormText(f)| <= end < |data|
    ensures var f := Re(p, o); Gives(ReadScalar(data, pos, end, 0x0B), Scalar0(f), pos + |FormText(f)|)
  {
    hide CStringEnd, MakeRegex;
    BsonProofs.TwoStringsAt(data, pos, p, o);
    BsonProofs.CStringEndIs(data, pos, end, p);
    BsonProofs.CStringEndIs(data, pos + |p| + 1, end, o);
  }

  lemma ScalarRead(f: Form, data: Bytes, pos: nat, end: nat)
    requires FormOk(f) && !f.Dict? && !f.Arr? && At(data, pos, FormText(f)) && pos + |FormText(f)| <= end < |data|
    ensures Gives(ReadScalar(data, pos, end, TypeByte(f)), Scalar0(f), pos + |FormText(f)|)
  {
    hide Gives, ReadScalar, Scalar0, FormText, FormOk;
    match f
    case Real(_) => NumberRead(f, data, pos, end);
    case Date(_) => NumberRead(f, data, pos, end);
    case Short(_) => NumberRead(f, data, pos, end);
    case Stamp(_, _) => NumberRead(f, data, pos, end);
    case Long(_) => NumberRead(f, data, pos, end);
    case Undefined => SimpleRead(f, data, pos, end);
    case Oid(_) => SimpleRead(f, data, pos, end);
    case Flag(_) => SimpleRead(f, data, pos, end);
    case Nil => SimpleRead(f, data, pos, end);
    case Str(s) => StringRead(s, data, pos, end);
    case Bin(subtype, s) => BinRead(subtype, s, data, pos, end);
    case OldBin(s) => OldBinRead(s, data, pos, end);
    case Re(p, o) => ReRead(p, o, data, pos, end);
  }

  // ---------- Documents ----------

  ghost predicate DocumentRead(ms: seq<Member>, data: Bytes, pos: nat, depth: nat, end: nat)
    requires MembersOk(ms)
  {
    match DenoteDocument(ms, depth)
    case None => ReadDocument(data, pos, depth).Err?
    case Some(m) => ReadDocument(data, pos, depth) == Ok(m, end)
  }

  ghost predicate MembersRead(ms: seq<Member>, data: Bytes, pos: nat, end: nat, depth: nat, acc: map<Bytes, Value>)
    requires MembersOk(ms) && end < |data|
  {
    match DenoteMembers(ms, depth)
    case None => ReadElements(data, pos, end, depth, acc).Err?
    case Some(ps) => ReadElements(data, pos, end, depth, acc) == Ok(Build(ps, acc), end)
  }

  ghost predicate ValueRead(key: Bytes, f: Form, data: Bytes, pos: nat, end: nat, depth: nat, next: nat)
    requires FormOk(f) && pos < end < |data|
  {
    if |key| > MAX_STRING_LEN || Denote(f, depth).None? then ReadElement(data, pos, end, depth).Err?
    else ReadElement(data, pos, end, depth) == Ok((key, Denote(f, depth).value), next)
  }

  ghost function HeadText(m: Member): (r: Bytes) { [TypeByte(m.value)] + (m.key + [0]) }

  lemma MembersSplit(ms: seq<Member>, depth: nat)
    requires ms != [] && MembersOk(ms)
    ensures 0 !in ms[0].key && FormOk(ms[0].value) && MembersOk(ms[1..])
    ensures MembersText(ms) == HeadText(ms[0]) + (FormText(ms[0].value) + MembersText(ms[1..]))
    ensures var v, ps := Denote(ms[0].value, depth), DenoteMembers(ms[1..], depth);
      DenoteMembers(ms, depth)
      == if |ms[0].key| <= MAX_STRING_LEN && v.Some? && ps.Some? then Some([(ms[0].key, v.value)] + ps.value) else None
  {
    hide FormOk, FormText, Denote, TypeByte;
    var m := ms[0];
    Regrouped(m.key, [0], FormText(m.value));
    Regrouped([TypeByte(m.value)], m.key + [0], FormText(m.value));
    Regrouped(HeadText(m), FormText(m.value), MembersText(ms[1..]));
  }

  /** The type and the key in front of a value. */
  lemma HeadAt(m: Member, data: Bytes, pos: nat, end: nat)
    requires 0 !in m.key && At(data, pos, HeadText(m)) && pos + |HeadText(m)| <= end < |data|
    ensures data[pos] == TypeByte(m.value) && |HeadText(m)| == |m.key| + 2
    ensures CStringEnd(data, pos + 1, end) == pos + 1 + |m.key| && data[pos + 1..pos + 1 + |m.key|] == m.key
  {
    hide CStringEnd, TypeByte;
    AtSplit(data, pos, [TypeByte(m.value)], m.key + [0]);
    AtHead(data, pos, [TypeByte(m.value)]);
    AtSplit(data, pos + 1, m.key, [0]);
    BsonProofs.CStringEndIs(data, pos + 1, end, m.key);
  }

  lemma ElementStep(key: Bytes, data: Bytes, pos: nat, end: nat, depth: nat)
    requires pos < end < |data| && CStringEnd(data, pos + 1, end) == pos + 1 + |key| < end && data[pos + 1..pos + 1 + |key|] == key
    ensures |key| > MAX_STRING_LEN ==> ReadElement(data, pos, end, depth).Err?
    ensures |key| <= MAX_STRING_LEN && data[pos] == 0x03 ==>
      var r := ReadDocument(data, pos + 2 + |key|, depth + 1);
      ReadElement(data, pos, end, depth) == if r.Err? then Err(r.error) else Ok((key, Object(r.value)), r.pos)
    ensures |key| <= MAX_STRING_LEN && data[pos] == 0x04 ==>
      var r := ReadDocument(data, pos + 2 + |key|, depth + 1);
      ReadElement(data, pos, end, depth)
      == if r.Err? then Err(r.error)
         else if Rebuild(r.value).Failure? then Err(Rebuild(r.value).error)
         else Ok((key, Rebuild(r.value).value), r.pos)
    ensures |key| <= MAX_STRING_LEN && data[pos] != 0x03 && data[pos] != 0x04 ==>
      var r := ReadScalar(data, pos + 2 + |key|, end, data[pos]);
      ReadElement(data, pos, end, depth) == if r.Err? then Err(r.error) else Ok((key, r.value), r.pos)
  {
    hide CStringEnd, ReadDocument, ReadScalar, Rebuild;
  }

  lemma KindIs(f: Form)
    ensures TypeByte(f) == 0x03 <==> f.Dict?
    ensures TypeByte(f) == 0x04 <==> f.Arr?
  {
  }

  lemma DenoteIs(f: Form, depth: nat)
    requires FormOk(f)
    ensures f.Dict? ==> MembersOk(f.members) && FormText(f) == DocumentText(f.members)
    ensures f.Dict? ==>
      var m := DenoteDocument(f.members, depth + 1); Denote(f, depth) == if m.None? then None else Some(Object(m.value))
    ensures f.Arr? ==> MembersOk(f.members) && FormText(f) == DocumentText(f.members)
    ensures f.Arr? ==>
      var m := DenoteDocument(f.members, depth + 1);
      Denote(f, depth)
      == if m.None? || Rebuild(m.value).Failure? then None else Some(Rebuild(m.value).value)
    ensures !f.Dict? && !f.Arr? ==>
      Denote(f, depth) == if Scalar0(f).None? then None else Some(Leaf(Scalar0(f).value))
  {
    hide DenoteDocument, DocumentText, Rebuild, Scalar0, MembersOk;
  }

  lemma {:induction false} ReadValue(m: Member, data: Bytes, pos: nat, end: nat, depth: nat)
    requires 0 !in m.key && FormOk(m.value) && At(data, pos, HeadText(m)) && |data| < TWO_32
    requires At(data, pos + |HeadText(m)|, FormText(m.value)) && pos + |HeadText(m)| + |FormText(m.value)| <= end < |data|
    ensures pos < end && ValueRead(m.key, m.value, data, pos, end, depth, pos + |HeadText(m)| + |FormText(m.value)|)
    decreases m.value, 3
  {
    hide *;
    var f, p := m.value, pos + |HeadText(m)|;
    HeadAt(m, data, pos, end);
    ElementStep(m.key, data, pos, end, depth);
    KindIs(f);
    DenoteIs(f, depth);
    match f {
      case Dict(ms) =>
        ReadDoc(ms, data, p, depth + 1);
        DocumentIs(ms, data, p, depth + 1, p + |FormText(f)|);
      case Arr(ms) =>
        ReadDoc(ms, data, p, depth + 1);
        DocumentIs(ms, data, p, depth + 1, p + |FormText(f)|);
      case _ =>
        ScalarRead(f, data, p, end);
        GivesIs(ReadScalar(data, p, end, TypeByte(f)), Scalar0(f), p + |FormText(f)|);
    }
    ValueIs(m.key, f, data, pos, end, depth, p + |FormText(f)|);
  }

  lemma GivesIs(r: Parsed<Value>, s: Option<Scalar>, end: nat)
    requires Gives(r, s, end)
    ensures s.None? ==> r.Err?
    ensures s.Some? ==> r == Ok(Leaf(s.value), end)
  {
  }

  lemma DocumentIs(ms: seq<Member>, data: Bytes, pos: nat, depth: nat, end: nat)
    requires MembersOk(ms) && DocumentRead(ms, data, pos, depth, end)
    ensures DenoteDocument(ms, depth).None? ==> ReadDocument(data, pos, depth).Err?
    ensures DenoteDocument(ms, depth).Some? ==> ReadDocument(data, pos, depth) == Ok(DenoteDocument(ms, depth).value, end)
  {
    hide ReadDocument, DenoteDocument, MembersOk;
  }

  lemma ValueIs(key: Bytes, f: Form, data: Bytes, pos: nat, end: nat, depth: nat, next: nat)
    requires FormOk(f) && pos < end < |data|
    requires if |key| > MAX_STRING_LEN || Denote(f, depth).None? then ReadElement(data, pos, end, depth).Err?
             else ReadElement(data, pos, end, depth) == Ok((key, Denote(f, depth).value), next)
    ensures ValueRead(key, f, data, pos, end, depth, next)
  {
    hide FormOk, Denote, ReadElement;
  }

  lemma MemberStep(data: Bytes, pos: nat, end: nat, depth: nat, acc: map<Bytes, Value>)
    requires end < |data|
    ensures pos >= end ==> ReadElements(data, pos, end, depth, acc) == Ok(acc, pos)
    ensures pos < end ==>
      var r := ReadElement(data, pos, end, depth);
      ReadElements(data, pos, end, depth, acc)
      == if r.Err? then Err(r.error) else ReadElements(data, r.pos, end, depth, Emplace(acc, r.value.0, r.value.1))
  {
    hide ReadElement, Emplace;
  }

  lemma {:induction false} ReadMembers(ms: seq<Member>, data: Bytes, pos: nat, end: nat, depth: nat, acc: map<Bytes, Value>)
    requires MembersOk(ms) && At(data, pos, MembersText(ms)) && end == pos + |MembersText(ms)| < |data| < TWO_32
    ensures MembersRead(ms, data, pos, end, depth, acc)
    decreases ms, 1
  {
    hide *;
    MemberStep(data, pos, end, depth, acc);
    if ms == [] {
      NoText();
      NoMembers(data, pos, depth, acc);
    } else {
      assert ms[0].value < ms[0];
      MembersSplit(ms, depth);
      var m := ms[0];
      var p := pos + |HeadText(m)|;
      var q := p + |FormText(m.value)|;
      AtSplit(data, pos, HeadText(m), FormText(m.value) + MembersText(ms[1..]));
      AtSplit(data, p, FormText(m.value), MembersText(ms[1..]));
      ReadValue(m, data, pos, end, depth);
      ValueGives(m.key, m.value, data, pos, end, depth, q);
      var v := Denote(m.value, depth);
      if |m.key| <= MAX_STRING_LEN && v.Some? { ReadMembers(ms[1..], data, q, end, depth, Emplace(acc, m.key, v.value)); }
      MemberJoined(ms, data, pos, q, end, depth, acc);
    }
  }

  lemma NoMembers(data: Bytes, pos: nat, depth: nat, acc: map<Bytes, Value>)
    requires pos < |data| && ReadElements(data, pos, pos, depth, acc) == Ok(acc, pos)
    ensures MembersOk([]) && MembersRead([], data, pos, pos, depth, acc)
  {
  }

  lemma NoText()
    ensures MembersOk([]) && MembersText([]) == []
  {
  }

  lemma ValueGives(key: Bytes, f: Form, data: Bytes, pos: nat, end: nat, depth: nat, next: nat)
    requires FormOk(f) && pos < end < |data| && ValueRead(key, f, data, pos, end, depth, next)
    ensures if |key| > MAX_STRING_LEN || Denote(f, depth).None? then ReadElement(data, pos, end, depth).Err?
            else ReadElement(data, pos, end, depth) == Ok((key, Denote(f, depth).value), next)
  {
    hide FormOk, Denote, ReadElement;
  }

  lemma MemberJoined(ms: seq<Member>, data: Bytes, pos: nat, q: nat, end: nat, depth: nat, acc: map<Bytes, Value>)
    requires ms != [] && MembersOk(ms) && FormOk(ms[0].value) && MembersOk(ms[1..]) && end < |data|
    requires var v := Denote(ms[0].value, depth);
      if |ms[0].key| <= MAX_STRING_LEN && v.Some? then
        var acc' := Emplace(acc, ms[0].key, v.value);
        ReadElements(data, pos, end, depth, acc) == ReadElements(data, q, end, depth, acc')
        && MembersRead(ms[1..], data, q, end, depth, acc')
      else ReadElements(data, pos, end, depth, acc).Err?
    ensures MembersRead(ms, data, pos, end, depth, acc)
  {
    hide MembersOk, FormOk, DenoteMembers, ReadElements, Denote, MembersText, FormText, Build, Emplace, HeadText;
    MembersSplit(ms, depth);
    var v, ps := Denote(ms[0].value, depth), DenoteMembers(ms[1..], depth);
    if v.Some? && ps.Some? { FirstPair(ms[0].key, v.value, ps.value, acc); }
  }

  /** A document, whatever its members, is read as what it denotes, or refused. */
  lemma {:induction false} ReadDoc(ms: seq<Member>, data: Bytes, pos: nat, depth: nat)
    requires MembersOk(ms) && At(data, pos, DocumentText(ms)) && |data| < TWO_32
    ensures DocumentRead(ms, data, pos, depth, pos + |DocumentText(ms)|)
    decreases ms, 2
  {
    hide *;
    DocumentLaid(ms);
    var size := |MembersText(ms)| + 5;
    var end := pos + size - 1;
    AtSplit(data, pos, Little(size, 4), MembersText(ms) + [0]);
    AtSplit(data, pos + 4, MembersText(ms), [0]);
    AtHead(data, end, [0]);
    SizeFits(size, data, pos);
    LittleRead(size, 4, data, pos);
    DocumentStep(data, pos, depth, size);
    if depth <= MAX_NESTING_DEPTH { ReadMembers(ms, data, pos + 4, end, depth, map[]); }
    DocumentClosed(ms, data, pos, depth, end);
  }

  lemma DocumentLaid(ms: seq<Member>)
    requires MembersOk(ms)
    ensures DocumentText(ms) == Little(|MembersText(ms)| + 5, 4) + (MembersText(ms) + [0])
    ensures |DocumentText(ms)| == |MembersText(ms)| + 5 && |Little(|MembersText(ms)| + 5, 4)| == 4
  {
    hide MembersText, Little;
  }

  lemma SizeFits(size: nat, data: Bytes, pos: nat)
    requires |data| < TWO_32 && pos + size <= |data|
    ensures size < Pow256(4) && (size > 0 ==> (pos + size - 1) % TWO_32 == pos + size - 1)
  {
    Pow256Values();
  }

  lemma DocumentStep(data: Bytes, pos: nat, depth: nat, size: nat)
    requires 5 <= size && pos + size <= |data| < TWO_32 && ReadLittle(data, pos, 4) == size
    ensures depth > MAX_NESTING_DEPTH ==> ReadDocument(data, pos, depth).Err?
    ensures depth <= MAX_NESTING_DEPTH ==>
      var r := ReadElements(data, pos + 4, pos + size - 1, depth, map[]);
      ReadDocument(data, pos, depth)
      == if r.Err? then Err(r.error) else Ok(r.value, if r.pos < |data| && data[r.pos] == 0 then r.pos + 1 else r.pos)
  {
    hide ReadElements, ReadLittle;
  }

  lemma DocumentClosed(ms: seq<Member>, data: Bytes, pos: nat, depth: nat, end: nat)
    requires MembersOk(ms) && pos + 4 <= end < |data| && data[end] == 0
    requires depth <= MAX_NESTING_DEPTH ==> MembersRead(ms, data, pos + 4, end, depth, map[])
    requires depth > MAX_NESTING_DEPTH ==> ReadDocument(data, pos, depth).Err?
    requires depth <= MAX_NESTING_DEPTH ==>
      var r := ReadElements(data, pos + 4, end, depth, map[]);
      ReadDocument(data, pos, depth)
      == if r.Err? then Err(r.error) else Ok(r.value, if r.pos < |data| && data[r.pos] == 0 then r.pos + 1 else r.pos)
    ensures DocumentRead(ms, data, pos, depth, end + 1)
  {
    hide MembersOk, ReadElements, ReadDocument, DenoteMembers, Build;
  }

  /** An integer takes four bytes whenever it fits them. */
  lemma ShortestInt(widen: UInt32 -> UInt64, f: Form)
    requires (f.Short? || f.Long?) && FormOk(f)
    ensures |ScalarPayload(widen, Int(f.n))| <= |FormText(f)|
  {
  }

  // ---------- Beyond the formats ----------

  /** Element types the decoder does not know are refused. */
  lemma UnknownType(data: Bytes, pos: nat, end: nat, kind: Byte)
    requires pos <= end < |data| && kind !in {0x01, 0x02, 0x03, 0x04, 0x05, 0x06, 0x07, 0x08, 0x09, 0x0A, 0x0B, 0x10, 0x11, 0x12}
    ensures ReadScalar(data, pos, end, kind).Err?
  {
  }
}
