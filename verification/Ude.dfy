/** UDE scalar styles: quoted, block and folded strings. */
module Ude {
  import opened Bytes
  import opened Values
  import opened Text

  const BAR: Byte := 124
  const GREATER: Byte := 62
  const PLUS: Byte := 43

  // ---------- Quoted strings ----------

  function SkipBlanks(raw: Bytes, i: nat): (r: nat)
    ensures i <= r
    decreases Remaining(raw, i)
  {
    if i < |raw| && (raw[i] == SPACE || raw[i] == TAB) then SkipBlanks(raw, i + 1) else i
  }

  /** `n` hex digits at `i`; None if one of them is none, or the text ends first. */
  function HexRun(raw: Bytes, i: nat, n: nat): (r: Option<nat>)
    decreases n
  {
    if n == 0 then Some(0)
    else
      match HexRun(raw, i, n - 1)
      case None => None
      case Some(v) =>
        if i + n - 1 >= |raw| || HexValue(raw[i + n - 1]) < 0 then None else Some(v * 16 + HexValue(raw[i + n - 1]))
  }

  /** The digits of \u{...} up to the brace: the code point and the brace's position. */
  function Braced(raw: Bytes, j: nat, cp: nat, any: bool): (r: Option<(nat, nat)>)
    ensures r.Some? ==> j <= r.value.1 < |raw| && r.value.0 <= 0x10_FFFF
    requires cp <= 0x10_FFFF
    decreases Remaining(raw, j)
  {
    if j >= |raw| then None
    else if raw[j] == RBRACE then (if any then Some((cp, j)) else None)
    else if HexValue(raw[j]) < 0 || cp * 16 + HexValue(raw[j]) > 0x10_FFFF then None
    else Braced(raw, j + 1, cp * 16 + HexValue(raw[j]), true)
  }

  /** A numeric escape of four or eight digits from `i` on: what it stands for, and where the text goes on; a high
      surrogate joins a low one escaped right behind it. */
  function CodePointAt(raw: Bytes, i: nat, need: nat): (r: Option<(nat, nat)>)
    requires need == 4 || need == 8
    ensures r.Some? ==> i + need <= r.value.1
  {
    if i + need > |raw| then None
    else
      match HexRun(raw, i, need)
      case None => None
      case Some(hi) =>
        var e := i + need;
        var paired := 0xD800 <= hi <= 0xDBFF && e + 6 <= |raw| && raw[e] == BACKSLASH && raw[e + 1] == UNICODE;
        var low := if paired then HexRun(raw, e + 2, 4) else None;
        var joined := low.Some? && 0xDC00 <= low.value <= 0xDFFF;
        var cp := if joined then 0x1_0000 + (hi - 0xD800) * 0x400 + (low.value - 0xDC00) else hi;
        if cp > 0x10_FFFF || 0xD800 <= cp <= 0xDFFF then None else Some((cp, if joined then e + 6 else e))
  }

  /** What the letter after a backslash stands for; None for letters that need more, or mean nothing. */
  function SimpleLetter(b: Byte): (r: Option<Byte>)
  {
    if b == LETTER_N then Some(NEWLINE) else if b == LETTER_T then Some(TAB) else if b == LETTER_R then Some(RETURN)
    else if b == LETTER_B then Some(BACKSPACE) else if b == LETTER_F then Some(FORMFEED)
    else if b == SLASH || b == BACKSLASH || b == QUOTE then Some(b) else None
  }

  /** udeUnescape from `i`; None where it throws. */
  function Unquote(raw: Bytes, i: nat): (r: Option<Bytes>)
    decreases Remaining(raw, i)
  {
    if i >= |raw| then Some([])
    else if raw[i] == RETURN then
      Prepend([NEWLINE], Unquote(raw, if i + 1 < |raw| && raw[i + 1] == NEWLINE then i + 2 else i + 1))
    else if raw[i] != BACKSLASH then Prepend([raw[i]], Unquote(raw, i + 1))
    else if i + 1 >= |raw| then None
    else
      var e := raw[i + 1];
      if e == NEWLINE || e == RETURN then
        Unquote(raw, SkipBlanks(raw, if e == RETURN && i + 2 < |raw| && raw[i + 2] == NEWLINE then i + 3 else i + 2))
      else if SimpleLetter(e).Some? then Prepend([SimpleLetter(e).value], Unquote(raw, i + 2))
      else if e == 120 then
        if i + 3 >= |raw| || HexValue(raw[i + 2]) < 0 || HexValue(raw[i + 3]) < 0 then None
        else Prepend([HexValue(raw[i + 2]) * 16 + HexValue(raw[i + 3])], Unquote(raw, i + 4))
      else if e == UNICODE && i + 2 < |raw| && raw[i + 2] == LBRACE then
        (match Braced(raw, i + 3, 0, false)
         case None => None
         case Some(b) => Prepend(Utf8(b.0), Unquote(raw, b.1 + 1)))
      else if e == UNICODE || e == 85 then
        (match CodePointAt(raw, i + 2, if e == UNICODE then 4 else 8)
         case None => None
         case Some(b) => Prepend(Utf8(b.0), Unquote(raw, b.1)))
      else None
  }

  /** The closing quote of a string whose body starts at `pos`. */
  function QuoteAfter(text: Bytes, pos: nat): (r: Option<nat>)
    ensures r.Some? ==> pos <= r.value < |text|
    decreases Remaining(text, pos)
  {
    if pos >= |text| then None
    else if text[pos] == BACKSLASH then QuoteAfter(text, pos + 2)
    else if text[pos] == QUOTE then Some(pos)
    else QuoteAfter(text, pos + 1)
  }

  /** parseQuotedString at an opening quote. */
  function ReadQuoted(text: Bytes, pos: nat): (r: Parsed<Bytes>)
  {
    match QuoteAfter(text, pos + 1)
    case None => Err(BadText)
    case Some(e) =>
      match Unquote(text[pos + 1..e], 0)
      case None => Err(BadText)
      case Some(s) => if |s| > MAX_STRING_LEN then Err(TooLarge) else Ok(s, e + 1)
  }

  /** udeWriteQuoted. */
  function WriteQuoted(s: Bytes): (r: Bytes)
  {
    [QUOTE] + (Escape(s) + [QUOTE])
  }

  // ---------- Lines ----------

  /** The lines of a text; a line feed at the very end starts no further line. */
  function Lines(text: Bytes): (r: seq<Bytes>)
  {
    if text == [] then [] else LinesOf(text, 0)
  }

  function FeedFrom(text: Bytes, i: nat): (r: nat)
    ensures i <= |text| ==> i <= r <= |text|
    decreases Remaining(text, i)
  {
    if i >= |text| || text[i] == NEWLINE then i else FeedFrom(text, i + 1)
  }

  function LinesOf(text: Bytes, i: nat): (r: seq<Bytes>)
    decreases Remaining(text, i)
  {
    if i >= |text| then []
    else
      var e := FeedFrom(text, i);
      [text[i..e]] + LinesOf(text, e + 1)
  }

  function Join(lines: seq<Bytes>): (r: Bytes)
  {
    if lines == [] then [] else if |lines| == 1 then lines[0] else lines[0] + [NEWLINE] + Join(lines[1..])
  }

  // ---------- Reading block scalars ----------

  function DropReturn(line: Bytes): (r: Bytes)
    ensures |r| <= |line|
  {
    if line != [] && line[|line| - 1] == RETURN then line[..|line| - 1] else line
  }

  function Indent(line: Bytes): (r: nat)
    ensures r <= |line|
  {
    if line != [] && (line[0] == SPACE || line[0] == TAB) then 1 + Indent(line[1..]) else 0
  }

  /** The content of the lines behind the header; None where a tab indents.  The first line that is not blank sets
      the margin, a line left of it ends the scalar. */
  function Contents(lines: seq<Bytes>, margin: Option<nat>): (r: Option<seq<Bytes>>)
    decreases lines
  {
    if lines == [] then Some([])
    else
      var line := DropReturn(lines[0]);
      var indent := Indent(line);
      if indent == |line| then Prepend([[]], Contents(lines[1..], margin))
      else if TAB in line[..indent] then None
      else
        match margin
        case None => Prepend([line[indent..]], Contents(lines[1..], Some(indent)))
        case Some(m) => if indent < m then Some([]) else Prepend([line[m..]], Contents(lines[1..], margin))
  }

  /** udeFoldScalar from position `i` with what is folded so far. */
  function FoldFrom(s: Bytes, i: nat, res: Bytes, para: bool): (r: Bytes)
    decreases Remaining(s, i)
  {
    if i >= |s| then res
    else
      var e := FeedFrom(s, i);
      var seg := s[i..e];
      if res == [] then FoldFrom(s, e + 1, seg, false)
      else if seg == [] then FoldFrom(s, e + 1, if para then res else res + [NEWLINE], true)
      else FoldFrom(s, e + 1, res + (if para then seg else [SPACE] + seg), false)
  }

  function Fold(s: Bytes): (r: Bytes)
  {
    var res := FoldFrom(s, 0, [], false);
    if s != [] && s[|s| - 1] == NEWLINE && (res == [] || res[|res| - 1] != NEWLINE) then res + [NEWLINE] else res
  }

  function Trailing(s: Bytes): (r: nat)
    ensures r <= |s|
    ensures forall i :: |s| - r <= i < |s| ==> s[i] == NEWLINE
    ensures r < |s| ==> s[|s| - r - 1] != NEWLINE
  {
    if s != [] && s[|s| - 1] == NEWLINE then 1 + Trailing(s[..|s| - 1]) else 0
  }

  datatype Chomp = Clip | Strip | Keep

  function Chomped(s: Bytes, chomp: Chomp): (r: Bytes)
  {
    match chomp
    case Keep => s
    case Strip => s[..|s| - Trailing(s)]
    case Clip => if Trailing(s) > 1 then s[..|s| - (Trailing(s) - 1)] else s
  }

  /** A header: an optional digit for the margin, an optional chomping sign, the rest of the line ignored. */
  function MarginDigit(text: Bytes, pos: nat): (r: Option<nat>)
  {
    if pos < |text| && IsDigit(text[pos]) then Some(text[pos] - ZERO) else None
  }

  function ChompAt(text: Bytes, pos: nat): (r: Chomp)
  {
    if pos < |text| && text[pos] == PLUS then Keep else if pos < |text| && text[pos] == MINUS then Strip else Clip
  }

  /** parseBlockScalar with its indicator at `pos`: the string, or None where it throws or is too long. */
  function ReadBlock(text: Bytes, pos: nat): (r: Option<Bytes>)
    requires pos < |text|
  {
    var digit := MarginDigit(text, pos + 1);
    var sign := if digit.Some? then pos + 2 else pos + 1;
    var chomp := ChompAt(text, sign);
    var head := FeedFrom(text, if chomp.Clip? then sign else sign + 1);
    match Contents(LinesOf(text, head + 1), digit)
    case None => None
    case Some(content) =>
      var out := Chomped(if text[pos] == GREATER then Fold(Join(content)) else Join(content), chomp);
      if |out| > MAX_STRING_LEN then None else Some(out)
  }

  // ---------- Writing block scalars ----------

  const MARGIN: Bytes := [SPACE, SPACE]

  function Indented(lines: seq<Bytes>): (r: Bytes)
  {
    if lines == [] then [] else MARGIN + (lines[0] + ([NEWLINE] + Indented(lines[1..])))
  }

  function Feeds(n: nat): (r: Bytes)
    ensures |r| == n
  {
    if n == 0 then [] else [NEWLINE] + Feeds(n - 1)
  }

  function Body(s: Bytes): (r: Bytes)
  {
    s[..|s| - Trailing(s)]
  }

  /** udeWriteBlockScalar. */
  function WriteBlock(s: Bytes): (r: Bytes)
    ensures r != []
  {
    (if Trailing(s) > 0 then [BAR, PLUS, NEWLINE] else [BAR, NEWLINE]) + (Indented(Lines(Body(s))) + Feeds(Trailing(s)))
  }

  /** udeWriteFoldedScalar. */
  function WriteFolded(s: Bytes): (r: Bytes)
    requires s != []
    ensures r != []
  {
    [GREATER, NEWLINE] + (MARGIN + (s[..|s| - 1] + [NEWLINE, NEWLINE]))
  }

  // ---------- Choosing a style ----------

  predicate AllBlank(line: Bytes)
  {
    line == [] || ((line[0] == SPACE || line[0] == TAB || line[0] == RETURN) && AllBlank(line[1..]))
  }

  lemma BlankNothing()
    ensures AllBlank([])
  {
  }

  /** The scan of udeCanBlockEncode from `i`. */
  predicate BlockScan(s: Bytes, i: nat, seen: bool, trailingBlank: bool)
    decreases Remaining(s, i)
  {
    if i >= |s| then seen
    else
      var e := FeedFrom(s, i);
      var line := s[i..e];
      var blank := AllBlank(line);
      if e == |s| then !blank && !trailingBlank
      else if blank then !(seen && trailingBlank) && BlockScan(s, e + 1, seen, seen)
      else
        !trailingBlank && (seen || !(line[0] == SPACE || line[0] == TAB || line[0] == RETURN))
        && BlockScan(s, e + 1, true, false)
  }

  predicate CanBlock(s: Bytes)
  {
    NEWLINE in s && Trailing(s) < 2 && BlockScan(s, 0, false, false)
  }

  predicate CanFold(s: Bytes)
  {
    |s| >= 2 && s[|s| - 1] == NEWLINE
    && NEWLINE !in s[..|s| - 1] && RETURN !in s[..|s| - 1] && s[0] != SPACE && s[0] != TAB
  }
}
