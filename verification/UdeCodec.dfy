/** The UDE scalar writers and readers, loop by loop. */
module UdeCodec {
  import opened Bytes
  import opened Values
  import opened Text
  import opened Ude
  import JsonPrinter

  // ---------- Quoted strings ----------

  method PushEscape(out: Buffer, c: Byte)
    modifies out
    ensures out.bytes == old(out.bytes) + EscapeByte(c)
  {
    if c == QUOTE { out.Append([BACKSLASH, QUOTE]); }
    else if c == BACKSLASH { out.Append([BACKSLASH, BACKSLASH]); }
    else if c == NEWLINE { out.Append([BACKSLASH, LETTER_N]); }
    else if c == RETURN { out.Append([BACKSLASH, LETTER_R]); }
    else if c == TAB { out.Append([BACKSLASH, LETTER_T]); }
    else if c == BACKSPACE { out.Append([BACKSLASH, LETTER_B]); }
    else if c == FORMFEED { out.Append([BACKSLASH, LETTER_F]); }
    else if c < 0x20 { out.Append([BACKSLASH, UNICODE, ZERO, ZERO, HexDigit(c / 16), HexDigit(c % 16)]); }
    else { out.Push(c); }
  }

  method PushQuoted(out: Buffer, s: Bytes)
    modifies out
    ensures out.bytes == old(out.bytes) + WriteQuoted(s)
  {
    hide EscapeByte;
    out.Push(QUOTE);
    ghost var opening := out.bytes;
    assert s[0..] == s;
    for i := 0 to |s|
      invariant out.bytes + Escape(s[i..]) == opening + Escape(s)
    {
      ghost var before := out.bytes;
      assert s[i..][0] == s[i] && s[i..][1..] == s[i + 1..];
      PushEscape(out, s[i]);
      JsonPrinter.EscapeStep(before, s[i..]);
    }
    assert out.bytes + [] == out.bytes;
    out.Push(QUOTE);
    assert out.bytes == old(out.bytes) + ([QUOTE] + (Escape(s) + [QUOTE]));
  }

  /** `n` hex digits accumulated from the left. */
  method ReadHexRun(raw: Bytes, i: nat, n: nat) returns (r: Option<nat>)
    requires i + n <= |raw|
    ensures r == HexRun(raw, i, n)
  {
    var cp, k := 0, 0;
    while k < n
      invariant 0 <= k <= n && HexRun(raw, i, k) == Some(cp)
    {
      var d := HexValue(raw[i + k]);
      if d < 0 {
        HexRunFails(raw, i, k + 1, n);
        return None;
      }
      cp, k := cp * 16 + d, k + 1;
    }
    r := Some(cp);
  }

  lemma {:induction false} HexRunFails(raw: Bytes, i: nat, k: nat, n: nat)
    requires k <= n && HexRun(raw, i, k) == None
    ensures HexRun(raw, i, n) == None
  {
    if k < n { HexRunFails(raw, i, k, n - 1); }
  }

  /** The digits of \u{...} from `j` on. */
  method ReadBraced(raw: Bytes, start: nat) returns (r: Option<(nat, nat)>)
    ensures r == Braced(raw, start, 0, false)
  {
    var j: nat, cp: nat, any := start, 0, false;
    while j < |raw| && raw[j] != RBRACE
      invariant cp <= 0x10_FFFF && Braced(raw, j, cp, any) == Braced(raw, start, 0, false)
      decreases |raw| - j
    {
      var d := HexValue(raw[j]);
      if d < 0 { return None; }
      if cp * 16 + d > 0x10_FFFF { return None; }
      cp, any, j := cp * 16 + d, true, j + 1;
    }
    if !any || j >= |raw| { return None; }
    r := Some((cp, j));
  }

  /** A numeric escape of four or eight digits, a surrogate pair joined. */
  method ReadCodePoint(raw: Bytes, start: nat, need: nat) returns (r: Option<(nat, nat)>)
    requires need == 4 || need == 8
    ensures r == CodePointAt(raw, start, need)
  {
    hide HexRun;
    if start + need > |raw| { return None; }
    var hi := ReadHexRun(raw, start, need);
    if hi.None? { return None; }
    var cp, i := hi.value, start + need;
    if 0xD800 <= cp <= 0xDBFF && i + 6 <= |raw| && raw[i] == BACKSLASH && raw[i + 1] == UNICODE {
      var low := ReadHexRun(raw, i + 2, 4);
      if low.Some? && 0xDC00 <= low.value <= 0xDFFF {
        cp := 0x1_0000 + (cp - 0xD800) * 0x400 + (low.value - 0xDC00);
        i := i + 6;
      }
    }
    if cp > 0x10_FFFF || 0xD800 <= cp <= 0xDFFF { return None; }
    r := Some((cp, i));
  }

  /** The escape behind a backslash at `i`: what it appends and where the text goes on. */
  method ReadEscape(raw: Bytes, i: nat) returns (r: Option<(Bytes, nat)>)
    requires i < |raw| && raw[i] == BACKSLASH
    ensures r.Some? ==> r.value.1 > i && Unquote(raw, i) == Prepend(r.value.0, Unquote(raw, r.value.1))
    ensures r.None? ==> Unquote(raw, i) == None
  {
    hide CodePointAt, Braced, Utf8, SkipBlanks, HexValue;
    if i + 1 >= |raw| { return None; }
    var e := raw[i + 1];
    if e == NEWLINE || e == RETURN {
      var k := SkipLine(raw, if e == RETURN && i + 2 < |raw| && raw[i + 2] == NEWLINE then i + 3 else i + 2);
      PrependNothing(Unquote(raw, k));
      r := Some(([], k));
    } else if SimpleLetter(e).Some? {
      r := Some(([SimpleLetter(e).value], i + 2));
    } else if e == 120 {
      if i + 3 >= |raw| { return None; }
      var hi, lo := HexValue(raw[i + 2]), HexValue(raw[i + 3]);
      if hi < 0 || lo < 0 { return None; }
      r := Some(([hi * 16 + lo], i + 4));
    } else if e == UNICODE && i + 2 < |raw| && raw[i + 2] == LBRACE {
      var b := ReadBraced(raw, i + 3);
      if b.None? { return None; }
      r := Some((Utf8(b.value.0), b.value.1 + 1));
    } else if e == UNICODE || e == 85 {
      var b := ReadCodePoint(raw, i + 2, if e == UNICODE then 4 else 8);
      if b.None? { return None; }
      r := Some((Utf8(b.value.0), b.value.1));
    } else {
      r := None;
    }
  }

  method SkipLine(raw: Bytes, start: nat) returns (i: nat)
    ensures i == SkipBlanks(raw, start)
  {
    i := start;
    while i < |raw| && (raw[i] == SPACE || raw[i] == TAB)
      invariant SkipBlanks(raw, i) == SkipBlanks(raw, start)
      decreases |raw| - i
    {
      i := i + 1;
    }
  }

  method UnescapeQuoted(raw: Bytes) returns (r: Option<Bytes>)
    ensures r == Unquote(raw, 0)
  {
    hide Unquote;
    var out := new Buffer();
    var i := 0;
    PrependNothing(Unquote(raw, 0));
    while i < |raw|
      invariant fresh(out)
      invariant Prepend(out.bytes, Unquote(raw, i)) == Unquote(raw, 0)
      decreases |raw| - i
    {
      ghost var before := out.bytes;
      if raw[i] == BACKSLASH {
        var e := ReadEscape(raw, i);
        if e.None? { return None; }
        out.Append(e.value.0);
        PrependTwice(before, e.value.0, Unquote(raw, e.value.1));
        i := e.value.1;
      } else if raw[i] == RETURN {
        var next := if i + 1 < |raw| && raw[i + 1] == NEWLINE then i + 2 else i + 1;
        out.Push(NEWLINE);
        UnquotePlain(raw, i);
        PrependTwice(before, [NEWLINE], Unquote(raw, next));
        i := next;
      } else {
        out.Push(raw[i]);
        UnquotePlain(raw, i);
        PrependTwice(before, [raw[i]], Unquote(raw, i + 1));
        i := i + 1;
      }
    }
    UnquoteDone(raw, i);
    assert out.bytes + [] == out.bytes;
    r := Some(out.bytes);
  }

  lemma UnquotePlain(raw: Bytes, i: nat)
    requires i < |raw| && raw[i] != BACKSLASH
    ensures Unquote(raw, i)
         == if raw[i] == RETURN
            then Prepend([NEWLINE], Unquote(raw, if i + 1 < |raw| && raw[i + 1] == NEWLINE then i + 2 else i + 1))
            else Prepend([raw[i]], Unquote(raw, i + 1))
  {
  }

  lemma UnquoteDone(raw: Bytes, i: nat)
    requires i >= |raw|
    ensures Unquote(raw, i) == Some([])
  {
  }

  // ---------- Folding and chomping ----------

  method FindFeed(s: Bytes, start: nat) returns (e: nat)
    ensures e == FeedFrom(s, start)
  {
    e := start;
    while e < |s| && s[e] != NEWLINE
      invariant FeedFrom(s, e) == FeedFrom(s, start)
      decreases |s| - e
    {
      e := e + 1;
    }
  }

  method FoldScalar(s: Bytes) returns (res: Bytes)
    ensures res == Fold(s)
  {
    res := [];
    var i, para := 0, false;
    while i < |s|
      invariant FoldFrom(s, i, res, para) == FoldFrom(s, 0, [], false)
      decreases |s| - i
    {
      var eol := FindFeed(s, i);
      var seg := s[i..eol];
      if res == [] {
        res := seg;
        para := false;
      } else if seg == [] {
        if !para { res, para := res + [NEWLINE], true; }
      } else {
        if para { res := res + seg; } else { res := res + ([SPACE] + seg); }
        para := false;
      }
      i := eol + 1;
    }
    if s != [] && s[|s| - 1] == NEWLINE && (res == [] || res[|res| - 1] != NEWLINE) { res := res + [NEWLINE]; }
  }

  method CountTrailing(s: Bytes) returns (k: nat)
    ensures k == Trailing(s)
  {
    k := 0;
    assert s[..|s|] == s;
    while k < |s| && s[|s| - 1 - k] == NEWLINE
      invariant 0 <= k <= |s| && k + Trailing(s[..|s| - k]) == Trailing(s)
    {
      var init := s[..|s| - k];
      assert init[..|init| - 1] == s[..|s| - (k + 1)];
      k := k + 1;
    }
  }

  // ---------- Writing ----------

  method WriteBlockScalar(out: Buffer, s: Bytes)
    modifies out
    ensures out.bytes == old(out.bytes) + WriteBlock(s)
  {
    hide Indented, Lines, Feeds;
    var k := CountTrailing(s);
    var head: Bytes := if k > 0 then [BAR, PLUS, NEWLINE] else [BAR, NEWLINE];
    out.Append(head);
    WriteLines(out, s[..|s| - k]);
    PushFeeds(out, k);
    assert out.bytes == old(out.bytes) + (head + (Indented(Lines(s[..|s| - k])) + Feeds(k)));
  }

  method WriteLines(out: Buffer, body: Bytes)
    modifies out
    ensures out.bytes == old(out.bytes) + Indented(Lines(body))
  {
    hide FeedFrom;
    var i := 0;
    while i < |body|
      invariant out.bytes + Indented(LinesOf(body, i)) == old(out.bytes) + Indented(LinesOf(body, 0))
      decreases |body| - i
    {
      ghost var now := out.bytes;
      var eol := FindFeed(body, i);
      IndentedStep(body, i, now);
      out.Append(MARGIN);
      out.Append(body[i..eol]);
      out.Push(NEWLINE);
      i := eol + 1;
    }
    assert out.bytes + [] == out.bytes;
  }

  method PushFeeds(out: Buffer, k: nat)
    modifies out
    ensures out.bytes == old(out.bytes) + Feeds(k)
  {
    for j := 0 to k
      invariant out.bytes + Feeds(k - j) == old(out.bytes) + Feeds(k)
    {
      assert out.bytes + ([NEWLINE] + Feeds(k - j - 1)) == out.bytes + [NEWLINE] + Feeds(k - j - 1);
      out.Push(NEWLINE);
    }
    assert out.bytes + [] == out.bytes;
  }

  lemma IndentedStep(body: Bytes, i: nat, now: Bytes)
    requires i < |body|
    ensures var e := FeedFrom(body, i);
      now + Indented(LinesOf(body, i))
      == now + MARGIN + body[i..e] + [NEWLINE] + Indented(LinesOf(body, e + 1))
  {
    var e := FeedFrom(body, i);
    var rest := LinesOf(body, e + 1);
    assert LinesOf(body, i)[1..] == rest;
    assert now + (MARGIN + (body[i..e] + ([NEWLINE] + Indented(rest))))
        == now + MARGIN + body[i..e] + [NEWLINE] + Indented(rest);
  }

  method WriteFoldedScalar(out: Buffer, s: Bytes)
    requires s != []
    modifies out
    ensures out.bytes == old(out.bytes) + WriteFolded(s)
  {
    out.Append([GREATER, NEWLINE] + MARGIN);
    out.Append(s[..|s| - 1]);
    out.Append([NEWLINE, NEWLINE]);
  }

  method LineIsBlank(line: Bytes) returns (blank: bool)
    ensures blank == AllBlank(line)
  {
    assert line[0..] == line;
    for i := 0 to |line|
      invariant AllBlank(line[i..]) == AllBlank(line)
    {
      assert line[i..][1..] == line[i + 1..];
      if line[i] != SPACE && line[i] != TAB && line[i] != RETURN { return false; }
    }
    blank := true;
  }

  /** udeCanBlockEncode: line by line, whether content was seen and whether the last line was blank. */
  method CanBlockEncode(s: Bytes) returns (r: bool)
    ensures r == CanBlock(s)
  {
    hide AllBlank;
    if NEWLINE !in s { return false; }
    var trailing := CountTrailing(s);
    if trailing >= 2 { return false; }
    var seenContent, trailingBlank, i := false, false, 0;
    while i < |s|
      invariant trailingBlank ==> seenContent
      invariant BlockScan(s, i, seenContent, trailingBlank) == BlockScan(s, 0, false, false)
      decreases |s| - i
    {
      var eol := FindFeed(s, i);
      var line := s[i..eol];
      var blank := LineIsBlank(line);
      if eol == |s| {
        if blank && seenContent { return false; }
        if !blank {
          if trailingBlank { return false; }
          seenContent := true;
        }
        return seenContent;
      }
      if blank {
        if seenContent {
          if trailingBlank { return false; }
          trailingBlank := true;
        }
      } else {
        if trailingBlank { return false; }
        BlankNothing();
        if !seenContent && (line[0] == SPACE || line[0] == TAB || line[0] == RETURN) { return false; }
        seenContent := true;
      }
      i := eol + 1;
    }
    r := seenContent;
  }

  method CanFoldEncode(s: Bytes) returns (r: bool)
    ensures r == CanFold(s)
  {
    if |s| < 2 || s[|s| - 1] != NEWLINE { return false; }
    var body := s[..|s| - 1];
    if NEWLINE in body || RETURN in body { return false; }
    r := body[0] != SPACE && body[0] != TAB;
  }

  // ---------- The parser ----------

  class Reader {
    const text: Bytes
    var pos: nat

    constructor (text: Bytes)
      ensures this.text == text && pos == 0
    {
      this.text := text;
      pos := 0;
    }

    /** At an opening quote. */
    method ParseQuoted() returns (r: Result<Bytes>)
      requires pos < |text|
      modifies this
      ensures Agrees(ReadQuoted(text, old(pos)), r, pos)
    {
      hide Unquote;
      pos := pos + 1;
      var start, escaped := pos, false;
      while pos < |text|
        invariant start <= pos && QuoteAfter(text, if escaped then pos + 1 else pos) == QuoteAfter(text, start)
        invariant escaped ==> pos <= |text|
        decreases |text| - pos
      {
        var c := text[pos];
        if escaped {
          escaped := false;
        } else if c == BACKSLASH {
          escaped := true;
        } else if c == QUOTE {
          break;
        }
        pos := pos + 1;
      }
      if pos >= |text| { return Failure(BadText); }
      var raw := text[start..pos];
      pos := pos + 1;
      var s := UnescapeQuoted(raw);
      if s.None? { return Failure(BadText); }
      if |s.value| > MAX_STRING_LEN { return Failure(TooLarge); }
      r := Success(s.value);
    }

    /** The header digit and chomping sign, up to the start of the content. */
    method ParseBlockHeader() returns (explicitIndent: Option<nat>, chomp: Chomp)
      modifies this
      ensures explicitIndent == MarginDigit(text, old(pos))
      ensures var sign := if explicitIndent.Some? then old(pos) + 1 else old(pos);
        chomp == ChompAt(text, sign)
        && var e := FeedFrom(text, if chomp.Clip? then sign else sign + 1); pos == if e < |text| then e + 1 else e
    {
      explicitIndent, chomp := None, Clip;
      if pos < |text| && IsDigit(text[pos]) {
        explicitIndent := Some(text[pos] - ZERO);
        pos := pos + 1;
      }
      if pos < |text| && (text[pos] == PLUS || text[pos] == MINUS) {
        chomp := if text[pos] == PLUS then Keep else Strip;
        pos := pos + 1;
      }
      pos := FindFeed(text, pos);
      if pos < |text| { pos := pos + 1; }
    }

    /** The content lines, up to the end or a line left of the margin; None at a tab that indents. */
    method ParseContent(explicitIndent: Option<nat>) returns (r: Option<seq<Bytes>>)
      modifies this
      ensures r == Contents(LinesOf(text, old(pos)), explicitIndent)
    {
      hide LinesOf, FeedFrom, Contents;
      var content: seq<Bytes> := [];
      var baseIndent := explicitIndent;
      ghost var target := Contents(LinesOf(text, pos), explicitIndent);
      PrependNothing(target);
      while pos < |text|
        invariant Prepend(content, Contents(LinesOf(text, pos), baseIndent)) == target
        decreases |text| - pos
      {
        var e := FindFeed(text, pos);
        var line := text[pos..e];
        ghost var rest := LinesOf(text, e + 1);
        ContentStep(text, pos, baseIndent);
        if line != [] && line[|line| - 1] == RETURN { line := line[..|line| - 1]; }
        var indent := CountIndent(line);
        var blank := indent == |line|;
        if !blank && TAB in line[..indent] { return None; }
        var piece: Bytes := [];
        if baseIndent.None? {
          if !blank {
            baseIndent := Some(indent);
            piece := line[indent..];
          }
        } else if !blank {
          if indent < baseIndent.value {
            assert content + [] == content;
            return Some(content);
          }
          piece := line[baseIndent.value..];
        }
        PrependTwice(content, [piece], Contents(rest, baseIndent));
        content := content + [piece];
        pos := e + 1;
      }
      ContentEnd(text, pos, baseIndent);
      assert content + [] == content;
      r := Some(content);
    }

    /** At `|` or `>`. */
    method ParseBlockScalar() returns (r: Option<Bytes>)
      requires pos < |text|
      modifies this
      ensures r == ReadBlock(text, old(pos))
    {
      hide LinesOf, FeedFrom, Contents, Join, Fold, ReadBlock, MarginDigit, ChompAt, Chomped;
      var indicator := text[pos];
      pos := pos + 1;
      var explicitIndent, chomp := ParseBlockHeader();
      BlockIs(text, old(pos), explicitIndent, chomp, pos);
      var content := ParseContent(explicitIndent);
      if content.None? { return None; }
      var out := JoinAll(content.value);
      if indicator == GREATER { out := FoldScalar(out); }
      out := ApplyChomping(out, chomp);
      r := if |out| > MAX_STRING_LEN then None else Some(out);
    }
  }

  /** Reading a block scalar, once its header is read. */
  lemma BlockIs(text: Bytes, pos: nat, digit: Option<nat>, chomp: Chomp, start: nat)
    requires pos < |text| && digit == MarginDigit(text, pos + 1)
    requires chomp == ChompAt(text, if digit.Some? then pos + 2 else pos + 1)
    requires var sign := if digit.Some? then pos + 2 else pos + 1;
      var e := FeedFrom(text, if chomp.Clip? then sign else sign + 1); start == if e < |text| then e + 1 else e
    ensures var content := Contents(LinesOf(text, start), digit);
      content.None? ==> ReadBlock(text, pos) == None
    ensures var content := Contents(LinesOf(text, start), digit);
      content.Some? ==>
        var out := Chomped(if text[pos] == GREATER then Fold(Join(content.value)) else Join(content.value), chomp);
        ReadBlock(text, pos) == if |out| > MAX_STRING_LEN then None else Some(out)
  {
    hide Contents, Join, Fold, Chomped;
    if start >= |text| {
      LinesPastEnd(text, start);
      LinesPastEnd(text, start + 1);
    }
  }

  lemma LinesPastEnd(text: Bytes, i: nat)
    requires i >= |text|
    ensures LinesOf(text, i) == []
  {
  }

  method ApplyChomping(s: Bytes, chomp: Chomp) returns (out: Bytes)
    ensures out == Chomped(s, chomp)
  {
    out := s;
    var k := CountTrailing(s);
    if chomp == Strip {
      out := s[..|s| - k];
    } else if chomp != Keep && k > 1 {
      out := s[..|s| - (k - 1)];
    }
  }

  method CountIndent(line: Bytes) returns (indent: nat)
    ensures indent == Indent(line)
  {
    indent := 0;
    assert line[0..] == line;
    while indent < |line| && (line[indent] == SPACE || line[indent] == TAB)
      invariant 0 <= indent <= |line| && indent + Indent(line[indent..]) == Indent(line)
    {
      assert line[indent..][1..] == line[indent + 1..];
      indent := indent + 1;
    }
  }

  /** One line of the content loop. */
  lemma ContentStep(text: Bytes, i: nat, margin: Option<nat>)
    requires i < |text|
    ensures var e := FeedFrom(text, i); var line := DropReturn(text[i..e]); var rest := LinesOf(text, e + 1);
      var indent := Indent(line);
      Contents(LinesOf(text, i), margin)
      == if indent == |line| then Prepend([[]], Contents(rest, margin))
         else if TAB in line[..indent] then None
         else if margin.None? then Prepend([line[indent..]], Contents(rest, Some(indent)))
         else if indent < margin.value then Some([])
         else Prepend([line[margin.value..]], Contents(rest, margin))
  {
    var e := FeedFrom(text, i);
    var rest := LinesOf(text, e + 1);
    var all := LinesOf(text, i);
    assert all[0] == text[i..e] && all[1..] == rest;
  }

  lemma ContentEnd(text: Bytes, i: nat, margin: Option<nat>)
    requires i >= |text|
    ensures Contents(LinesOf(text, i), margin) == Some([])
  {
  }

  method JoinAll(content: seq<Bytes>) returns (out: Bytes)
    ensures out == Join(content)
  {
    hide Join, Follow;
    out := [];
    for i := 0 to |content|
      invariant i == 0 ==> out == []
      invariant i > 0 ==> Join(content) == out + Follow(content[i..])
    {
      ghost var before := out;
      assert content[i..][1..] == content[i + 1..];
      if i > 0 {
        FollowMore(content[i..]);
        out := out + [NEWLINE];
      } else {
        FollowStep(content);
      }
      out := out + content[i];
      if i > 0 {
        assert before + ([NEWLINE] + (content[i] + Follow(content[i + 1..]))) == out + Follow(content[i + 1..]);
      }
    }
    JoinNothing();
    FollowNothing();
    assert content[|content|..] == [] && out + [] == out;
  }

  lemma JoinNothing()
    ensures Join([]) == []
  {
  }

  lemma FollowNothing()
    ensures Follow([]) == []
  {
  }

  lemma FollowMore(lines: seq<Bytes>)
    requires lines != []
    ensures Follow(lines) == [NEWLINE] + (lines[0] + Follow(lines[1..]))
  {
    hide Join;
    FollowStep(lines);
  }

  /** What joining has still to add behind a first line. */
  function Follow(lines: seq<Bytes>): (r: Bytes)
  {
    if lines == [] then [] else [NEWLINE] + Join(lines)
  }

  lemma FollowStep(lines: seq<Bytes>)
    requires lines != []
    ensures Join(lines) == lines[0] + Follow(lines[1..])
  {
    if |lines| == 1 { assert lines[0] + [] == lines[0]; }
    else { assert lines[0] + [NEWLINE] + Join(lines[1..]) == lines[0] + ([NEWLINE] + Join(lines[1..])); }
  }
}
