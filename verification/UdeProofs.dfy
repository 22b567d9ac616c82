/** UDE scalar styles read back: quoted strings always, folded and block scalars exactly when their lines keep. */
module UdeProofs {
  import opened Bytes
  import opened Values
  import opened Text
  import opened Ude

  // ---------- Quoted strings ----------

  lemma FourHex(b: Byte, raw: Bytes, i: nat)
    requires b < 0x20 && i + 4 <= |raw|
    requires raw[i] == ZERO && raw[i + 1] == ZERO && raw[i + 2] == HexDigit(b / 16) && raw[i + 3] == HexDigit(b % 16)
    ensures HexRun(raw, i, 4) == Some(b)
  {
    HexInverse(b / 16);
    HexInverse(b % 16);
    assert HexValue(ZERO) == 0;
    assert HexRun(raw, i, 0) == Some(0);
    assert HexRun(raw, i, 1) == Some(0);
    assert HexRun(raw, i, 2) == Some(0);
    assert HexRun(raw, i, 3) == Some(b / 16);
  }

  lemma UnquoteByte(b: Byte, raw: Bytes, i: nat)
    requires At(raw, i, EscapeByte(b))
    ensures Unquote(raw, i) == Prepend([b], Unquote(raw, i + |EscapeByte(b)|))
  {
    hide CodePointAt, Braced, HexRun;
    var e := EscapeByte(b);
    AtHead(raw, i, e);
    if |e| == 2 {
      AtHead(raw, i + 1, e[1..]);
    } else if |e| == 6 {
      assert forall k :: 0 <= k < 6 ==> raw[i..i + 6][k] == e[k];
      assert raw[i + 1] == e[1] && raw[i + 2] == e[2] && raw[i + 3] == e[3] && raw[i + 4] == e[4] && raw[i + 5] == e[5];
      ControlByte(b, raw, i);
    }
  }

  lemma ControlByte(b: Byte, raw: Bytes, i: nat)
    requires b < 0x20 && i + 6 <= |raw| && raw[i + 2] == ZERO && raw[i + 3] == ZERO
    requires raw[i + 4] == HexDigit(b / 16) && raw[i + 5] == HexDigit(b % 16)
    ensures CodePointAt(raw, i + 2, 4) == Some((b, i + 6)) && Utf8(b) == [b]
  {
    FourHex(b, raw, i + 2);
  }

  lemma {:induction false} UnquoteEscape(s: Bytes, raw: Bytes, i: nat)
    requires At(raw, i, Escape(s)) && i + |Escape(s)| == |raw|
    ensures Unquote(raw, i) == Some(s)
    decreases |s|
  {
    hide Unquote, EscapeByte;
    if s == [] {
      UnquoteEnd(raw);
    } else {
      AtSplit(raw, i, EscapeByte(s[0]), Escape(s[1..]));
      UnquoteByte(s[0], raw, i);
      UnquoteEscape(s[1..], raw, i + |EscapeByte(s[0])|);
      assert [s[0]] + s[1..] == s;
    }
  }

  lemma UnquoteEnd(raw: Bytes)
    ensures Unquote(raw, |raw|) == Some([])
  {
  }

  lemma {:induction false} QuoteFound(s: Bytes, text: Bytes, pos: nat)
    requires At(text, pos, Escape(s) + [QUOTE])
    ensures QuoteAfter(text, pos) == Some(pos + |Escape(s)|)
    decreases |s|
  {
    hide EscapeByte;
    if s == [] {
      AtHead(text, pos, [QUOTE]);
    } else {
      assert Escape(s) + [QUOTE] == EscapeByte(s[0]) + (Escape(s[1..]) + [QUOTE]);
      AtSplit(text, pos, EscapeByte(s[0]), Escape(s[1..]) + [QUOTE]);
      QuotePasses(s[0], text, pos);
      QuoteFound(s[1..], text, pos + |EscapeByte(s[0])|);
    }
  }

  lemma QuotePasses(b: Byte, text: Bytes, pos: nat)
    requires At(text, pos, EscapeByte(b))
    ensures QuoteAfter(text, pos) == QuoteAfter(text, pos + |EscapeByte(b)|)
  {
    var e := EscapeByte(b);
    AtHead(text, pos, e);
    if |e| == 6 {
      assert forall k :: 0 <= k < 6 ==> text[pos..pos + 6][k] == e[k];
      assert text[pos + 2] == e[2] && text[pos + 3] == e[3] && text[pos + 4] == e[4] && text[pos + 5] == e[5];
      assert QuoteAfter(text, pos) == QuoteAfter(text, pos + 2) == QuoteAfter(text, pos + 3);
      assert QuoteAfter(text, pos + 3) == QuoteAfter(text, pos + 4) == QuoteAfter(text, pos + 5);
    }
  }

  /** Every byte string, written in quotes at any place of any text, reads back up to its closing quote. */
  lemma QuotedReadsBack(text: Bytes, pos: nat, s: Bytes)
    requires At(text, pos, WriteQuoted(s))
    ensures ReadQuoted(text, pos) == if |s| > MAX_STRING_LEN then Err(TooLarge) else Ok(s, pos + |WriteQuoted(s)|)
  {
    hide Unquote, QuoteAfter;
    AtHead(text, pos, WriteQuoted(s));
    assert WriteQuoted(s)[1..] == Escape(s) + [QUOTE];
    QuoteFound(s, text, pos + 1);
    AtSplit(text, pos + 1, Escape(s), [QUOTE]);
    var raw := text[pos + 1..pos + 1 + |Escape(s)|];
    assert raw == Escape(s);
    UnquoteEscape(s, raw, 0);
  }

  // ---------- Lines ----------

  ghost predicate OneLine(line: Bytes) { NEWLINE !in line }

  ghost predicate AllOneLine(lines: seq<Bytes>) { forall i :: 0 <= i < |lines| ==> OneLine(lines[i]) }

  lemma {:induction false} FeedFound(text: Bytes, i: nat, line: Bytes)
    requires At(text, i, line) && OneLine(line)
    requires i + |line| < |text| ==> text[i + |line|] == NEWLINE
    ensures FeedFrom(text, i) == i + |line|
    decreases |line|
  {
    if line != [] {
      AtHead(text, i, line);
      FeedFound(text, i + 1, line[1..]);
    }
  }

  lemma LinesStep(text: Bytes, i: nat)
    requires i < |text|
    ensures var e := FeedFrom(text, i); LinesOf(text, i) == [text[i..e]] + LinesOf(text, e + 1)
  {
  }

  lemma LinesEnd(text: Bytes, i: nat)
    requires i >= |text|
    ensures LinesOf(text, i) == []
  {
  }

  lemma LineFirst(text: Bytes, i: nat, line: Bytes, rest: Bytes)
    requires At(text, i, line + ([NEWLINE] + rest)) && OneLine(line)
    ensures LinesOf(text, i) == [line] + LinesOf(text, i + |line| + 1)
    ensures At(text, i + |line| + 1, rest)
  {
    hide LinesOf, FeedFrom;
    AtSplit(text, i, line, [NEWLINE] + rest);
    AtSplit(text, i + |line|, [NEWLINE], rest);
    AtHead(text, i + |line|, [NEWLINE]);
    FeedFound(text, i, line);
    LinesStep(text, i);
  }

  function Prefixed(lines: seq<Bytes>): (r: seq<Bytes>)
    ensures |r| == |lines|
  {
    if lines == [] then [] else [MARGIN + lines[0]] + Prefixed(lines[1..])
  }

  function Empties(n: nat): (r: seq<Bytes>)
    ensures |r| == n
  {
    if n == 0 then [] else [[]] + Empties(n - 1)
  }

  lemma {:induction false} EmptyLines(text: Bytes, i: nat, n: nat)
    requires At(text, i, Feeds(n)) && i + n == |text|
    ensures LinesOf(text, i) == Empties(n)
    decreases n
  {
    if n > 0 {
      assert Feeds(n) == [] + ([NEWLINE] + Feeds(n - 1));
      LineFirst(text, i, [], Feeds(n - 1));
      EmptyLines(text, i + 1, n - 1);
    }
  }

  /** What the writers put down line by line is split into those lines again. */
  lemma {:induction false} WrittenLines(text: Bytes, i: nat, lines: seq<Bytes>, n: nat)
    requires At(text, i, Indented(lines) + Feeds(n)) && i + |Indented(lines) + Feeds(n)| == |text|
    requires AllOneLine(lines)
    ensures LinesOf(text, i) == Prefixed(lines) + Empties(n)
    decreases |lines|
  {
    hide LinesOf;
    if lines == [] {
      assert Indented(lines) + Feeds(n) == Feeds(n);
      EmptyLines(text, i, n);
      assert [] + Empties(n) == Empties(n);
    } else {
      var line := MARGIN + lines[0];
      var rest := Indented(lines[1..]) + Feeds(n);
      assert Indented(lines) + Feeds(n) == line + ([NEWLINE] + rest);
      assert OneLine(lines[0]) && OneLine(line);
      LineFirst(text, i, line, rest);
      WrittenLines(text, i + |line| + 1, lines[1..], n);
      assert [line] + (Prefixed(lines[1..]) + Empties(n)) == Prefixed(lines) + Empties(n);
    }
  }

  lemma {:induction false} FeedBounds(text: Bytes, i: nat)
    requires i <= |text|
    ensures var e := FeedFrom(text, i); i <= e <= |text| && OneLine(text[i..e]) && (e < |text| ==> text[e] == NEWLINE)
    decreases |text| - i
  {
    if i < |text| && text[i] != NEWLINE {
      FeedBounds(text, i + 1);
      var e := FeedFrom(text, i + 1);
      assert text[i..e] == [text[i]] + text[i + 1..e];
    }
  }

  /** The lines of a text that does not end with a line feed, joined by line feeds, are that text. */
  lemma {:induction false} JoinLines(text: Bytes, i: nat)
    requires i < |text| && text[|text| - 1] != NEWLINE
    ensures LinesOf(text, i) != [] && AllOneLine(LinesOf(text, i)) && Join(LinesOf(text, i)) == text[i..]
    decreases |text| - i
  {
    hide LinesOf, FeedFrom, Join;
    FeedBounds(text, i);
    LinesStep(text, i);
    var e := FeedFrom(text, i);
    var rest := LinesOf(text, e + 1);
    JoinStep([text[i..e]] + rest);
    if e < |text| {
      JoinLines(text, e + 1);
      assert ([text[i..e]] + rest)[1..] == rest;
      assert text[i..] == text[i..e] + ([NEWLINE] + text[e + 1..]);
    } else {
      LinesEnd(text, e + 1);
      assert text[i..e] == text[i..];
    }
  }

  lemma JoinStep(lines: seq<Bytes>)
    requires lines != []
    ensures Join(lines) == if |lines| == 1 then lines[0] else lines[0] + ([NEWLINE] + Join(lines[1..]))
  {
  }

  /** A text comes from one list of lines only. */
  lemma {:induction false} JoinInjective(a: seq<Bytes>, b: seq<Bytes>)
    requires a != [] && b != [] && AllOneLine(a) && AllOneLine(b) && Join(a) == Join(b)
    ensures a == b
    decreases |a|
  {
    hide Join;
    JoinStep(a);
    JoinStep(b);
    SeveralLines(a);
    SeveralLines(b);
    if |a| > 1 {
      var ta, tb := [NEWLINE] + Join(a[1..]), [NEWLINE] + Join(b[1..]);
      FirstFeed(a[0], ta, b[0], tb);
      assert ta[1..] == Join(a[1..]) && tb[1..] == Join(b[1..]);
      JoinInjective(a[1..], b[1..]);
      assert a == [a[0]] + a[1..] && b == [b[0]] + b[1..];
    }
  }

  lemma SeveralLines(lines: seq<Bytes>)
    requires lines != [] && AllOneLine(lines)
    ensures |lines| == 1 <==> OneLine(Join(lines))
  {
    assert OneLine(lines[0]);
    if |lines| > 1 { assert Join(lines)[|lines[0]|] == NEWLINE; }
  }

  lemma FirstFeed(a: Bytes, ta: Bytes, b: Bytes, tb: Bytes)
    requires OneLine(a) && OneLine(b) && a + ta == b + tb
    requires ta != [] && tb != [] && ta[0] == NEWLINE && tb[0] == NEWLINE
    ensures a == b && ta == tb
  {
    NotBefore(a, ta, b, tb);
    NotBefore(b, tb, a, ta);
    assert a == (a + ta)[..|a|] && b == (b + tb)[..|a|];
    assert ta == (a + ta)[|a|..] && tb == (b + tb)[|a|..];
  }

  lemma NotBefore(a: Bytes, ta: Bytes, b: Bytes, tb: Bytes)
    requires OneLine(b) && a + ta == b + tb && ta != [] && ta[0] == NEWLINE
    ensures |b| <= |a|
  {
    var all := b + tb;
    assert (a + ta)[|a|] == NEWLINE;
    assert forall i :: 0 <= i < |b| ==> all[i] == b[i] && all[i] != NEWLINE;
  }

  // ---------- Block scalars ----------

  /** A line the reader hands back as it was written; `seen` is whether one that is not empty came before. */
  predicate KeptLine(line: Bytes, seen: bool)
  {
    line == []
    || (line[|line| - 1] != RETURN && Indent(line) < |line| && TAB !in line[..Indent(line)]
        && (seen || line[0] != SPACE))
  }

  predicate Kept(lines: seq<Bytes>, seen: bool)
  {
    lines == [] || (KeptLine(lines[0], seen) && Kept(lines[1..], seen || lines[0] != []))
  }

  lemma {:induction false} IndentBlank(line: Bytes)
    ensures forall i :: 0 <= i < Indent(line) ==> line[i] == SPACE || line[i] == TAB
    ensures Indent(line) < |line| ==> line[Indent(line)] != SPACE && line[Indent(line)] != TAB
  {
    if line != [] && (line[0] == SPACE || line[0] == TAB) {
      IndentBlank(line[1..]);
      assert forall i :: 1 <= i < Indent(line) ==> line[i] == line[1..][i - 1];
    }
  }

  /** The margin moves a line's indentation by two. */
  lemma MarginIndent(line: Bytes)
    ensures Indent(MARGIN + line) == 2 + Indent(line)
    ensures (MARGIN + line)[2..] == line && (MARGIN + line)[..2 + Indent(line)] == MARGIN + line[..Indent(line)]
    ensures DropReturn(MARGIN + line) == MARGIN + DropReturn(line)
  {
    var m := MARGIN + line;
    assert m[1..] == [SPACE] + line;
    assert m[1..][1..] == line;
    assert Indent(m) == 1 + Indent(m[1..]) == 2 + Indent(line);
    if line != [] {
      assert m[|m| - 1] == line[|line| - 1];
      assert m[..|m| - 1] == MARGIN + line[..|line| - 1];
    }
  }

  function MarginSeen(seen: bool): (r: Option<nat>) { if seen then Some(2) else None }

  lemma ConsIs(a: Bytes, b: Option<seq<Bytes>>, line: Bytes, rest: seq<Bytes>)
    ensures Prepend([a], b) == Some([line] + rest) <==> a == line && b == Some(rest)
  {
    if b.Some? {
      assert ([a] + b.value)[0] == a && ([a] + b.value)[1..] == b.value;
      assert ([line] + rest)[0] == line && ([line] + rest)[1..] == rest;
    }
  }

  /** One written line: what the reader makes of it, and that a line that is not kept is never handed back. */
  lemma ContentsLine(line: Bytes, lines: seq<Bytes>, rest: seq<Bytes>, seen: bool)
    requires OneLine(line) && lines != [] && lines[0] == MARGIN + line
    ensures Contents(lines, MarginSeen(seen)) == Some([line] + rest)
      <==> KeptLine(line, seen) && Contents(lines[1..], MarginSeen(seen || line != [])) == Some(rest)
  {
    var cut := DropReturn(line);
    var read := MARGIN + cut;
    MarginIndent(line);
    MarginIndent(cut);
    IndentBlank(cut);
    var indent := Indent(read);
    if indent == |read| {
      ConsIs([], Contents(lines[1..], MarginSeen(seen)), line, rest);
    } else if TAB in read[..indent] {
      assert TAB in cut[..Indent(cut)];
    } else {
      assert TAB !in cut[..Indent(cut)] by {
        assert forall b :: b in cut[..Indent(cut)] ==> b in read[..indent];
      }
      assert read[indent..] == cut[Indent(cut)..];
      if seen {
        ConsIs(cut, Contents(lines[1..], Some(2)), line, rest);
      } else {
        ConsIs(cut[Indent(cut)..], Contents(lines[1..], Some(indent)), line, rest);
        if Indent(cut) > 0 { assert cut[..Indent(cut)][0] == cut[0]; }
      }
    }
  }

  lemma {:induction false} EmptyContents(n: nat, margin: Option<nat>)
    ensures Contents(Empties(n), margin) == Some(Empties(n))
  {
    if n > 0 { EmptyContents(n - 1, margin); }
  }

  lemma NothingPrefixed(lines: seq<Bytes>, n: nat)
    requires lines == []
    ensures Prefixed(lines) + Empties(n) == Empties(n) && lines + Empties(n) == Empties(n)
  {
  }

  lemma PrefixedFirst(lines: seq<Bytes>, n: nat)
    requires lines != []
    ensures var written := Prefixed(lines) + Empties(n);
      written != [] && written[0] == MARGIN + lines[0] && written[1..] == Prefixed(lines[1..]) + Empties(n)
    ensures lines + Empties(n) == [lines[0]] + (lines[1..] + Empties(n))
  {
    hide Empties, Prefixed;
    PrefixedStep(lines);
    FirstOf(MARGIN + lines[0], Prefixed(lines[1..]), Empties(n));
    FirstOf(lines[0], lines[1..], Empties(n));
    assert lines == [lines[0]] + lines[1..];
    var all := lines + Empties(n);
    assert all == [all[0]] + all[1..];
  }

  lemma PrefixedStep(lines: seq<Bytes>)
    requires lines != []
    ensures Prefixed(lines) == [MARGIN + lines[0]] + Prefixed(lines[1..])
  {
  }

  lemma FirstOf(a: Bytes, b: seq<Bytes>, c: seq<Bytes>)
    ensures var all := ([a] + b) + c; all != [] && all[0] == a && all[1..] == b + c
  {
  }

  /** The reader gives the written lines back exactly when they are kept. */
  lemma {:induction false} ContentsKept(lines: seq<Bytes>, n: nat, seen: bool)
    requires AllOneLine(lines)
    ensures Contents(Prefixed(lines) + Empties(n), MarginSeen(seen)) == Some(lines + Empties(n)) <==> Kept(lines, seen)
    decreases |lines|
  {
    hide Contents, KeptLine, Empties, Prefixed;
    if lines == [] {
      EmptyContents(n, MarginSeen(seen));
      NothingPrefixed(lines, n);
    } else {
      var written := Prefixed(lines) + Empties(n);
      var rest := lines[1..] + Empties(n);
      assert OneLine(lines[0]);
      PrefixedFirst(lines, n);
      ContentsLine(lines[0], written, rest, seen);
      ContentsKept(lines[1..], n, seen || lines[0] != []);
    }
  }

  lemma {:induction false} ContentsOneLine(lines: seq<Bytes>, margin: Option<nat>)
    requires AllOneLine(lines)
    ensures var r := Contents(lines, margin); r.Some? ==> AllOneLine(r.value)
    decreases |lines|
  {
    if lines != [] {
      assert OneLine(lines[0]);
      var rest := lines[1..];
      assert forall i :: 0 <= i < |rest| ==> rest[i] == lines[i + 1];
      ContentsOneLine(rest, margin);
      ContentsOneLine(rest, Some(Indent(DropReturn(lines[0]))));
    }
  }

  lemma {:induction false} PrefixedOneLine(lines: seq<Bytes>, n: nat)
    requires AllOneLine(lines)
    ensures AllOneLine(Prefixed(lines) + Empties(n)) && AllOneLine(lines + Empties(n))
    decreases |lines| + n
  {
    if lines != [] {
      assert OneLine(lines[0]);
      PrefixedOneLine(lines[1..], n);
      assert Prefixed(lines) + Empties(n) == [MARGIN + lines[0]] + (Prefixed(lines[1..]) + Empties(n));
      assert lines + Empties(n) == [lines[0]] + (lines[1..] + Empties(n));
    } else if n > 0 {
      PrefixedOneLine(lines, n - 1);
      assert Prefixed(lines) + Empties(n) == [[]] + (Prefixed(lines) + Empties(n - 1));
      assert lines + Empties(n) == [[]] + (lines + Empties(n - 1));
    }
  }

  lemma {:induction false} JoinOne(line: Bytes, n: nat)
    ensures Join([line] + Empties(n)) == line + Feeds(n)
    decreases n
  {
    hide Join;
    JoinStep([line] + Empties(n));
    if n > 0 {
      assert ([line] + Empties(n))[1..] == [[]] + Empties(n - 1);
      JoinOne([], n - 1);
      assert [] + Feeds(n - 1) == Feeds(n - 1);
    }
  }

  lemma {:induction false} JoinEmpties(lines: seq<Bytes>, n: nat)
    requires lines != []
    ensures Join(lines + Empties(n)) == Join(lines) + Feeds(n)
    decreases |lines|
  {
    hide Join, Empties, Feeds;
    JoinStep(lines);
    if |lines| == 1 {
      assert lines == [lines[0]];
      JoinOne(lines[0], n);
    } else {
      JoinStep(lines + Empties(n));
      assert (lines + Empties(n))[1..] == lines[1..] + Empties(n);
      JoinEmpties(lines[1..], n);
      Regrouped([NEWLINE], Join(lines[1..]), Feeds(n));
      Regrouped(lines[0], [NEWLINE] + Join(lines[1..]), Feeds(n));
    }
  }

  lemma {:induction false} TrailingFeeds(s: Bytes)
    ensures s == Body(s) + Feeds(Trailing(s))
    ensures Body(s) != [] ==> Body(s)[|Body(s)| - 1] != NEWLINE
  {
    var tail := s[|s| - Trailing(s)..];
    FeedsOnly(tail);
    assert s == Body(s) + tail;
  }

  lemma {:induction false} FeedsOnly(s: Bytes)
    requires forall i :: 0 <= i < |s| ==> s[i] == NEWLINE
    ensures s == Feeds(|s|)
  {
    if s != [] { FeedsOnly(s[1..]); }
  }

  /** Stripping down to one trailing line feed gives a text without one only from that text. */
  lemma ClippedIs(out: Bytes, body: Bytes)
    requires body == [] || body[|body| - 1] != NEWLINE
    requires body != []
    ensures Chomped(out, Clip) == body <==> out == body
  {
  }

  lemma BlockLines(s: Bytes)
    requires Body(s) != []
    ensures var ls := Lines(Body(s)); ls != [] && AllOneLine(ls) && Join(ls + Empties(Trailing(s))) == s
  {
    TrailingFeeds(s);
    JoinLines(Body(s), 0);
    JoinEmpties(Lines(Body(s)), Trailing(s));
    assert Body(s)[0..] == Body(s);
  }

  /** The header the writer puts down, and where its content starts. */
  lemma BlockHeader(s: Bytes)
    ensures var text := WriteBlock(s); var k := Trailing(s);
      MarginDigit(text, 1) == None && ChompAt(text, 1) == (if k > 0 then Keep else Clip)
      && FeedFrom(text, if k > 0 then 2 else 1) == (if k > 0 then 2 else 1) && text[0] == BAR
      && At(text, if k > 0 then 3 else 2, Indented(Lines(Body(s))) + Feeds(k))
      && (if k > 0 then 3 else 2) + |Indented(Lines(Body(s))) + Feeds(k)| == |text|
  {
    hide Indented, Lines, Feeds, Body;
    var head: Bytes := if Trailing(s) > 0 then [BAR, PLUS, NEWLINE] else [BAR, NEWLINE];
    var rest := Indented(Lines(Body(s))) + Feeds(Trailing(s));
    assert WriteBlock(s) == head + rest;
    assert (head + rest)[|head|..|head| + |rest|] == rest;
  }

  /** A string with anything but line feeds in it, written as a block scalar at the end of the input, reads back
      exactly when it is within the length limit and its lines are kept. */
  lemma BlockSurvives(s: Bytes)
    requires Body(s) != []
    ensures ReadBlock(WriteBlock(s), 0) == Some(s) <==> |s| <= MAX_STRING_LEN && Kept(Lines(Body(s)), false)
  {
    hide LinesOf, FeedFrom, Contents, Kept, Join, WriteBlock, Indented, Lines;
    var text, k, ls := WriteBlock(s), Trailing(s), Lines(Body(s));
    BlockHeader(s);
    BlockLines(s);
    WrittenLines(text, if k > 0 then 3 else 2, ls, k);
    var written := Prefixed(ls) + Empties(k);
    PrefixedOneLine(ls, k);
    ContentsOneLine(written, None);
    ContentsKept(ls, k, false);
    var r := Contents(written, None);
    if r.Some? {
      var out := Join(r.value);
      TrailingFeeds(s);
      if k == 0 {
        assert Body(s) == s;
        ClippedIs(out, s);
      }
      assert Chomped(out, if k > 0 then Keep else Clip) == s <==> out == s;
      OnlyThoseLines(r.value, ls + Empties(k), s);
    }
  }

  lemma OnlyThoseLines(a: seq<Bytes>, b: seq<Bytes>, s: Bytes)
    requires AllOneLine(a) && AllOneLine(b) && b != [] && Join(b) == s && s != []
    ensures Join(a) == s <==> a == b
  {
    assert Join([]) == [];
    if Join(a) == s { JoinInjective(a, b); }
  }

  /** Every string the encoder takes for a block scalar has such a body. */
  lemma {:induction false} ScanSeesContent(s: Bytes, i: nat, seen: bool, trailingBlank: bool)
    requires i <= |s| && BlockScan(s, i, seen, trailingBlank)
    ensures seen || exists j :: i <= j < |s| && s[j] != NEWLINE
    decreases |s| - i
  {
    if i < |s| && !seen {
      FeedBounds(s, i);
      var e := FeedFrom(s, i);
      if e == i { assert s[i..e] == []; }
      if e == i && e < |s| {
        ScanSeesContent(s, e + 1, false, false);
      } else {
        assert s[i] == s[i..e][0];
      }
    }
  }

  /** What the encoder writes as a block scalar reads back exactly when it is short enough and its lines are kept. */
  lemma BlockChoice(s: Bytes)
    requires CanBlock(s)
    ensures ReadBlock(WriteBlock(s), 0) == Some(s) <==> |s| <= MAX_STRING_LEN && Kept(Lines(Body(s)), false)
  {
    ScanSeesContent(s, 0, false, false);
    BlockSurvives(s);
  }

  /** The encoder takes a string whose second line a tab indents for a block scalar; it does not read back. */
  lemma TabbedLineLost()
    ensures var s: Bytes := [97, NEWLINE, TAB, 98]; CanBlock(s) && ReadBlock(WriteBlock(s), 0) != Some(s)
  {
    hide ReadBlock, WriteBlock;
    var s: Bytes := [97, NEWLINE, TAB, 98];
    TwoLines(s, [97], [TAB, 98]);
    assert Indent([TAB, 98][1..]) == 0;
    assert [TAB, 98][..1][0] == TAB;
    assert !Kept([[TAB, 98]], true);
    assert [[97], [TAB, 98]][1..] == [[TAB, 98]];
    BlockSurvives(s);
  }

  /** It also takes one whose first line that is not empty, being the last, starts with a space. */
  lemma LeadingSpaceLost()
    ensures var s: Bytes := [NEWLINE, SPACE, 98]; CanBlock(s) && ReadBlock(WriteBlock(s), 0) != Some(s)
  {
    hide ReadBlock, WriteBlock;
    var s: Bytes := [NEWLINE, SPACE, 98];
    TwoLines(s, [], [SPACE, 98]);
    assert [[], [SPACE, 98]][1..] == [[SPACE, 98]];
    assert !Kept([[SPACE, 98]], false);
    BlockSurvives(s);
  }

  lemma TwoLines(s: Bytes, a: Bytes, b: Bytes)
    requires s == a + ([NEWLINE] + b) && OneLine(a) && OneLine(b) && !AllBlank(b)
    requires a == [] || (!AllBlank(a) && a[0] != SPACE && a[0] != TAB && a[0] != RETURN)
    ensures CanBlock(s) && Body(s) == s && Lines(s) == [a, b]
  {
    hide LinesOf, FeedFrom, AllBlank, BlockScan, Trailing, Body;
    assert b != [] by { BlankNothing(); }
    assert s[|s| - 1] == b[|b| - 1] != NEWLINE;
    NoTrailing(s);
    TwoFeeds(s, a, b);
    TwoListed(s, a, b);
    ScanTwo(s, a, b);
  }

  lemma TwoParts(a: Bytes, b: Bytes)
    ensures var s := a + ([NEWLINE] + b);
      s[|a|] == NEWLINE && s[0..|a|] == a && s[|a| + 1..|s|] == b
  {
    assert a + ([NEWLINE] + b) == (a + [NEWLINE]) + b;
  }

  lemma TwoFeeds(s: Bytes, a: Bytes, b: Bytes)
    requires s == a + ([NEWLINE] + b) && OneLine(a) && OneLine(b)
    ensures FeedFrom(s, 0) == |a| && FeedFrom(s, |a| + 1) == |s| == |a| + 1 + |b|
    ensures s[0..|a|] == a && s[|a| + 1..|s|] == b && NEWLINE in s
  {
    hide FeedFrom;
    TwoParts(a, b);
    FeedFound(s, 0, a);
    FeedFound(s, |a| + 1, b);
  }

  lemma TwoListed(s: Bytes, a: Bytes, b: Bytes)
    requires |s| == |a| + 1 + |b| && FeedFrom(s, 0) == |a| && FeedFrom(s, |a| + 1) == |s| && b != []
    requires s[0..|a|] == a && s[|a| + 1..|s|] == b
    ensures LinesOf(s, 0) == [a, b]
  {
    hide LinesOf, FeedFrom;
    LinesStep(s, 0);
    LinesStep(s, |a| + 1);
    LinesEnd(s, |s| + 1);
  }

  lemma NoTrailing(s: Bytes)
    requires s != [] && s[|s| - 1] != NEWLINE
    ensures Trailing(s) == 0 && Body(s) == s
  {
  }

  lemma ScanTwo(s: Bytes, a: Bytes, b: Bytes)
    requires |s| == |a| + 1 + |b| && FeedFrom(s, 0) == |a| && FeedFrom(s, |a| + 1) == |s| && b != []
    requires s[0..|a|] == a && s[|a| + 1..|s|] == b && !AllBlank(b)
    requires a == [] || (!AllBlank(a) && a[0] != SPACE && a[0] != TAB && a[0] != RETURN)
    ensures BlockScan(s, 0, false, false)
  {
    hide AllBlank, FeedFrom;
    BlankNothing();
    assert BlockScan(s, |a| + 1, a != [], false);
  }

  // ---------- Folded scalars ----------

  lemma FoldOneLine(c: Bytes)
    requires OneLine(c)
    ensures Fold(c + [NEWLINE]) == c + [NEWLINE]
  {
    hide FeedFrom;
    var s := c + [NEWLINE];
    assert s[0..|c|] == c;
    FeedFound(s, 0, c);
    assert FoldFrom(s, |s|, c, false) == c;
    assert FoldFrom(s, 0, [], false) == c;
  }

  /** Without an inner line feed, a string written as a folded scalar at the end of the input reads back exactly when
      it ends with a line feed and its line neither starts with a blank nor ends with a carriage return. */
  lemma FoldSurvives(s: Bytes)
    requires s != [] && OneLine(s[..|s| - 1])
    ensures ReadBlock(WriteFolded(s), 0) == Some(s)
      <==> |s| <= MAX_STRING_LEN && s[|s| - 1] == NEWLINE
           && (|s| == 1 || (s[0] != SPACE && s[0] != TAB && s[|s| - 2] != RETURN))
  {
    hide LinesOf, FeedFrom, Contents, Fold, Kept, Join, Indented, Prefixed, Feeds, WriteFolded, Trailing, Chomped;
    var text, body := WriteFolded(s), s[..|s| - 1];
    var lines := [body];
    FoldHeader(s);
    WrittenLines(text, 2, lines, 1);
    FoldedLines(body);
    FoldContents(body);
    var r := Contents([MARGIN + body, []], None);
    if r.Some? {
      var c := r.value[0];
      JoinTwo(c);
      FoldOneLine(c);
      OneTrailing(c);
      assert s == body + [s[|s| - 1]];
      assert c + [NEWLINE] == s <==> c == body && s[|s| - 1] == NEWLINE;
    }
  }

  lemma FoldedLines(body: Bytes)
    ensures Prefixed([body]) + Empties(1) == [MARGIN + body, []]
  {
    assert Empties(1) == [[]];
  }

  lemma JoinTwo(c: Bytes)
    ensures Join([c, []]) == c + [NEWLINE]
  {
    assert [c, []][1..] == [[]];
    assert Join([[]]) == [];
  }

  lemma FoldHeader(s: Bytes)
    requires s != []
    ensures var text := WriteFolded(s);
      MarginDigit(text, 1) == None && ChompAt(text, 1) == Clip && FeedFrom(text, 1) == 1 && text[0] == GREATER
      && At(text, 2, Indented([s[..|s| - 1]]) + Feeds(1)) && 2 + |Indented([s[..|s| - 1]]) + Feeds(1)| == |text|
  {
    assert Feeds(1) == [NEWLINE];
    assert Indented([s[..|s| - 1]]) == MARGIN + (s[..|s| - 1] + [NEWLINE]);
  }

  lemma OneTrailing(c: Bytes)
    requires OneLine(c)
    ensures Chomped(c + [NEWLINE], Clip) == c + [NEWLINE]
  {
    assert (c + [NEWLINE])[..|c|] == c;
    assert Trailing(c) == 0;
  }

  lemma FoldContents(body: Bytes)
    requires OneLine(body)
    ensures var r := Contents([MARGIN + body, []], None);
      r.Some? ==> |r.value| == 2 && r.value == [r.value[0], []] && OneLine(r.value[0])
    ensures var r := Contents([MARGIN + body, []], None);
      r.Some? && r.value[0] == body
      <==> body == [] || (body[0] != SPACE && body[0] != TAB && body[|body| - 1] != RETURN)
  {
    var lines, cut := [MARGIN + body, []], DropReturn(body);
    var read := MARGIN + cut;
    MarginIndent(body);
    MarginIndent(cut);
    IndentBlank(cut);
    assert lines[1..] == [[]];
    var indent := Indent(read);
    assert Contents([], None) == Some([]) && Contents([], Some(indent)) == Some([]);
    EmptyContents(1, None);
    EmptyContents(1, Some(indent));
    assert Empties(1) == [[]];
    if indent < |read| {
      assert read[indent..] == cut[Indent(cut)..];
      if TAB in read[..indent] { assert Indent(cut) > 0; }
    }
  }

  /** Every string the encoder folds reads back, if it is short enough. */
  lemma FoldChoice(s: Bytes)
    requires CanFold(s)
    ensures ReadBlock(WriteFolded(s), 0) == Some(s) <==> |s| <= MAX_STRING_LEN
  {
    FoldSurvives(s);
  }
}
