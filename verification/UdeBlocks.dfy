/** Block and folded UDE scalars as anyone may write them: a margin of any width, given or found, chomping signs, blank
    lines, carriage returns, folding over several lines. */
module UdeBlocks {
  import opened Bytes
  import opened Values
  import opened Text
  import opened Ude
  import opened UdeProofs
  import Json
  import JsonNumbers

  // ---------- Folding ----------

  /** A line that is not empty, and how many empty lines stand before it. */
  datatype Run = Run(gap: nat, line: Bytes)

  ghost predicate RunsOk(rs: seq<Run>) { forall i :: 0 <= i < |rs| ==> rs[i].line != [] && OneLine(rs[i].line) }

  /** The lines as they stand in the text. */
  function RunsText(rs: seq<Run>): (r: Bytes)
  {
    if rs == [] then []
    else Feeds(rs[0].gap) + (rs[0].line + (if |rs| == 1 then [] else [NEWLINE] + RunsText(rs[1..])))
  }

  /** Lines next to each other are joined by a space, lines with empty lines between them by one line feed; empty lines in
      front are dropped. */
  function Folded(rs: seq<Run>): (r: Bytes)
  {
    if rs == [] then []
    else rs[0].line + FoldedBehind(rs[1..])
  }

  function FoldedBehind(rs: seq<Run>): (r: Bytes)
  {
    if rs == [] then [] else [if rs[0].gap == 0 then SPACE else NEWLINE] + (rs[0].line + FoldedBehind(rs[1..]))
  }

  lemma EmptyStep(s: Bytes, i: nat, res: Bytes, para: bool)
    requires i < |s| && s[i] == NEWLINE
    ensures res == [] ==> FoldFrom(s, i, res, para) == FoldFrom(s, i + 1, [], false)
    ensures res != [] ==> FoldFrom(s, i, res, para) == FoldFrom(s, i + 1, if para then res else res + [NEWLINE], true)
  {
    assert FeedFrom(s, i) == i;
  }

  /** Empty lines behind some text leave one line feed. */
  lemma {:induction false} GapFolds(n: nat, s: Bytes, i: nat, res: Bytes)
    requires At(s, i, Feeds(n)) && res != []
    ensures n > 0 ==> FoldFrom(s, i, res, true) == FoldFrom(s, i + n, res, true)
    ensures n > 0 ==> FoldFrom(s, i, res, false) == FoldFrom(s, i + n, res + [NEWLINE], true)
    decreases n
  {
    hide FoldFrom;
    if n > 0 {
      AtHead(s, i, Feeds(n));
      assert Feeds(n)[1..] == Feeds(n - 1);
      EmptyStep(s, i, res, true);
      EmptyStep(s, i, res, false);
      GapFolds(n - 1, s, i + 1, res);
      GapFolds(n - 1, s, i + 1, res + [NEWLINE]);
    }
  }

  lemma {:induction false} LeadingGap(n: nat, s: Bytes, i: nat)
    requires At(s, i, Feeds(n))
    ensures FoldFrom(s, i, [], false) == FoldFrom(s, i + n, [], false)
    decreases n
  {
    hide FoldFrom;
    if n > 0 {
      AtHead(s, i, Feeds(n));
      assert Feeds(n)[1..] == Feeds(n - 1);
      EmptyStep(s, i, [], false);
      LeadingGap(n - 1, s, i + 1);
    }
  }

  lemma LineFolds(line: Bytes, s: Bytes, i: nat, res: Bytes, para: bool)
    requires line != [] && OneLine(line) && At(s, i, line) && (i + |line| < |s| ==> s[i + |line|] == NEWLINE)
    ensures FoldFrom(s, i, res, para)
         == FoldFrom(s, i + |line| + 1, if res == [] then line else res + (if para then line else [SPACE] + line), false)
  {
    hide FeedFrom;
    FeedFound(s, i, line);
    assert s[i..i + |line|] == line;
    AtHead(s, i, line);
  }

  lemma FoldEnds(s: Bytes, i: nat, res: Bytes, para: bool)
    requires i >= |s|
    ensures FoldFrom(s, i, res, para) == res
  {
  }

  /** What is left when the lines end: a line feed if further ones follow. */
  lemma TailFolds(n: nat, s: Bytes, i: nat, res: Bytes)
    requires At(s, i, Feeds(n)) && i + n == |s| && res != []
    ensures n == 0 ==> FoldFrom(s, i + 1, res, false) == res
    ensures n > 0 ==> FoldFrom(s, i + 1, res, false) == if n > 1 then res + [NEWLINE] else res
  {
    hide FoldFrom;
    if n > 1 {
      AtHead(s, i, Feeds(n));
      assert Feeds(n)[1..] == Feeds(n - 1);
      GapFolds(n - 1, s, i + 1, res);
      FoldEnds(s, i + n, res + [NEWLINE], true);
    } else {
      FoldEnds(s, i + 1, res, false);
    }
  }

  /** The remaining lines behind some text `res`, then feeds to the end. */
  lemma {:induction false} RunsFold(rs: seq<Run>, n: nat, s: Bytes, i: nat, res: Bytes)
    requires RunsOk(rs) && rs != [] && At(s, i, RunsText(rs) + Feeds(n)) && i + |RunsText(rs)| + n == |s| && res != []
    ensures FoldFrom(s, i, res, false) == res + FoldedBehind(rs) + (if n > 1 then [NEWLINE] else [])
    decreases |rs|
  {
    hide *;
    var e := i + rs[0].gap + |rs[0].line|;
    var more := res + ([if rs[0].gap == 0 then SPACE else NEWLINE] + rs[0].line);
    FirstRun(rs, n, s, i);
    RunTurn(rs[0], s, i, res, more);
    if |rs| == 1 {
      TailFolds(n, s, e, more);
      BehindOne(rs, res, more);
      PlusNothing(more);
    } else {
      RunsFold(rs[1..], n, s, e + 1, more);
      BehindMore(rs, res, more, if n > 1 then [NEWLINE] else []);
    }
  }

  lemma PlusNothing(s: Bytes)
    ensures s + [] == s
  {
  }

  /** One line with the gap in front of it. */
  lemma RunTurn(r: Run, s: Bytes, i: nat, res: Bytes, more: Bytes)
    requires res != [] && r.line != [] && OneLine(r.line) && At(s, i, Feeds(r.gap)) && At(s, i + r.gap, r.line)
    requires var e := i + r.gap + |r.line|; e < |s| ==> s[e] == NEWLINE
    requires more == res + ([if r.gap == 0 then SPACE else NEWLINE] + r.line)
    ensures more != [] && FoldFrom(s, i, res, false) == FoldFrom(s, i + r.gap + |r.line| + 1, more, false)
  {
    hide *;
    GapFolds(r.gap, s, i, res);
    LineFolds(r.line, s, i + r.gap, if r.gap == 0 then res else res + [NEWLINE], r.gap > 0);
    Regrouped(res, [NEWLINE], r.line);
  }

  lemma BehindOne(rs: seq<Run>, res: Bytes, more: Bytes)
    requires |rs| == 1 && more == res + ([if rs[0].gap == 0 then SPACE else NEWLINE] + rs[0].line)
    ensures more == res + FoldedBehind(rs)
  {
    assert rs[1..] == [];
    assert rs[0].line + [] == rs[0].line;
  }

  lemma BehindMore(rs: seq<Run>, res: Bytes, more: Bytes, tail: Bytes)
    requires rs != [] && more == res + ([if rs[0].gap == 0 then SPACE else NEWLINE] + rs[0].line)
    ensures more + FoldedBehind(rs[1..]) + tail == res + FoldedBehind(rs) + tail
  {
    hide *;
    BehindStep(rs);
    var sep, rest := [if rs[0].gap == 0 then SPACE else NEWLINE], FoldedBehind(rs[1..]);
    Regrouped(sep, rs[0].line, rest);
    Regrouped(res, sep + rs[0].line, rest);
  }

  lemma BehindStep(rs: seq<Run>)
    requires rs != []
    ensures FoldedBehind(rs) == [if rs[0].gap == 0 then SPACE else NEWLINE] + (rs[0].line + FoldedBehind(rs[1..]))
  {
  }

  /** Where the first line and what follows it lie. */
  lemma FirstRun(rs: seq<Run>, n: nat, s: Bytes, i: nat)
    requires RunsOk(rs) && rs != [] && At(s, i, RunsText(rs) + Feeds(n)) && i + |RunsText(rs)| + n == |s|
    ensures var e := i + rs[0].gap + |rs[0].line|;
      && At(s, i, Feeds(rs[0].gap)) && At(s, i + rs[0].gap, rs[0].line) && rs[0].line != [] && OneLine(rs[0].line)
      && (e < |s| ==> s[e] == NEWLINE)
      && (|rs| == 1 ==> At(s, e, Feeds(n)) && e + n == |s|)
      && (|rs| > 1 ==> RunsOk(rs[1..]) && At(s, e + 1, RunsText(rs[1..]) + Feeds(n)) && e + 1 + |RunsText(rs[1..])| + n == |s|)
  {
    hide *;
    RunParts(rs, n, s, i);
    var e := i + rs[0].gap + |rs[0].line|;
    if |rs| == 1 {
      if n > 0 { FirstFeed(n); AtHead(s, e, Feeds(n)); }
    } else {
      AtSplit(s, e, [NEWLINE], RunsText(rs[1..]) + Feeds(n));
      AtHead(s, e, [NEWLINE]);
    }
  }

  lemma RunParts(rs: seq<Run>, n: nat, s: Bytes, i: nat)
    requires RunsOk(rs) && rs != [] && At(s, i, RunsText(rs) + Feeds(n)) && i + |RunsText(rs)| + n == |s|
    ensures rs[0].line != [] && OneLine(rs[0].line) && RunsOk(rs[1..]) && |Feeds(n)| == n
    ensures var e := i + rs[0].gap + |rs[0].line|;
      && At(s, i, Feeds(rs[0].gap)) && At(s, i + rs[0].gap, rs[0].line)
      && At(s, e, if |rs| == 1 then Feeds(n) else [NEWLINE] + (RunsText(rs[1..]) + Feeds(n)))
      && e + n + (if |rs| == 1 then 0 else 1 + |RunsText(rs[1..])|) == |s|
  {
    hide *;
    RunsUnfold(rs, n);
    RunIs(rs);
    FeedCount(n);
    FeedCount(rs[0].gap);
    AtSplit(s, i, Feeds(rs[0].gap), rs[0].line + Behind(rs, n));
    AtSplit(s, i + rs[0].gap, rs[0].line, Behind(rs, n));
  }

  /** What follows the first line. */
  function Behind(rs: seq<Run>, n: nat): (r: Bytes)
    requires rs != []
  {
    if |rs| == 1 then Feeds(n) else [NEWLINE] + (RunsText(rs[1..]) + Feeds(n))
  }

  lemma RunsUnfold(rs: seq<Run>, n: nat)
    requires rs != []
    ensures RunsText(rs) + Feeds(n) == Feeds(rs[0].gap) + (rs[0].line + Behind(rs, n))
    ensures |RunsText(rs)| == rs[0].gap + |rs[0].line| + if |rs| == 1 then 0 else 1 + |RunsText(rs[1..])|
    ensures Behind(rs, n) == if |rs| == 1 then Feeds(n) else [NEWLINE] + (RunsText(rs[1..]) + Feeds(n))
  {
    hide Feeds;
    var rest := if |rs| == 1 then [] else [NEWLINE] + RunsText(rs[1..]);
    Regrouped(rs[0].line, rest, Feeds(n));
    Regrouped(Feeds(rs[0].gap), rs[0].line + rest, Feeds(n));
    if |rs| > 1 { Regrouped([NEWLINE], RunsText(rs[1..]), Feeds(n)); } else { assert [] + Feeds(n) == Feeds(n); }
  }

  lemma RunIs(rs: seq<Run>)
    requires RunsOk(rs) && rs != []
    ensures rs[0].line != [] && OneLine(rs[0].line) && RunsOk(rs[1..])
  {
    hide OneLine;
  }

  lemma FirstFeed(n: nat)
    requires n > 0
    ensures Feeds(n) != [] && Feeds(n)[0] == NEWLINE
  {
  }

  lemma {:induction false} LastIsText(rs: seq<Run>)
    requires RunsOk(rs) && rs != []
    ensures Folded(rs) != [] && Folded(rs)[|Folded(rs)| - 1] != NEWLINE
    decreases |rs|
  {
    assert OneLine(rs[0].line);
    if |rs| > 1 {
      LastIsText(rs[1..]);
      assert Folded(rs) == (rs[0].line + [if rs[1].gap == 0 then SPACE else NEWLINE]) + Folded(rs[1..]);
    }
  }

  /** udeFoldScalar on any text that is not only line feeds. */
  lemma FoldIs(rs: seq<Run>, n: nat)
    requires RunsOk(rs) && rs != []
    ensures Fold(RunsText(rs) + Feeds(n)) == Folded(rs) + if n > 0 then [NEWLINE] else []
  {
    hide *;
    var s, gap, line := RunsText(rs) + Feeds(n), rs[0].gap, rs[0].line;
    var e := gap + |line|;
    FeedCount(n);
    JsonNumbers.AtWhole(s);
    FirstRun(rs, n, s, 0);
    LeadingGap(gap, s, 0);
    LineFolds(line, s, gap, [], false);
    FoldedStep(rs);
    var extra := if n > 1 then [NEWLINE] else [];
    if |rs| == 1 {
      TailFolds(n, s, e, line);
      OneFolded(rs);
      assert line + [] == line;
    } else {
      RunsFold(rs[1..], n, s, e + 1, line);
    }
    LastFeed(rs, n);
    FoldEnd(rs, n, s);
  }

  lemma FeedCount(n: nat)
    ensures |Feeds(n)| == n
  {
  }

  lemma FoldedStep(rs: seq<Run>)
    requires rs != []
    ensures Folded(rs) == rs[0].line + FoldedBehind(rs[1..])
  {
  }

  lemma FoldEnd(rs: seq<Run>, n: nat, s: Bytes)
    requires RunsOk(rs) && rs != [] && FoldFrom(s, 0, [], false) == Folded(rs) + if n > 1 then [NEWLINE] else []
    requires s != [] && (s[|s| - 1] == NEWLINE <==> n > 0)
    ensures Fold(s) == Folded(rs) + if n > 0 then [NEWLINE] else []
  {
    hide *;
    LastIsText(rs);
    FoldUnfold(s);
    PlusNothing(Folded(rs));
    if n > 1 { LastOf(Folded(rs), NEWLINE); }
  }

  lemma FoldUnfold(s: Bytes)
    ensures var res := FoldFrom(s, 0, [], false);
      Fold(s) == if s != [] && s[|s| - 1] == NEWLINE && (res == [] || res[|res| - 1] != NEWLINE) then res + [NEWLINE] else res
  {
    hide FoldFrom;
  }

  lemma LastOf(s: Bytes, b: Byte)
    ensures s + [b] != [] && (s + [b])[|s + [b]| - 1] == b
  {
  }

  lemma OneFolded(rs: seq<Run>)
    requires |rs| == 1
    ensures Folded(rs) == rs[0].line
  {
    assert rs[1..] == [];
    assert rs[0].line + [] == rs[0].line;
  }

  lemma {:induction false} LastFeed(rs: seq<Run>, n: nat)
    requires RunsOk(rs) && rs != []
    ensures var s := RunsText(rs) + Feeds(n); s != [] && (s[|s| - 1] == NEWLINE <==> n > 0)
    decreases |rs|
  {
    if n > 0 {
      assert forall k :: 0 <= k < n ==> Feeds(n)[k] == NEWLINE by { AllFeeds(n); }
    } else {
      assert RunsText(rs) + Feeds(n) == RunsText(rs);
      LastLine(rs);
    }
  }

  lemma {:induction false} AllFeeds(n: nat)
    ensures forall k :: 0 <= k < n ==> Feeds(n)[k] == NEWLINE
    decreases n
  {
    if n > 0 { AllFeeds(n - 1); }
  }

  lemma {:induction false} LastLine(rs: seq<Run>)
    requires RunsOk(rs) && rs != []
    ensures RunsText(rs) != [] && RunsText(rs)[|RunsText(rs)| - 1] != NEWLINE
    decreases |rs|
  {
    assert OneLine(rs[0].line);
    if |rs| > 1 {
      LastLine(rs[1..]);
    } else {
      assert rs[0].line + [] == rs[0].line;
    }
  }

  // ---------- Lines behind the header ----------

  /** A line of a block: text behind the margin, or nothing but blanks; perhaps a carriage return. */
  datatype Row = Row(text: Bytes, blanks: Bytes, ret: bool)

  predicate Blanks(s: Bytes) { forall i :: 0 <= i < |s| ==> s[i] == SPACE || s[i] == TAB }

  /** Text that has something else than blanks, no tab among those in front, and no carriage return at the end. */
  ghost predicate RowOk(r: Row)
  {
    if r.text == [] then Blanks(r.blanks)
    else OneLine(r.text) && Indent(r.text) < |r.text| && TAB !in r.text[..Indent(r.text)] && r.text[|r.text| - 1] != RETURN
  }

  ghost predicate RowsOk(rows: seq<Row>) { forall i :: 0 <= i < |rows| ==> RowOk(rows[i]) }

  function RowText(r: Row, margin: nat): (s: Bytes)
  {
    (if r.text == [] then r.blanks else Json.Spaces(margin) + r.text) + (if r.ret then [RETURN] else [])
  }

  function RowLines(rows: seq<Row>, margin: nat): (r: seq<Bytes>)
  {
    if rows == [] then [] else [RowText(rows[0], margin)] + RowLines(rows[1..], margin)
  }

  function RowTexts(rows: seq<Row>): (r: seq<Bytes>)
  {
    if rows == [] then [] else [rows[0].text] + RowTexts(rows[1..])
  }

  /** The first line with text starts at the margin. */
  predicate Anchored(rows: seq<Row>)
  {
    rows == [] || (if rows[0].text == [] then Anchored(rows[1..]) else Indent(rows[0].text) == 0)
  }

  predicate HasText(rows: seq<Row>) { rows != [] && (rows[0].text != [] || HasText(rows[1..])) }

  /** A line that ends the block: something left of the margin. */
  ghost predicate Stops(line: Bytes, margin: nat)
  {
    var s := DropReturn(line);
    Indent(s) < |s| && TAB !in s[..Indent(s)] && Indent(s) < margin
  }

  lemma {:induction false} SpacesIndent(m: nat, s: Bytes)
    ensures var t := Json.Spaces(m) + s;
      Indent(t) == m + Indent(s) && t[m..] == s && (TAB in t[..m + Indent(s)] <==> TAB in s[..Indent(s)])
    decreases m
  {
    hide *;
    SpacesStep(m, s);
    if m > 0 {
      var t, u := Json.Spaces(m) + s, Json.Spaces(m - 1) + s;
      SpacesIndent(m - 1, s);
      IndentStep(t);
      Shift(t, u, m, Indent(s));
    }
  }

  lemma SpacesStep(m: nat, s: Bytes)
    ensures m == 0 ==> Json.Spaces(m) + s == s && s[0..] == s && s[..0 + Indent(s)] == s[..Indent(s)]
    ensures m > 0 ==> Json.Spaces(m) + s == [SPACE] + (Json.Spaces(m - 1) + s)
  {
    hide Indent;
  }

  lemma IndentStep(t: Bytes)
    requires t != [] && t[0] == SPACE
    ensures Indent(t) == 1 + Indent(t[1..])
  {
  }

  lemma Shift(t: Bytes, u: Bytes, m: nat, k: nat)
    requires m > 0 && t == [SPACE] + u && m - 1 + k <= |u|
    ensures t[1..] == u && t[m..] == u[m - 1..] && (TAB in t[..m + k] <==> TAB in u[..m - 1 + k])
  {
    assert t[..m + k] == [SPACE] + u[..m - 1 + k];
  }

  lemma {:induction false} BlanksIndent(s: Bytes)
    requires Blanks(s)
    ensures Indent(s) == |s|
    decreases |s|
  {
    if s != [] {
      assert forall i :: 0 <= i < |s[1..]| ==> s[1..][i] == s[i + 1];
      BlanksIndent(s[1..]);
    }
  }

  lemma RowDropped(r: Row, margin: nat)
    requires RowOk(r)
    ensures DropReturn(RowText(r, margin)) == if r.text == [] then r.blanks else Json.Spaces(margin) + r.text
  {
    hide DropReturn, Indent, OneLine, Blanks;
    var s := if r.text == [] then r.blanks else Json.Spaces(margin) + r.text;
    if r.ret {
      DropOne(s);
    } else {
      PlusNothing(s);
      if r.text == [] { BlanksLast(s); } else { LastStays(Json.Spaces(margin), r.text); }
      DropNone(s);
    }
  }

  lemma DropOne(s: Bytes)
    ensures DropReturn(s + [RETURN]) == s
  {
    assert (s + [RETURN])[..|s|] == s;
  }

  lemma DropNone(s: Bytes)
    requires s != [] ==> s[|s| - 1] != RETURN
    ensures DropReturn(s) == s
  {
  }

  lemma BlanksLast(s: Bytes)
    requires Blanks(s)
    ensures s != [] ==> s[|s| - 1] != RETURN
  {
  }

  lemma LastStays(a: Bytes, b: Bytes)
    requires b != []
    ensures (a + b)[|a + b| - 1] == b[|b| - 1]
  {
  }

  lemma ContentsStep(lines: seq<Bytes>, margin: Option<nat>)
    requires lines != []
    ensures var line := DropReturn(lines[0]); var indent := Indent(line);
      Contents(lines, margin)
      == if indent == |line| then Prepend([[]], Contents(lines[1..], margin))
         else if TAB in line[..indent] then None
         else match margin
              case None => Prepend([line[indent..]], Contents(lines[1..], Some(indent)))
              case Some(m) => if indent < m then Some([]) else Prepend([line[m..]], Contents(lines[1..], margin))
  {
    hide Indent, DropReturn;
  }

  /** The content of the lines, up to a line left of the margin; the margin is given, or found at the first text. */
  lemma {:induction false} ContentsRead(rows: seq<Row>, tail: seq<Bytes>, margin: nat, found: bool)
    requires RowsOk(rows) && (!found ==> Anchored(rows)) && (tail != [] ==> (found || HasText(rows)) && Stops(tail[0], margin))
    ensures Contents(RowLines(rows, margin) + tail, if found then Some(margin) else None) == Some(RowTexts(rows))
    decreases |rows|
  {
    hide Contents, RowOk, Indent, DropReturn, RowText;
    var lines := RowLines(rows, margin) + tail;
    if rows == [] {
      assert lines == tail;
      if tail == [] { NoLines(if found then Some(margin) else None); }
      else { ContentsStep(tail, Some(margin)); }
    } else {
      RowLinesFirst(rows, margin, tail);
      ContentsStep(lines, if found then Some(margin) else None);
      RowDropped(rows[0], margin);
      RowTurn(rows[0], margin);
      ContentsRead(rows[1..], tail, margin, found || rows[0].text != []);
    }
  }

  lemma NoLines(margin: Option<nat>)
    ensures Contents([], margin) == Some([])
  {
  }

  lemma RowLinesFirst(rows: seq<Row>, margin: nat, tail: seq<Bytes>)
    requires rows != []
    ensures var lines := RowLines(rows, margin) + tail;
      lines != [] && lines[0] == RowText(rows[0], margin) && lines[1..] == RowLines(rows[1..], margin) + tail
  {
    hide RowText;
    FirstOf(RowText(rows[0], margin), RowLines(rows[1..], margin), tail);
  }

  lemma RowTurn(r: Row, margin: nat)
    requires RowOk(r)
    ensures r.text == [] ==> Indent(r.blanks) == |r.blanks|
    ensures r.text != [] ==>
      var t := Json.Spaces(margin) + r.text;
      Indent(t) == margin + Indent(r.text) < |t| && TAB !in t[..Indent(t)] && t[margin..] == r.text
  {
    if r.text == [] { BlanksIndent(r.blanks); } else { SpacesIndent(margin, r.text); }
  }

  // ---------- Joining ----------

  function Unfolded(rs: seq<Run>): (r: seq<Bytes>)
  {
    if rs == [] then [] else Empties(rs[0].gap) + ([rs[0].line] + Unfolded(rs[1..]))
  }

  lemma {:induction false} JoinGap(n: nat, lines: seq<Bytes>)
    requires lines != []
    ensures Join(Empties(n) + lines) == Feeds(n) + Join(lines)
    decreases n
  {
    hide *;
    EmptyCount(n);
    if n == 0 {
      assert [] + lines == lines;
      PlusNothingBefore(Join(lines));
    } else {
      var all := Empties(n) + lines;
      FirstOf([], Empties(n - 1), lines);
      JoinStep(all);
      JoinGap(n - 1, lines);
      PlusNothingBefore([NEWLINE] + Join(all[1..]));
      Regrouped([NEWLINE], Feeds(n - 1), Join(lines));
    }
  }

  lemma PlusNothingBefore(s: Bytes)
    ensures [] + s == s
  {
  }

  lemma EmptyCount(n: nat)
    ensures n == 0 ==> Empties(n) == [] && Feeds(n) == []
    ensures n > 0 ==> Empties(n) == [[]] + Empties(n - 1) && Feeds(n) == [NEWLINE] + Feeds(n - 1)
  {
  }

  lemma {:induction false} JoinRuns(rs: seq<Run>)
    requires rs != []
    ensures Unfolded(rs) != [] && Join(Unfolded(rs)) == RunsText(rs)
    decreases |rs|
  {
    hide Join, Feeds, Empties;
    var rest := [rs[0].line] + Unfolded(rs[1..]);
    JoinGap(rs[0].gap, rest);
    JoinStep(rest);
    if |rs| == 1 {
      assert Unfolded(rs[1..]) == [];
      assert rs[0].line + [] == rs[0].line;
    } else {
      JoinRuns(rs[1..]);
      assert rest[1..] == Unfolded(rs[1..]);
    }
  }

  lemma {:induction false} TrailingIs(s: Bytes, n: nat)
    requires s != [] ==> s[|s| - 1] != NEWLINE
    ensures Trailing(s + Feeds(n)) == n && (s + Feeds(n))[..|s|] == s
    decreases n
  {
    var t := s + Feeds(n);
    if n == 0 {
      assert t == s;
    } else {
      LastFeeds(n);
      assert t[..|t| - 1] == s + Feeds(n - 1);
      AllFeeds(n);
      TrailingIs(s, n - 1);
    }
  }

  lemma {:induction false} LastFeeds(n: nat)
    requires n > 0
    ensures Feeds(n)[..n - 1] == Feeds(n - 1)
    decreases n
  {
    if n > 1 {
      LastFeeds(n - 1);
      assert Feeds(n)[..n - 1] == [NEWLINE] + Feeds(n - 1)[..n - 2];
    }
  }

  /** How many of the line feeds at the end stay. */
  function Remain(n: nat, chomp: Chomp): (r: nat)
    ensures r <= n
  {
    match chomp case Keep => n case Strip => 0 case Clip => if n > 1 then 1 else n
  }

  lemma ChompedIs(s: Bytes, n: nat, chomp: Chomp)
    requires s != [] ==> s[|s| - 1] != NEWLINE
    ensures Chomped(s + Feeds(n), chomp) == s + Feeds(Remain(n, chomp))
  {
    hide Trailing, Feeds;
    var t := s + Feeds(n);
    FeedCount(n);
    TrailingIs(s, n);
    FeedsShort(n);
    if chomp.Strip? { assert s + Feeds(0) == s; }
    if chomp.Clip? && n > 1 { assert t[..|s| + 1] == s + Feeds(n)[..1]; }
  }

  lemma {:induction false} FeedsShort(n: nat)
    ensures Feeds(0) == [] && (n > 1 ==> Feeds(n)[..1] == Feeds(1))
  {
    if n > 1 { assert Feeds(n)[..1] == [NEWLINE]; assert Feeds(1) == [NEWLINE] + Feeds(0); }
  }

  // ---------- Block scalars ----------

  function RowsText(rows: seq<Row>, margin: nat): (r: Bytes)
  {
    if rows == [] then [] else RowText(rows[0], margin) + ([NEWLINE] + RowsText(rows[1..], margin))
  }

  lemma RowOneLine(r: Row, margin: nat)
    requires RowOk(r)
    ensures OneLine(RowText(r, margin))
  {
    SpacesOnly(margin);
  }

  lemma {:induction false} SpacesOnly(n: nat)
    ensures forall i :: 0 <= i < n ==> Json.Spaces(n)[i] == SPACE
    decreases n
  {
    if n > 0 { SpacesOnly(n - 1); }
  }

  lemma {:induction false} RowsCut(rows: seq<Row>, margin: nat, text: Bytes, i: nat)
    requires RowsOk(rows) && At(text, i, RowsText(rows, margin))
    ensures LinesOf(text, i) == RowLines(rows, margin) + LinesOf(text, i + |RowsText(rows, margin)|)
    decreases |rows|
  {
    hide LinesOf, RowText, RowOk, FeedFrom;
    if rows == [] {
      assert [] + LinesOf(text, i) == LinesOf(text, i);
    } else {
      var line, rest := RowText(rows[0], margin), RowsText(rows[1..], margin);
      RowOneLine(rows[0], margin);
      LineFirst(text, i, line, rest);
      RowsCut(rows[1..], margin, text, i + |line| + 1);
      Regrouped([line], RowLines(rows[1..], margin), LinesOf(text, i + |RowsText(rows, margin)|));
    }
  }

  /** The header: the style, a digit for the margin or none, a chomping sign or none, and a rest that is ignored. */
  datatype Header = Header(folded: bool, digit: Option<nat>, chomp: Chomp, rest: Bytes)

  ghost predicate HeaderOk(h: Header)
  {
    && (h.digit.Some? ==> h.digit.value < 10) && OneLine(h.rest)
    && (h.digit.None? && h.chomp.Clip? ==> h.rest == [] || !IsDigit(h.rest[0]))
    && (h.chomp.Clip? ==> h.rest == [] || (h.rest[0] != PLUS && h.rest[0] != MINUS))
  }

  function DigitText(h: Header): (r: Bytes) { match h.digit case None => [] case Some(d) => [ZERO + d % 10] }

  function SignText(h: Header): (r: Bytes) { match h.chomp case Clip => [] case Strip => [MINUS] case Keep => [PLUS] }

  function Signs(h: Header): (r: Bytes) { DigitText(h) + (SignText(h) + (h.rest + [NEWLINE])) }

  function Mark(h: Header): (r: Byte) { if h.folded then GREATER else BAR }

  lemma HeaderRead(h: Header, text: Bytes, i: nat)
    requires HeaderOk(h) && At(text, i, Signs(h))
    ensures MarginDigit(text, i) == h.digit
    ensures var sign := if h.digit.Some? then i + 1 else i;
      && ChompAt(text, sign) == h.chomp
      && FeedFrom(text, if h.chomp.Clip? then sign else sign + 1) == i + |Signs(h)| - 1
  {
    hide *;
    HeaderLaid(h);
    var tail := h.rest + [NEWLINE];
    var d := i + |DigitText(h)|;
    var p := d + |SignText(h)|;
    AtSplit(text, i, DigitText(h), SignText(h) + tail);
    AtSplit(text, d, SignText(h), tail);
    AtSplit(text, p, h.rest, [NEWLINE]);
    RestAt(h, text, p);
    if h.digit.Some? { AtHead(text, i, DigitText(h)); }
    if !h.chomp.Clip? { AtHead(text, d, SignText(h)); }
    ChompIs(h, text, d);
    DigitIs(h, text, i);
  }

  lemma HeaderLaid(h: Header)
    requires HeaderOk(h)
    ensures Signs(h) == DigitText(h) + (SignText(h) + (h.rest + [NEWLINE])) && OneLine(h.rest)
    ensures |Signs(h)| == |DigitText(h)| + |SignText(h)| + |h.rest| + 1
    ensures |DigitText(h)| == (if h.digit.Some? then 1 else 0) && |SignText(h)| == if h.chomp.Clip? then 0 else 1
  {
    hide OneLine;
  }

  lemma ChompIs(h: Header, text: Bytes, d: nat)
    requires HeaderOk(h) && d < |text|
    requires text[d] == if !h.chomp.Clip? then SignText(h)[0] else if h.rest == [] then NEWLINE else h.rest[0]
    ensures ChompAt(text, d) == h.chomp
  {
    hide OneLine;
  }

  lemma DigitIs(h: Header, text: Bytes, i: nat)
    requires HeaderOk(h) && i < |text|
    requires text[i] == if h.digit.Some? then DigitText(h)[0] else if !h.chomp.Clip? then SignText(h)[0]
                        else if h.rest == [] then NEWLINE else h.rest[0]
    ensures MarginDigit(text, i) == h.digit
  {
    hide OneLine;
  }

  lemma RestAt(h: Header, text: Bytes, p: nat)
    requires OneLine(h.rest) && At(text, p, h.rest) && At(text, p + |h.rest|, [NEWLINE])
    ensures p < |text| && text[p] == (if h.rest == [] then NEWLINE else h.rest[0]) && FeedFrom(text, p) == p + |h.rest|
  {
    hide FeedFrom;
    AtHead(text, p + |h.rest|, [NEWLINE]);
    if h.rest != [] { AtHead(text, p, h.rest); }
    FeedFound(text, p, h.rest);
  }

  /** parseBlockScalar on any such scalar: its lines, folded or not, with the line feeds that chomping leaves; nothing
      beyond the length limit. */
  lemma BlockRead(h: Header, rows: seq<Row>, margin: nat, rs: seq<Run>, n: nat, text: Bytes, pos: nat)
    requires HeaderOk(h) && RowsOk(rows) && RunsOk(rs) && rs != [] && RowTexts(rows) == Unfolded(rs) + Empties(n)
    requires if h.digit.Some? then h.digit.value == margin else Anchored(rows)
    requires At(text, pos, [Mark(h)] + (Signs(h) + RowsText(rows, margin)))
    requires var tail := LinesOf(text, pos + 1 + |Signs(h)| + |RowsText(rows, margin)|); tail != [] ==> Stops(tail[0], margin)
    ensures pos < |text|
    ensures var out := if h.folded then Folded(rs) + (if n > 0 && !h.chomp.Strip? then [NEWLINE] else [])
                       else RunsText(rs) + Feeds(Remain(n, h.chomp));
      ReadBlock(text, pos) == if |out| > MAX_STRING_LEN then None else Some(out)
  {
    hide *;
    var mark := [Mark(h)];
    var i := pos + 1 + |Signs(h)|;
    AtSplit(text, pos, mark, Signs(h) + RowsText(rows, margin));
    AtHead(text, pos, mark);
    AtSplit(text, pos + 1, Signs(h), RowsText(rows, margin));
    HeaderRead(h, text, pos + 1);
    RowsCut(rows, margin, text, i);
    TextSomewhere(rows, rs, n);
    ContentsRead(rows, LinesOf(text, i + |RowsText(rows, margin)|), margin, h.digit.Some?);
    JoinRuns(rs);
    JoinEmpties(Unfolded(rs), n);
    BlockIs(h, text, pos, i - 1, rs, n, RowTexts(rows));
  }

  lemma {:induction false} TextSomewhere(rows: seq<Row>, rs: seq<Run>, n: nat)
    requires RunsOk(rs) && rs != [] && RowTexts(rows) == Unfolded(rs) + Empties(n)
    ensures HasText(rows)
  {
    var gap := rs[0].gap;
    assert Unfolded(rs)[gap] == rs[0].line;
    assert RowTexts(rows)[gap] == rs[0].line;
    TextFound(rows, gap);
  }

  lemma {:induction false} TextFound(rows: seq<Row>, k: nat)
    requires k < |RowTexts(rows)| && RowTexts(rows)[k] != []
    ensures HasText(rows)
    decreases k
  {
    if rows[0].text == [] { TextFound(rows[1..], k - 1); }
  }

  lemma BlockIs(h: Header, text: Bytes, pos: nat, head: nat, rs: seq<Run>, n: nat, content: seq<Bytes>)
    requires pos < |text| && text[pos] == Mark(h) && RunsOk(rs) && rs != []
    requires MarginDigit(text, pos + 1) == h.digit
    requires var sign := if h.digit.Some? then pos + 2 else pos + 1;
      && ChompAt(text, sign) == h.chomp && FeedFrom(text, if h.chomp.Clip? then sign else sign + 1) == head
    requires Contents(LinesOf(text, head + 1), h.digit) == Some(content) && Join(content) == RunsText(rs) + Feeds(n)
    ensures var out := if h.folded then Folded(rs) + (if n > 0 && !h.chomp.Strip? then [NEWLINE] else [])
                       else RunsText(rs) + Feeds(Remain(n, h.chomp));
      ReadBlock(text, pos) == if |out| > MAX_STRING_LEN then None else Some(out)
  {
    hide MarginDigit, ChompAt, FeedFrom, Contents, LinesOf, Join, RunsText, Folded, Feeds, Chomped, Fold;
    FoldIs(rs, n);
    LastLine(rs);
    LastIsText(rs);
    ChompedIs(RunsText(rs), n, h.chomp);
    OneFeed();
    ChompedIs(Folded(rs), if n > 0 then 1 else 0, h.chomp);
  }

  lemma OneFeed()
    ensures Feeds(1) == [NEWLINE] && Feeds(0) == []
  {
    assert Feeds(1) == [NEWLINE] + Feeds(0);
  }
}
