/** CSV (RFC 4180): quoting cells, splitting text into lines and lines into cells. */
module Csv {
  import opened Bytes
  import opened Values
  import opened Text

  // ---------- Writing ----------

  /** Cells a spreadsheet would take for a formula. */
  predicate Guarded(s: Bytes)
  {
    s != [] && (s[0] == 61 || s[0] == 43 || s[0] == 45 || s[0] == 64)
  }

  predicate Special(b: Byte) { b == COMMA || b == QUOTE || b == NEWLINE || b == RETURN }

  predicate NeedsQuotes(s: Bytes)
  {
    s != [] && (Special(s[0]) || NeedsQuotes(s[1..]))
  }

  function Doubled(s: Bytes): (r: Bytes)
  {
    if s == [] then [] else (if s[0] == QUOTE then [QUOTE, QUOTE] else [s[0]]) + Doubled(s[1..])
  }

  const APOSTROPHE: Byte := 39

  /** csvEscape: a guarded cell gets an apostrophe and nothing else. */
  function EscapeCell(s: Bytes): (r: Bytes)
  {
    if Guarded(s) then [APOSTROPHE] + s
    else if NeedsQuotes(s) then [QUOTE] + (Doubled(s) + [QUOTE])
    else s
  }

  function Row(cells: seq<Bytes>): (r: Bytes)
    requires cells != []
  {
    if |cells| == 1 then EscapeCell(cells[0]) else EscapeCell(cells[0]) + ([COMMA] + Row(cells[1..]))
  }

  /** Rows, each ended by a line feed. */
  function Table(rows: seq<seq<Bytes>>): (r: Bytes)
    requires forall i :: 0 <= i < |rows| ==> rows[i] != []
  {
    if rows == [] then []
    else
      Row(rows[0]) + ([NEWLINE] + Table(rows[1..]))
  }

  // ---------- Reading ----------

  /** A line without the carriage return before its line feed, if anything is left of it. */
  function Line(input: Bytes, start: nat, i: nat): (r: seq<Bytes>)
    requires start <= i <= |input|
  {
    var e := if i > start && input[i - 1] == RETURN then i - 1 else i;
    if e > start then [input[start..e]] else []
  }

  /** The line splitter: two quotes in a row are passed over, a single one opens or closes; None where the text
      ends inside quotes. */
  function Lines(input: Bytes, i: nat, start: nat, inQuotes: bool): (r: Option<seq<Bytes>>)
    requires start <= i <= |input|
    decreases |input| - i
  {
    if i == |input| then (if inQuotes then None else Some(Line(input, start, i)))
    else if input[i] == QUOTE then
      if i + 1 < |input| && input[i + 1] == QUOTE then Lines(input, i + 2, start, inQuotes)
      else Lines(input, i + 1, start, !inQuotes)
    else if !inQuotes && input[i] == NEWLINE then
      Prepend(Line(input, start, i), Lines(input, i + 1, i + 1, false))
    else Lines(input, i + 1, start, inQuotes)
  }

  /** csvSplitLine from `i`, with the current field so far. */
  function Fields(line: Bytes, i: nat, cur: Bytes, inQuotes: bool): (r: seq<Bytes>)
    requires i <= |line|
    ensures r != []
    decreases |line| - i
  {
    if i == |line| then [cur]
    else if !inQuotes && line[i] == QUOTE then Fields(line, i + 1, cur, true)
    else if inQuotes && line[i] == QUOTE then
      if i + 1 < |line| && line[i + 1] == QUOTE then Fields(line, i + 2, cur + [QUOTE], true)
      else Fields(line, i + 1, cur, false)
    else if !inQuotes && line[i] == COMMA then [cur] + Fields(line, i + 1, [], false)
    else Fields(line, i + 1, cur + [line[i]], inQuotes)
  }

  function SplitLine(line: Bytes): (r: seq<Bytes>)
    ensures r != []
  {
    Fields(line, 0, [], false)
  }

  function SplitAll(lines: seq<Bytes>): (r: seq<seq<Bytes>>)
    ensures |r| == |lines|
  {
    if lines == [] then [] else [SplitLine(lines[0])] + SplitAll(lines[1..])
  }

  // ---------- Cells ----------

  lemma {:induction false} PlainBytes(s: Bytes)
    ensures NeedsQuotes(s) <==> exists i :: 0 <= i < |s| && Special(s[i])
  {
    if s != [] {
      PlainBytes(s[1..]);
      if i :| 0 <= i < |s| && Special(s[i]) { assert i > 0 ==> s[1..][i - 1] == s[i]; }
      if j :| 0 <= j < |s[1..]| && Special(s[1..][j]) { assert s[j + 1] == s[1..][j]; }
    }
  }

  /** Unquoted bytes are collected as they are. */
  lemma {:induction false} FieldsPlain(line: Bytes, i: nat, cur: Bytes, s: Bytes)
    requires At(line, i, s) && !NeedsQuotes(s)
    ensures Fields(line, i, cur, false) == Fields(line, i + |s|, cur + s, false)
    decreases |s|
  {
    if s == [] {
      assert cur + [] == cur;
    } else {
      AtHead(line, i, s);
      FieldsPlain(line, i + 1, cur + [s[0]], s[1..]);
      assert cur + [s[0]] + s[1..] == cur + s;
    }
  }

  /** Quoted bytes are collected up to the closing quote, doubled quotes as one. */
  lemma {:induction false} FieldsQuoted(line: Bytes, i: nat, cur: Bytes, s: Bytes)
    requires At(line, i, Doubled(s) + [QUOTE])
    requires var e := i + |Doubled(s)| + 1; e == |line| || line[e] != QUOTE
    ensures Fields(line, i, cur, true) == Fields(line, i + |Doubled(s)| + 1, cur + s, false)
    decreases |s|
  {
    if s == [] {
      AtHead(line, i, [] + [QUOTE]);
      assert cur + [] == cur;
    } else {
      var head := if s[0] == QUOTE then [QUOTE, QUOTE] else [s[0]];
      var rest := Doubled(s[1..]) + [QUOTE];
      assert Doubled(s) + [QUOTE] == head + rest;
      AtSplit(line, i, head, rest);
      AtHead(line, i, head);
      if s[0] == QUOTE { AtHead(line, i + 1, head[1..]); }
      FieldsQuoted(line, i + |head|, cur + [s[0]], s[1..]);
      assert cur + [s[0]] + s[1..] == cur + s;
    }
  }

  lemma FieldsOpen(line: Bytes, i: nat)
    requires i < |line| && line[i] == QUOTE
    ensures Fields(line, i, [], false) == Fields(line, i + 1, [], true)
  {
  }

  lemma CellIs(s: Bytes)
    requires !Guarded(s)
    ensures EscapeCell(s) == if NeedsQuotes(s) then [QUOTE] + (Doubled(s) + [QUOTE]) else s
  {
    hide NeedsQuotes, Doubled;
  }

  lemma FieldsCell(line: Bytes, i: nat, s: Bytes)
    requires !Guarded(s) && At(line, i, EscapeCell(s))
    requires var e := i + |EscapeCell(s)|; e == |line| || line[e] == COMMA
    ensures Fields(line, i, [], false) == Fields(line, i + |EscapeCell(s)|, s, false)
  {
    hide Fields, Doubled, EscapeCell, NeedsQuotes, Guarded;
    assert [] + s == s;
    CellIs(s);
    if NeedsQuotes(s) {
      AtSplit(line, i, [QUOTE], Doubled(s) + [QUOTE]);
      AtHead(line, i, [QUOTE]);
      FieldsOpen(line, i);
      FieldsQuoted(line, i + 1, [], s);
    } else {
      FieldsPlain(line, i, [], s);
    }
  }

  ghost predicate Safe(cells: seq<Bytes>)
  {
    forall c :: c in cells ==> !Guarded(c)
  }

  /** A row is split into its cells. */
  lemma {:induction false} FieldsRow(line: Bytes, i: nat, cells: seq<Bytes>)
    requires cells != [] && Safe(cells) && At(line, i, Row(cells)) && i + |Row(cells)| == |line|
    ensures Fields(line, i, [], false) == cells
    decreases cells
  {
    hide Fields, EscapeCell;
    assert cells[0] in cells;
    var cell := EscapeCell(cells[0]);
    var e := i + |cell|;
    if |cells| == 1 {
      FieldsCell(line, i, cells[0]);
      FieldsEnd(line, cells[0]);
    } else {
      AtSplit(line, i, cell, [COMMA] + Row(cells[1..]));
      AtSplit(line, e, [COMMA], Row(cells[1..]));
      AtHead(line, e, [COMMA]);
      FieldsCell(line, i, cells[0]);
      FieldsComma(line, e, cells[0]);
      FieldsRow(line, e + 1, cells[1..]);
    }
  }

  lemma FieldsEnd(line: Bytes, cur: Bytes)
    ensures Fields(line, |line|, cur, false) == [cur]
  {
  }

  lemma FieldsComma(line: Bytes, i: nat, cur: Bytes)
    requires i < |line| && line[i] == COMMA
    ensures Fields(line, i, cur, false) == [cur] + Fields(line, i + 1, [], false)
  {
  }

  /** A cell alone on its line comes back exactly when it is not guarded. */
  lemma CellSurvives(s: Bytes)
    ensures SplitLine(EscapeCell(s)) == [s] <==> !Guarded(s)
  {
    hide Fields;
    var line := EscapeCell(s);
    assert line[0..0 + |line|] == line;
    if Guarded(s) {
      ApostropheKept(line, s);
    } else {
      FieldsCell(line, 0, s);
      FieldsEnd(line, s);
    }
  }

  lemma {:induction false} FirstKept(line: Bytes, i: nat, cur: Bytes, inQuotes: bool)
    requires i <= |line| && cur != []
    ensures Fields(line, i, cur, inQuotes)[0] != [] && Fields(line, i, cur, inQuotes)[0][0] == cur[0]
    decreases |line| - i
  {
    if i < |line| {
      if !inQuotes && line[i] == QUOTE { FirstKept(line, i + 1, cur, true); }
      else if inQuotes && line[i] == QUOTE {
        if i + 1 < |line| && line[i + 1] == QUOTE { FirstKept(line, i + 2, cur + [QUOTE], true); }
        else { FirstKept(line, i + 1, cur, false); }
      }
      else if inQuotes || line[i] != COMMA { FirstKept(line, i + 1, cur + [line[i]], inQuotes); }
    }
  }

  lemma ApostropheKept(line: Bytes, s: Bytes)
    requires Guarded(s) && line == [APOSTROPHE] + s
    ensures SplitLine(line) != [s]
  {
    FirstKept(line, 1, [] + [line[0]], false);
  }

  // ---------- Lines ----------

  /** The same splitter, taking every quote for itself. */
  function Toggled(input: Bytes, i: nat, start: nat, inQuotes: bool): (r: Option<seq<Bytes>>)
    requires start <= i <= |input|
    decreases |input| - i
  {
    if i == |input| then (if inQuotes then None else Some(Line(input, start, i)))
    else if input[i] == QUOTE then Toggled(input, i + 1, start, !inQuotes)
    else if !inQuotes && input[i] == NEWLINE then
      Prepend(Line(input, start, i), Toggled(input, i + 1, i + 1, false))
    else Toggled(input, i + 1, start, inQuotes)
  }

  /** Passing over pairs of quotes is counting quotes. */
  lemma {:induction false} LinesCountQuotes(input: Bytes, i: nat, start: nat, inQuotes: bool)
    requires start <= i <= |input|
    ensures Lines(input, i, start, inQuotes) == Toggled(input, i, start, inQuotes)
    decreases |input| - i
  {
    hide Line;
    if i < |input| {
      if input[i] == QUOTE {
        if i + 1 < |input| && input[i + 1] == QUOTE { LinesCountQuotes(input, i + 2, start, inQuotes); }
        else { LinesCountQuotes(input, i + 1, start, !inQuotes); }
      } else if !inQuotes && input[i] == NEWLINE { LinesCountQuotes(input, i + 1, i + 1, false); }
      else { LinesCountQuotes(input, i + 1, start, inQuotes); }
    }
  }

  lemma {:induction false} TogglePlain(input: Bytes, i: nat, start: nat, s: Bytes)
    requires start <= i && At(input, i, s) && !NeedsQuotes(s)
    ensures Toggled(input, i, start, false) == Toggled(input, i + |s|, start, false)
    decreases |s|
  {
    hide Line;
    if s != [] {
      AtHead(input, i, s);
      TogglePlain(input, i + 1, start, s[1..]);
    }
  }

  /** Inside quotes line feeds end nothing, and doubled quotes leave the state as it was. */
  lemma {:induction false} ToggleQuoted(input: Bytes, i: nat, start: nat, s: Bytes)
    requires start <= i && At(input, i, Doubled(s) + [QUOTE])
    ensures Toggled(input, i, start, true) == Toggled(input, i + |Doubled(s)| + 1, start, false)
    decreases |s|
  {
    hide Line;
    if s == [] {
      AtHead(input, i, [] + [QUOTE]);
    } else {
      var head := if s[0] == QUOTE then [QUOTE, QUOTE] else [s[0]];
      var rest := Doubled(s[1..]) + [QUOTE];
      assert Doubled(s) + [QUOTE] == head + rest;
      AtSplit(input, i, head, rest);
      AtHead(input, i, head);
      if s[0] == QUOTE { AtHead(input, i + 1, head[1..]); }
      ToggleQuoted(input, i + |head|, start, s[1..]);
    }
  }

  lemma ToggleCell(input: Bytes, i: nat, start: nat, s: Bytes)
    requires start <= i && !Guarded(s) && At(input, i, EscapeCell(s))
    ensures Toggled(input, i, start, false) == Toggled(input, i + |EscapeCell(s)|, start, false)
  {
    hide Line;
    if NeedsQuotes(s) {
      AtSplit(input, i, [QUOTE], Doubled(s) + [QUOTE]);
      AtHead(input, i, [QUOTE]);
      ToggleQuoted(input, i + 1, start, s);
    } else {
      TogglePlain(input, i, start, s);
    }
  }

  lemma {:induction false} ToggleRow(input: Bytes, i: nat, start: nat, cells: seq<Bytes>)
    requires start <= i && cells != [] && Safe(cells) && At(input, i, Row(cells))
    ensures Toggled(input, i, start, false) == Toggled(input, i + |Row(cells)|, start, false)
    decreases cells
  {
    hide EscapeCell, Line, Toggled;
    assert cells[0] in cells;
    var cell := EscapeCell(cells[0]);
    if |cells| == 1 {
      ToggleCell(input, i, start, cells[0]);
    } else {
      AtSplit(input, i, cell, [COMMA] + Row(cells[1..]));
      AtSplit(input, i + |cell|, [COMMA], Row(cells[1..]));
      AtHead(input, i + |cell|, [COMMA]);
      ToggleCell(input, i, start, cells[0]);
      ToggleComma(input, i + |cell|, start);
      ToggleRow(input, i + |cell| + 1, start, cells[1..]);
    }
  }

  lemma ToggleComma(input: Bytes, i: nat, start: nat)
    requires start <= i < |input| && input[i] == COMMA
    ensures Toggled(input, i, start, false) == Toggled(input, i + 1, start, false)
  {
  }

  /** No row ends in a carriage return: a cell that does is quoted. */
  lemma {:induction false} RowEnd(cells: seq<Bytes>)
    requires cells != [] && Safe(cells)
    ensures var r := Row(cells); r != [] ==> r[|r| - 1] != RETURN
    decreases cells
  {
    assert cells[0] in cells;
    if |cells| > 1 {
      RowEnd(cells[1..]);
    } else {
      PlainBytes(cells[0]);
    }
  }

  ghost predicate Rows(rows: seq<seq<Bytes>>)
  {
    forall i :: 0 <= i < |rows| ==> rows[i] != [] && Safe(rows[i])
  }

  /** The rows that are not written as an empty line. */
  function Visible(rows: seq<seq<Bytes>>): (r: seq<seq<Bytes>>)
    requires forall i :: 0 <= i < |rows| ==> rows[i] != []
  {
    if rows == [] then []
    else
      (if Row(rows[0]) == [] then [] else [rows[0]]) + Visible(rows[1..])
  }

  function RowTexts(rows: seq<seq<Bytes>>): (r: seq<Bytes>)
    requires forall i :: 0 <= i < |rows| ==> rows[i] != []
    ensures |r| == |rows|
  {
    if rows == [] then []
    else
      [Row(rows[0])] + RowTexts(rows[1..])
  }

  lemma VisibleRows(rows: seq<seq<Bytes>>)
    requires Rows(rows)
    ensures Rows(Visible(rows))
  {
    if rows != [] {
      VisibleRows(rows[1..]);
    }
  }

  /** A row and its line feed give one line, or none if the row is written as nothing. */
  lemma RowLine(input: Bytes, i: nat, cells: seq<Bytes>)
    requires cells != [] && Safe(cells) && At(input, i, Row(cells)) && At(input, i + |Row(cells)|, [NEWLINE])
    ensures var e := i + |Row(cells)|;
      e < |input| && Toggled(input, i, i, false)
      == match Toggled(input, e + 1, e + 1, false)
         case None => None
         case Some(rest) => Some((if Row(cells) == [] then [] else [Row(cells)]) + rest)
  {
    hide Row;
    var row := Row(cells);
    var e := i + |row|;
    AtHead(input, e, [NEWLINE]);
    ToggleRow(input, i, i, cells);
    RowEnd(cells);
    if row != [] { assert input[e - 1] == input[i..e][|row| - 1] == row[|row| - 1]; }
  }

  lemma {:induction false} ToggleTable(input: Bytes, i: nat, rows: seq<seq<Bytes>>)
    requires Rows(rows) && At(input, i, Table(rows)) && i + |Table(rows)| == |input|
    ensures Rows(Visible(rows)) && Toggled(input, i, i, false) == Some(RowTexts(Visible(rows)))
    decreases rows
  {
    hide Row, Toggled, Safe;
    VisibleRows(rows);
    if rows == [] {
      ToggleEnd(input);
    } else {
      var row := Row(rows[0]);
      var e := i + |row|;
      AtSplit(input, i, row, [NEWLINE] + Table(rows[1..]));
      AtSplit(input, e, [NEWLINE], Table(rows[1..]));
      RowLine(input, i, rows[0]);
      VisibleRows(rows[1..]);
      ToggleTable(input, e + 1, rows[1..]);
      FirstVisible(rows);
    }
  }

  lemma ToggleEnd(input: Bytes)
    ensures Toggled(input, |input|, |input|, false) == Some([])
  {
  }

  lemma {:induction false} TextsCons(row: seq<Bytes>, rows: seq<seq<Bytes>>)
    requires row != [] && (forall i :: 0 <= i < |rows| ==> rows[i] != [])
    ensures var all := [row] + rows;
      (forall i :: 0 <= i < |all| ==> all[i] != []) && RowTexts(all) == [Row(row)] + RowTexts(rows)
  {
    hide Row;
    var all := [row] + rows;
    assert all[0] == row && all[1..] == rows;
  }

  lemma {:induction false} FirstVisible(rows: seq<seq<Bytes>>)
    requires rows != [] && Rows(rows) && Rows(Visible(rows)) && Rows(Visible(rows[1..]))
    ensures RowTexts(Visible(rows))
         == (if Row(rows[0]) == [] then [] else [Row(rows[0])]) + RowTexts(Visible(rows[1..]))
  {
    hide Row, Safe, RowTexts;
    var rest := Visible(rows[1..]);
    if Row(rows[0]) != [] {
      TextsCons(rows[0], rest);
    } else {
      assert [] + rest == rest;
      assert Visible(rows) == rest;
    }
  }

  lemma {:induction false} SplitRows(rows: seq<seq<Bytes>>)
    requires Rows(rows)
    ensures SplitAll(RowTexts(rows)) == rows
    decreases rows
  {
    hide Fields, Row;
    if rows != [] {
      var line := Row(rows[0]);
      assert line[0..0 + |line|] == line;
      FieldsRow(line, 0, rows[0]);
      SplitRows(rows[1..]);
    }
  }

  /** Splitting a written table into lines and the lines into cells gives its rows and cells, embedded commas,
      quotes and line breaks included; only rows written as empty lines are lost. */
  lemma TableRecovered(rows: seq<seq<Bytes>>)
    requires Rows(rows)
    ensures var lines := Lines(Table(rows), 0, 0, false);
      && lines.Some? && SplitAll(lines.value) == Visible(rows)
      && (SplitAll(lines.value) == rows <==> forall i :: 0 <= i < |rows| ==> Row(rows[i]) != [])
  {
    hide Lines, Toggled, Row;
    var input := Table(rows);
    assert input[0..0 + |input|] == input;
    LinesCountQuotes(input, 0, 0, false);
    ToggleTable(input, 0, rows);
    SplitRows(Visible(rows));
    VisibleAll(rows);
  }

  lemma {:induction false} VisibleAll(rows: seq<seq<Bytes>>)
    requires Rows(rows)
    ensures |Visible(rows)| <= |rows|
    ensures Visible(rows) == rows <==> forall i :: 0 <= i < |rows| ==> Row(rows[i]) != []
    decreases rows
  {
    hide Row;
    if rows != [] {
      assert rows == [rows[0]] + rows[1..];
      VisibleAll(rows[1..]);
      if Row(rows[0]) != [] { assert Visible(rows)[1..] == Visible(rows[1..]); }
    }
  }

  // ---------- The splitters as they run ----------

  method WriteCell(out: Buffer, s: Bytes)
    modifies out
    ensures out.bytes == old(out.bytes) + EscapeCell(s)
  {
    if Guarded(s) { out.Push(APOSTROPHE); out.Append(s); assert out.bytes == old(out.bytes) + ([APOSTROPHE] + s); return; }
    ghost var before := out.bytes;
    var need := false;
    var i := 0;
    assert s[0..] == s;
    while i < |s| && !need
      invariant 0 <= i <= |s| && (if need then NeedsQuotes(s) else NeedsQuotes(s) == NeedsQuotes(s[i..]))
      decreases |s| - i, !need
    {
      assert s[i..][1..] == s[i + 1..];
      if Special(s[i]) { need := true; }
      i := i + 1;
    }
    if !need { out.Append(s); return; }
    out.Push(QUOTE);
    for j := 0 to |s|
      invariant out.bytes + Doubled(s[j..]) == (before + [QUOTE]) + Doubled(s)
    {
      ghost var now := out.bytes;
      assert s[j..][1..] == s[j + 1..];
      if s[j] == QUOTE { out.Append([QUOTE, QUOTE]); } else { out.Push(s[j]); }
      assert now + Doubled(s[j..]) == out.bytes + Doubled(s[j + 1..]);
    }
    assert out.bytes + [] == out.bytes;
    out.Push(QUOTE);
    assert out.bytes == before + ([QUOTE] + (Doubled(s) + [QUOTE]));
  }

  /** csvSplitLine: one pass, with the current field and the quote state. */
  method SplitFields(line: Bytes) returns (fields: seq<Bytes>)
    ensures fields == SplitLine(line)
  {
    fields := [];
    var cur: Bytes, inQuotes, i := [], false, 0;
    assert [] + Fields(line, 0, [], false) == Fields(line, 0, [], false);
    while i < |line|
      invariant 0 <= i <= |line| && fields + Fields(line, i, cur, inQuotes) == SplitLine(line)
    {
      var c := line[i];
      if !inQuotes && c == QUOTE {
        inQuotes := true;
      } else if inQuotes && c == QUOTE {
        if i + 1 < |line| && line[i + 1] == QUOTE {
          cur := cur + [QUOTE];
          i := i + 1;
        } else {
          inQuotes := false;
        }
      } else if !inQuotes && c == COMMA {
        assert fields + ([cur] + Fields(line, i + 1, [], false)) == fields + [cur] + Fields(line, i + 1, [], false);
        fields := fields + [cur];
        cur := [];
      } else {
        cur := cur + [c];
      }
      i := i + 1;
    }
    fields := fields + [cur];
  }

  /** The line splitter at the head of fromCSV. */
  method SplitLines(input: Bytes) returns (r: Option<seq<Bytes>>)
    ensures r == Lines(input, 0, 0, false)
  {
    var lines: seq<Bytes>, start, inQuotes, i := [], 0, false, 0;
    PrependNothing(Lines(input, 0, 0, false));
    while i < |input|
      invariant 0 <= start <= i <= |input|
      invariant Prepend(lines, Lines(input, i, start, inQuotes)) == Lines(input, 0, 0, false)
    {
      if input[i] == QUOTE {
        if i + 1 < |input| && input[i + 1] == QUOTE { i := i + 1; } else { inQuotes := !inQuotes; }
      } else if !inQuotes && input[i] == NEWLINE {
        var end := if i > start && input[i - 1] == RETURN then i - 1 else i;
        PrependTwice(lines, Line(input, start, i), Lines(input, i + 1, i + 1, false));
        if end > start { lines := lines + [input[start..end]]; } else { assert lines + [] == lines; }
        start := i + 1;
      }
      i := i + 1;
    }
    if inQuotes { return None; }
    var end := if i > start && input[i - 1] == RETURN then i - 1 else i;
    if end > start { lines := lines + [input[start..end]]; } else { assert lines + [] == lines; }
    r := Some(lines);
  }
}
