/** CSV text as RFC 4180 allows it to be written: any cell quoted, lines ended by a line feed with or without a carriage
    return, the last line perhaps unended. */
module CsvRows {
  import opened Bytes
  import opened Text
  import opened Csv

  datatype Cell = Cell(text: Bytes, quoted: bool)

  predicate CellOk(c: Cell) { c.quoted || !NeedsQuotes(c.text) }

  predicate RowOk(cells: seq<Cell>) { cells != [] && forall i :: 0 <= i < |cells| ==> CellOk(cells[i]) }

  function CellText(c: Cell): (r: Bytes)
  {
    if c.quoted then [QUOTE] + (Doubled(c.text) + [QUOTE]) else c.text
  }

  function CellsText(cells: seq<Cell>): (r: Bytes)
    requires cells != []
  {
    if |cells| == 1 then CellText(cells[0]) else CellText(cells[0]) + ([COMMA] + CellsText(cells[1..]))
  }

  function Texts(cells: seq<Cell>): (r: seq<Bytes>)
    ensures |r| == |cells|
  {
    if cells == [] then [] else [cells[0].text] + Texts(cells[1..])
  }

  /** A line: cells and their ending. */
  datatype Record = Record(cells: seq<Cell>, ending: Bytes)

  predicate RecordOk(r: Record) { RowOk(r.cells) && (r.ending == [NEWLINE] || r.ending == [RETURN, NEWLINE]) }

  predicate RecordsOk(rs: seq<Record>) { forall i :: 0 <= i < |rs| ==> RecordOk(rs[i]) }

  function RecordsText(rs: seq<Record>): (r: Bytes)
    requires RecordsOk(rs)
  {
    if rs == [] then [] else CellsText(rs[0].cells) + (rs[0].ending + RecordsText(rs[1..]))
  }

  /** An empty line is no row. */
  function Kept(cells: seq<Cell>): (r: seq<Bytes>)
    requires cells != []
  {
    if CellsText(cells) == [] then [] else [CellsText(cells)]
  }

  function RowsOf(rs: seq<Record>): (r: seq<seq<Bytes>>)
    requires RecordsOk(rs)
  {
    if rs == [] then []
    else (if CellsText(rs[0].cells) == [] then [] else [Texts(rs[0].cells)]) + RowsOf(rs[1..])
  }

  // ---------- Cells ----------

  lemma CellRead(line: Bytes, i: nat, c: Cell)
    requires CellOk(c) && At(line, i, CellText(c))
    requires var e := i + |CellText(c)|; e == |line| || line[e] == COMMA
    ensures Fields(line, i, [], false) == Fields(line, i + |CellText(c)|, c.text, false)
  {
    hide Fields, Doubled, NeedsQuotes;
    assert [] + c.text == c.text;
    if c.quoted {
      AtSplit(line, i, [QUOTE], Doubled(c.text) + [QUOTE]);
      AtHead(line, i, [QUOTE]);
      FieldsOpen(line, i);
      FieldsQuoted(line, i + 1, [], c.text);
    } else {
      FieldsPlain(line, i, [], c.text);
    }
  }

  /** A line is split into the texts of its cells. */
  lemma {:induction false} RowRead(line: Bytes, i: nat, cells: seq<Cell>)
    requires RowOk(cells) && At(line, i, CellsText(cells)) && i + |CellsText(cells)| == |line|
    ensures Fields(line, i, [], false) == Texts(cells)
    decreases |cells|
  {
    hide Fields, CellText, CellOk;
    var cell := CellText(cells[0]);
    var e := i + |cell|;
    if |cells| == 1 {
      CellRead(line, i, cells[0]);
      FieldsEnd(line, cells[0].text);
      assert Texts(cells[1..]) == [];
    } else {
      AtSplit(line, i, cell, [COMMA] + CellsText(cells[1..]));
      AtSplit(line, e, [COMMA], CellsText(cells[1..]));
      AtHead(line, e, [COMMA]);
      CellRead(line, i, cells[0]);
      FieldsComma(line, e, cells[0].text);
      RowRead(line, e + 1, cells[1..]);
    }
  }

  // ---------- Lines ----------

  lemma CellPassed(input: Bytes, i: nat, start: nat, c: Cell)
    requires start <= i && CellOk(c) && At(input, i, CellText(c))
    ensures Toggled(input, i, start, false) == Toggled(input, i + |CellText(c)|, start, false)
  {
    hide Line;
    if c.quoted {
      AtSplit(input, i, [QUOTE], Doubled(c.text) + [QUOTE]);
      AtHead(input, i, [QUOTE]);
      ToggleQuoted(input, i + 1, start, c.text);
    } else {
      TogglePlain(input, i, start, c.text);
    }
  }

  lemma {:induction false} CellsPassed(input: Bytes, i: nat, start: nat, cells: seq<Cell>)
    requires start <= i && RowOk(cells) && At(input, i, CellsText(cells))
    ensures Toggled(input, i, start, false) == Toggled(input, i + |CellsText(cells)|, start, false)
    decreases |cells|
  {
    hide CellText, Line, Toggled, CellOk;
    var cell := CellText(cells[0]);
    CellPassedFirst(input, i, start, cells);
    if |cells| > 1 {
      AtSplit(input, i + |cell|, [COMMA], CellsText(cells[1..]));
      AtHead(input, i + |cell|, [COMMA]);
      ToggleComma(input, i + |cell|, start);
      CellsPassed(input, i + |cell| + 1, start, cells[1..]);
    }
  }

  lemma CellPassedFirst(input: Bytes, i: nat, start: nat, cells: seq<Cell>)
    requires start <= i && RowOk(cells) && At(input, i, CellsText(cells))
    ensures Toggled(input, i, start, false) == Toggled(input, i + |CellText(cells[0])|, start, false)
    ensures |cells| > 1 ==> At(input, i + |CellText(cells[0])|, [COMMA] + CellsText(cells[1..]))
  {
    hide CellText, Line, Toggled;
    if |cells| > 1 { AtSplit(input, i, CellText(cells[0]), [COMMA] + CellsText(cells[1..])); }
    CellPassed(input, i, start, cells[0]);
  }

  /** No line ends in a carriage return of its own. */
  lemma {:induction false} CellsEnd(cells: seq<Cell>)
    requires RowOk(cells)
    ensures var t := CellsText(cells); t != [] ==> t[|t| - 1] != RETURN
    decreases |cells|
  {
    if |cells| > 1 { CellsEnd(cells[1..]); } else { PlainBytes(cells[0].text); }
  }

  lemma LineCut(input: Bytes, i: nat, text: Bytes, e: nat)
    requires At(input, i, text) && i + |text| <= e <= |input| && (text != [] ==> text[|text| - 1] != RETURN)
    requires e == i + |text| || (e == i + |text| + 1 && input[i + |text|] == RETURN)
    ensures Line(input, i, e) == if text == [] then [] else [text]
  {
    if text != [] {
      assert input[i..i + |text|][|text| - 1] == input[i + |text| - 1];
    }
  }

  lemma EndingPassed(input: Bytes, i: nat, start: nat)
    requires start <= i < |input|
    ensures input[i] == RETURN ==> Toggled(input, i, start, false) == Toggled(input, i + 1, start, false)
    ensures input[i] == NEWLINE ==>
      Toggled(input, i, start, false) == Prepend(Line(input, start, i), Toggled(input, i + 1, i + 1, false))
  {
    hide Line;
  }

  /** A line with its ending. */
  lemma RecordRead(input: Bytes, i: nat, r: Record)
    requires RecordOk(r) && At(input, i, CellsText(r.cells)) && At(input, i + |CellsText(r.cells)|, r.ending)
    ensures var e := i + |CellsText(r.cells)| + |r.ending|;
      e <= |input| && Toggled(input, i, i, false) == Prepend(Kept(r.cells), Toggled(input, e, e, false))
  {
    hide Toggled, CellsText, Line, CellOk;
    var text := CellsText(r.cells);
    var p := i + |text|;
    CellsPassed(input, i, i, r.cells);
    CellsEnd(r.cells);
    AtHead(input, p, r.ending);
    EndingPassed(input, p, i);
    if |r.ending| == 2 {
      AtHead(input, p + 1, r.ending[1..]);
      EndingPassed(input, p + 1, i);
      LineCut(input, i, text, p + 1);
    } else {
      LineCut(input, i, text, p);
    }
  }

  lemma {:induction false} RecordsRead(input: Bytes, i: nat, rs: seq<Record>)
    requires RecordsOk(rs) && At(input, i, RecordsText(rs))
    ensures var e := i + |RecordsText(rs)|;
      Toggled(input, i, i, false) == Prepend(LinesOf(rs), Toggled(input, e, e, false))
    decreases |rs|
  {
    hide Toggled, CellsText, RecordOk, Kept;
    if rs == [] {
      PrependNothing(Toggled(input, i, i, false));
    } else {
      RecordFacts(rs[0]);
      var text := CellsText(rs[0].cells);
      var p := i + |text| + |rs[0].ending|;
      AtSplit(input, i, text, rs[0].ending + RecordsText(rs[1..]));
      AtSplit(input, i + |text|, rs[0].ending, RecordsText(rs[1..]));
      RecordRead(input, i, rs[0]);
      RecordsRead(input, p, rs[1..]);
      var e := i + |RecordsText(rs)|;
      PrependTwice(Kept(rs[0].cells), LinesOf(rs[1..]), Toggled(input, e, e, false));
    }
  }

  lemma RecordFacts(r: Record)
    requires RecordOk(r)
    ensures r.cells != [] && RowOk(r.cells)
  {
  }

  function LinesOf(rs: seq<Record>): (r: seq<Bytes>)
    requires RecordsOk(rs)
  {
    if rs == [] then [] else Kept(rs[0].cells) + LinesOf(rs[1..])
  }

  lemma {:induction false} SplitJoin(a: seq<Bytes>, b: seq<Bytes>)
    ensures SplitAll(a + b) == SplitAll(a) + SplitAll(b)
    decreases |a|
  {
    hide SplitLine;
    if a == [] { assert a + b == b; } else { assert (a + b)[1..] == a[1..] + b; SplitJoin(a[1..], b); }
  }

  lemma {:induction false} KeptSplit(cells: seq<Cell>)
    requires RowOk(cells)
    ensures SplitAll(Kept(cells)) == if CellsText(cells) == [] then [] else [Texts(cells)]
  {
    hide Fields, CellsText;
    var line := CellsText(cells);
    assert line[0..|line|] == line;
    RowRead(line, 0, cells);
    if line != [] { assert SplitAll([line][1..]) == []; }
  }

  lemma {:induction false} LinesSplit(rs: seq<Record>)
    requires RecordsOk(rs)
    ensures SplitAll(LinesOf(rs)) == RowsOf(rs)
    decreases |rs|
  {
    hide SplitAll, CellsText, Kept, RecordOk;
    if rs == [] {
      NothingSplit();
    } else {
      RecordFacts(rs[0]);
      SplitJoin(Kept(rs[0].cells), LinesOf(rs[1..]));
      KeptSplit(rs[0].cells);
      LinesSplit(rs[1..]);
    }
  }

  lemma NothingSplit()
    ensures SplitAll([]) == []
  {
  }

  /** Any such text gives the rows it spells, with or without an unended last line; only empty lines are no rows. */
  lemma TextRead(rs: seq<Record>, last: Option<seq<Cell>>)
    requires RecordsOk(rs) && (last.Some? ==> RowOk(last.value))
    ensures var input := RecordsText(rs) + (if last.Some? then CellsText(last.value) else []);
      var lines := Lines(input, 0, 0, false);
      && lines.Some?
      && SplitAll(lines.value)
         == RowsOf(rs) + (if last.Some? && CellsText(last.value) != [] then [Texts(last.value)] else [])
  {
    hide Lines, Toggled, CellsText, SplitAll, RecordsText, RowsOf, LinesOf, Kept, CellOk;
    var tail := if last.Some? then CellsText(last.value) else [];
    var input, e := RecordsText(rs) + tail, |RecordsText(rs)|;
    assert input[0..e] == RecordsText(rs) && input[e..|input|] == tail;
    LinesCountQuotes(input, 0, 0, false);
    RecordsRead(input, 0, rs);
    LinesSplit(rs);
    NothingSplit();
    if last.Some? {
      CellsPassed(input, e, e, last.value);
      CellsEnd(last.value);
      LineCut(input, e, tail, |input|);
      LastLine(input, e);
      KeptSplit(last.value);
      KeptIs(last.value);
      SplitJoin(LinesOf(rs), Kept(last.value));
    } else {
      LastLine(input, e);
      assert LinesOf(rs) + [] == LinesOf(rs);
      assert RowsOf(rs) + [] == RowsOf(rs);
    }
  }

  lemma LastLine(input: Bytes, start: nat)
    requires start <= |input|
    ensures Toggled(input, |input|, start, false) == Some(Line(input, start, |input|))
    ensures start == |input| ==> Line(input, start, |input|) == []
  {
  }

  lemma KeptIs(cells: seq<Cell>)
    requires cells != []
    ensures Kept(cells) == if CellsText(cells) == [] then [] else [CellsText(cells)]
  {
  }
}
