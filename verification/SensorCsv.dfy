/** The sensor export reader: a character state machine, judged by an RFC 4180 printer (section 2). */
module SensorCsv {

  datatype State = State(records: seq<seq<string>>, record: seq<string>, field: string, inQuotes: bool)

  const START := State([], [], "", false)

  function EndField(st: State): State {
    st.(record := st.record + [st.field], field := "")
  }

  /** A line break ends a record, unless nothing has been read since the last one. */
  function EndRecord(st: State): State {
    if st.field == "" && st.record == [] then st
    else State(st.records + [st.record + [st.field]], [], "", st.inQuotes)
  }

  function Run(text: string, st: State): State
    decreases |text|
  {
    if text == "" then st
    else
      var c, rest := text[0], text[1..];
      if c == '"' then
        if !st.inQuotes then Run(rest, st.(inQuotes := true))
        else if rest != "" && rest[0] == '"' then Run(rest[1..], st.(field := st.field + "\""))
        else Run(rest, st.(inQuotes := false))
      else if c == ',' && !st.inQuotes then Run(rest, EndField(st))
      else if (c == '\n' || c == '\r') && !st.inQuotes then Run(rest, EndRecord(st))
      else Run(rest, st.(field := st.field + [c]))
  }

  function Parse(text: string): seq<seq<string>> {
    EndRecord(Run(text, START)).records
  }

  method ParseRecords(text: string) returns (records: seq<seq<string>>)
    ensures records == Parse(text)
  {
    records := [];
    var field := "";
    var record: seq<string> := [];
    var inQuotes := false;
    var i := 0;
    while i < |text|
      invariant i <= |text|
      invariant Run(text[i..], State(records, record, field, inQuotes)) == Run(text, START)
    {
      var c := text[i];
      assert text[i..][1..] == text[i + 1..];
      i := i + 1;
      if c == '"' && inQuotes {
        if i < |text| && text[i] == '"' {
          assert text[i..][1..] == text[i + 1..];
          field := field + "\"";
          i := i + 1;
        } else {
          inQuotes := false;
        }
      } else if c == '"' {
        inQuotes := true;
      } else if c == ',' && !inQuotes {
        record, field := record + [field], "";
      } else if (c == '\n' || c == '\r') && !inQuotes {
        if field != "" || record != [] {
          record := record + [field];
          records, record, field := records + [record], [], "";
        }
      } else {
        field := field + [c];
      }
    }
    if field != "" || record != [] {
      record := record + [field];
      records := records + [record];
    }
  }

  // ----- Printing -----------------------------------------------------------------------------

  datatype Cell = Cell(text: string, quoted: bool)
  datatype LineBreak = Lf | CrLf | Cr
  datatype Row = Row(cells: seq<Cell>, end: LineBreak)

  predicate Bare(c: char) {
    c != '"' && c != ',' && c != '\n' && c != '\r'
  }

  predicate Plain(text: string) {
    forall i :: 0 <= i < |text| ==> Bare(text[i])
  }

  /** A field may go unquoted when it holds no quote, comma or line break. */
  predicate Printable(c: Cell) {
    c.quoted || Plain(c.text)
  }

  ghost predicate PrintableRows(rows: seq<Row>) {
    forall r, c :: r in rows && c in r.cells ==> Printable(c)
  }

  function Escape(text: string): string {
    if text == "" then "" else (if text[0] == '"' then "\"\"" else [text[0]]) + Escape(text[1..])
  }

  function PrintCell(c: Cell): string {
    if c.quoted then "\"" + Escape(c.text) + "\"" else c.text
  }

  function PrintCells(cells: seq<Cell>): string {
    if cells == [] then ""
    else if |cells| == 1 then PrintCell(cells[0])
    else PrintCell(cells[0]) + "," + PrintCells(cells[1..])
  }

  function PrintBreak(b: LineBreak): string {
    match b case Lf => "\n" case CrLf => "\r\n" case Cr => "\r"
  }

  /** Rows with their line breaks; the break after the last row is optional. */
  function Print(rows: seq<Row>, trailing: bool): string {
    if rows == [] then ""
    else if |rows| == 1 && !trailing then PrintCells(rows[0].cells)
    else PrintCells(rows[0].cells) + PrintBreak(rows[0].end) + Print(rows[1..], trailing)
  }

  function Texts(cells: seq<Cell>): (r: seq<string>)
    ensures |r| == |cells|
  {
    if cells == [] then [] else [cells[0].text] + Texts(cells[1..])
  }

  function Table(rows: seq<Row>): (r: seq<seq<string>>)
    ensures |r| == |rows|
  {
    if rows == [] then [] else [Texts(rows[0].cells)] + Table(rows[1..])
  }

  /** A record the reader cannot tell from a blank line. */
  predicate Blank(r: Row) {
    r.cells == [] || (|r.cells| == 1 && r.cells[0].text == "")
  }

  /** The records a reader can see. */
  function Kept(rows: seq<Row>): (r: seq<seq<string>>)
    ensures |r| <= |rows|
    ensures |r| == |rows| ==> r == Table(rows) && forall x :: x in rows ==> !Blank(x)
    ensures (forall x :: x in rows ==> !Blank(x)) ==> r == Table(rows)
  {
    if rows == [] then [] else (if Blank(rows[0]) then [] else [Texts(rows[0].cells)]) + Kept(rows[1..])
  }

  // ----- Reading back what was printed --------------------------------------------------------

  lemma {:induction false} RunPlain(text: string, rest: string, st: State)
    requires !st.inQuotes && Plain(text)
    ensures Run(text + rest, st) == Run(rest, st.(field := st.field + text))
    decreases |text|
  {
    if text == "" {
      assert text + rest == rest && st.field + text == st.field;
    } else {
      assert (text + rest)[1..] == text[1..] + rest;
      assert Bare(text[0]);
      RunPlain(text[1..], rest, st.(field := st.field + [text[0]]));
      assert st.field + [text[0]] + text[1..] == st.field + text;
    }
  }

  lemma {:induction false} RunEscaped(text: string, rest: string, st: State)
    requires st.inQuotes && (rest == "" || rest[0] != '"')
    ensures Run(Escape(text) + "\"" + rest, st) == Run(rest, st.(field := st.field + text, inQuotes := false))
    decreases |text|
  {
    var all := Escape(text) + "\"" + rest;
    if text == "" {
      assert all[1..] == rest && st.field + text == st.field;
    } else {
      var tail := Escape(text[1..]) + "\"" + rest;
      if text[0] == '"' {
        assert all == "\"\"" + tail;
        assert all[1..][1..] == tail;
      } else {
        assert all == [text[0]] + tail;
        assert all[1..] == tail;
      }
      RunEscaped(text[1..], rest, st.(field := st.field + [text[0]]));
      assert st.field + [text[0]] + text[1..] == st.field + text;
    }
  }

  /** A stretch of text, quoted or bare, adds itself to the field, wherever in the field it comes. */
  lemma RunCell(c: Cell, rest: string, st: State)
    requires !st.inQuotes && Printable(c) && (rest == "" || rest[0] != '"')
    ensures Run(PrintCell(c) + rest, st) == Run(rest, st.(field := st.field + c.text))
  {
    hide Run, Escape, Plain;
    if c.quoted {
      var tail := Escape(c.text) + "\"" + rest;
      assert PrintCell(c) + rest == "\"" + tail;
      RunQuote(tail, st);
      RunEscaped(c.text, rest, st.(inQuotes := true));
      assert st.(inQuotes := true).(field := st.field + c.text, inQuotes := false) == st.(field := st.field + c.text);
    } else {
      RunPlain(c.text, rest, st);
    }
  }

  lemma RunQuote(rest: string, st: State)
    requires !st.inQuotes
    ensures Run("\"" + rest, st) == Run(rest, st.(inQuotes := true))
  {
    assert ("\"" + rest)[1..] == rest;
  }

  lemma RunFirst(c: Cell, rest: string, st: State)
    requires !st.inQuotes && st.field == "" && Printable(c) && (rest == "" || rest[0] != '"')
    ensures Run(PrintCell(c) + rest, st) == Run(rest, st.(field := c.text))
  {
    hide PrintCell, Run;
    RunCell(c, rest, st);
    assert "" + c.text == c.text;
  }

  /** A quotation nobody closes runs to the end of the text, commas and line breaks included. */
  lemma {:induction false} RunUnclosed(text: string, st: State)
    requires st.inQuotes
    ensures Run(Escape(text), st) == st.(field := st.field + text)
    decreases |text|
  {
    if text == "" {
      assert st.field + text == st.field;
    } else {
      var all, tail := Escape(text), Escape(text[1..]);
      if text[0] == '"' {
        assert all == "\"\"" + tail;
        assert all[1..][1..] == tail;
      } else {
        assert all[1..] == tail;
      }
      RunUnclosed(text[1..], st.(field := st.field + [text[0]]));
      assert st.field + [text[0]] + text[1..] == st.field + text;
    }
  }

  lemma RunComma(rest: string, st: State)
    requires !st.inQuotes
    ensures Run("," + rest, st) == Run(rest, EndField(st))
  {
    assert ("," + rest)[1..] == rest;
  }

  /** What reading a printed row leaves pending. */
  function Pending(cells: seq<Cell>, st: State): State {
    if cells == [] then st
    else if |cells| == 1 then st.(field := cells[0].text)
    else Pending(cells[1..], EndField(st.(field := cells[0].text)))
  }

  lemma {:induction false} RunCells(cells: seq<Cell>, rest: string, st: State)
    requires !st.inQuotes && st.field == "" && forall c :: c in cells ==> Printable(c)
    requires rest == "" || rest[0] == '\n' || rest[0] == '\r'
    ensures Run(PrintCells(cells) + rest, st) == Run(rest, Pending(cells, st))
    decreases |cells|
  {
    hide PrintCell, Printable, Run;
    if cells == [] {
      assert "" + rest == rest;
    } else if |cells| == 1 {
      RunFirst(cells[0], rest, st);
    } else {
      var tail := PrintCells(cells[1..]) + rest;
      assert PrintCells(cells) + rest == PrintCell(cells[0]) + ("," + tail);
      RunFirst(cells[0], "," + tail, st);
      RunComma(tail, st.(field := cells[0].text));
      RunCells(cells[1..], rest, EndField(st.(field := cells[0].text)));
    }
  }

  lemma RunBreak(b: LineBreak, rest: string, st: State)
    requires !st.inQuotes
    ensures Run(PrintBreak(b) + rest, st) == Run(rest, EndRecord(st))
  {
    var all := PrintBreak(b) + rest;
    assert all[|PrintBreak(b)|..] == rest;
    if b == CrLf {
      assert all[1..] == "\n" + rest;
      assert ("\n" + rest)[1..] == rest;
    } else {
      assert all[1..] == rest;
    }
  }

  lemma {:induction false} PendingEnds(cells: seq<Cell>, done: seq<seq<string>>, record: seq<string>)
    requires cells != []
    ensures var p := Pending(cells, State(done, record, "", false));
            p.records == done && !p.inQuotes && p.record + [p.field] == record + Texts(cells)
    decreases |cells|
  {
    if |cells| == 1 {
      assert cells[1..] == [] && Texts([]) == [];
    } else {
      PendingEnds(cells[1..], done, record + [cells[0].text]);
      assert record + [cells[0].text] + Texts(cells[1..]) == record + Texts(cells);
    }
  }

  /** Ending a row adds its texts, unless the row is blank. */
  lemma RowEnds(cells: seq<Cell>, b: LineBreak, done: seq<seq<string>>)
    ensures EndRecord(Pending(cells, State(done, [], "", false)))
         == State(done + if Blank(Row(cells, b)) then [] else [Texts(cells)], [], "", false)
    ensures !Pending(cells, State(done, [], "", false)).inQuotes
  {
    hide Pending;
    var texts := Texts(cells);
    assert done + [] == done;
    if cells == [] {
      NothingPending(State(done, [], "", false));
    } else {
      PendingEnds(cells, done, []);
      assert [] + texts == texts;
      var p := Pending(cells, State(done, [], "", false));
      assert p.field == texts[|texts| - 1] && |p.record| == |texts| - 1;
    }
  }

  lemma NothingPending(st: State)
    ensures Pending([], st) == st
  {
  }

  lemma PrintStep(rows: seq<Row>, trailing: bool)
    requires rows != []
    ensures Print(rows, trailing) == PrintCells(rows[0].cells) +
              if |rows| == 1 && !trailing then "" else PrintBreak(rows[0].end) + Print(rows[1..], trailing)
  {
    hide PrintCells, PrintBreak;
    var c := PrintCells(rows[0].cells);
    assert c + "" == c;
    assert c + PrintBreak(rows[0].end) + Print(rows[1..], trailing) ==
           c + (PrintBreak(rows[0].end) + Print(rows[1..], trailing));
  }

  lemma KeptStep(rows: seq<Row>)
    requires rows != []
    ensures Kept(rows) == (if Blank(rows[0]) then [] else [Texts(rows[0].cells)]) + Kept(rows[1..])
  {
  }

  lemma {:induction false} RunRows(rows: seq<Row>, trailing: bool, done: seq<seq<string>>)
    requires PrintableRows(rows)
    ensures EndRecord(Run(Print(rows, trailing), State(done, [], "", false))) == State(done + Kept(rows), [], "", false)
    decreases |rows|
  {
    hide PrintCells, PrintBreak, EndRecord, Pending, Blank, Printable, Texts, Print, Kept;
    var st := State(done, [], "", false);
    if rows == [] {
      NoRow(trailing, st);
      RowEnds([], Lf, done);
      NothingPending(st);
    } else {
      var row := rows[0];
      var last := |rows| == 1 && !trailing;
      var tail := PrintBreak(row.end) + Print(rows[1..], trailing);
      var rest := if last then "" else tail;
      BreakFirst(row.end, Print(rows[1..], trailing));
      PrintStep(rows, trailing);
      RunCells(row.cells, rest, st);
      RowEnds(row.cells, row.end, done);
      var more := if Blank(row) then [] else [Texts(row.cells)];
      KeptStep(rows);
      assert done + more + Kept(rows[1..]) == done + Kept(rows);
      if !last {
        RunBreak(row.end, Print(rows[1..], trailing), Pending(row.cells, st));
        RunRows(rows[1..], trailing, done + more);
      }
    }
  }

  lemma NoRow(trailing: bool, st: State)
    ensures Blank(Row([], Lf)) && Kept([]) == [] && Print([], trailing) == "" && Run("", st) == st
  {
  }

  lemma BreakFirst(b: LineBreak, rest: string)
    ensures var s := PrintBreak(b) + rest; s != "" && (s[0] == '\n' || s[0] == '\r')
  {
  }

  /**
   Reading back any printed table, with any mix of bare and quoted fields and of line breaks, gives
   the same table less the records that look like blank lines.
   */
  lemma ParsePrinted(rows: seq<Row>, trailing: bool)
    requires PrintableRows(rows)
    ensures Parse(Print(rows, trailing)) == Kept(rows)
  {
    hide Run, Print, Kept;
    RunRows(rows, trailing, []);
    assert [] + Kept(rows) == Kept(rows);
  }

  /** So reading undoes printing exactly when no record is empty or a single empty field. */
  lemma RoundTrip(rows: seq<Row>, trailing: bool)
    requires PrintableRows(rows)
    ensures Parse(Print(rows, trailing)) == Table(rows) <==> forall r :: r in rows ==> !Blank(r)
  {
    hide Parse, Print;
    ParsePrinted(rows, trailing);
  }
}
