/** The one CSV renderer behind every export (cmd/src/csv.rs), and a strict reader for what it writes:
    section 2 of RFC 4180, with records ended by a line feed. */
module Csv {
  import opened Text

  /** The standard library's number parser and alphabetic property; the results below hold for any. */
  datatype Library = Library(parsesAsNumber: string -> bool, isAlphabetic: char -> bool)

  predicate StartsFormula(probe: string) {
    probe != [] && probe[0] in {'=', '+', '-', '@'}
  }

  /** A cell a spreadsheet would run: past leading blanks it opens like a formula,
      it is not a number, and it has a letter to name something with. */
  predicate OpensFormula(lib: Library, field: string) {
    var probe := TrimStart(field);
    && StartsFormula(probe)
    && !lib.parsesAsNumber(probe)
    && exists c <- probe :: lib.isAlphabetic(c)
  }

  function DefuseFormula(lib: Library, field: string): string {
    var probe := TrimStart(field);
    if !StartsFormula(probe) then field
    else if lib.parsesAsNumber(probe) then field
    else if forall c <- probe :: !lib.isAlphabetic(c) then field
    else "'" + field
  }

  predicate NeedsQuotes(cell: string) {
    exists c <- cell :: c in {',', '"', '\n', '\r'}
  }

  function DoubleQuotes(s: string): string {
    if s == [] then [] else (if s[0] == '"' then "\"\"" else [s[0]]) + DoubleQuotes(s[1..])
  }

  function CellText(cell: string): string {
    if NeedsQuotes(cell) then "\"" + DoubleQuotes(cell) + "\"" else cell
  }

  /** A record without its line end. */
  function RecordText(cells: seq<string>): string {
    if cells == [] then []
    else if |cells| == 1 then CellText(cells[0])
    else RecordText(cells[..|cells| - 1]) + "," + CellText(cells[|cells| - 1])
  }

  function RowText(lib: Library, fields: seq<string>): string {
    RecordText(Defused(lib, fields)) + "\n"
  }

  function Defused(lib: Library, fields: seq<string>): (cells: seq<string>)
    ensures |cells| == |fields|
    ensures forall i :: 0 <= i < |fields| ==> cells[i] == DefuseFormula(lib, fields[i])
  {
    seq(|fields|, i requires 0 <= i < |fields| => DefuseFormula(lib, fields[i]))
  }

  function TableText(lib: Library, rows: seq<seq<string>>): string {
    if rows == [] then [] else TableText(lib, rows[..|rows| - 1]) + RowText(lib, rows[|rows| - 1])
  }

  predicate NoEmptyRow(rows: seq<seq<string>>) {
    forall i :: 0 <= i < |rows| ==> |rows[i]| > 0
  }

  function DefusedTable(lib: Library, rows: seq<seq<string>>): (table: seq<seq<string>>)
    ensures |table| == |rows|
    ensures forall i :: 0 <= i < |rows| ==> table[i] == Defused(lib, rows[i])
  {
    seq(|rows|, i requires 0 <= i < |rows| => Defused(lib, rows[i]))
  }

  // ----- The writer -----

  method WriteCell(lib: Library, out: string, field: string) returns (out': string)
    ensures out' == out + CellText(DefuseFormula(lib, field))
  {
    hide DefuseFormula, NeedsQuotes, DoubleQuotes;
    var safe := DefuseFormula(lib, field);
    if NeedsQuotes(safe) {
      out' := out + "\"";
      out' := out' + DoubleQuotes(safe);
      out' := out' + "\"";
      assert out' == out + ("\"" + DoubleQuotes(safe) + "\"");
    } else {
      out' := out + safe;
    }
  }

  method WriteRow(lib: Library, out: string, fields: seq<string>) returns (out': string)
    ensures out' == out + RowText(lib, fields)
  {
    hide DefuseFormula, RecordText, CellText;
    out' := out;
    ghost var cells := Defused(lib, fields);
    RecordTextEmpty(cells);
    for i := 0 to |fields|
      invariant out' == out + RecordText(cells[..i])
    {
      RecordTextStep(cells, i);
      if i > 0 {
        out' := out' + ",";
      }
      out' := WriteCell(lib, out', fields[i]);
    }
    assert cells[..|fields|] == cells;
    out' := out' + "\n";
  }

  lemma RecordTextEmpty(cells: seq<string>)
    ensures RecordText(cells[..0]) == []
  {
  }

  lemma RecordTextStep(cells: seq<string>, i: nat)
    requires i < |cells|
    ensures RecordText(cells[..i + 1]) == RecordText(cells[..i]) + (if i > 0 then "," else "") + CellText(cells[i])
  {
    assert cells[..i + 1][..i] == cells[..i];
  }

  lemma TableTextStep(lib: Library, table: seq<seq<string>>, i: nat)
    requires i < |table|
    ensures TableText(lib, table[..i + 1]) == TableText(lib, table[..i]) + RowText(lib, table[i])
  {
    assert table[..i + 1][..i] == table[..i];
  }

  /** A stored prospect, its numbers and dates already text. */
  datatype ProspectRow = ProspectRow(
    prospectId: string, name: string, title: string, company: string, industry: string, email: string,
    emailStatus: string, phone: string, website: string, linkedin: string, location: string, notes: string,
    estimatedValue: Option<string>, source: string, sourceKey: string, firstSeen: string, lastSeen: string)

  const HEADER: seq<string> := [
    "ProspectId", "Name", "Title", "Company", "Industry", "Email", "EmailStatus", "Phone", "Website", "LinkedIn",
    "Location", "Notes", "EstimatedValue", "Source", "SourceKey", "FirstSeenUtc", "LastSeenUtc"]

  function ProspectCells(p: ProspectRow): (cells: seq<string>)
    ensures |cells| == |HEADER|
  {
    [p.prospectId, p.name, p.title, p.company, p.industry, p.email, p.emailStatus, p.phone, p.website, p.linkedin,
     p.location, p.notes, if p.estimatedValue.Some? then p.estimatedValue.value else "", p.source, p.sourceKey,
     p.firstSeen, p.lastSeen]
  }

  function ProspectTable(rows: seq<ProspectRow>): (table: seq<seq<string>>)
    ensures |table| == |rows| + 1 && table[0] == HEADER
    ensures forall i :: 0 <= i < |rows| ==> table[i + 1] == ProspectCells(rows[i])
  {
    [HEADER] + seq(|rows|, i requires 0 <= i < |rows| => ProspectCells(rows[i]))
  }

  method ProspectsCsv(lib: Library, rows: seq<ProspectRow>) returns (out: string)
    ensures out == TableText(lib, ProspectTable(rows))
  {
    hide TableText, RowText;
    ghost var table := ProspectTable(rows);
    TableTextStep(lib, table, 0);
    assert TableText(lib, table[..0]) == "" by { TableTextEmpty(lib, table); }
    out := WriteRow(lib, "", HEADER);
    for i := 0 to |rows|
      invariant out == TableText(lib, table[..i + 1])
    {
      TableTextStep(lib, table, i + 1);
      out := WriteRow(lib, out, ProspectCells(rows[i]));
    }
    assert table[..|rows| + 1] == table;
  }

  lemma TableTextEmpty(lib: Library, table: seq<seq<string>>)
    ensures TableText(lib, table[..0]) == ""
  {
  }

  // ----- The reader: one character at a time -----

  datatype Mode = FieldStart | Unquoted | Quoted | QuoteSeen | Malformed

  datatype Reader = Reader(mode: Mode, field: string, row: seq<string>, rows: seq<seq<string>>)

  function EndField(r: Reader): Reader {
    Reader(FieldStart, "", r.row + [r.field], r.rows)
  }

  function EndRecord(r: Reader): Reader {
    Reader(FieldStart, "", [], r.rows + [r.row + [r.field]])
  }

  function Read1(r: Reader, c: char): Reader {
    match r.mode
    case Malformed => r
    case Quoted => if c == '"' then r.(mode := QuoteSeen) else r.(field := r.field + [c])
    case QuoteSeen =>
      if c == '"' then r.(mode := Quoted, field := r.field + "\"")
      else if c == ',' then EndField(r)
      else if c == '\n' then EndRecord(r)
      else r.(mode := Malformed)
    case _ =>
      if c == ',' then EndField(r)
      else if c == '\n' then EndRecord(r)
      else if c == '"' then (if r.mode.FieldStart? then r.(mode := Quoted) else r.(mode := Malformed))
      else if c == '\r' then r.(mode := Malformed)
      else r.(mode := Unquoted, field := r.field + [c])
  }

  function ReadOn(r: Reader, text: string): Reader
    decreases |text|
  {
    if text == [] then r else ReadOn(Read1(r, text[0]), text[1..])
  }

  /** The records of a whole document, or None when it is not one. */
  function ReadCsv(text: string): Option<seq<seq<string>>> {
    var r := ReadOn(Reader(FieldStart, "", [], []), text);
    if r.mode.FieldStart? && r.row == [] then Some(r.rows) else None
  }

  // ----- Reading back what was written -----

  lemma {:induction false} ReadOnConcat(r: Reader, a: string, b: string)
    ensures ReadOn(r, a + b) == ReadOn(ReadOn(r, a), b)
    decreases |a|
  {
    if a == [] {
      assert a + b == b;
    } else {
      assert (a + b)[1..] == a[1..] + b;
      ReadOnConcat(Read1(r, a[0]), a[1..], b);
    }
  }

  lemma ReadOnOne(r: Reader, c: char)
    ensures ReadOn(r, [c]) == Read1(r, c)
  {
    assert ReadOn(Read1(r, c), []) == Read1(r, c);
  }

  lemma {:induction false} ReadPlain(r: Reader, s: string)
    requires r.mode.FieldStart? || r.mode.Unquoted?
    requires !NeedsQuotes(s)
    ensures ReadOn(r, s) == if s == [] then r else r.(mode := Unquoted, field := r.field + s)
    decreases |s|
  {
    if s != [] {
      assert s[0] in s;
      assert forall c <- s[1..] :: c in s;
      ReadPlain(Read1(r, s[0]), s[1..]);
      assert r.field + [s[0]] + s[1..] == r.field + s;
    }
  }

  lemma {:induction false} ReadQuotedBody(r: Reader, s: string)
    requires r.mode.Quoted?
    ensures ReadOn(r, DoubleQuotes(s)) == r.(field := r.field + s)
    decreases |s|
  {
    if s == [] {
      assert r.field + s == r.field;
    } else {
      var first := if s[0] == '"' then "\"\"" else [s[0]];
      ReadOnConcat(r, first, DoubleQuotes(s[1..]));
      if s[0] == '"' {
        assert first[1..] == "\"";
        ReadOnOne(Read1(r, '"'), '"');
      } else {
        ReadOnOne(r, s[0]);
      }
      ReadQuotedBody(r.(field := r.field + [s[0]]), s[1..]);
      assert r.field + [s[0]] + s[1..] == r.field + s;
    }
  }

  /** A written cell is read back whole, and the reader is left ready for a comma or a line end. */
  lemma ReadCell(r: Reader, cell: string)
    requires r.mode.FieldStart? && r.field == ""
    ensures var done := ReadOn(r, CellText(cell));
            && (done.mode.FieldStart? || done.mode.Unquoted? || done.mode.QuoteSeen?)
            && done.field == cell && done.row == r.row && done.rows == r.rows
  {
    if NeedsQuotes(cell) {
      ReadOnConcat(r, "\"" + DoubleQuotes(cell), "\"");
      ReadOnConcat(r, "\"", DoubleQuotes(cell));
      ReadOnOne(r, '"');
      var inside := Read1(r, '"');
      ReadQuotedBody(inside, cell);
      assert "" + cell == cell;
      ReadOnOne(inside.(field := cell), '"');
    } else {
      ReadPlain(r, cell);
      assert "" + cell == cell;
    }
  }

  lemma {:induction false} ReadRecord(rows: seq<seq<string>>, cells: seq<string>)
    requires cells != []
    ensures var done := ReadOn(Reader(FieldStart, "", [], rows), RecordText(cells));
            && (done.mode.FieldStart? || done.mode.Unquoted? || done.mode.QuoteSeen?)
            && done.row + [done.field] == cells && done.rows == rows
    decreases |cells|
  {
    var start := Reader(FieldStart, "", [], rows);
    var last := cells[|cells| - 1];
    if |cells| == 1 {
      ReadCell(start, last);
    } else {
      var front := cells[..|cells| - 1];
      ReadRecord(rows, front);
      ReadOnConcat(start, RecordText(front) + ",", CellText(last));
      ReadOnConcat(start, RecordText(front), ",");
      var before := ReadOn(start, RecordText(front));
      ReadOnOne(before, ',');
      ReadCell(EndField(before), last);
      assert front + [last] == cells;
    }
  }

  lemma ReadRow(lib: Library, rows: seq<seq<string>>, fields: seq<string>)
    requires fields != []
    ensures ReadOn(Reader(FieldStart, "", [], rows), RowText(lib, fields))
         == Reader(FieldStart, "", [], rows + [Defused(lib, fields)])
  {
    var cells := Defused(lib, fields);
    var start := Reader(FieldStart, "", [], rows);
    ReadRecord(rows, cells);
    ReadOnConcat(start, RecordText(cells), "\n");
    ReadOnOne(ReadOn(start, RecordText(cells)), '\n');
  }

  lemma {:induction false} ReadTable(lib: Library, rows: seq<seq<string>>)
    requires NoEmptyRow(rows)
    ensures ReadOn(Reader(FieldStart, "", [], []), TableText(lib, rows))
         == Reader(FieldStart, "", [], DefusedTable(lib, rows))
    decreases |rows|
  {
    if rows != [] {
      hide ReadOn, RowText, Defused;
      var n := |rows| - 1;
      var front, last := rows[..n], rows[n];
      ReadTable(lib, front);
      ReadOnConcat(Reader(FieldStart, "", [], []), TableText(lib, front), RowText(lib, last));
      ReadRow(lib, DefusedTable(lib, front), last);
      assert DefusedTable(lib, front) + [Defused(lib, last)] == DefusedTable(lib, rows);
    }
  }

  /** Whatever the cells hold, the reader recovers the defused table: same records, same fields, same text. */
  lemma CsvRoundTrip(lib: Library, rows: seq<seq<string>>)
    requires NoEmptyRow(rows)
    ensures ReadCsv(TableText(lib, rows)) == Some(DefusedTable(lib, rows))
  {
    ReadTable(lib, rows);
  }

  /** A table with one empty cell in each record that has none. */
  function Widened(rows: seq<seq<string>>): (table: seq<seq<string>>)
    ensures |table| == |rows|
    ensures forall i :: 0 <= i < |rows| ==> table[i] == if rows[i] == [] then [""] else rows[i]
  {
    seq(|rows|, i requires 0 <= i < |rows| => if rows[i] == [] then [""] else rows[i])
  }

  lemma EmptyRecordLooksLikeOneCell(lib: Library)
    ensures RowText(lib, []) == RowText(lib, [""])
  {
    assert Defused(lib, []) == [] && Defused(lib, [""]) == [""];
  }

  lemma {:induction false} WidenedLooksTheSame(lib: Library, rows: seq<seq<string>>)
    ensures TableText(lib, Widened(rows)) == TableText(lib, rows)
  {
    EmptyRecordLooksLikeOneCell(lib);
    hide RowText;
    if rows != [] {
      var front := rows[..|rows| - 1];
      WidenedLooksTheSame(lib, front);
      assert Widened(rows)[..|rows| - 1] == Widened(front);
    }
  }

  /** An empty record is the one that cannot survive: it reads back as a single empty cell, so a table comes back
      whole exactly when it has none. */
  lemma RoundTripExactly(lib: Library, rows: seq<seq<string>>)
    ensures ReadCsv(TableText(lib, rows)) == Some(DefusedTable(lib, Widened(rows)))
    ensures ReadCsv(TableText(lib, rows)) == Some(DefusedTable(lib, rows)) <==> NoEmptyRow(rows)
  {
    WidenedLooksTheSame(lib, rows);
    CsvRoundTrip(lib, Widened(rows));
    hide ReadCsv, TableText, DefuseFormula, Defused;
    if NoEmptyRow(rows) {
      assert Widened(rows) == rows;
    } else {
      var i :| 0 <= i < |rows| && |rows[i]| == 0;
      assert DefusedTable(lib, Widened(rows))[i] == Defused(lib, [""]);
      assert DefusedTable(lib, rows)[i] == Defused(lib, []);
      assert |Defused(lib, [""])| == 1 && |Defused(lib, [])| == 0;
    }
  }

  lemma HeaderIsSafe(lib: Library)
    ensures Defused(lib, HEADER) == HEADER
  {
  }

  /** The cell is the one below that heading. */
  predicate StandsUnder(cells: seq<string>, heading: string, cell: string) {
    |cells| == |HEADER| && exists i :: 0 <= i < |HEADER| && HEADER[i] == heading && cells[i] == cell
  }

  lemma StandsUnderAt(cells: seq<string>, i: nat)
    requires |cells| == |HEADER| && i < |HEADER|
    ensures StandsUnder(cells, HEADER[i], cells[i])
  {
  }

  /** Each fact of a prospect stands under its own heading, and a worth that is not known under an empty one. */
  lemma FactsStandUnderTheirHeadings(p: ProspectRow)
    ensures var cells := ProspectCells(p);
            && StandsUnder(cells, "ProspectId", p.prospectId) && StandsUnder(cells, "Name", p.name)
            && StandsUnder(cells, "Title", p.title) && StandsUnder(cells, "Company", p.company)
            && StandsUnder(cells, "Industry", p.industry) && StandsUnder(cells, "Email", p.email)
            && StandsUnder(cells, "EmailStatus", p.emailStatus) && StandsUnder(cells, "Phone", p.phone)
            && StandsUnder(cells, "Website", p.website) && StandsUnder(cells, "LinkedIn", p.linkedin)
            && StandsUnder(cells, "Location", p.location) && StandsUnder(cells, "Notes", p.notes)
            && StandsUnder(cells, "Source", p.source) && StandsUnder(cells, "SourceKey", p.sourceKey)
            && StandsUnder(cells, "FirstSeenUtc", p.firstSeen) && StandsUnder(cells, "LastSeenUtc", p.lastSeen)
            && (p.estimatedValue.Some? ==> StandsUnder(cells, "EstimatedValue", p.estimatedValue.value))
            && (p.estimatedValue.None? ==> StandsUnder(cells, "EstimatedValue", ""))
  {
    hide StandsUnder;
    var cells := ProspectCells(p);
    forall i: nat | i < |HEADER|
      ensures StandsUnder(cells, HEADER[i], cells[i])
    {
      StandsUnderAt(cells, i);
    }
    assert StandsUnder(cells, HEADER[0], cells[0]) && StandsUnder(cells, HEADER[1], cells[1]);
    assert StandsUnder(cells, HEADER[2], cells[2]) && StandsUnder(cells, HEADER[3], cells[3]);
    assert StandsUnder(cells, HEADER[4], cells[4]) && StandsUnder(cells, HEADER[5], cells[5]);
    assert StandsUnder(cells, HEADER[6], cells[6]) && StandsUnder(cells, HEADER[7], cells[7]);
    assert StandsUnder(cells, HEADER[8], cells[8]) && StandsUnder(cells, HEADER[9], cells[9]);
    assert StandsUnder(cells, HEADER[10], cells[10]) && StandsUnder(cells, HEADER[11], cells[11]);
    assert StandsUnder(cells, HEADER[12], cells[12]) && StandsUnder(cells, HEADER[13], cells[13]);
    assert StandsUnder(cells, HEADER[14], cells[14]) && StandsUnder(cells, HEADER[15], cells[15]);
    assert StandsUnder(cells, HEADER[16], cells[16]);
  }

  /** A prospect export reads back as the header and one record of the same width for each row. */
  lemma ProspectExportReadsBack(lib: Library, rows: seq<ProspectRow>)
    ensures var records := ReadCsv(TableText(lib, ProspectTable(rows)));
            && records.Some? && |records.value| == |rows| + 1
            && records.value[0] == HEADER
            && forall i :: 0 <= i < |rows| ==>
                 |records.value[i + 1]| == |HEADER| && records.value[i + 1] == Defused(lib, ProspectCells(rows[i]))
  {
    hide ProspectCells, TableText;
    var table := ProspectTable(rows);
    forall i | 0 <= i < |table|
      ensures |table[i]| > 0
    {
      if i > 0 {
        assert table[(i - 1) + 1] == ProspectCells(rows[i - 1]);
      }
    }
    CsvRoundTrip(lib, table);
    HeaderIsSafe(lib);
  }

  // ----- Defusing -----

  /** Exactly the cells that open a formula are changed, by one leading apostrophe, and afterwards none does. */
  lemma DefusedCellsAreSafe(lib: Library, field: string)
    ensures DefuseFormula(lib, field) == if OpensFormula(lib, field) then "'" + field else field
    ensures !OpensFormula(lib, DefuseFormula(lib, field))
    ensures DefuseFormula(lib, DefuseFormula(lib, field)) == DefuseFormula(lib, field)
  {
    if OpensFormula(lib, field) {
      assert TrimStart("'" + field) == "'" + field;
    }
  }

  /** No cell a reader recovers from an export opens a formula. */
  lemma NoRecoveredCellOpensAFormula(lib: Library, rows: seq<seq<string>>, i: nat, j: nat)
    requires NoEmptyRow(rows)
    requires i < |rows| && j < |rows[i]|
    ensures match ReadCsv(TableText(lib, rows))
            case None => false
            case Some(records) =>
              |records| == |rows| && |records[i]| == |rows[i]| && !OpensFormula(lib, records[i][j])
  {
    CsvRoundTrip(lib, rows);
    DefusedCellsAreSafe(lib, rows[i][j]);
  }
}
