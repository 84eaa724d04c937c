/** The export of a plan's artifacts (cmd/src/csv.rs), over the columns of cmd/src/artifact.rs. */
module ArtifactCsv {
  import opened Text
  import opened Csv
  import opened Json
  import A = Artifact
  import C = Columns
  import S = Slugs
  import T = Template

  /** A stored artifact; its date is already text. */
  datatype ArtifactRow = ArtifactRow(fields: Value, url: string, sourceKey: string, firstSeen: string)

  function Heading(f: A.FieldSpec): string {
    if IsBlank(f.caption) then f.key else f.caption
  }

  function Headings(schema: seq<A.FieldSpec>): (cells: seq<string>)
    ensures |cells| == |schema| && forall i :: 0 <= i < |schema| ==> cells[i] == Heading(schema[i])
  {
    seq(|schema|, i requires 0 <= i < |schema| => Heading(schema[i]))
  }

  function JsonCell(show: Value -> string, fields: Value, key: string): string {
    T.ValueText(show, Get(fields, key))
  }

  function FieldCells(show: Value -> string, schema: seq<A.FieldSpec>, fields: Value): (cells: seq<string>)
    ensures |cells| == |schema|
    ensures forall i :: 0 <= i < |schema| ==> cells[i] == JsonCell(show, fields, schema[i].key)
  {
    seq(|schema|, i requires 0 <= i < |schema| => JsonCell(show, fields, schema[i].key))
  }

  const PROVENANCE: seq<string> := ["Url", "SourceKey", "FirstSeen"]

  function HeaderCells(columns: seq<A.FieldSpec>, exact: bool): seq<string> {
    Headings(columns) + if exact then [] else PROVENANCE
  }

  function ArtifactCells(show: Value -> string, columns: seq<A.FieldSpec>, exact: bool, r: ArtifactRow): seq<string> {
    FieldCells(show, columns, r.fields) + if exact then [] else [r.url, r.sourceKey, r.firstSeen]
  }

  lemma HeaderIs(columns: seq<A.FieldSpec>, exact: bool)
    ensures HeaderCells(columns, exact) == if exact then Headings(columns) else Headings(columns) + PROVENANCE
  {
  }

  lemma CellsAre(show: Value -> string, columns: seq<A.FieldSpec>, exact: bool, r: ArtifactRow)
    ensures var cells := FieldCells(show, columns, r.fields);
            ArtifactCells(show, columns, exact, r) ==
            if exact then cells else cells + [r.url, r.sourceKey, r.firstSeen]
  {
  }

  function ArtifactTable(show: Value -> string, rows: seq<ArtifactRow>, columns: seq<A.FieldSpec>, exact: bool)
    : (table: seq<seq<string>>)
    ensures |table| == |rows| + 1 && table[0] == HeaderCells(columns, exact)
    ensures forall i :: 0 <= i < |rows| ==> table[i + 1] == ArtifactCells(show, columns, exact, rows[i])
  {
    [HeaderCells(columns, exact)]
    + seq(|rows|, i requires 0 <= i < |rows| => ArtifactCells(show, columns, exact, rows[i]))
  }

  method ArtifactsCsv(lib: Library, show: Value -> string, rows: seq<ArtifactRow>, schema: seq<A.FieldSpec>,
                      exact: bool)
    returns (out: string)
    ensures out == TableText(lib, ArtifactTable(show, rows, C.OutputColumns(schema), exact))
  {
    hide *;
    var columns := C.OutputColumns(schema);
    ghost var table := ArtifactTable(show, rows, columns, exact);
    var header := Headings(columns);
    if !exact {
      header := header + PROVENANCE;
    }
    assert header == HeaderCells(columns, exact) by {
      HeaderIs(columns, exact);
    }
    TableTextEmpty(lib, table);
    TableTextStep(lib, table, 0);
    out := WriteRow(lib, "", header);
    for i := 0 to |rows|
      invariant out == TableText(lib, table[..i + 1])
    {
      var r := rows[i];
      var cells := FieldCells(show, columns, r.fields);
      if !exact {
        cells := cells + [r.url, r.sourceKey, r.firstSeen];
      }
      assert cells == table[i + 1] by {
        CellsAre(show, columns, exact, r);
      }
      TableTextStep(lib, table, i + 1);
      out := WriteRow(lib, out, cells);
    }
    assert table[..|rows| + 1] == table;
  }

  /** Below a column's caption, or its key when it has none, stands what the artifact says of that key, and nothing when
      it says nothing; the link, the key and the date follow under their own headings. */
  lemma ValuesStandUnderTheirHeadings(show: Value -> string, columns: seq<A.FieldSpec>, r: ArtifactRow, text: string)
    ensures var header, cells, n := HeaderCells(columns, false), ArtifactCells(show, columns, false, r), |columns|;
            && |header| == |cells| == n + 3
            && header[n..] == ["Url", "SourceKey", "FirstSeen"] && cells[n..] == [r.url, r.sourceKey, r.firstSeen]
            && forall i :: 0 <= i < n ==>
                 && header[i] == (if IsBlank(columns[i].caption) then columns[i].key else columns[i].caption)
                 && (Get(r.fields, columns[i].key) == Some(Str(text)) ==> cells[i] == text)
                 && (Get(r.fields, columns[i].key) == Some(Number(text)) ==> cells[i] == text)
                 && (Get(r.fields, columns[i].key) == Some(Bool(true)) ==> cells[i] == "true")
                 && (Get(r.fields, columns[i].key) == Some(Bool(false)) ==> cells[i] == "false")
                 && (Get(r.fields, columns[i].key) in {None, Some(Null)} ==> cells[i] == "")
  {
    hide IsBlank, Get;
    var header, cells, n := HeaderCells(columns, false), ArtifactCells(show, columns, false, r), |columns|;
    assert header == Headings(columns) + PROVENANCE;
    assert cells == FieldCells(show, columns, r.fields) + [r.url, r.sourceKey, r.firstSeen];
  }

  /** Every record of an export is as wide as its header, and the export reads back whole exactly when it has a
      column: a plan that shows none, exported exactly, does not. */
  lemma ArtifactExportReadsBack(lib: Library, show: Value -> string, rows: seq<ArtifactRow>,
                                columns: seq<A.FieldSpec>, exact: bool)
    ensures var table := ArtifactTable(show, rows, columns, exact);
            && (forall i :: 0 <= i < |table| ==> |table[i]| == |columns| + if exact then 0 else 3)
            && (ReadCsv(TableText(lib, table)) == Some(DefusedTable(lib, table)) <==> columns != [] || !exact)
  {
    hide ReadCsv, TableText, JsonCell, Heading, DefuseFormula;
    var table := ArtifactTable(show, rows, columns, exact);
    forall i | 0 <= i < |table|
      ensures |table[i]| == |columns| + if exact then 0 else 3
    {
      if i > 0 {
        assert table[(i - 1) + 1] == ArtifactCells(show, columns, exact, rows[i - 1]);
      }
    }
    assert NoEmptyRow(table) <==> columns != [] || !exact by {
      assert |table[0]| == |columns| + if exact then 0 else 3;
    }
    RoundTripExactly(lib, table);
  }

  /** A typed column's heading is its name as typed. */
  lemma TypedHeadings(cols: seq<C.ColumnRequest>, columns: seq<A.FieldSpec>)
    requires var specs := C.Specs(cols);
             |columns| == |specs| && forall i :: 0 <= i < |specs| ==> columns[i] == specs[i].(role := columns[i].role)
    ensures forall i :: 0 <= i < |columns| ==> Headings(columns)[i] == C.Specs(cols)[i].caption
  {
    hide C.SpecOf, S.IsKeyForm, C.Specs, C.IsFrom, S.SlugOf, C.TYPES, Trim;
    var specs := C.Specs(cols);
    C.SpecsAreDistinct(cols);
    forall i | 0 <= i < |specs|
      ensures Heading(columns[i]) == specs[i].caption
    {
      assert specs[i] in specs;
      C.SpecIsFormed(cols, specs[i]);
      TrimBlank(specs[i].caption);
    }
  }

  /** The table a person gets for typed columns: headed by exactly their names, and readable whenever one was usable. */
  lemma TypedColumnsExport(lib: Library, show: Value -> string, rows: seq<ArtifactRow>, cols: seq<C.ColumnRequest>)
    ensures C.SchemaOf(cols) != [] ==>
              var columns, specs := C.OutputColumns(C.SchemaOf(cols)), C.Specs(cols);
              var table := ArtifactTable(show, rows, columns, true);
              && ReadCsv(TableText(lib, table)) == Some(DefusedTable(lib, table))
              && |table[0]| == |specs| && forall i :: 0 <= i < |specs| ==> table[0][i] == specs[i].caption
  {
    var columns := C.OutputColumns(C.SchemaOf(cols));
    assert C.SchemaOf(cols) != [] ==> C.Specs(cols) != [];
    hide *;
    C.TypedColumnsAreTheOutput(cols);
    ArtifactExportReadsBack(lib, show, rows, columns, true);
    TypedHeadings(cols, columns);
    HeaderIs(columns, true);
  }
}
