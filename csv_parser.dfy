/** The column-projection pipeline: a parser configured with an ordered list of
    output columns and a transformer per column, and `Parse`, which turns an
    already tokenised input (an optional header and one dictionary per data
    row) into the output header and one projected, transformed dictionary per
    row, or into one of the two errors. */
module CsvParsing {
  import opened Transformers

  datatype Option<T> = None | Some(value: T)

  /** One data row as the dictionary reader gives it: column name to text. */
  type Row = map<string, string>

  /** What a parse produces. `Ok` carries what is written to the output: the
      header and the rows. The two errors carry no output at all, since they
      are raised before the output is opened. */
  datatype ParseResult =
    | Ok(header: seq<string>, rows: seq<Row>)
    | NoHeader
    | MissingColumns(missing: set<string>)

  /** `set(names)` */
  function Elements(names: seq<string>): set<string> {
    set c | c in names
  }

  /** Every row has a value under every header name, as the dictionary reader
      guarantees for the rows it yields. */
  predicate RowsCover(fieldnames: seq<string>, rows: seq<Row>) {
    forall k, c :: 0 <= k < |rows| && c in fieldnames ==> c in rows[k]
  }

  /** `set(columns) - set(fieldnames)` is empty exactly when every column is
      one of the field names. */
  lemma NoneMissingIff(columns: seq<string>, fieldnames: seq<string>)
    ensures Elements(columns) - Elements(fieldnames) == {} <==> forall c :: c in columns ==> c in fieldnames
  {
    if Elements(columns) - Elements(fieldnames) == {} {
      forall c | c in columns
        ensures c in fieldnames
      {
        assert c in Elements(columns);
        assert c !in Elements(columns) - Elements(fieldnames);
      }
    }
  }

  /** The configured columns when there are any, the whole header otherwise. */
  function EffectiveColumns(configured: seq<string>, fieldnames: seq<string>): seq<string> {
    if configured != [] then configured else fieldnames
  }

  /** The value written for `column`: transformed when the column has a
      transformer, the raw value otherwise. */
  function TransformValue(transformers: map<string, Transformer>, column: string, value: string): string {
    if column in transformers then Apply(transformers[column], value) else value
  }

  /** The output dictionary built from one input row. */
  function ProjectRow(row: Row, columns: seq<string>, transformers: map<string, Transformer>): Row
    requires forall c :: c in columns ==> c in row
  {
    map c | c in columns :: TransformValue(transformers, c, row[c])
  }

  /** Building an output dictionary one more column at a time. */
  lemma ProjectRowExtend(row: Row, columns: seq<string>, column: string, transformers: map<string, Transformer>)
    requires forall c :: c in columns + [column] ==> c in row
    ensures ProjectRow(row, columns + [column], transformers)
            == ProjectRow(row, columns, transformers)[column := TransformValue(transformers, column, row[column])]
  {
  }

  /** What parsing `header` and `rows` with the given configuration yields. */
  function Process(configured: seq<string>, transformers: map<string, Transformer>,
                   header: Option<seq<string>>, rows: seq<Row>): (r: ParseResult)
    requires header.Some? ==> RowsCover(header.value, rows)
    ensures r.NoHeader? <==> header.None?
    ensures r.Ok? <==>
      header.Some? && forall c :: c in EffectiveColumns(configured, header.value) ==> c in header.value
    ensures r.MissingColumns? ==>
      header.Some? && r.missing == Elements(EffectiveColumns(configured, header.value)) - Elements(header.value)
    ensures r.Ok? ==> header.Some? && r.header == EffectiveColumns(configured, header.value)
    ensures r.Ok? ==> |r.rows| == |rows|
  {
    if header.None? then NoHeader
    else
      var fieldnames := header.value;
      var columns := EffectiveColumns(configured, fieldnames);
      var missing := Elements(columns) - Elements(fieldnames);
      NoneMissingIff(columns, fieldnames);
      if missing != {} then MissingColumns(missing)
      else Ok(columns, seq(|rows|, k requires 0 <= k < |rows| => ProjectRow(rows[k], columns, transformers)))
  }

  /** The parser: its configuration is changed in place by the builder calls,
      each of which hands back the parser itself. */
  class CsvParser {
    var columns: seq<string>
    var transformers: map<string, Transformer>

    constructor ()
      ensures columns == [] && transformers == map[]
    {
      columns := [];
      transformers := map[];
    }

    method SetColumns(columns: seq<string>) returns (self: CsvParser)
      modifies this
      ensures this.columns == columns
      ensures transformers == old(transformers)
      ensures self == this
    {
      this.columns := columns;
      self := this;
    }

    method AddTransformer(column: string, transformer: Transformer) returns (self: CsvParser)
      modifies this
      ensures transformers == old(transformers)[column := transformer]
      ensures columns == old(columns)
      ensures self == this
    {
      transformers := transformers[column := transformer];
      self := this;
    }

    /** Checks the header and the requested columns before anything is
        written, then builds the output row by row, column by column. */
    method Parse(header: Option<seq<string>>, rows: seq<Row>) returns (r: ParseResult)
      requires header.Some? ==> RowsCover(header.value, rows)
      ensures r == Process(columns, transformers, header, rows)
    {
      if header.None? {
        return NoHeader;
      }
      var fieldnames := header.value;
      var outputColumns := if columns != [] then columns else fieldnames;
      var missing := Elements(outputColumns) - Elements(fieldnames);
      NoneMissingIff(outputColumns, fieldnames);
      if missing != {} {
        return MissingColumns(missing);
      }
      var written: seq<Row> := [];
      var i := 0;
      while i < |rows|
        invariant 0 <= i <= |rows|
        invariant |written| == i
        invariant forall k :: 0 <= k < i ==> written[k] == ProjectRow(rows[k], outputColumns, transformers)
      {
        var row := rows[i];
        assert forall c :: c in outputColumns ==> c in row;
        var outputRow: Row := map[];
        var j := 0;
        while j < |outputColumns|
          invariant 0 <= j <= |outputColumns|
          invariant outputRow == ProjectRow(row, outputColumns[..j], transformers)
        {
          var column := outputColumns[j];
          var value := row[column];
          if column in transformers {
            value := Apply(transformers[column], value);
          }
          outputRow := outputRow[column := value];
          assert outputColumns[..j + 1] == outputColumns[..j] + [column];
          ProjectRowExtend(row, outputColumns[..j], column, transformers);
          j := j + 1;
        }
        assert outputColumns[..j] == outputColumns;
        written := written + [outputRow];
        i := i + 1;
      }
      r := Ok(outputColumns, written);
      assert written == Process(columns, transformers, header, rows).rows;
    }
  }

  /** `create_parser()`: a new parser with nothing configured. */
  method CreateParser() returns (p: CsvParser)
    ensures fresh(p)
    ensures p.columns == [] && p.transformers == map[]
  {
    p := new CsvParser();
  }

  /** With no columns configured, the output header is the input header, in
      its order, and the parse succeeds. */
  lemma DefaultColumnsAreHeader(transformers: map<string, Transformer>, fieldnames: seq<string>, rows: seq<Row>)
    requires RowsCover(fieldnames, rows)
    ensures Process([], transformers, Some(fieldnames), rows).Ok?
    ensures Process([], transformers, Some(fieldnames), rows).header == fieldnames
  {
  }

  /** Configured columns that all appear in the header are output in the
      configured order, whatever the header's order. */
  lemma ConfiguredColumnsInOrder(configured: seq<string>, transformers: map<string, Transformer>,
                                 fieldnames: seq<string>, rows: seq<Row>)
    requires RowsCover(fieldnames, rows)
    requires configured != [] && forall c :: c in configured ==> c in fieldnames
    ensures Process(configured, transformers, Some(fieldnames), rows).Ok?
    ensures Process(configured, transformers, Some(fieldnames), rows).header == configured
  {
  }

  /** The missing columns are exactly the requested names absent from the
      header: every absent one is reported, and nothing else. */
  lemma MissingColumnsExact(configured: seq<string>, transformers: map<string, Transformer>,
                            fieldnames: seq<string>, rows: seq<Row>, name: string)
    requires RowsCover(fieldnames, rows)
    requires name in configured && name !in fieldnames
    ensures Process(configured, transformers, Some(fieldnames), rows).MissingColumns?
    ensures forall c :: c in Process(configured, transformers, Some(fieldnames), rows).missing
                        <==> c in configured && c !in fieldnames
  {
    assert name in Elements(configured) - Elements(fieldnames);
  }

  /** Each output row has exactly the output columns, and under each the
      input value, transformed when the column has a transformer. */
  lemma OutputRows(configured: seq<string>, transformers: map<string, Transformer>,
                   header: Option<seq<string>>, rows: seq<Row>, k: int, c: string)
    requires header.Some? ==> RowsCover(header.value, rows)
    requires Process(configured, transformers, header, rows).Ok?
    requires 0 <= k < |rows|
    ensures var out := Process(configured, transformers, header, rows);
      && out.rows[k].Keys == Elements(out.header)
      && (c in out.header ==>
            && c in rows[k]
            && out.rows[k][c] == if c in transformers then Apply(transformers[c], rows[k][c]) else rows[k][c])
  {
    var out := Process(configured, transformers, header, rows);
    assert out.rows[k] == ProjectRow(rows[k], out.header, transformers);
  }

  /** A transformer registered for one column never touches another: the
      values of column `c` depend only on the transformer registered for `c`,
      and a column without one is copied from the input unchanged. */
  lemma TransformIsolation(configured: seq<string>, t1: map<string, Transformer>, t2: map<string, Transformer>,
                           fieldnames: seq<string>, rows: seq<Row>, k: int, c: string)
    requires RowsCover(fieldnames, rows)
    requires Process(configured, t1, Some(fieldnames), rows).Ok?
    requires 0 <= k < |rows|
    requires c in EffectiveColumns(configured, fieldnames)
    requires (c in t1) == (c in t2) && (c in t1 ==> t1[c] == t2[c])
    ensures Process(configured, t2, Some(fieldnames), rows).Ok?
    ensures Process(configured, t1, Some(fieldnames), rows).rows[k][c]
            == Process(configured, t2, Some(fieldnames), rows).rows[k][c]
    ensures c !in t1 ==> Process(configured, t1, Some(fieldnames), rows).rows[k][c] == rows[k][c]
  {
    OutputRows(configured, t1, Some(fieldnames), rows, k, c);
    OutputRows(configured, t2, Some(fieldnames), rows, k, c);
  }

  /** With no columns configured and no transformers, the output is the input:
      the same header and the same rows. */
  lemma IdentityPath(fieldnames: seq<string>, rows: seq<Row>)
    requires forall k, c :: 0 <= k < |rows| ==> (c in rows[k] <==> c in fieldnames)
    ensures Process([], map[], Some(fieldnames), rows) == Ok(fieldnames, rows)
  {
    var out := Process([], map[], Some(fieldnames), rows);
    forall k | 0 <= k < |rows|
      ensures out.rows[k] == rows[k]
    {
      assert out.rows[k] == ProjectRow(rows[k], fieldnames, map[]);
    }
  }
}
