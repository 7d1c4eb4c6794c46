/**
 The in-memory table: an ordered sequence of rows over an ordered sequence of
 column names, every cell already text. A missing value reads as "nan".
 */
module Table {
  import opened Text

  type Row = seq<string>

  /** Every row has one cell per column. */
  predicate Rect(rows: seq<Row>, width: nat) {
    forall i :: 0 <= i < |rows| ==> |rows[i]| == width
  }

  /** `df.columns.str.upper().str.strip()`. */
  function NormalizedHeader(columns: seq<string>): (r: seq<string>)
    ensures |r| == |columns|
    ensures forall k :: 0 <= k < |r| ==> NoLower(r[k]) && IsStripped(r[k])
  {
    var r := seq(|columns|, k requires 0 <= k < |columns| => Normalize(columns[k]));
    forall k | 0 <= k < |r|
      ensures NoLower(r[k]) && IsStripped(r[k])
    {
      NormalizeIsNormal(columns[k]);
    }
    r
  }

  /** Normalising the header a second time changes nothing. */
  lemma NormalizedHeaderIdempotent(columns: seq<string>)
    ensures NormalizedHeader(NormalizedHeader(columns)) == NormalizedHeader(columns)
  {
    var h := NormalizedHeader(columns);
    forall k | 0 <= k < |h|
      ensures NormalizedHeader(h)[k] == h[k]
    {
      NormalizeFixed(h[k]);
    }
  }

  /** How `df[name]` resolves a column name. */
  datatype Location = Missing | Ambiguous | Unique(index: nat)

  /** Where `name` stands among `columns`: nowhere, more than once, or at one position. */
  function Locate(columns: seq<string>, name: string): (r: Location)
    ensures r.Missing? <==> name !in columns
    ensures r.Unique? ==> r.index < |columns| && columns[r.index] == name
                          && forall j :: 0 <= j < |columns| && j != r.index ==> columns[j] != name
    ensures r.Ambiguous? <==> exists i, j :: 0 <= i < j < |columns| && columns[i] == name && columns[j] == name
  {
    if columns == [] then Missing
    else
      var n := |columns| - 1;
      var init := columns[..n];
      var rest := Locate(init, name);
      assert columns == init + [columns[n]];
      if columns[n] != name then rest
      else if rest.Missing? then Unique(n)
      else if rest.Unique? then
        assert init[rest.index] == columns[rest.index];
        Ambiguous
      else
        assert forall i :: 0 <= i < n ==> init[i] == columns[i];
        Ambiguous
  }

  /** One row with the cells at the positions `cs` normalised. */
  function NormalizeRow(row: Row, cs: set<nat>): (r: Row)
    ensures |r| == |row|
  {
    seq(|row|, k requires 0 <= k < |row| => if k in cs then Normalize(row[k]) else row[k])
  }

  /** Every row with the cells in the columns `cs` normalised. */
  function NormalizeCells(rows: seq<Row>, cs: set<nat>): (r: seq<Row>)
    ensures |r| == |rows|
    ensures forall i :: 0 <= i < |rows| ==> |r[i]| == |rows[i]|
  {
    seq(|rows|, i requires 0 <= i < |rows| => NormalizeRow(rows[i], cs))
  }

  /** Normalising some columns and then others is normalising all of them at
      once; a column normalised twice is no different from one normalised once. */
  lemma NormalizeRowCompose(row: Row, a: set<nat>, b: set<nat>)
    ensures NormalizeRow(NormalizeRow(row, a), b) == NormalizeRow(row, a + b)
  {
    var once := NormalizeRow(row, a);
    forall k | 0 <= k < |row|
      ensures NormalizeRow(once, b)[k] == NormalizeRow(row, a + b)[k]
    {
      if k in a && k in b {
        NormalizeIdempotent(row[k]);
      }
    }
  }

  lemma NormalizeCellsCompose(rows: seq<Row>, a: set<nat>, b: set<nat>)
    ensures NormalizeCells(NormalizeCells(rows, a), b) == NormalizeCells(rows, a + b)
  {
    forall i | 0 <= i < |rows|
      ensures NormalizeCells(NormalizeCells(rows, a), b)[i] == NormalizeCells(rows, a + b)[i]
    {
      NormalizeRowCompose(rows[i], a, b);
    }
  }

  /** Normalising the same columns again changes nothing. */
  lemma NormalizeCellsIdempotent(rows: seq<Row>, cs: set<nat>)
    ensures NormalizeCells(NormalizeCells(rows, cs), cs) == NormalizeCells(rows, cs)
  {
    NormalizeCellsCompose(rows, cs, cs);
    assert cs + cs == cs;
  }

  /** Normalisation keeps the row count, the row order and every cell outside `cs`. */
  lemma NormalizeCellsFrame(rows: seq<Row>, cs: set<nat>, width: nat)
    requires Rect(rows, width)
    ensures Rect(NormalizeCells(rows, cs), width)
    ensures forall i, k :: 0 <= i < |rows| && 0 <= k < width ==>
              NormalizeCells(rows, cs)[i][k] == (if k in cs then Normalize(rows[i][k]) else rows[i][k])
  {
  }

  /** Normalising no column changes nothing. */
  lemma NormalizeCellsNone(rows: seq<Row>)
    ensures NormalizeCells(rows, {}) == rows
  {
    forall i | 0 <= i < |rows|
      ensures NormalizeRow(rows[i], {}) == rows[i]
    {
    }
  }
}
