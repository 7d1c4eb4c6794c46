/**
 One validation pass of the script over an uploaded table: normalise the
 header, take the three role picks, normalise the role and ITEM columns in
 place, then run Rule 1 on the rows with an ITEM and Rule 2 on every row.
 */
module Validator {
  import opened Outcomes
  import opened Text
  import opened Masks
  import opened Table
  import opened Roles
  import opened Rules

  /** The two result tables: Rule 1's inconsistent rows and Rule 2's bad-value rows. */
  datatype Report = Report(inconsistent: seq<Row>, badValues: seq<Row>)

  /** The role columns exist in every row of a rectangular table. */
  lemma RectFits(rows: seq<Row>, width: nat, ri: RoleColumns)
    requires Rect(rows, width) && ri.Within(width)
    ensures Fits(rows, ri)
  {
  }

  /** What one pass computes from the uploaded header and rows and the three picks. */
  function Validation(header: seq<string>, rows: seq<Row>, m: string, b: string, s: string)
    : Result<Report, ConfigError>
    requires Rect(rows, |header|)
  {
    var columns := NormalizedHeader(header);
    match SelectRoles(columns, m, b, s)
    case None => Err(NotOffered)
    case Some(sel) =>
      match Resolve(columns, sel)
      case Err(e) => Err(e)
      case Ok(ri) =>
        var normalized := NormalizeCells(rows, ri.Positions());
        NormalizeCellsFrame(rows, ri.Positions(), |header|);
        RectFits(normalized, |header|, ri);
        Ok(Report(InconsistentRows(normalized, ri), BadValueRows(normalized)))
  }

  /** A pass succeeds exactly when the three picks are distinct header names and
      each of them and ITEM occurs once in the normalised header. */
  lemma ValidationSucceeds(header: seq<string>, rows: seq<Row>, m: string, b: string, s: string)
    requires Rect(rows, |header|)
    ensures var columns := NormalizedHeader(header);
            Validation(header, rows, m, b, s).Ok?
            <==> && m in columns && b in columns && s in columns && m != b && m != s && b != s
                 && forall name :: name in [m, b, s, ItemColumn] ==> Locate(columns, name).Unique?
  {
    var columns := NormalizedHeader(header);
    var sel := SelectRoles(columns, m, b, s);
    if sel.Some? {
      assert RoleNames(sel.value) == [m, b, s, ItemColumn];
    }
  }

  /** After a successful pass, Rule 1 reports, in table order, exactly the rows
      with an ITEM that are inconsistent once their role and ITEM cells are
      normalised. Rule 2 reports, in table order, the rows as normalised in
      place, taken at exactly the positions where the uploaded row holds a
      bad-value cell: the in-place normalisation changes the cells Rule 2
      emits but not which rows it picks. */
  lemma ValidationReports(header: seq<string>, rows: seq<Row>, m: string, b: string, s: string)
    requires Rect(rows, |header|)
    requires Validation(header, rows, m, b, s).Ok?
    ensures var ri := Resolve(NormalizedHeader(header), Selection(m, b, s)).value;
            var normalized := NormalizeCells(rows, ri.Positions());
            var report := Validation(header, rows, m, b, s).value;
            var one := TrueIndices(RuleOneMask(normalized, ri));
            var two := TrueIndices(BadValueMask(rows));
            && PicksAt(report.inconsistent, normalized, one)
            && (forall i :: 0 <= i < |rows| ==>
                  (i in one <==> HasItem(normalized[i], ri) && RowInconsistent(normalized[i], ri)))
            && PicksAt(report.badValues, normalized, two)
            && (forall i :: 0 <= i < |rows| ==> (i in two <==> HasBadValue(rows[i])))
  {
    var columns := NormalizedHeader(header);
    var ri := Resolve(columns, Selection(m, b, s)).value;
    var normalized := NormalizeCells(rows, ri.Positions());
    NormalizeCellsFrame(rows, ri.Positions(), |header|);
    RectFits(normalized, |header|, ri);
    assert Validation(header, rows, m, b, s).value
        == Report(InconsistentRows(normalized, ri), BadValueRows(normalized));
    InconsistentRowsExact(normalized, ri);
    BadValueMaskIgnoresNormalization(rows, ri.Positions());
    TrueIndicesExact(BadValueMask(rows));
    BadValueRowsExact(normalized);
  }

  /** The uploaded table `df`, whose header and cells the script overwrites in place. */
  class DataFrame {
    var columns: seq<string>
    const rows: array<Row>

    ghost predicate Valid()
      reads this, rows
    {
      Rect(rows[..], |columns|)
    }

    constructor (header: seq<string>, data: seq<Row>)
      requires Rect(data, |header|)
      ensures Valid() && columns == header && rows[..] == data && fresh(rows)
    {
      columns := header;
      rows := new Row[|data|](i requires 0 <= i < |data| => data[i]);
    }

    /** `df.columns = df.columns.str.upper().str.strip()`. */
    method NormalizeHeader()
      requires Valid()
      modifies this
      ensures Valid() && unchanged(rows)
      ensures columns == NormalizedHeader(old(columns))
    {
      columns := NormalizedHeader(columns);
    }

    /** `df[col] = df[col].astype(str).str.upper().str.strip()` for the column at `c`. */
    method NormalizeColumn(c: nat)
      requires Valid() && c < |columns|
      modifies rows
      ensures Valid()
      ensures rows[..] == NormalizeCells(old(rows[..]), {c})
    {
      for i := 0 to rows.Length
        invariant forall j :: 0 <= j < i ==> rows[j] == NormalizeRow(old(rows[j]), {c})
        invariant forall j :: i <= j < rows.Length ==> rows[j] == old(rows[j])
      {
        rows[i] := NormalizeRow(rows[i], {c});
      }
    }

    /** The loop over the manufacturer, brand, subbrand and ITEM columns. A
        column picked twice (ITEM as a role) is normalised twice, to the same effect. */
    method NormalizeRoles(ri: RoleColumns)
      requires Valid() && ri.Within(|columns|)
      modifies rows
      ensures Valid()
      ensures rows[..] == NormalizeCells(old(rows[..]), ri.Positions())
    {
      var order := [ri.manufacturer, ri.brand, ri.subbrand, ri.item];
      ghost var start := rows[..];
      ghost var done: set<nat> := {};
      NormalizeCellsNone(start);
      for k := 0 to |order|
        invariant Valid()
        invariant rows[..] == NormalizeCells(start, done)
        invariant forall j :: 0 <= j < k ==> order[j] in done
        invariant forall x :: x in done ==> x in order[..k]
      {
        NormalizeColumn(order[k]);
        NormalizeCellsCompose(start, done, {order[k]});
        done := done + {order[k]};
      }
      assert order[..4] == order;
      assert forall x :: x in order <==> x in ri.Positions();
      assert done == ri.Positions();
    }
  }

  /** The script's pass over `df` with the three picks: the header and the role
      and ITEM columns are normalised in place, and the two result tables are
      those `Validation` describes. When the pass cannot run, the rows are left
      as uploaded. */
  method Validate(df: DataFrame, m: string, b: string, s: string) returns (res: Result<Report, ConfigError>)
    requires df.Valid()
    modifies df, df.rows
    ensures df.Valid()
    ensures res == Validation(old(df.columns), old(df.rows[..]), m, b, s)
    ensures df.columns == NormalizedHeader(old(df.columns))
    ensures res.Err? ==> df.rows[..] == old(df.rows[..])
    ensures res.Ok? ==>
              df.rows[..] == NormalizeCells(old(df.rows[..]), Resolve(df.columns, Selection(m, b, s)).value.Positions())
  {
    ghost var header, uploaded := df.columns, df.rows[..];
    df.NormalizeHeader();
    var sel := SelectRoles(df.columns, m, b, s);
    if sel.None? {
      return Err(NotOffered);
    }
    var resolved := Resolve(df.columns, sel.value);
    if resolved.Err? {
      return Err(resolved.error);
    }
    var ri := resolved.value;
    df.NormalizeRoles(ri);
    var table := df.rows[..];
    RectFits(table, |df.columns|, ri);
    res := Ok(Report(InconsistentRows(table, ri), BadValueRows(table)));
  }
}
