/**
 The two validation rules.

 Rule 1 (consistency) looks at the rows whose ITEM is present: a row is
 inconsistent when one of its manufacturer, brand and subbrand cells holds a
 special value and another of the three is neither that value nor a value
 ending in " MASKED".

 Rule 2 (bad values) looks at every row of the table: a row is flagged when
 some cell, upper-cased and stripped, is one of the bad-value tokens.
 */
module Rules {
  import opened Text
  import opened Masks
  import opened Table
  import opened Roles

  /** Placeholder labels that must be used consistently across the three roles. */
  const SpecialValues: seq<string> := ["ALL OTHER", "PRIVATE LABEL"]

  /** Marks a value that was deliberately redacted. */
  const MaskedSuffix: string := " MASKED"

  /** Cells left as a to-do. */
  const BadValues: seq<string> := ["TO BE CHECK", "TO BE CHECKED", "BADVALUE", "TBC"]

  /** ITEM values that count as absent ("nan" is how a missing cell reads). */
  const BlankItems: seq<string> := ["", "NAN"]

  // ---------------------------------------------------------------- Rule 1

  /** `is_valid(value, expected)`. */
  function IsValid(value: string, expected: string): bool {
    value == expected || EndsWith(value, MaskedSuffix)
  }

  /** A value is valid for `expected` exactly when it is `expected` or it is a
      masked value, some text followed by " MASKED", whatever is expected. */
  lemma IsValidIff(value: string, expected: string)
    ensures IsValid(value, expected)
            <==> value == expected || exists p :: value == p + MaskedSuffix
  {
    if EndsWith(value, MaskedSuffix) {
      var n := |value| - |MaskedSuffix|;
      assert value == value[..n] + MaskedSuffix;
    }
    if exists p :: value == p + MaskedSuffix {
      var p :| value == p + MaskedSuffix;
      EndsWithAppend(p, MaskedSuffix);
    }
  }

  /** One pass of the loop in `is_inconsistent`: some role holds `val` while
      one of the other two is not valid for `val`. */
  predicate ViolatesFor(m: string, b: string, s: string, val: string) {
    || (m == val && !(IsValid(b, val) && IsValid(s, val)))
    || (b == val && !(IsValid(m, val) && IsValid(s, val)))
    || (s == val && !(IsValid(m, val) && IsValid(b, val)))
  }

  /** What `is_inconsistent` decides: the three checks fail for some special value. */
  predicate Inconsistent(m: string, b: string, s: string) {
    exists k :: 0 <= k < |SpecialValues| && ViolatesFor(m, b, s, SpecialValues[k])
  }

  /** `is_inconsistent(row)` on the row's manufacturer, brand and subbrand:
      the loop over the special values, returning as soon as a check fails. */
  method IsInconsistent(m: string, b: string, s: string) returns (r: bool)
    ensures r == Inconsistent(m, b, s)
  {
    for k := 0 to |SpecialValues|
      invariant forall j :: 0 <= j < k ==> !ViolatesFor(m, b, s, SpecialValues[j])
    {
      var val := SpecialValues[k];
      if m == val && !(IsValid(b, val) && IsValid(s, val)) {
        assert ViolatesFor(m, b, s, SpecialValues[k]);
        return true;
      }
      if b == val && !(IsValid(m, val) && IsValid(s, val)) {
        assert ViolatesFor(m, b, s, SpecialValues[k]);
        return true;
      }
      if s == val && !(IsValid(m, val) && IsValid(b, val)) {
        assert ViolatesFor(m, b, s, SpecialValues[k]);
        return true;
      }
    }
    return false;
  }

  /** One special value's checks fail exactly when some role holds that value
      while a different role is not valid for it. */
  lemma ViolatesForIff(m: string, b: string, s: string, val: string)
    ensures var t := [m, b, s];
            ViolatesFor(m, b, s, val)
            <==> exists i, j :: 0 <= i < 3 && 0 <= j < 3 && i != j && t[i] == val && !IsValid(t[j], val)
  {
    var t := [m, b, s];
    if ViolatesFor(m, b, s, val) {
      var i, j;
      if m == val && !IsValid(b, val) { i, j := 0, 1; }
      else if m == val && !IsValid(s, val) { i, j := 0, 2; }
      else if b == val && !IsValid(m, val) { i, j := 1, 0; }
      else if b == val && !IsValid(s, val) { i, j := 1, 2; }
      else if s == val && !IsValid(m, val) { i, j := 2, 0; }
      else { i, j := 2, 1; }
      assert 0 <= i < 3 && 0 <= j < 3 && i != j && t[i] == val && !IsValid(t[j], val);
    }
  }

  /** Rule 1 stated over the roles as a triple: some special value sits in one
      role while a different role is not valid for it. */
  lemma InconsistentIff(m: string, b: string, s: string)
    ensures var t := [m, b, s];
            Inconsistent(m, b, s)
            <==> exists k, i, j :: 0 <= k < |SpecialValues| && 0 <= i < 3 && 0 <= j < 3 && i != j
                                 && t[i] == SpecialValues[k] && !IsValid(t[j], SpecialValues[k])
  {
    var t := [m, b, s];
    if Inconsistent(m, b, s) {
      var k :| 0 <= k < |SpecialValues| && ViolatesFor(m, b, s, SpecialValues[k]);
      ViolatesForIff(m, b, s, SpecialValues[k]);
      var i, j :| 0 <= i < 3 && 0 <= j < 3 && i != j && t[i] == SpecialValues[k] && !IsValid(t[j], SpecialValues[k]);
    }
    if exists k, i, j :: 0 <= k < |SpecialValues| && 0 <= i < 3 && 0 <= j < 3 && i != j
                         && t[i] == SpecialValues[k] && !IsValid(t[j], SpecialValues[k]) {
      var k, i, j :| 0 <= k < |SpecialValues| && 0 <= i < 3 && 0 <= j < 3 && i != j
                     && t[i] == SpecialValues[k] && !IsValid(t[j], SpecialValues[k]);
      ViolatesForIff(m, b, s, SpecialValues[k]);
    }
  }

  /** The rule treats the three roles alike: any reordering of manufacturer,
      brand and subbrand gives the same verdict. */
  lemma InconsistentSymmetric(m: string, b: string, s: string)
    ensures Inconsistent(m, b, s) == Inconsistent(b, m, s)
    ensures Inconsistent(m, b, s) == Inconsistent(m, s, b)
    ensures Inconsistent(m, b, s) == Inconsistent(s, b, m)
    ensures Inconsistent(m, b, s) == Inconsistent(b, s, m)
    ensures Inconsistent(m, b, s) == Inconsistent(s, m, b)
  {
    forall x, y, z
      ensures Inconsistent(x, y, z) ==> Inconsistent(y, x, z) && Inconsistent(x, z, y)
    {
      if Inconsistent(x, y, z) {
        var k :| 0 <= k < |SpecialValues| && ViolatesFor(x, y, z, SpecialValues[k]);
        assert ViolatesFor(y, x, z, SpecialValues[k]);
        assert ViolatesFor(x, z, y, SpecialValues[k]);
      }
    }
  }

  /** Without a special value in any role there is nothing to be inconsistent with. */
  lemma NoSpecialConsistent(m: string, b: string, s: string)
    requires m !in SpecialValues && b !in SpecialValues && s !in SpecialValues
    ensures !Inconsistent(m, b, s)
  {
  }

  /** A row that uses one special value in all three roles is consistent. */
  lemma SameSpecialConsistent(val: string)
    requires val in SpecialValues
    ensures !Inconsistent(val, val, val)
  {
    forall k | 0 <= k < |SpecialValues|
      ensures !ViolatesFor(val, val, val, SpecialValues[k])
    {
    }
  }

  /** A masked value is valid for every expected value, special or not. */
  lemma {:induction false} MaskedAlwaysValid(p: string, expected: string)
    ensures IsValid(p + MaskedSuffix, expected)
  {
    EndsWithAppend(p, MaskedSuffix);
  }

  /** "PRIVATE LABEL MASKED" is valid even where "ALL OTHER" is expected. */
  lemma MaskedOtherLabelValid()
    ensures IsValid("PRIVATE LABEL MASKED", "ALL OTHER")
  {
    assert "PRIVATE LABEL MASKED"[13..] == MaskedSuffix;
  }

  /** A real brand beside "ALL OTHER" manufacturer and subbrand is inconsistent. */
  lemma RealBrandInconsistent()
    ensures Inconsistent("ALL OTHER", "ACME", "ALL OTHER")
    ensures Inconsistent("ALL OTHER", "SOME REAL BRAND", "ALL OTHER")
  {
    assert ViolatesFor("ALL OTHER", "ACME", "ALL OTHER", SpecialValues[0]);
    assert ViolatesFor("ALL OTHER", "SOME REAL BRAND", "ALL OTHER", SpecialValues[0]);
  }

  /** A masked brand between matching special values is consistent. */
  lemma MaskedBrandConsistent(val: string)
    requires val in SpecialValues
    ensures !Inconsistent(val, val + MaskedSuffix, val)
  {
    var b := val + MaskedSuffix;
    MaskedAlwaysValid(val, val);
    assert 9 <= |val| && |b| == |val| + 7;
    forall k | 0 <= k < |SpecialValues|
      ensures !ViolatesFor(val, b, val, SpecialValues[k])
    {
      assert |SpecialValues[k]| <= 13;
    }
  }

  // ------------------------------------------------------ row populations

  /** The role columns exist in every row. */
  predicate Fits(rows: seq<Row>, ri: RoleColumns) {
    forall i :: 0 <= i < |rows| ==> ri.Within(|rows[i]|)
  }

  /** `df['ITEM'].isin(['', 'NAN'])` is false for this row. */
  predicate HasItem(row: Row, ri: RoleColumns)
    requires ri.Within(|row|)
  {
    row[ri.item] !in BlankItems
  }

  /** `is_inconsistent` applied to one row. */
  predicate RowInconsistent(row: Row, ri: RoleColumns)
    requires ri.Within(|row|)
  {
    Inconsistent(row[ri.manufacturer], row[ri.brand], row[ri.subbrand])
  }

  /** `~df['ITEM'].isin(['', 'NAN'])`. */
  function ItemMask(rows: seq<Row>, ri: RoleColumns): seq<bool>
    requires Fits(rows, ri)
  {
    seq(|rows|, i requires 0 <= i < |rows| => HasItem(rows[i], ri))
  }

  /** `df_filtered`: the rows whose ITEM is present, in table order. */
  function FilterItems(rows: seq<Row>, ri: RoleColumns): (r: seq<Row>)
    requires Fits(rows, ri)
    ensures Fits(r, ri) && forall k :: 0 <= k < |r| ==> HasItem(r[k], ri)
  {
    var mask := ItemMask(rows, ri);
    SelectPicksMarked(rows, mask);
    var r := Select(rows, mask);
    var idx := TrueIndices(mask);
    assert forall k :: 0 <= k < |r| ==> r[k] == rows[idx[k]] && idx[k] in idx;
    r
  }

  /** `df_filtered.apply(is_inconsistent, axis=1)`. */
  function InconsistentMask(rows: seq<Row>, ri: RoleColumns): seq<bool>
    requires Fits(rows, ri)
  {
    seq(|rows|, i requires 0 <= i < |rows| => RowInconsistent(rows[i], ri))
  }

  /** `inconsistent_rows`: Rule 1 applied to the rows whose ITEM is present. */
  function InconsistentRows(rows: seq<Row>, ri: RoleColumns): seq<Row>
    requires Fits(rows, ri)
  {
    var filtered := FilterItems(rows, ri);
    Select(filtered, InconsistentMask(filtered, ri))
  }

  /** Both conditions of Rule 1 as one mask over the whole table. */
  function RuleOneMask(rows: seq<Row>, ri: RoleColumns): seq<bool>
    requires Fits(rows, ri)
  {
    seq(|rows|, i requires 0 <= i < |rows| => HasItem(rows[i], ri) && RowInconsistent(rows[i], ri))
  }

  lemma FilterItemsSnoc(init: seq<Row>, last: Row, ri: RoleColumns)
    requires Fits(init, ri) && ri.Within(|last|)
    ensures Fits(init + [last], ri)
    ensures FilterItems(init + [last], ri) == FilterItems(init, ri) + (if HasItem(last, ri) then [last] else [])
  {
    assert ItemMask(init + [last], ri) == ItemMask(init, ri) + [HasItem(last, ri)];
    SelectSnoc(init, ItemMask(init, ri), last, HasItem(last, ri));
  }

  lemma InconsistentRowsSnoc(init: seq<Row>, last: Row, ri: RoleColumns)
    requires Fits(init, ri) && ri.Within(|last|)
    ensures Fits(init + [last], ri)
    ensures InconsistentRows(init + [last], ri)
            == InconsistentRows(init, ri) + (if HasItem(last, ri) && RowInconsistent(last, ri) then [last] else [])
  {
    FilterItemsSnoc(init, last, ri);
    var f0 := FilterItems(init, ri);
    if HasItem(last, ri) {
      assert InconsistentMask(f0 + [last], ri) == InconsistentMask(f0, ri) + [RowInconsistent(last, ri)];
      SelectSnoc(f0, InconsistentMask(f0, ri), last, RowInconsistent(last, ri));
    } else {
      assert FilterItems(init + [last], ri) == f0;
    }
  }

  /** Filtering by ITEM and then by Rule 1 is one filter by both. */
  lemma {:induction false} InconsistentRowsOneMask(rows: seq<Row>, ri: RoleColumns)
    requires Fits(rows, ri)
    ensures InconsistentRows(rows, ri) == Select(rows, RuleOneMask(rows, ri))
  {
    if rows != [] {
      var n := |rows| - 1;
      var init, last := rows[..n], rows[n];
      assert rows == init + [last];
      InconsistentRowsOneMask(init, ri);
      InconsistentRowsSnoc(init, last, ri);
      var flag := HasItem(last, ri) && RowInconsistent(last, ri);
      assert RuleOneMask(rows, ri) == RuleOneMask(init, ri) + [flag];
      SelectSnoc(init, RuleOneMask(init, ri), last, flag);
    }
  }

  /** Rule 1's result is the order-preserving subsequence of the table made of
      exactly the rows whose ITEM is present and that are inconsistent; a row
      with a blank ITEM is never flagged, whatever its roles hold. */
  lemma InconsistentRowsExact(rows: seq<Row>, ri: RoleColumns)
    requires Fits(rows, ri)
    ensures var idx := TrueIndices(RuleOneMask(rows, ri));
            && PicksAt(InconsistentRows(rows, ri), rows, idx)
            && forall i :: 0 <= i < |rows| ==>
                 (i in idx <==> HasItem(rows[i], ri) && RowInconsistent(rows[i], ri))
  {
    InconsistentRowsOneMask(rows, ri);
    SelectPicksMarked(rows, RuleOneMask(rows, ri));
  }

  // ---------------------------------------------------------------- Rule 2

  /** `row.astype(str).str.upper().str.strip().isin(bad_values).any()`. */
  predicate HasBadValue(row: Row) {
    exists k :: 0 <= k < |row| && Normalize(row[k]) in BadValues
  }

  function BadValueMask(rows: seq<Row>): seq<bool> {
    seq(|rows|, i requires 0 <= i < |rows| => HasBadValue(rows[i]))
  }

  /** `bad_value_rows`: Rule 2 over the whole table. */
  function BadValueRows(rows: seq<Row>): seq<Row> {
    Select(rows, BadValueMask(rows))
  }

  /** Rule 2's result is the order-preserving subsequence of the whole table
      made of exactly the rows with a bad-value cell in any column; ITEM plays
      no part, so rows with a blank ITEM are flagged like any other. */
  lemma BadValueRowsExact(rows: seq<Row>)
    ensures var idx := TrueIndices(BadValueMask(rows));
            && PicksAt(BadValueRows(rows), rows, idx)
            && forall i :: 0 <= i < |rows| ==>
                 (i in idx <==> exists k :: 0 <= k < |rows[i]| && Normalize(rows[i][k]) in BadValues)
  {
    SelectPicksMarked(rows, BadValueMask(rows));
  }

  /** Normalising some columns in place beforehand does not change which rows
      Rule 2 flags, because Rule 2 normalises every cell itself. */
  lemma BadValueMaskIgnoresNormalization(rows: seq<Row>, cs: set<nat>)
    ensures BadValueMask(NormalizeCells(rows, cs)) == BadValueMask(rows)
  {
    var after := NormalizeCells(rows, cs);
    forall i | 0 <= i < |rows|
      ensures HasBadValue(after[i]) == HasBadValue(rows[i])
    {
      forall k | 0 <= k < |rows[i]|
        ensures Normalize(after[i][k]) == Normalize(rows[i][k])
      {
        NormalizeIdempotent(rows[i][k]);
      }
      if HasBadValue(rows[i]) {
        var k :| 0 <= k < |rows[i]| && Normalize(rows[i][k]) in BadValues;
        assert Normalize(after[i][k]) in BadValues;
      }
      if HasBadValue(after[i]) {
        var k :| 0 <= k < |after[i]| && Normalize(after[i][k]) in BadValues;
        assert Normalize(rows[i][k]) in BadValues;
      }
    }
  }

  /** When every cell is already in normal form, Rule 2 compares the cells as they are. */
  lemma BadValueOnNormalRow(row: Row)
    requires forall k :: 0 <= k < |row| ==> NoLower(row[k]) && IsStripped(row[k])
    ensures HasBadValue(row) <==> exists k :: 0 <= k < |row| && row[k] in BadValues
  {
    forall k | 0 <= k < |row|
      ensures Normalize(row[k]) == row[k]
    {
      NormalizeFixed(row[k]);
    }
  }

  /** On a table in normal form where only row `i` holds a bad-value token,
      Rule 2 reports that row alone. */
  lemma BadValueRowsOne(rows: seq<Row>, i: nat)
    requires i < |rows|
    requires forall j, k :: 0 <= j < |rows| && 0 <= k < |rows[j]| ==> NoLower(rows[j][k]) && IsStripped(rows[j][k])
    requires exists k :: 0 <= k < |rows[i]| && rows[i][k] in BadValues
    requires forall j, k :: 0 <= j < |rows| && j != i && 0 <= k < |rows[j]| ==> rows[j][k] !in BadValues
    ensures BadValueRows(rows) == [rows[i]]
  {
    BadValueMaskOnNormalTable(rows);
    SelectSingle(rows, BadValueMask(rows), i);
  }

  /** The five-row sample, over the columns MANUFACTURER, BRAND, SUBBRAND, ITEM. */
  const SampleRows: seq<Row> := [
    ["ALL OTHER", "ALL OTHER", "ALL OTHER", "WIDGET"],
    ["ALL OTHER", "ACME", "ALL OTHER", "WIDGET"],
    ["PRIVATE LABEL", "PRIVATE LABEL" + MaskedSuffix, "PRIVATE LABEL", "GADGET"],
    ["ACME", "TBC", "WIDGET", "THING"],
    ["ACME", "WIDGETCO", "GIZMO", ""]]

  const SampleRoles: RoleColumns := RoleColumns(0, 1, 2, 3)

  /** On a table whose cells are all in normal form, Rule 2 looks for the
      tokens among the cells as they are. */
  lemma BadValueMaskOnNormalTable(rows: seq<Row>)
    requires forall i, k :: 0 <= i < |rows| && 0 <= k < |rows[i]| ==> NoLower(rows[i][k]) && IsStripped(rows[i][k])
    ensures forall i :: 0 <= i < |rows| ==>
              (BadValueMask(rows)[i] <==> exists k :: 0 <= k < |rows[i]| && rows[i][k] in BadValues)
  {
    forall i | 0 <= i < |rows| {
      BadValueOnNormalRow(rows[i]);
    }
  }

  /** Every sample cell is already in normal form, and only the fourth row
      holds a bad-value token. */
  lemma SampleCells()
    ensures forall i, k :: 0 <= i < |SampleRows| && 0 <= k < |SampleRows[i]| ==>
              NoLower(SampleRows[i][k]) && IsStripped(SampleRows[i][k])
    ensures forall i, k :: 0 <= i < |SampleRows| && 0 <= k < |SampleRows[i]| ==>
              (SampleRows[i][k] in BadValues <==> i == 3 && k == 1)
  {
    SampleLetters();
    SampleStripped();
    SampleTokens();
    forall i, k | 0 <= i < |SampleRows| && 0 <= k < |SampleRows[i]|
      ensures NoLower(SampleRows[i][k])
    {
      var w := SampleRows[i][k];
      assert forall j :: 0 <= j < |w| ==> w[j] in w;
    }
  }

  lemma SampleLetters()
    ensures forall i, k :: 0 <= i < |SampleRows| && 0 <= k < |SampleRows[i]| ==>
              forall c :: c in SampleRows[i][k] ==> !IsLower(c)
  {
  }

  lemma SampleStripped()
    ensures forall i, k :: 0 <= i < |SampleRows| && 0 <= k < |SampleRows[i]| ==>
              IsStripped(SampleRows[i][k])
  {
  }

  lemma SampleTokens()
    ensures forall i, k :: 0 <= i < |SampleRows| && 0 <= k < |SampleRows[i]| ==>
              (SampleRows[i][k] in BadValues <==> i == 3 && k == 1)
  {
  }

  /** Which sample rows have an ITEM and which are inconsistent. */
  lemma SampleRoleValues()
    ensures Fits(SampleRows, SampleRoles)
    ensures forall i :: 0 <= i < |SampleRows| ==>
              (HasItem(SampleRows[i], SampleRoles) <==> i != 4)
    ensures forall i :: 0 <= i < |SampleRows| ==>
              (RowInconsistent(SampleRows[i], SampleRoles) <==> i == 1)
  {
    SampleItems();
    SampleVerdicts();
  }

  lemma SampleItems()
    ensures Fits(SampleRows, SampleRoles)
    ensures forall i :: 0 <= i < |SampleRows| ==>
              (HasItem(SampleRows[i], SampleRoles) <==> i != 4)
  {
  }

  lemma SampleVerdicts()
    ensures forall i :: 0 <= i < |SampleRows| ==>
              (Inconsistent(SampleRows[i][0], SampleRows[i][1], SampleRows[i][2]) <==> i == 1)
  {
    var rows := SampleRows;
    forall i | 0 <= i < |rows|
      ensures Inconsistent(rows[i][0], rows[i][1], rows[i][2]) <==> i == 1
    {
      if i == 0 {
        SameSpecialConsistent("ALL OTHER");
      } else if i == 1 {
        RealBrandInconsistent();
      } else if i == 2 {
        MaskedBrandConsistent("PRIVATE LABEL");
      } else if i == 3 {
        NoSpecialConsistent("ACME", "TBC", "WIDGET");
      } else {
        NoSpecialConsistent("ACME", "WIDGETCO", "GIZMO");
      }
    }
  }

  /** In the sample, only the row with a real brand between two "ALL OTHER"
      values is inconsistent; the row with a blank ITEM is not looked at. */
  lemma SampleRuleOne()
    ensures Fits(SampleRows, SampleRoles)
    ensures InconsistentRows(SampleRows, SampleRoles) == [SampleRows[1]]
  {
    var rows, ri := SampleRows, SampleRoles;
    SampleRoleValues();
    var mask := RuleOneMask(rows, ri);
    InconsistentRowsOneMask(rows, ri);
    SelectSingle(rows, mask, 1);
  }

  /** In the sample, only the row holding "TBC" has a bad value. */
  lemma SampleRuleTwo()
    ensures BadValueRows(SampleRows) == [SampleRows[3]]
  {
    SampleCells();
    assert SampleRows[3][1] in BadValues;
    BadValueRowsOne(SampleRows, 3);
  }
}
