/**
 Choosing the manufacturer, brand and subbrand columns, and finding them (and
 the fixed ITEM column) in the normalised header.

 The three dropdowns are modelled by the column names the user picked; each
 dropdown offers the header minus the earlier picks.
 */
module Roles {
  import opened Outcomes
  import opened Masks
  import opened Table

  /** The fixed item column, after header normalisation. */
  const ItemColumn: string := "ITEM"

  /** `[col for col in options if col != picked]`. */
  function Remaining(options: seq<string>, picked: string): (r: seq<string>)
    ensures forall c :: c in r <==> c in options && c != picked
  {
    var keep := seq(|options|, k requires 0 <= k < |options| => options[k] != picked);
    var r := Select(options, keep);
    forall c
      ensures c in r <==> c in options && c != picked
    {
      SelectMembers(options, keep, c);
    }
    r
  }

  /** The dropdown options keep their header order and keep every entry other
      than the pick, a name listed twice staying listed twice. */
  lemma RemainingInOrder(options: seq<string>, picked: string)
    ensures exists idx :: PicksAt(Remaining(options, picked), options, idx)
                          && forall k :: 0 <= k < |options| ==> (k in idx <==> options[k] != picked)
  {
    var keep := seq(|options|, k requires 0 <= k < |options| => options[k] != picked);
    SelectPicksMarked(options, keep);
    assert Remaining(options, picked) == Select(options, keep);
    assert PicksAt(Remaining(options, picked), options, TrueIndices(keep));
  }

  /** The column names picked for the three roles. */
  datatype Selection = Selection(manufacturer: string, brand: string, subbrand: string)

  /** The three dropdowns: the manufacturer is picked from the header, the brand
      from what is left, the subbrand from what is left after that. A pick that
      its dropdown does not offer is refused. */
  function SelectRoles(columns: seq<string>, m: string, b: string, s: string): (r: Option<Selection>)
    ensures r.Some? <==> m in columns && b in columns && s in columns && m != b && m != s && b != s
    ensures r.Some? ==> r.value == Selection(m, b, s)
  {
    var options1 := Remaining(columns, m);
    var options2 := Remaining(options1, b);
    if m in columns && b in options1 && s in options2 then Some(Selection(m, b, s)) else None
  }

  /** Streamlit preselects the first option of each dropdown; that default is
      accepted whenever the header holds three different names. */
  lemma DefaultSelection(columns: seq<string>, i: nat, j: nat, k: nat)
    requires i < |columns| && j < |columns| && k < |columns|
    requires columns[i] != columns[j] && columns[i] != columns[k] && columns[j] != columns[k]
    ensures |columns| > 0 && |Remaining(columns, columns[0])| > 0
    ensures var b := Remaining(columns, columns[0])[0];
            |Remaining(Remaining(columns, columns[0]), b)| > 0
            && SelectRoles(columns, columns[0], b, Remaining(Remaining(columns, columns[0]), b)[0]).Some?
  {
    var m := columns[0];
    var o1 := Remaining(columns, m);
    var x :| x in [columns[i], columns[j]] && x != m;
    assert x in o1;
    var b := o1[0];
    var o2 := Remaining(o1, b);
    var y :| y in [columns[i], columns[j], columns[k]] && y != m && y != b;
    assert y in o2;
  }

  /** Column positions of the four roles the rules read. */
  datatype RoleColumns = RoleColumns(manufacturer: nat, brand: nat, subbrand: nat, item: nat) {
    predicate Within(width: nat) {
      manufacturer < width && brand < width && subbrand < width && item < width
    }
    function Positions(): set<nat> {
      {manufacturer, brand, subbrand, item}
    }
  }

  /** Why the validation pass cannot run with a given header and selection. */
  datatype ConfigError =
    | NotOffered                  // a pick is not among its dropdown's options
    | MissingColumn(name: string) // `df[name]` raises KeyError
    | DuplicateColumn(name: string) // `df[name]` is a frame, so `.str` raises

  /** `df[name]` as a column position. */
  function Find(columns: seq<string>, name: string): (r: Result<nat, ConfigError>)
    ensures r.Ok? <==> Locate(columns, name).Unique?
    ensures r.Ok? ==> r.value < |columns| && columns[r.value] == name
    ensures r.Err? ==> r.error == (if name in columns then DuplicateColumn(name) else MissingColumn(name))
  {
    match Locate(columns, name)
    case Missing => Err(MissingColumn(name))
    case Ambiguous => Err(DuplicateColumn(name))
    case Unique(i) => Ok(i)
  }

  /** The loop of the normalisation step reads the manufacturer, brand, subbrand
      and ITEM columns; when one of them is missing or duplicated the pass stops
      with an error naming such a column. */
  function Resolve(columns: seq<string>, sel: Selection): (r: Result<RoleColumns, ConfigError>)
    ensures r.Ok? <==> (forall name :: name in RoleNames(sel) ==> Locate(columns, name).Unique?)
    ensures r.Ok? ==> r.value.Within(|columns|)
                      && columns[r.value.manufacturer] == sel.manufacturer
                      && columns[r.value.brand] == sel.brand
                      && columns[r.value.subbrand] == sel.subbrand
                      && columns[r.value.item] == ItemColumn
    ensures r.Err? ==> exists name :: name in RoleNames(sel) && !Locate(columns, name).Unique?
                         && r.error == (if name in columns then DuplicateColumn(name) else MissingColumn(name))
  {
    var names := RoleNames(sel);
    match Find(columns, sel.manufacturer)
    case Err(e) => assert names[0] in names; Err(e)
    case Ok(m) =>
      match Find(columns, sel.brand)
      case Err(e) => assert names[1] in names; Err(e)
      case Ok(b) =>
        match Find(columns, sel.subbrand)
        case Err(e) => assert names[2] in names; Err(e)
        case Ok(s) =>
          match Find(columns, ItemColumn)
          case Err(e) => assert names[3] in names; Err(e)
          case Ok(i) => Ok(RoleColumns(m, b, s, i))
  }

  /** The names the normalisation loop visits, in order. */
  function RoleNames(sel: Selection): seq<string> {
    [sel.manufacturer, sel.brand, sel.subbrand, ItemColumn]
  }
}
