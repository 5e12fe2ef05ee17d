/**
 * The values the legend panel works on and the functions that specify
 * what it computes: legend-key extraction, the selection-preserving
 * refresh of the checkbox list, the visibility predicate and the rows a
 * "zoom to category" click picks out.
 */
module LegendSpec {
  import opened Wrappers

  /** A row of the map's data: one cell per column, `None` for a null cell. */
  type Row<V> = seq<Option<V>>
  type Table<V> = seq<Row<V>>

  /** One line of the legend's checkbox list (a CheckBoxItemImpl). */
  datatype CheckBoxItem = CheckBoxItem(text: string, selected: bool)

  /**
   * The calls into code this model does not contain, taken as uninterpreted:
   *  - `equalsStd`: Strings.equalsStd, used when the list is refreshed;
   *  - `equalStandardised`: the host's string conventions, used by the
   *    visibility filter and the zoom button; its first argument may be null;
   *  - `convertToString`: the host's value conversion to STRING, which may
   *    answer null;
   *  - `legendItemKeys`: the ordered keys of Legend.getLegendItemImages for
   *    a table of drawables (no uniqueness is assumed).
   */
  datatype Collaborators<!V> = Collaborators(
    equalsStd: (string, string) -> bool,
    equalStandardised: (Option<string>, string) -> bool,
    convertToString: V -> Option<string>,
    legendItemKeys: Table<V> -> seq<string>)

  /** Every row of `table` has a cell in `column`. */
  predicate HasColumn<V>(table: Table<V>, column: nat)
  {
    forall i :: 0 <= i < |table| ==> column < |table[i]|
  }

  // ---------------------------------------------------------------------
  // Legend key of a row

  /** The legend key of `row`: none for a null cell, otherwise the string conversion of the cell. */
  function LegendKey<V>(table: Table<V>, row: nat, column: nat, convert: V -> Option<string>): (key: Option<string>)
    requires row < |table| && column < |table[row]|
    ensures table[row][column] == None ==> key == None
    ensures table[row][column] != None ==> key == convert(table[row][column].value)
  {
    match table[row][column]
    case None => None
    case Some(v) => convert(v)
  }

  /** When the conversion never answers null, a row has no key exactly when its cell is null. */
  lemma LegendKeyAbsentIffNullCell<V>(table: Table<V>, row: nat, column: nat, convert: V -> Option<string>)
    requires row < |table| && column < |table[row]|
    requires forall v :: convert(v) != None
    ensures LegendKey(table, row, column, convert) == None <==> table[row][column] == None
  {
  }

  // ---------------------------------------------------------------------
  // Refreshing the checkbox list

  /** The position of the first item whose text is `equalsStd` to `text`, if any. */
  function FirstMatch(items: seq<CheckBoxItem>, text: string, equalsStd: (string, string) -> bool): (r: Option<nat>)
    ensures r != None ==> r.value < |items| && equalsStd(items[r.value].text, text)
    ensures r != None ==> forall j :: 0 <= j < r.value ==> !equalsStd(items[j].text, text)
    ensures r == None ==> forall j :: 0 <= j < |items| ==> !equalsStd(items[j].text, text)
  {
    if |items| == 0 then None
    else if equalsStd(items[0].text, text) then Some(0)
    else match FirstMatch(items[1..], text, equalsStd)
      case None => None
      case Some(k) => Some(k + 1)
  }

  /** The selection a fresh item with `text` takes over from `oldItems`: that of the first match, else selected. */
  function InheritedSelection(oldItems: seq<CheckBoxItem>, text: string, equalsStd: (string, string) -> bool): (selected: bool)
  {
    match FirstMatch(oldItems, text, equalsStd)
    case None => true
    case Some(k) => oldItems[k].selected
  }

  /** The list a refresh builds: one item per legend key, in order, each inheriting its selection. */
  function Refreshed(oldItems: seq<CheckBoxItem>, keys: seq<string>, equalsStd: (string, string) -> bool): (r: seq<CheckBoxItem>)
  {
    seq(|keys|, i requires 0 <= i < |keys| => CheckBoxItem(keys[i], InheritedSelection(oldItems, keys[i], equalsStd)))
  }

  /** The texts of a list of items, in order. */
  function Texts(items: seq<CheckBoxItem>): (texts: seq<string>)
  {
    seq(|items|, i requires 0 <= i < |items| => items[i].text)
  }

  /** The show-all / hide-all buttons: every item's selection set to `value`, texts untouched. */
  function WithAllSelected(items: seq<CheckBoxItem>, value: bool): (r: seq<CheckBoxItem>)
    ensures |r| == |items|
    ensures forall i :: 0 <= i < |items| ==> r[i].text == items[i].text && r[i].selected == value
  {
    seq(|items|, i requires 0 <= i < |items| => items[i].(selected := value))
  }

  ghost predicate Reflexive(eq: (string, string) -> bool)
  {
    forall a :: eq(a, a)
  }

  ghost predicate Equivalence(eq: (string, string) -> bool)
  {
    && Reflexive(eq)
    && (forall a, b :: eq(a, b) ==> eq(b, a))
    && (forall a, b, c :: eq(a, b) && eq(b, c) ==> eq(a, c))
  }

  /** The two standardised comparisons agree on non-null strings. */
  ghost predicate Coincide<V>(c: Collaborators<V>)
  {
    forall a, b :: c.equalsStd(a, b) == c.equalStandardised(Some(a), b)
  }

  /** No two items of the list have standardised-equal texts. */
  ghost predicate StdDistinct(items: seq<CheckBoxItem>, eq: (string, string) -> bool)
  {
    forall i, j :: 0 <= i < j < |items| ==> !eq(items[i].text, items[j].text)
  }

  // ---------------------------------------------------------------------
  // Visibility of a row

  /** The filter's answer for a row with legend key `key`. */
  predicate Accepted(items: seq<CheckBoxItem>, key: Option<string>, equalStandardised: (Option<string>, string) -> bool)
  {
    key == None || exists i :: 0 <= i < |items| && items[i].selected && equalStandardised(key, items[i].text)
  }

  // ---------------------------------------------------------------------
  // Zoom to a category

  /** Does row `i` of `all` have a key standardised-equal to `text`? */
  predicate RowMatches<V>(all: Table<V>, i: nat, column: nat, text: string, c: Collaborators<V>)
    requires i < |all| && HasColumn(all, column)
  {
    c.equalStandardised(LegendKey(all, i, column, c.convertToString), text)
  }

  /** The indices, in increasing order, of the rows among the first `n` whose key matches `text`. */
  function MatchingRows<V>(all: Table<V>, column: nat, text: string, c: Collaborators<V>, n: nat): (rows: seq<nat>)
    requires n <= |all| && HasColumn(all, column)
    ensures forall k :: 0 <= k < |rows| ==> rows[k] < n
    ensures forall k, l :: 0 <= k < l < |rows| ==> rows[k] < rows[l]
    ensures forall i :: 0 <= i < n ==> (i in rows <==> RowMatches(all, i, column, text, c))
  {
    if n == 0 then []
    else MatchingRows(all, column, text, c, n - 1) + (if RowMatches(all, n - 1, column, text, c) then [n - 1] else [])
  }
}
