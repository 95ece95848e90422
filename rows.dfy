/** The rendered suggestion rows, reduced to what the controller asks of them.

    The panel renders one `li` per item, in order, and marks the highlighted
    one by selecting `li:nth-child(index + 1)` and adding a class to it when
    that row exists. The Enter handler later finds "the" highlighted row by
    looking that class up again. Here the rows are the item sequence itself
    and a CSS class is a string.
 */
module Rows {

  datatype Option<T> = None | Some(value: T)

  /** `li:nth-child(n)`: 1-based, and no match when there is no n-th row. */
  function NthChild<T>(rows: seq<T>, n: int): (r: Option<T>)
    ensures r.Some? <==> 1 <= n <= |rows|
    ensures r.Some? ==> r.value == rows[n - 1]
  {
    if 1 <= n <= |rows| then Some(rows[n - 1]) else None
  }

  /** The row the highlighter marks for a highlighted index: the item at
      that index when such a row exists, and none for -1 or any index
      outside the list. */
  function HighlightedRow<T>(rows: seq<T>, index: int): (r: Option<T>)
    ensures r.Some? <==> 0 <= index < |rows|
    ensures r.Some? ==> r.value == rows[index]
  {
    NthChild(rows, index + 1)
  }

  /** The class the dist bundle's highlighter adds to the marked row. */
  const DistHighlightClass := "autocomplete-item-highlighted"

  /** The class the src highlighter adds to the marked row. */
  const SrcHighlightClass := "popover-autocomplete-item-highlighted"

  /** The class the Enter handler looks up, in both builds. */
  const EnterLookupClass := "autocomplete-item-highlighted"

  /** What the Enter handler's lookup finds when the highlighter marks rows
      with `markClass`: the marked row if the classes agree, nothing
      otherwise. */
  function EnterLookup<T>(rows: seq<T>, index: int, markClass: string): (r: Option<T>)
    ensures r.Some? ==> markClass == EnterLookupClass && 0 <= index < |rows| && r.value == rows[index]
  {
    if markClass == EnterLookupClass then HighlightedRow(rows, index) else None
  }

  /** As written in src, the highlighter and the Enter handler disagree on the
      class name, so Enter never finds a row, whatever is highlighted. */
  lemma SrcEnterNeverSelects<T>(rows: seq<T>, index: int)
    ensures EnterLookup(rows, index, SrcHighlightClass) == None
  {
  }

  /** With the dist class names, Enter finds exactly the highlighted row. */
  lemma DistEnterSelectsHighlighted<T>(rows: seq<T>, index: int)
    ensures EnterLookup(rows, index, DistHighlightClass).Some? <==> 0 <= index < |rows|
    ensures EnterLookup(rows, index, DistHighlightClass).Some? ==>
              EnterLookup(rows, index, DistHighlightClass).value == rows[index]
  {
  }
}
