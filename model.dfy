/** The suggestion model: the current term, the current result list and the
    highlighted index, with a synchronous notification on every mutation.

    The three callbacks the widget registers (onTermChange, onItemsChange,
    onHighlightIndexChange) are recorded, in firing order, in the ghost log
    `events`. A notification fires on every assignment, also when the new
    value equals the old one.
 */
module Model {
  import opened Navigation

  /** One callback invocation. */
  datatype Event<Item> =
    | TermChanged(term: string)
    | ItemsChanged(items: seq<Item>)
    | HighlightChanged(index: int)

  /** A string's `length` as JavaScript counts it: UTF-16 code units. A
      character outside the Basic Multilingual Plane takes two (a surrogate
      pair), every other character one. */
  function Utf16Length(s: string): (n: nat)
    ensures |s| <= n <= 2 * |s|
    ensures n == |s| <==> forall i :: 0 <= i < |s| ==> (s[i] as int) < 0x10000
  {
    if s == [] then 0
    else (if (s[0] as int) >= 0x10000 then 2 else 1) + Utf16Length(s[1..])
  }

  /** The JavaScript length of a concatenation is the sum of the lengths. */
  lemma {:induction false} Utf16LengthConcat(a: string, b: string)
    ensures Utf16Length(a + b) == Utf16Length(a) + Utf16Length(b)
  {
    if a != [] {
      assert (a + b)[1..] == a[1..] + b;
      Utf16LengthConcat(a[1..], b);
    } else {
      assert a + b == b;
    }
  }

  /** A letter and an emoji: two Dafny characters, but length 3 in
      JavaScript, which reaches the default minimum length. */
  lemma EmojiTermLength()
    ensures |"a\U{1F600}"| == 2 && Utf16Length("a\U{1F600}") == 3
  {
  }

  class AutocompleteModel<Item> {
    const minLength: nat
    var term: string
    var items: seq<Item>
    var highlightedIndex: int
    ghost var events: seq<Event<Item>>

    constructor (minLength: nat)
      ensures this.minLength == minLength
      ensures term == "" && items == [] && highlightedIndex == -1
      ensures events == []
    {
      this.minLength := minLength;
      term, items, highlightedIndex := "", [], -1;
      events := [];
    }

    function ItemsCount(): (n: nat)
      reads this
      ensures n == 0 <==> items == []
      ensures n == |items|
    {
      |items|
    }

    function HasItems(): (b: bool)
      reads this
      ensures b <==> ItemsCount() > 0
    {
      |items| > 0
    }

    function HasNoItems(): (b: bool)
      reads this
      ensures b <==> !HasItems()
      ensures b <==> items == []
    {
      |items| == 0
    }

    /** Setting the term either signals a search (long enough) or clears
        the results at once, with no search signal (too short). Length is
        counted in UTF-16 code units, as JavaScript's `length` does. */
    method SetTerm(value: string)
      modifies this
      ensures term == value
      ensures Utf16Length(value) >= minLength ==>
                items == old(items) && highlightedIndex == old(highlightedIndex) &&
                events == old(events) + [TermChanged(value)]
      ensures Utf16Length(value) < minLength ==>
                items == [] && highlightedIndex == -1 &&
                events == old(events) + [HighlightChanged(-1), ItemsChanged([])]
    {
      term := value;
      if Utf16Length(term) >= minLength {
        events := events + [TermChanged(term)];
      } else {
        ClearItems();
      }
    }

    /** Replacing the results always drops the highlight first, then
        announces the new results. */
    method SetItems(value: seq<Item>)
      modifies this
      ensures items == value && highlightedIndex == -1 && term == old(term)
      ensures events == old(events) + [HighlightChanged(-1), ItemsChanged(value)]
    {
      items := value;
      ClearHighlight();
      events := events + [ItemsChanged(items)];
    }

    /** The plain setter: stores any value, no clamping, and always fires. */
    method SetHighlightedIndex(value: int)
      modifies this
      ensures highlightedIndex == value && items == old(items) && term == old(term)
      ensures events == old(events) + [HighlightChanged(value)]
    {
      highlightedIndex := value;
      events := events + [HighlightChanged(highlightedIndex)];
    }

    method ClearItems()
      modifies this
      ensures items == [] && highlightedIndex == -1 && term == old(term)
      ensures events == old(events) + [HighlightChanged(-1), ItemsChanged([])]
    {
      SetItems([]);
    }

    method ClearHighlight()
      modifies this
      ensures highlightedIndex == -1 && items == old(items) && term == old(term)
      ensures events == old(events) + [HighlightChanged(-1)]
    {
      SetHighlightedIndex(-1);
    }

    method MoveHighlightIndexPrevious()
      modifies this
      ensures highlightedIndex == Previous(old(highlightedIndex), |items|)
      ensures items == old(items) && term == old(term)
      ensures events == old(events) + [HighlightChanged(highlightedIndex)]
      ensures InRange(old(highlightedIndex), |items|) ==> InRange(highlightedIndex, |items|)
    {
      var isItemHighlighted := highlightedIndex >= 0;
      if isItemHighlighted {
        SetHighlightedIndex(highlightedIndex - 1);
      } else {
        SetHighlightedIndex(ItemsCount() - 1);
      }
    }

    method MoveHighlightIndexNext()
      modifies this
      ensures highlightedIndex == Next(old(highlightedIndex), |items|)
      ensures items == old(items) && term == old(term)
      ensures events == old(events) + [HighlightChanged(highlightedIndex)]
      ensures InRange(old(highlightedIndex), |items|) ==> InRange(highlightedIndex, |items|)
    {
      var hasNextItem := highlightedIndex < ItemsCount() - 1;
      if hasNextItem {
        SetHighlightedIndex(highlightedIndex + 1);
      } else {
        ClearHighlight();
      }
    }
  }
}
