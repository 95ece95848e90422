/** The widget controller: maps input, keyboard and pointer events on the
    anchor input and on the suggestion rows to operations of the model.

    Browser side effects are outputs: the key handlers return whether they
    called preventDefault / stopPropagation on the event; the ghost log
    `selected` records every onSelect call, and the ghost flag
    `panelVisible` tracks whether the suggestion panel is shown. The panel
    follows the model's onItemsChange notification (shown for a non-empty
    list, hidden for an empty one) and is also hidden directly after a
    pointer selection.
 */
module Controller {
  import opened Navigation
  import opened Rows
  import opened Model

  /** The `key` values the handlers recognise; any other string is
      "another key". */
  const ArrowDown := "ArrowDown"
  const ArrowUp := "ArrowUp"
  const Tab := "Tab"
  const Escape := "Escape"
  const Enter := "Enter"

  datatype KeyboardEvent = KeyboardEvent(key: string, shiftKey: bool)

  /** Keys that move the highlight down / up when there are items. */
  predicate MovesDown(e: KeyboardEvent)
  {
    e.key == ArrowDown || (e.key == Tab && !e.shiftKey)
  }

  predicate MovesUp(e: KeyboardEvent)
  {
    e.key == ArrowUp || (e.key == Tab && e.shiftKey)
  }

  class Autocomplete<Item> {
    const model: AutocompleteModel<Item>
    ghost var selected: seq<Item>
    ghost var panelVisible: bool

    /** The highlight stays within the rows, and a visible panel always has
        rows to show. */
    ghost predicate Valid()
      reads this, model
    {
      InRange(model.highlightedIndex, |model.items|) &&
      (panelVisible ==> |model.items| > 0)
    }

    constructor (minLength: nat)
      ensures Valid() && fresh(model)
      ensures model.minLength == minLength
      ensures model.term == "" && model.items == [] && model.highlightedIndex == -1
      ensures model.events == [] && selected == [] && !panelVisible
    {
      model := new AutocompleteModel(minLength);
      selected, panelVisible := [], false;
    }

    /** The constructor with every option left at its default. */
    constructor WithDefaults()
      ensures Valid() && fresh(model)
      ensures model.minLength == 3
      ensures model.term == "" && model.items == [] && model.highlightedIndex == -1
      ensures model.events == [] && selected == [] && !panelVisible
    {
      model := new AutocompleteModel(3);
      selected, panelVisible := [], false;
    }

    /** The `input` listener: the new input value becomes the term. */
    method HandleInput(value: string)
      requires Valid()
      modifies this, model
      ensures Valid() && selected == old(selected)
      ensures model.term == value
      ensures Utf16Length(value) >= model.minLength ==>
                model.items == old(model.items) &&
                model.highlightedIndex == old(model.highlightedIndex) &&
                model.events == old(model.events) + [TermChanged(value)] &&
                panelVisible == old(panelVisible)
      ensures Utf16Length(value) < model.minLength ==>
                model.items == [] && model.highlightedIndex == -1 && !panelVisible &&
                model.events == old(model.events) + [HighlightChanged(-1), ItemsChanged([])]
    {
      model.SetTerm(value);
      if Utf16Length(value) < model.minLength {
        panelVisible := false;
      }
    }

    /** The callback handed to onSearch: the provider's results replace the
        list, whichever term they were searched for. */
    method HandleSearchResults(results: seq<Item>)
      requires Valid()
      modifies this, model
      ensures Valid() && selected == old(selected)
      ensures model.items == results && model.highlightedIndex == -1
      ensures model.term == old(model.term)
      ensures model.events == old(model.events) + [HighlightChanged(-1), ItemsChanged(results)]
      ensures panelVisible <==> |results| > 0
    {
      model.SetItems(results);
      panelVisible := |results| > 0;
    }

    method HandleKeydown(e: KeyboardEvent) returns (defaultPrevented: bool)
      requires Valid()
      modifies this, model
      ensures Valid() && selected == old(selected)
      ensures defaultPrevented <==> old(|model.items|) > 0 && (e.key == Tab || e.key == Escape)
      ensures model.term == old(model.term)
      ensures old(model.items) == [] ==>
                unchanged(model) && panelVisible == old(panelVisible)
      ensures old(model.items) != [] && MovesDown(e) ==>
                model.items == old(model.items) &&
                model.highlightedIndex == Next(old(model.highlightedIndex), |model.items|) &&
                model.events == old(model.events) + [HighlightChanged(model.highlightedIndex)] &&
                panelVisible == old(panelVisible)
      ensures old(model.items) != [] && MovesUp(e) ==>
                model.items == old(model.items) &&
                model.highlightedIndex == Previous(old(model.highlightedIndex), |model.items|) &&
                model.events == old(model.events) + [HighlightChanged(model.highlightedIndex)] &&
                panelVisible == old(panelVisible)
      ensures old(model.items) != [] && e.key == Escape ==>
                model.items == [] && model.highlightedIndex == -1 && !panelVisible &&
                model.events == old(model.events) + [HighlightChanged(-1), ItemsChanged([])]
      ensures !(MovesDown(e) || MovesUp(e) || e.key == Escape) ==>
                unchanged(model) && panelVisible == old(panelVisible)
    {
      defaultPrevented := false;
      if model.HasNoItems() {
        return;
      }
      if e.key == ArrowDown {
        model.MoveHighlightIndexNext();
      } else if e.key == ArrowUp {
        model.MoveHighlightIndexPrevious();
      } else if e.key == Tab {
        defaultPrevented := true;
        if e.shiftKey {
          model.MoveHighlightIndexPrevious();
        } else {
          model.MoveHighlightIndexNext();
        }
      } else if e.key == Escape {
        defaultPrevented := true;
        model.ClearItems();
        panelVisible := false;
      }
    }

    /** Enter with items selects the highlighted row, if a row is
        highlighted, and then clears the list whether or not it selected.
        The row is looked up with the dist bundle's class names, under which
        the lookup finds exactly the highlighted row. */
    method HandleKeyup(e: KeyboardEvent) returns (propagationStopped: bool)
      requires Valid()
      modifies this, model
      ensures Valid()
      ensures propagationStopped <==> e.key == Enter && old(model.items) != []
      ensures model.term == old(model.term)
      ensures propagationStopped ==>
                selected == old(selected) +
                  (if 0 <= old(model.highlightedIndex) < old(|model.items|)
                   then [old(model.items)[old(model.highlightedIndex)]] else []) &&
                model.items == [] && model.highlightedIndex == -1 && !panelVisible &&
                model.events == old(model.events) + [HighlightChanged(-1), ItemsChanged([])]
      ensures !propagationStopped ==>
                unchanged(model) && selected == old(selected) && panelVisible == old(panelVisible)
    {
      propagationStopped := false;
      if e.key == Enter && model.HasItems() {
        propagationStopped := true;
        ghost var currentItem := EnterLookup(model.items, model.highlightedIndex, DistHighlightClass);
        if currentItem.Some? {
          selected := selected + [currentItem.value];
        }
        model.ClearItems();
        panelVisible := false;
      }
    }

    /** Pointer over row i highlights it. */
    method HandleMouseover(i: nat)
      requires Valid() && i < |model.items|
      modifies this, model
      ensures Valid() && selected == old(selected) && panelVisible == old(panelVisible)
      ensures model.highlightedIndex == i
      ensures model.items == old(model.items) && model.term == old(model.term)
      ensures model.events == old(model.events) + [HighlightChanged(i)]
    {
      model.SetHighlightedIndex(i);
    }

    /** Pointer leaving a row clears the highlight. */
    method HandleMouseout()
      requires Valid()
      modifies this, model
      ensures Valid() && selected == old(selected) && panelVisible == old(panelVisible)
      ensures model.highlightedIndex == -1
      ensures model.items == old(model.items) && model.term == old(model.term)
      ensures model.events == old(model.events) + [HighlightChanged(-1)]
    {
      model.ClearHighlight();
    }

    /** Pointer press on row i selects that row and hides the panel directly,
        without going through the model. */
    method HandleMousedown(i: nat)
      requires Valid() && i < |model.items|
      modifies this
      ensures Valid() && unchanged(model)
      ensures selected == old(selected) + [model.items[i]]
      ensures !panelVisible
    {
      selected := selected + [model.items[i]];
      panelVisible := false;
    }
  }
}
