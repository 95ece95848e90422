/** Client code replaying the widget's documented interactions against the
    controller's contracts alone: the string-data suggestion list
    "suggest11", "suggest12", "suggest21", "suggest22" with the default
    minimum term length. The search provider is played by the caller, who
    hands the results back through HandleSearchResults.
 */
module Scenarios {
  import opened Navigation
  import opened Model
  import opened Controller

  /** Typing "sug" starts a search; ArrowDown highlights the first row;
      Enter selects it, stops propagation and clears the list. */
  method ArrowDownThenEnter()
  {
    var results := ["suggest11", "suggest12", "suggest21", "suggest22"];
    var w := new Autocomplete<string>.WithDefaults();
    w.HandleInput("sug");
    assert w.model.events == [TermChanged("sug")];
    w.HandleSearchResults(results);
    assert w.panelVisible && w.model.highlightedIndex == -1;
    var prevented := w.HandleKeydown(KeyboardEvent(ArrowDown, false));
    assert !prevented && w.model.highlightedIndex == 0;
    var stopped := w.HandleKeyup(KeyboardEvent(Enter, false));
    assert stopped && w.selected == ["suggest11"];
    assert w.model.items == [] && !w.panelVisible;
  }

  /** A term shorter than the minimum length never signals a search. */
  method ShortTermDoesNotSearch()
  {
    var w := new Autocomplete<string>.WithDefaults();
    w.HandleInput("su");
    assert TermChanged("su") !in w.model.events;
    assert w.model.items == [] && !w.panelVisible;
  }

  /** A letter and an emoji are length 3 in JavaScript, so with the default
      minimum length they start a search. */
  method EmojiTermSearches()
  {
    var w := new Autocomplete<string>.WithDefaults();
    EmojiTermLength();
    w.HandleInput("a\U{1F600}");
    assert w.model.events == [TermChanged("a\U{1F600}")];
  }

  /** Hovering row 2 highlights it; moving away clears the highlight. */
  method HoverThenLeave()
  {
    var w := new Autocomplete<string>.WithDefaults();
    w.HandleInput("sug");
    w.HandleSearchResults(["suggest11", "suggest12", "suggest21", "suggest22"]);
    w.HandleMouseover(2);
    assert w.model.highlightedIndex == 2;
    w.HandleMouseout();
    assert w.model.highlightedIndex == -1;
  }

  /** ArrowUp and Shift+Tab from no highlight land on the last row; Tab
      suppresses the default focus move, the arrow keys do not. */
  method UpwardKeysFromNone()
  {
    var w := new Autocomplete<string>.WithDefaults();
    w.HandleSearchResults(["suggest11", "suggest12", "suggest21", "suggest22"]);
    var prevented := w.HandleKeydown(KeyboardEvent(ArrowUp, false));
    assert !prevented && w.model.highlightedIndex == 3;
    w.HandleSearchResults(["suggest11", "suggest12", "suggest21", "suggest22"]);
    prevented := w.HandleKeydown(KeyboardEvent(Tab, true));
    assert prevented && w.model.highlightedIndex == 3;
  }

  /** Escape hides the list; a pointer press selects without clearing it. */
  method EscapeAndMousedown()
  {
    var w := new Autocomplete<string>.WithDefaults();
    w.HandleSearchResults(["suggest11", "suggest12"]);
    w.HandleMousedown(1);
    assert w.selected == ["suggest12"] && !w.panelVisible;
    assert w.model.items == ["suggest11", "suggest12"];
    var prevented := w.HandleKeydown(KeyboardEvent(Escape, false));
    assert prevented && w.model.items == [] && w.model.highlightedIndex == -1;
    prevented := w.HandleKeydown(KeyboardEvent(Escape, false));
    assert !prevented;
  }
}
