# Autocomplete widget: interaction state machine

A Dafny model of the core of an in-browser autocomplete widget. The core has two parts.

- The suggestion model (`AutocompleteModel`). It owns the search term, the current suggestion list and the highlighted index. Every assignment fires a synchronous notification: onTermChange, onItemsChange or onHighlightIndexChange.
- The controller (`Autocomplete`). It turns input, keyboard and pointer events into model operations. It also calls the caller's onSelect, hides the panel, and calls preventDefault / stopPropagation on key events.

Modules:

- `Navigation` (navigation.dfy): the highlighted-index arithmetic of "previous" and "next", with their n-fold iterates. It holds the lemmas that the two moves stay in `[-1, count-1]`, undo each other, walk the rows in order, and are periodic with period `count + 1`.
- `Rows` (rows.dfy): the rendered rows reduced to the item list. The highlighted row is `li:nth-child(index + 1)`, which exists iff `0 <= index < count`. This module also holds the class-name lookup of the Enter handler.
- `Model` (model.dfy): class `AutocompleteModel` with fields `term`, `items`, `highlightedIndex`, the constant `minLength`, and a ghost log `events` of the notifications in firing order.
- `Controller` (controller.dfy): class `Autocomplete` holding the model. It has a ghost log `selected` of onSelect calls and a ghost flag `panelVisible`. The key handlers return whether they suppressed the default action or stopped propagation.
- `Scenarios` (scenarios.dfy): client methods that replay the documented interactions using only the controller's contracts.

The asynchronous search provider is split in two. Setting a long enough term logs a `TermChanged` event. A later, separate `HandleSearchResults(results)` call stands for the provider answering.

The model class follows dist/autocomplete.js. src/autocompleteModel.js is not part of this model. The bundle is configured to be built from src/index.js (rollup.config.js:6-8), but the shipped bundle differs from the current src in several places, so it was built from an earlier src:

- the popover mode and container class (dist/autocomplete.js:27-28 against src/itemContainer.js:12-13);
- row creation, which copies item fields into `dataset` and calls onRender in dist (dist/autocomplete.js:1-16) but not in src (src/createResultElement.js:1-7);
- the argument passed to onSelect (dist/autocomplete.js:200 and 257 against src/index.js:32 and 89).

The current src/autocompleteModel.js may therefore differ from the bundled `AutocompleteModel`.

Term lengths are JavaScript string lengths, counted in UTF-16 code units (`Model.Utf16Length`): a character outside the Basic Multilingual Plane counts two.

Three behaviours of the code worth noting:

- Escape, like every key, is ignored when the list is empty (dist/autocomplete.js:223).
- Enter with items but no highlighted row still stops propagation and clears the list (dist/autocomplete.js:250-262). It is not a no-op.
- The code does not clear the list on blur or on resize.

## Model

| member | source | states |
|---|---|---|
| `Navigation.Previous` | dist/autocomplete.js:145-153 | from a highlighted row, "previous" moves one row up; started in `[-1, count-1]` it stays there, so never below -1 |
| `Navigation.Next` | dist/autocomplete.js:155-163 | "next" moves one row down exactly when the index is before the last row, and otherwise clears to -1; it keeps `[-1, count-1]` |
| `Navigation.NextPreviousInverse` | dist/autocomplete.js:145-163 | on `[-1, count-1]` "previous" undoes "next" and "next" undoes "previous" |
| `Navigation.NextN` | dist/autocomplete.js:155-163 | any number of "next" presses keeps the index in `[-1, count-1]` |
| `Navigation.PreviousN` | dist/autocomplete.js:145-153 | any number of "previous" presses keeps the index in `[-1, count-1]` |
| `Navigation.NextWalk` | dist/autocomplete.js:155-163 | until the last row is reached, k presses of "next" move exactly k rows down |
| `Navigation.PreviousWalk` | dist/autocomplete.js:145-153 | until -1 is reached, k presses of "previous" move exactly k rows up |
| `Navigation.NextFromNoneVisitsAll` | dist/autocomplete.js:155-163 | from -1, presses 1..count of "next" visit rows 0..count-1 in order, and press count+1 returns to -1, not to row 0 |
| `Navigation.PreviousFromNoneVisitsAll` | dist/autocomplete.js:145-153 | from -1, press k of "previous" lands on row count-k: first the last row, and -1 after count+1 presses |
| `Navigation.NextCycle` | dist/autocomplete.js:155-163 | from any index in range, count+1 presses of "next" return to it |
| `Navigation.PreviousCycle` | dist/autocomplete.js:145-153 | from any index in range, count+1 presses of "previous" return to it |
| `Rows.NthChild` | dist/autocomplete.js:54 | `li:nth-child(n)` matches iff `1 <= n <= count`, and the match is the n-th row, `rows[n-1]` |
| `Rows.EnterLookup` | dist/autocomplete.js:254 | the Enter handler's class lookup finds a row only when the looked-up class is the one the highlighter adds, and then only the highlighted row `rows[index]` |
| `Rows.HighlightedRow` | dist/autocomplete.js:51-58 | the highlighter marks a row iff `0 <= index < count`, and the marked row is the item at that index |
| `Rows.SrcEnterNeverSelects` | src/index.js:82-93 | with src's class names, the Enter handler's lookup finds no row whatever is highlighted |
| `Rows.DistEnterSelectsHighlighted` | dist/autocomplete.js:250-262 | with dist's class names, the Enter handler's lookup finds a row iff one is highlighted, and it is `items[index]` |
| `Model.Utf16Length` | dist/autocomplete.js:103 | JavaScript's `length`: between the character count and twice it, equal to it iff no character lies outside the Basic Multilingual Plane |
| `Model.Utf16LengthConcat` | dist/autocomplete.js:103 | the `length` of a concatenation is the sum of the lengths |
| `Model.EmojiTermLength` | dist/autocomplete.js:103 | a letter followed by an emoji has two characters but `length` 3 |
| `Model.AutocompleteModel.constructor` | dist/autocomplete.js:80-94 | a new model has empty term, no items, index -1, the given minimum length and no notifications |
| `Model.AutocompleteModel.ItemsCount` | dist/autocomplete.js:110-112 | the count is the list's length, zero exactly when the list is empty |
| `Model.AutocompleteModel.HasItems` | dist/autocomplete.js:114-116 | has-items holds iff the count is positive |
| `Model.AutocompleteModel.HasNoItems` | dist/autocomplete.js:118-120 | has-no-items is the negation of has-items, and holds iff the list is empty |
| `Model.AutocompleteModel.SetTerm` | dist/autocomplete.js:100-108 | stores the term; when its UTF-16 length is at least minLength, logs exactly one `TermChanged(term)` and leaves items and highlight alone; otherwise empties the list and clears the highlight, with no search signal |
| `Model.AutocompleteModel.SetItems` | dist/autocomplete.js:122-126 | replaces the list and resets the index to -1 whatever it was, logging `HighlightChanged(-1)` then `ItemsChanged(items)` |
| `Model.AutocompleteModel.SetHighlightedIndex` | dist/autocomplete.js:132-135 | stores any index without clamping and always logs `HighlightChanged`, also when the value is unchanged |
| `Model.AutocompleteModel.ClearItems` | dist/autocomplete.js:137-139 | empties the list and clears the highlight, with the two notifications of setting `[]` |
| `Model.AutocompleteModel.ClearHighlight` | dist/autocomplete.js:141-143 | sets the index to -1 and logs it; the list is untouched |
| `Model.AutocompleteModel.MoveHighlightIndexPrevious` | dist/autocomplete.js:145-153 | the new index is `Previous` of the old one over the current count, logged once; the range `[-1, count-1]` is kept |
| `Model.AutocompleteModel.MoveHighlightIndexNext` | dist/autocomplete.js:155-163 | the new index is `Next` of the old one over the current count, logged once; the range `[-1, count-1]` is kept |
| `Controller.Autocomplete.constructor` | src/index.js:9-22 | the positional constructor: a fresh model with the given minimum length, nothing selected, panel hidden |
| `Controller.Autocomplete.WithDefaults` | dist/autocomplete.js:171-190 | the options constructor with defaults: minimum length 3 |
| `Controller.Autocomplete.HandleInput` | dist/autocomplete.js:193 | the input value becomes the term: a search signal when its UTF-16 length reaches minLength, otherwise the list is emptied and the panel hidden |
| `Controller.Autocomplete.HandleSearchResults` | dist/autocomplete.js:182 | the provider's results replace the list with no highlight, and the panel is shown iff they are non-empty |
| `Controller.Autocomplete.HandleKeydown` | src/index.js:54-80 | with no items nothing changes and nothing is logged; ArrowDown and Tab move "next", ArrowUp and Shift+Tab move "previous", Escape empties the list and hides the panel; the default action is suppressed iff there are items and the key is Tab or Escape; other keys change nothing |
| `Controller.Autocomplete.HandleKeyup` | dist/autocomplete.js:250-262 | Enter with items stops propagation, selects `items[index]` iff `0 <= index < count`, and always leaves the list empty, index -1 and the panel hidden; anything else changes nothing |
| `Controller.Autocomplete.HandleMouseover` | src/index.js:36-38 | hovering row i sets the index to i and logs it |
| `Controller.Autocomplete.HandleMouseout` | src/index.js:40-42 | leaving a row sets the index to -1 and logs it |
| `Controller.Autocomplete.HandleMousedown` | src/index.js:31-34 | pressing row i selects `items[i]` and hides the panel; term, items and index are unchanged |

## Findings

| source | as written | input that shows it | evidently intended | confidence | as-written member | corrected member |
|---|---|---|---|---|---|---|
| src/index.js:86 | The Enter handler looks up `.autocomplete-item-highlighted`, but src/itemContainer.js:40 marks the highlighted row with `popover-autocomplete-item-highlighted`, so Enter never selects | items `["suggest11","suggest12","suggest21","suggest22"]`, ArrowDown (index 0), then Enter: no onSelect call, and the list is cleared | Enter selects the highlighted row, as the dist bundle does and as tests/test_str_data.spec.js:151-168 expects | high; not executed | `Rows.SrcEnterNeverSelects` | `Rows.DistEnterSelectsHighlighted` (used by `Controller.Autocomplete.HandleKeyup`) |

## Left out

- The row container (`ItemContainer`, dist/autocomplete.js:18-78) and row creation (`createResultElement`, dist/autocomplete.js:1-16) are DOM work. They are reduced to the ghost flag `panelVisible` and to `Rows.HighlightedRow` ("row i exists iff i < count").
- Event-listener wiring, the `#delegate` / `closest` helper and the window `resize` listener are browser plumbing. Each listener is a controller method instead.
- The document-wide `document.querySelector` lookup of the highlighted row is replaced by a lookup in the controller's own list. So two widgets on one page cannot interfere in the model, though they can in the code.
- The asynchronous provider and its timing are not modelled. `HandleSearchResults` accepts results at any time, for whatever term, last write wins. The stale-response race is therefore possible in the model as in the code, and no guard against it is modelled.
- The browser's light dismiss of an `auto` popover (a click outside hides the panel) is browser behaviour and is not modelled.
- There is no debounce in the code, and none in the model.
- `onRender` and the copying of item fields into `dataset` are string formatting into DOM attributes. Items are an opaque type parameter.
- `Controller.Autocomplete.HandleKeyup`: onSelect receives the item itself. The dist bundle passes the row's `dataset`, which also carries the row index and stringifies the fields. src passes the row's `textContent`, which src/createResultElement.js:6 sets to the item's string form without calling onRender.
- `Controller.Autocomplete.HandleMousedown`: the same applies; onSelect receives the item itself.
- The `term` and `highlightedIndex` getters are plain reads of the fields `term` and `highlightedIndex`.
- `Controller.Autocomplete.HandleMouseover` and `HandleMousedown` require `i < count`. A pointer event only reaches an existing row, and while the panel is visible the rows are exactly the current items.
- `Model.AutocompleteModel.SetTerm`: the term is a Dafny `string`, a sequence of Unicode scalar values. A JavaScript string can also hold lone surrogates, which the model cannot represent. Lengths are otherwise counted in UTF-16 code units, as in the code.
- `Controller.Autocomplete.HandleInput`: the same limit applies; input values with lone surrogates are not modelled.
- Callbacks that throw are not modelled: every caller callback returns normally. In the code, an onSelect that throws skips the `clearItems()` after it in the Enter handler (dist/autocomplete.js:257-260) and the `hidePopover()` after it in the mousedown handler (dist/autocomplete.js:200-201). `HandleKeyup` and `HandleMousedown` always clear or hide.
- Items are held by value. The code stores the provider's array itself (dist/autocomplete.js:123), so a provider that later mutates that array changes `itemsCount`, `hasItems` and the key handlers' guards with no notification. A `seq<Item>` cannot show this aliasing.
