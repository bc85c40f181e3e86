# Searchable picklist: a verified model of the combobox controller

This project models the `SearchablePicklist` Lightning web component. The component is a combobox: a search input over a dropdown of catalog options, each option a `{label, value}` pair. The dropdown lists the options whose lower-cased label contains the lower-cased, trimmed input text, in catalog order.

The controller is an event-driven state machine over six fields: `inputText`, `selectedOption`, `showDropdown`, `filteredOptions`, and two read-once intent flags, `_isMovingFocusToDropdown` and `_justSelectedOption`. The flags keep a programmatic focus move into the dropdown from closing it, and keep the refocus that follows a commit from reopening it. A blur is evaluated after a delay. Once focus has left the widget, the dropdown closes, and a listed option whose whole lower-cased label equals the search term is accepted when it is the only such option. An explicit commit (Enter or a click) selects the option, closes the dropdown and dispatches one `optionselected` event.

Files and modules:

- `text.dfy`, module `Text`: `toLowerCase` (ASCII letters), `trim` (the ECMAScript white-space and line-terminator code points) and `includes`, each with a lemma that characterises it.
- `options.dfy`, module `Options`: the `Option` record (its `label` field is called `labelText`, because `label` is a Dafny keyword), a nullable reference `Maybe`, order-preserving subsequences, and `Array.prototype.find` by value.
- `filtering.dfy`, module `Filtering`: `Array.prototype.filter` over the two label tests the component uses. Also the search filter (`filterOptions`) and the exact-label matches the blur path commits from.
- `navigation.dfy`, module `Navigation`: the focus target (`SearchInput | Item(i) | Outside`), the keys, and the index arithmetic of arrow and Tab navigation over `[input, item 0, ..., item n-1]`.
- `picklist.dfy`, module `Picklist`: the class `SearchablePicklist`, with one method per handler. The object invariant `Valid()` holds three facts. The listed options are a subsequence of the catalog. An open dropdown lists exactly what the current text selects. The selection and every dispatched event refer to catalog options.
- `scenarios.dfy`, module `Scenarios`: three event sequences on a two-option catalog. Each handler is called in the order the browser runs it, and facts about the state are proved along the way.

Two abstractions replace the DOM:

- The focused element is the field `focus`. The component's focus helpers assign it only when the target element is on the page.
- Dispatched events are appended to the ghost log `events`.

The deferred blur callback is its own method, `HandleBlurTimeout`. Its argument says whether the related target lay inside the dropdown.

## Model

| member | source | states |
|---|---|---|
| `Text.LowerChar` | force-app/main/default/lwc/searchablePicklist/searchablePicklist.js:46 | a lowered character is never an upper-case ASCII letter; letters move by 32 code points; every other character is kept; white space stays white space |
| `Text.ToLower` | force-app/main/default/lwc/searchablePicklist/searchablePicklist.js:46 | `toLowerCase` keeps the length and lowers each character as `LowerChar` does; `ToLowerChars` and `ToLowerIdempotent` characterise the result |
| `Text.ToLowerChars` | force-app/main/default/lwc/searchablePicklist/searchablePicklist.js:46 | a lowered string has no upper-case letter, and has white space exactly where the original had it |
| `Text.ToLowerIdempotent` | force-app/main/default/lwc/searchablePicklist/searchablePicklist.js:46 | lowering an already lowered string changes nothing |
| `Text.TrimStart` | force-app/main/default/lwc/searchablePicklist/searchablePicklist.js:46 | leading trim never lengthens the text; `TrimStartSpec` characterises it |
| `Text.TrimStartSpec` | force-app/main/default/lwc/searchablePicklist/searchablePicklist.js:46 | leading trim removes exactly a white-space prefix and stops at the first other character |
| `Text.TrimEnd` | force-app/main/default/lwc/searchablePicklist/searchablePicklist.js:46 | trailing trim never lengthens the text; `TrimEndSpec` characterises it |
| `Text.TrimEndSpec` | force-app/main/default/lwc/searchablePicklist/searchablePicklist.js:46 | trailing trim removes exactly a white-space suffix and stops at the last other character |
| `Text.Trim` | force-app/main/default/lwc/searchablePicklist/searchablePicklist.js:46 | `trim` never lengthens the text; `TrimSpec` characterises it |
| `Text.TrimSpec` | force-app/main/default/lwc/searchablePicklist/searchablePicklist.js:46 | trim returns an inner slice of the text surrounded only by white space; the slice neither starts nor ends with white space; it is empty exactly when the text is all white space |
| `Text.Contains` | force-app/main/default/lwc/searchablePicklist/searchablePicklist.js:52 | `includes` never finds a term longer than the label, and finds a term that ends the label; so a label contains itself and the empty term. `ContainsSpec` characterises it |
| `Text.ContainsSpec` | force-app/main/default/lwc/searchablePicklist/searchablePicklist.js:52 | `includes` holds exactly when the term occurs at some position of the label |
| `Options.FindByValue` | force-app/main/default/lwc/searchablePicklist/searchablePicklist.js:120 | the result is null exactly when no catalog option has the value; otherwise it is the FIRST catalog option with that value |
| `Options.SubsequenceMembers` | force-app/main/default/lwc/searchablePicklist/searchablePicklist.js:51-53 | every element of a filtered list is an element of the list it was filtered from |
| `Filtering.Accepts` | force-app/main/default/lwc/searchablePicklist/searchablePicklist.js:51-53 | the filter callbacks at :51-53 and :80-82: a label accepted by the whole-label test also contains the term, and the empty term is contained in every label |
| `Filtering.KeepIf` | force-app/main/default/lwc/searchablePicklist/searchablePicklist.js:51-53 | `filter` returns an order-preserving subsequence of its input |
| `Filtering.KeepIfCounts` | force-app/main/default/lwc/searchablePicklist/searchablePicklist.js:51-53 | `filter` keeps every accepted element as often as the input holds it, and no rejected element |
| `Filtering.KeepIfMembers` | force-app/main/default/lwc/searchablePicklist/searchablePicklist.js:51-53 | an element is kept exactly when the input holds it and the test accepts it |
| `Filtering.KeepIfUnique` | force-app/main/default/lwc/searchablePicklist/searchablePicklist.js:51-53 | the `filter` result is the only subsequence of the input with those counts, so order, content and multiplicity determine it |
| `Filtering.KeepIfAll` | force-app/main/default/lwc/searchablePicklist/searchablePicklist.js:48-49 | a test that accepts everything keeps the whole list (the copy `[...options]`) |
| `Filtering.KeepIfNested` | force-app/main/default/lwc/searchablePicklist/searchablePicklist.js:80-82 | filtering an already filtered list by a stricter test equals filtering the original by the stricter test |
| `Filtering.SearchTerm` | force-app/main/default/lwc/searchablePicklist/searchablePicklist.js:46 | the lower-cased, trimmed input is never longer than the input, and is empty or starts and ends with a character that is not white space |
| `Filtering.FilterOptions` | force-app/main/default/lwc/searchablePicklist/searchablePicklist.js:45-55 | with an empty search term the result is exactly `options` in the same order; in every case it is an order-preserving subsequence of `options` |
| `Filtering.FilterOptionsSelects` | force-app/main/default/lwc/searchablePicklist/searchablePicklist.js:50-53 | the filter keeps exactly the options whose lower-cased label contains the lower-cased, trimmed input, as often as the catalog holds them, in catalog order |
| `Filtering.FilterIsContainsFilter` | force-app/main/default/lwc/searchablePicklist/searchablePicklist.js:48-53 | the empty-term branch gives the same list as the `includes` filter would, so both branches are one filter |
| `Filtering.BlankInputKeepsAll` | force-app/main/default/lwc/searchablePicklist/searchablePicklist.js:46-49 | input made only of white space lists the whole catalog |
| `Filtering.FilterIgnoresCase` | force-app/main/default/lwc/searchablePicklist/searchablePicklist.js:46 | the filter gives the same list for the input and for its lower-cased form |
| `Filtering.ExactMatches` | force-app/main/default/lwc/searchablePicklist/searchablePicklist.js:80-82 | the exact matches are an order-preserving subsequence of the listed options |
| `Filtering.ExactMatchesMembers` | force-app/main/default/lwc/searchablePicklist/searchablePicklist.js:80-82 | an option is an exact match exactly when it is listed and its lower-cased label equals the lower-cased, trimmed input |
| `Filtering.ExactMatchesOfFreshFilter` | force-app/main/default/lwc/searchablePicklist/searchablePicklist.js:79-84 | on a list filtered from the current input, the exact matches are those of the whole catalog: the filter never hides an exact label |
| `Navigation.Previous` | force-app/main/default/lwc/searchablePicklist/searchablePicklist.js:139-143 | ArrowUp goes to the search input exactly from item 0, and otherwise to the item directly above (i-1) |
| `Navigation.Next` | force-app/main/default/lwc/searchablePicklist/searchablePicklist.js:146-150 | ArrowDown goes to the search input exactly from item n-1, and otherwise to the item directly below (i+1) |
| `Navigation.Forward` | force-app/main/default/lwc/searchablePicklist/searchablePicklist.js:100-165 | a Tab or ArrowDown press in the open dropdown: from the input it reaches item 0 when the list is non-empty; from an existing item it always moves; it lands on an item only when that item exists; focus outside the widget stays outside |
| `Navigation.Backward` | force-app/main/default/lwc/searchablePicklist/searchablePicklist.js:137-158 | ArrowUp anywhere, or Shift+Tab on an item (Shift+Tab on the input is a forward move, see `HandleInputKeyDown`): the input ignores ArrowUp; from an existing item it always moves; it lands on an item only when that item exists |
| `Navigation.NavigationStaysInList` | force-app/main/default/lwc/searchablePicklist/searchablePicklist.js:137-165 | from an item i < n, both directions land on the search input or on an index in [0, n); there is no wraparound inside the list |
| `Navigation.PreviousNextInverse` | force-app/main/default/lwc/searchablePicklist/searchablePicklist.js:137-150 | between existing items, up undoes down and down undoes up |
| `Navigation.ForwardCycle` | force-app/main/default/lwc/searchablePicklist/searchablePicklist.js:100-165 | from the search input, k forward presses reach item k-1, and n+1 presses come back to the search input |
| `Navigation.BackwardWalk` | force-app/main/default/lwc/searchablePicklist/searchablePicklist.js:137-158 | from item i, k ArrowUp or Shift+Tab presses reach item i-k, and i+1 presses reach the search input |
| `Picklist.SearchablePicklist.constructor` | force-app/main/default/lwc/searchablePicklist/searchablePicklist.js:4-29 | field defaults, then connectedCallback. A non-empty initial search text fills the input and the list. A non-empty initial value found in the catalog becomes the selection and puts its label in the input. The dropdown stays closed, nothing is dispatched, and the invariant holds |
| `Picklist.SearchablePicklist.FilterOptions` | force-app/main/default/lwc/searchablePicklist/searchablePicklist.js:45-55 | `filteredOptions` becomes the filter of the catalog by the current input; no other field changes |
| `Picklist.SearchablePicklist.HandleFocus` | force-app/main/default/lwc/searchablePicklist/searchablePicklist.js:57-66 | after a commit, the flag is reset and `showDropdown` and `filteredOptions` are unchanged; otherwise the list is refiltered and the dropdown opens; the invariant is kept |
| `Picklist.SearchablePicklist.HandleBlur` | force-app/main/default/lwc/searchablePicklist/searchablePicklist.js:68-75 | with `_isMovingFocusToDropdown` set, the flag is consumed and nothing is scheduled; otherwise the deferred check is scheduled; no other field changes |
| `Picklist.SearchablePicklist.HandleBlurTimeout` | force-app/main/default/lwc/searchablePicklist/searchablePicklist.js:75-91 | a related target inside the dropdown changes nothing. Otherwise the dropdown closes, and exactly one exact match becomes `selectedOption` with its label as `inputText`; anything else leaves both unchanged. A changed selection is a listed option whose lower-cased label is the term. The selection never goes back to null. No event is dispatched |
| `Picklist.SearchablePicklist.HandleInputChange` | force-app/main/default/lwc/searchablePicklist/searchablePicklist.js:94-98 | the text is stored, the list is refiltered from it and the dropdown opens; the selection is untouched |
| `Picklist.SearchablePicklist.HandleInputKeyDown` | force-app/main/default/lwc/searchablePicklist/searchablePicklist.js:100-114 | Tab (with or without Shift, since `shiftKey` is never read) and ArrowDown raise the intent flag and focus item 0 only when the dropdown is open and non-empty, and change nothing otherwise. Enter commits only when exactly one option is listed. Escape closes the dropdown and changes nothing else. Other keys change nothing |
| `Picklist.SearchablePicklist.HandleOptionClick` | force-app/main/default/lwc/searchablePicklist/searchablePicklist.js:116-124 | the option is resolved by value against the catalog and committed; an unknown value changes nothing |
| `Picklist.SearchablePicklist.HandleOptionKeyDown` | force-app/main/default/lwc/searchablePicklist/searchablePicklist.js:126-170 | Enter commits the option resolved by value, or does nothing when none matches. ArrowUp/Shift+Tab move focus as `Previous` says, ArrowDown/Tab as `Next` says; a target that is on the page is always the input or an index in [0, n). Escape closes the dropdown and focuses the input. Other keys change nothing |
| `Picklist.SearchablePicklist.SelectOption` | force-app/main/default/lwc/searchablePicklist/searchablePicklist.js:176-189 | sets `selectedOption` and `inputText` to the option and its label, closes the dropdown, raises `_justSelectedOption`, focuses the input, and appends exactly one `optionselected` event carrying the new selection and text |
| `Picklist.SearchablePicklist.MoveTo` | force-app/main/default/lwc/searchablePicklist/searchablePicklist.js:198-210 | a focus call leaves focus on the target or where it was, and moves it to an item only when that item is on the page |
| `Picklist.SearchablePicklist.FocusSearchInput` | force-app/main/default/lwc/searchablePicklist/searchablePicklist.js:191-196 | focus moves to the search input |
| `Picklist.SearchablePicklist.FocusFirstOption` | force-app/main/default/lwc/searchablePicklist/searchablePicklist.js:198-203 | focus moves to item 0 when it is on the page, and otherwise stays put |
| `Picklist.SearchablePicklist.FocusOptionByIndex` | force-app/main/default/lwc/searchablePicklist/searchablePicklist.js:205-210 | focus moves to item k when it is on the page, and otherwise stays put |

## Behaviour of the code worth knowing

- The blur path commits only when exactly one listed option's lower-cased label EQUALS the lower-cased, trimmed input (searchablePicklist.js:80-84). A unique listed option whose label merely contains the input is not accepted. `Scenarios.NarrowThenBlurAway` shows this: typing "apr" over Apple/Apricot lists only Apricot, yet a blur-away selects nothing.
- The blur path never clears `selectedOption` to null; an ambiguous or empty result leaves the previous selection and text as they were.
- The blur path never dispatches an event; only `selectOption` does (searchablePicklist.js:183).
- The only intent flags are `_isMovingFocusToDropdown` and `_justSelectedOption`; the blur path never reads the previous selection.
- Shift+Tab in the search input is handled as Tab (searchablePicklist.js:101 never reads `shiftKey`): with the dropdown open and non-empty it moves focus to the first item instead of back out of the widget. `Scenarios.NavigateAndCommit` shows this.

## Left out

- The page template is not part of this model. Dropdown items are taken to be rendered exactly for `filteredOptions` while `showDropdown` is true. The focus helpers' DOM queries (searchablePicklist.js:191-210) become that test. The dropdown-container query at :77 is not: it is part of the boolean the caller passes to `HandleBlurTimeout` (see below). The model does not tie that boolean to `showDropdown`: a caller that passes true while the dropdown is closed gets "nothing changes", where the code, finding no container, would take the blur-away path.
- Focus and blur events are delivered by the browser, and so is its default focus movement (a Tab the handlers do not take). The model's `focus` field follows only the component's own focus calls. Each handler is a method the environment may call in any order. In the browser, the component's own `.focus()` calls (searchablePicklist.js:105, :140-163, :168, :181) fire the blur of the element losing focus and the focus of the search input synchronously, inside the calling handler; the model takes those as separate, later handler calls. The state at the end of each handler is unaffected, because the only statement that follows a focus call is the `dispatchEvent` at :183, and it reads fields those handlers leave alone. A contract such as "Escape closes the dropdown" therefore describes the handler itself: when the input then takes focus, `HandleFocus` reopens the dropdown, as it does in the browser.
- `setTimeout` and its 150 ms delay: the deferred callback is the separate method `HandleBlurTimeout`. There is no concurrency to model.
- Picklist.SearchablePicklist.HandleBlurTimeout: the test "related target present, dropdown container present, and container contains it" (searchablePicklist.js:79) is taken as one boolean, computed by the caller.
- `event.preventDefault()` and `handleListMouseDown` (searchablePicklist.js:172-174) only suppress browser defaults and hold no state.
- `dispatchEvent`/`CustomEvent`: an event is an entry appended to the ghost log `events`.
- Unicode case mapping: `toLowerCase` is modelled on ASCII letters only; other characters are kept as they are.
- `parseInt` of `dataset.index`: the item index is a `nat` parameter, so a non-numeric index is not modelled.
- The getters `getInputText`, `getSelectedOption` and `hasFilteredOptions` (searchablePicklist.js:31-43), the `@api`/`@track` reactivity, and the unused `label` read at :118 are not modelled.
- `options`, `initValue` and `initSearchValue` are fixed at construction; a host that reassigns `options` later is not modelled.
- connectedCallback runs once, inside the constructor. A re-insertion of a live widget re-runs it, and it could then change `inputText` while the dropdown is open; that case is not modelled.
- The demo host page (searchablePicklistDemo.js) only holds a static catalog and logs the event, so it has no logic to model.
- JavaScript strings are sequences of UTF-16 code units; here a `string` is a sequence of Unicode scalar values. `includes`, `===` and `trim` agree on well-formed text, but a string holding a lone surrogate cannot be represented.
