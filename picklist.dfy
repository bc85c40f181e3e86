/** The searchable picklist combobox: a search input over a filterable dropdown
    of catalog options, driven by focus, blur, input and key events. */
module Picklist {
  import opened Options
  import opened Filtering
  import opened Navigation

  /** The optionselected event, with the detail it carries. */
  datatype Notification = OptionSelected(selectedOption: Option, inputText: string)

  class SearchablePicklist {
    // configuration supplied by the host page
    const options: seq<Option>
    const initValue: string
    const initSearchValue: string

    // the widget's own state
    var inputText: string
    var selectedOption: Maybe<Option>
    var showDropdown: bool
    var filteredOptions: seq<Option>
    // read-once intent flags
    var isMovingFocusToDropdown: bool
    var justSelectedOption: bool

    /** The element the document currently focuses, as far as the widget can tell. */
    var focus: FocusTarget
    /** Every event dispatched so far, oldest first. */
    ghost var events: seq<Notification>

    /** The widget's invariant: the listed options come from the catalog in catalog
        order; an open dropdown lists exactly what the current text selects; the
        selection and every notification refer to catalog options. */
    ghost predicate Valid()
      reads this
    {
      && IsSubsequence(filteredOptions, options)
      && (showDropdown ==> filteredOptions == Filtering.FilterOptions(options, inputText))
      && (selectedOption.Just? ==> selectedOption.item in options)
      && (forall e :: e in events ==> e.selectedOption in options && e.inputText == e.selectedOption.labelText)
    }

    /** Whether dropdown item k is on the page: items are rendered for the
        filtered options while the dropdown is shown. */
    predicate IsRendered(k: int)
      reads this
    {
      showDropdown && 0 <= k < |filteredOptions|
    }

    /** Where focus ends up when it is sent to t: an item that is not on the page
        cannot take focus, so focus stays where it was. */
    function MoveTo(t: FocusTarget): (u: FocusTarget)
      reads this
      ensures u == t || u == focus
      ensures u != focus && u.Item? ==> IsRendered(u.index)
    {
      match t
      case Item(k) => if IsRendered(k) then t else focus
      case _ => t
    }

    /** The effect of committing o: the selection, the text, a closed dropdown, the
        raised justSelectedOption flag, focus on the input and one notification. */
    twostate predicate Committed(o: Option)
      reads this
    {
      && selectedOption == Just(o)
      && inputText == o.labelText
      && !showDropdown
      && justSelectedOption
      && focus == SearchInput
      && events == old(events) + [OptionSelected(o, o.labelText)]
      && filteredOptions == old(filteredOptions)
      && isMovingFocusToDropdown == old(isMovingFocusToDropdown)
    }

    /** Creates the widget with its field defaults and runs connectedCallback:
        a non-empty initial search text fills the input and the list, and a
        non-empty initial value found in the catalog becomes the selection and
        puts its label in the input. */
    constructor (options: seq<Option>, initValue: string, initSearchValue: string)
      ensures Valid()
      ensures this.options == options && this.initValue == initValue && this.initSearchValue == initSearchValue
      ensures !showDropdown && !isMovingFocusToDropdown && !justSelectedOption
      ensures focus == Outside && events == []
      ensures filteredOptions == if initSearchValue != [] then Filtering.FilterOptions(options, initSearchValue) else []
      ensures var found := if initValue != [] && |options| > 0 then FindByValue(options, initValue) else Nothing;
        && selectedOption == found
        && inputText == if found.Just? then found.item.labelText else initSearchValue
    {
      this.options := options;
      this.initValue := initValue;
      this.initSearchValue := initSearchValue;
      inputText := "";
      selectedOption := Nothing;
      showDropdown := false;
      filteredOptions := [];
      isMovingFocusToDropdown := false;
      justSelectedOption := false;
      focus := Outside;
      events := [];
      new;
      if initSearchValue != [] {
        inputText := initSearchValue;
        FilterOptions();
      }
      if initValue != [] && |options| > 0 {
        var option := FindByValue(options, initValue);
        if option.Just? {
          selectedOption := option;
          inputText := option.item.labelText;
        }
      }
    }

    /** filterOptions: recomputes the listed options from the current text. */
    method FilterOptions()
      modifies this`filteredOptions
      ensures filteredOptions == Filtering.FilterOptions(options, inputText)
    {
      filteredOptions := Filtering.FilterOptions(options, inputText);
    }

    /** The search input gains focus: right after a commit the flag is consumed and
        the dropdown stays as it is; otherwise the list is refreshed and opened. */
    method HandleFocus()
      requires Valid()
      modifies this
      ensures Valid()
      ensures !justSelectedOption
      ensures old(justSelectedOption) ==> showDropdown == old(showDropdown) && filteredOptions == old(filteredOptions)
      ensures !old(justSelectedOption) ==> showDropdown && filteredOptions == Filtering.FilterOptions(options, inputText)
      ensures inputText == old(inputText) && selectedOption == old(selectedOption)
      ensures isMovingFocusToDropdown == old(isMovingFocusToDropdown) && focus == old(focus) && events == old(events)
    {
      if justSelectedOption {
        justSelectedOption := false;
        return;
      }
      FilterOptions();
      showDropdown := true;
    }

    /** The search input loses focus. When focus is being sent into the dropdown on
        purpose the flag is consumed and nothing is scheduled; otherwise the deferred
        check (HandleBlurTimeout) is scheduled. Nothing else changes now. */
    method HandleBlur() returns (scheduled: bool)
      requires Valid()
      modifies this
      ensures Valid()
      ensures scheduled <==> !old(isMovingFocusToDropdown)
      ensures !isMovingFocusToDropdown
      ensures inputText == old(inputText) && selectedOption == old(selectedOption)
      ensures showDropdown == old(showDropdown) && filteredOptions == old(filteredOptions)
      ensures justSelectedOption == old(justSelectedOption) && focus == old(focus) && events == old(events)
    {
      if isMovingFocusToDropdown {
        isMovingFocusToDropdown := false;
        return false;
      }
      return true;
    }

    /** The deferred body of the blur handler. relatedInDropdown says whether the
        event's related target was an element inside the rendered dropdown. If so,
        nothing changes. Otherwise the dropdown closes, and when exactly one listed
        option has the search term as its whole lower-cased label, that option is
        selected and its label fills the input. No event is dispatched. */
    method HandleBlurTimeout(relatedInDropdown: bool)
      requires Valid()
      modifies this
      ensures Valid()
      ensures relatedInDropdown ==> unchanged(this)
      ensures !relatedInDropdown ==> !showDropdown
      ensures !relatedInDropdown ==>
        var exact := ExactMatches(old(filteredOptions), old(inputText));
        if |exact| == 1 then selectedOption == Just(exact[0]) && inputText == exact[0].labelText
        else selectedOption == old(selectedOption) && inputText == old(inputText)
      ensures selectedOption != old(selectedOption) ==>
        && selectedOption.Just?
        && selectedOption.item in old(filteredOptions)
        && Text.ToLower(selectedOption.item.labelText) == SearchTerm(old(inputText))
      ensures old(showDropdown) ==> ExactMatches(old(filteredOptions), old(inputText)) == ExactMatches(options, old(inputText))
      ensures old(selectedOption).Just? ==> selectedOption.Just?
      ensures filteredOptions == old(filteredOptions) && events == old(events) && focus == old(focus)
      ensures isMovingFocusToDropdown == old(isMovingFocusToDropdown) && justSelectedOption == old(justSelectedOption)
    {
      if showDropdown {
        ExactMatchesOfFreshFilter(options, inputText);
      }
      if !relatedInDropdown {
        var exactMatch := ExactMatches(filteredOptions, inputText);
        ExactMatchesMembers(filteredOptions, inputText);
        if |exactMatch| == 1 {
          SubsequenceMembers(filteredOptions, options);
          selectedOption := Just(exactMatch[0]);
          inputText := exactMatch[0].labelText;
        }
        showDropdown := false;
      }
    }

    /** The text in the search input changes: it is stored, the list refreshed and the dropdown opened. */
    method HandleInputChange(value: string)
      requires Valid()
      modifies this
      ensures Valid()
      ensures inputText == value && showDropdown
      ensures filteredOptions == Filtering.FilterOptions(options, value)
      ensures selectedOption == old(selectedOption) && focus == old(focus) && events == old(events)
      ensures isMovingFocusToDropdown == old(isMovingFocusToDropdown) && justSelectedOption == old(justSelectedOption)
    {
      inputText := value;
      FilterOptions();
      showDropdown := true;
    }

    /** A key is pressed in the search input. Tab and ArrowDown move into an open,
        non-empty dropdown (raising the intent flag first); Enter commits the only
        listed option; Escape closes the dropdown. Any other case changes nothing.
        shiftKey is never read: Shift+Tab moves into the dropdown just as Tab does. */
    method HandleInputKeyDown(key: Key, shiftKey: bool)
      requires Valid()
      modifies this
      ensures Valid()
      ensures (key == Tab || key == ArrowDown) ==>
        if old(showDropdown) && |old(filteredOptions)| > 0 then
          && isMovingFocusToDropdown && focus == Item(0) && focus == Forward(SearchInput, |filteredOptions|)
          && inputText == old(inputText) && selectedOption == old(selectedOption)
          && showDropdown == old(showDropdown) && filteredOptions == old(filteredOptions)
          && justSelectedOption == old(justSelectedOption) && events == old(events)
        else unchanged(this)
      ensures key == Enter ==>
        if |old(filteredOptions)| == 1 then Committed(old(filteredOptions)[0]) else unchanged(this)
      ensures key == Escape ==>
        && !showDropdown
        && inputText == old(inputText) && selectedOption == old(selectedOption)
        && filteredOptions == old(filteredOptions) && focus == old(focus) && events == old(events)
        && isMovingFocusToDropdown == old(isMovingFocusToDropdown) && justSelectedOption == old(justSelectedOption)
      ensures (key == ArrowUp || key == OtherKey) ==> unchanged(this)
    {
      if key == Tab || key == ArrowDown {
        if showDropdown && |filteredOptions| > 0 {
          isMovingFocusToDropdown := true;
          FocusFirstOption();
        }
      } else if key == Enter {
        if |filteredOptions| == 1 {
          SubsequenceMembers(filteredOptions, options);
          SelectOption(filteredOptions[0]);
        }
      } else if key == Escape {
        showDropdown := false;
      }
    }

    /** A dropdown item is clicked: the option is looked up by the item's value in
        the catalog and committed; an unknown value does nothing. */
    method HandleOptionClick(value: string)
      requires Valid()
      modifies this
      ensures Valid()
      ensures var found := FindByValue(options, value);
        if found.Just? then Committed(found.item) else unchanged(this)
    {
      var option := FindByValue(options, value);
      if option.Just? {
        SelectOption(option.item);
      }
    }

    /** A key is pressed on dropdown item index (whose bound value is value).
        Enter commits the option found by value; ArrowUp and Shift+Tab go one item
        up, or to the input from the first item; ArrowDown and Tab go one item down,
        or to the input from the last item; Escape closes the dropdown and focuses
        the input. A target item that is not on the page leaves focus where it is. */
    method HandleOptionKeyDown(index: nat, value: string, key: Key, shiftKey: bool)
      requires Valid()
      modifies this
      ensures Valid()
      ensures key == Enter ==>
        var found := FindByValue(options, value);
        if found.Just? then Committed(found.item) else unchanged(this)
      ensures (key == ArrowUp || (key == Tab && shiftKey)) ==> focus == old(MoveTo(Previous(index)))
      ensures (key == ArrowDown || (key == Tab && !shiftKey)) ==> focus == old(MoveTo(Next(index, |filteredOptions|)))
      ensures key in {ArrowUp, ArrowDown, Tab} ==>
        && inputText == old(inputText) && selectedOption == old(selectedOption)
        && showDropdown == old(showDropdown) && filteredOptions == old(filteredOptions) && events == old(events)
        && isMovingFocusToDropdown == old(isMovingFocusToDropdown) && justSelectedOption == old(justSelectedOption)
      ensures old(showDropdown) && index < |old(filteredOptions)| && key in {ArrowUp, ArrowDown, Tab} ==>
        focus == SearchInput || (focus.Item? && focus.index < |filteredOptions|)
      ensures old(showDropdown) && old(focus) == Item(index) && (key == ArrowDown || (key == Tab && !shiftKey)) ==>
        focus == Forward(old(focus), |filteredOptions|)
      ensures old(showDropdown) && old(focus) == Item(index) && (key == ArrowUp || (key == Tab && shiftKey)) ==>
        focus == Backward(old(focus), |filteredOptions|)
      ensures key == Escape ==>
        && !showDropdown && focus == SearchInput
        && inputText == old(inputText) && selectedOption == old(selectedOption)
        && filteredOptions == old(filteredOptions) && events == old(events)
        && isMovingFocusToDropdown == old(isMovingFocusToDropdown) && justSelectedOption == old(justSelectedOption)
      ensures key == OtherKey ==> unchanged(this)
    {
      var currentIndex := index;
      var totalOptions := |filteredOptions|;
      if key == Enter {
        var option := FindByValue(options, value);
        if option.Just? {
          SelectOption(option.item);
        }
      } else if key == ArrowUp {
        if currentIndex == 0 {
          FocusSearchInput();
        } else {
          FocusOptionByIndex(currentIndex - 1);
        }
      } else if key == ArrowDown {
        if currentIndex == totalOptions - 1 {
          FocusSearchInput();
        } else {
          FocusOptionByIndex(currentIndex + 1);
        }
      } else if key == Tab {
        if shiftKey {
          if currentIndex == 0 {
            FocusSearchInput();
          } else {
            FocusOptionByIndex(currentIndex - 1);
          }
        } else {
          if currentIndex == totalOptions - 1 {
            FocusSearchInput();
          } else {
            FocusOptionByIndex(currentIndex + 1);
          }
        }
      } else if key == Escape {
        showDropdown := false;
        FocusSearchInput();
      }
    }

    /** selectOption: commits a catalog option and dispatches optionselected once. */
    method SelectOption(option: Option)
      requires Valid() && option in options
      modifies this
      ensures Valid()
      ensures Committed(option)
    {
      selectedOption := Just(option);
      inputText := option.labelText;
      showDropdown := false;
      justSelectedOption := true;
      FocusSearchInput();
      events := events + [OptionSelected(selectedOption.item, inputText)];
    }

    /** Sends focus to the search input, which is always on the page. */
    method FocusSearchInput()
      modifies this`focus
      ensures focus == SearchInput
    {
      focus := SearchInput;
    }

    /** Sends focus to the first dropdown item, if one is on the page. */
    method FocusFirstOption()
      modifies this`focus
      ensures focus == old(MoveTo(Item(0)))
    {
      if IsRendered(0) {
        focus := Item(0);
      }
    }

    /** Sends focus to dropdown item k, if it is on the page. */
    method FocusOptionByIndex(k: int)
      modifies this`focus
      ensures k >= 0 ==> focus == old(MoveTo(Item(k)))
      ensures k < 0 ==> focus == old(focus)
    {
      if IsRendered(k) {
        focus := Item(k);
      }
    }
  }
}
