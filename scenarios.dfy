/** Event sequences a user can produce, each handler called in the order the
    browser runs it (a focus or blur that a handler's own focus call causes comes
    right after that handler), with facts about the widget state proved along the
    way. The catalog is two fruits whose labels share a prefix. */
module Scenarios {
  import opened Text
  import opened Options
  import opened Filtering
  import opened Navigation
  import opened Picklist

  const Apple := Option("Apple", "apple")
  const Apricot := Option("Apricot", "apricot")

  lemma LowerLabels()
    ensures ToLower(Apple.labelText) == "apple" && ToLower(Apricot.labelText) == "apricot"
  {
  }

  /** Whatever does not start with white space or end with it is its own trim. */
  lemma TrimPlain(s: string)
    requires s != [] && !IsSpace(s[0]) && !IsSpace(s[|s| - 1])
    ensures Trim(s) == s
  {
  }

  /** Filtering the two-fruit catalog keeps each fruit the test accepts. */
  lemma KeepIfCatalog(t: LabelTest)
    ensures KeepIf([Apple, Apricot], t) ==
      (if Accepts(t, Apple) then [Apple] else []) + (if Accepts(t, Apricot) then [Apricot] else [])
  {
  }

  lemma FilterAp()
    ensures FilterOptions([Apple, Apricot], "ap") == [Apple, Apricot]
  {
    assert ToLower("ap") == "ap";
    TrimPlain("ap");
    LowerLabels();
    assert "apple"[..2] == "ap" && "apricot"[..2] == "ap";
    KeepIfCatalog(LabelContains("ap"));
  }

  lemma FilterApr()
    ensures FilterOptions([Apple, Apricot], "apr") == [Apricot]
  {
    assert ToLower("apr") == "apr";
    TrimPlain("apr");
    LowerLabels();
    assert "apricot"[..3] == "apr";
    assert !Contains("apple", "apr") by {
      assert "apple"[..3] != "apr" && "apple"[1..] == "pple";
      assert "pple"[..3] != "apr" && "pple"[1..] == "ple";
      assert "ple"[..3] != "apr" && "ple"[1..] == "le";
    }
    KeepIfCatalog(LabelContains("apr"));
  }

  lemma WholeLabelTerm()
    ensures SearchTerm(" APRICOT ") == "apricot"
    ensures FilterOptions([Apple, Apricot], " APRICOT ") == [Apricot]
    ensures ExactMatches([Apricot], " APRICOT ") == [Apricot]
  {
    assert ToLower(" APRICOT ") == " apricot ";
    assert TrimStart(" apricot ") == "apricot " by {
      assert " apricot "[1..] == "apricot ";
    }
    assert TrimEnd("apricot ") == "apricot" by {
      assert "apricot "[..7] == "apricot";
    }
    LowerLabels();
    assert !Contains("apple", "apricot");
    KeepIfCatalog(LabelContains("apricot"));
    assert [Apricot][1..] == [];
  }

  /** Typing narrows the list to one option, but a blur-away does not accept it:
      "apr" is not the whole label, so nothing is selected and nothing is announced. */
  method NarrowThenBlurAway()
  {
    var w := new SearchablePicklist([Apple, Apricot], "", "");
    w.HandleFocus();
    assert w.filteredOptions == [Apple, Apricot];

    w.HandleInputChange("ap");
    FilterAp();
    assert w.filteredOptions == [Apple, Apricot];

    w.HandleInputChange("apr");
    FilterApr();
    assert w.filteredOptions == [Apricot];

    var scheduled := w.HandleBlur();
    assert scheduled;
    w.HandleBlurTimeout(false);
    ExactMatchesMembers([Apricot], "apr");
    assert w.selectedOption == Nothing && w.inputText == "apr";
    assert !w.showDropdown && w.events == [];
  }

  /** Typing a whole label, in any case and with surrounding blanks, and blurring
      away selects that option and puts its own label in the input, silently. */
  method TypeWholeLabelThenBlurAway()
  {
    var w := new SearchablePicklist([Apple, Apricot], "", "");
    w.HandleFocus();
    w.HandleInputChange(" APRICOT ");
    WholeLabelTerm();
    assert w.filteredOptions == [Apricot];

    var scheduled := w.HandleBlur();
    w.HandleBlurTimeout(false);
    assert w.selectedOption == Just(Apricot) && w.inputText == "Apricot";
    assert !w.showDropdown && w.events == [];
  }

  /** Arrowing into the list does not close it; ArrowUp on the first item returns
      to the input, which reopens the list; Shift+Tab in the input goes into the
      list like Tab; Enter on the second item commits it, announces it once, and
      the focus that returns to the input does not reopen the dropdown. */
  method NavigateAndCommit()
  {
    var w := new SearchablePicklist([Apple, Apricot], "", "");
    w.HandleFocus();
    w.HandleInputChange("ap");
    FilterAp();
    assert w.filteredOptions == [Apple, Apricot];

    w.HandleInputKeyDown(ArrowDown, false);
    assert w.focus == Item(0) && w.isMovingFocusToDropdown;
    var scheduled := w.HandleBlur();
    assert !scheduled && w.showDropdown && !w.isMovingFocusToDropdown;

    w.HandleOptionKeyDown(0, "apple", ArrowUp, false);
    assert w.focus == SearchInput;
    w.HandleFocus();
    assert w.showDropdown && w.filteredOptions == [Apple, Apricot];

    w.HandleInputKeyDown(Tab, true);
    assert w.focus == Item(0) && w.isMovingFocusToDropdown;
    scheduled := w.HandleBlur();
    assert !scheduled && w.showDropdown && !w.isMovingFocusToDropdown;

    w.HandleOptionKeyDown(0, "apple", ArrowDown, false);
    assert w.focus == Item(1);

    w.HandleOptionKeyDown(1, "apricot", Enter, false);
    assert w.selectedOption == Just(Apricot) && w.inputText == "Apricot";
    assert w.events == [OptionSelected(Apricot, "Apricot")];
    assert w.focus == SearchInput && w.justSelectedOption;

    w.HandleFocus();
    assert !w.showDropdown && !w.justSelectedOption;
  }
}
