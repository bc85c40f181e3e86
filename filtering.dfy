/** The filter engine: which catalog options the dropdown lists for the text in
    the search input, and which of the listed options a blur may commit. */
module Filtering {
  import opened Text
  import opened Options

  /** The two tests the widget filters with, both on the lower-cased label:
      the search filter asks for the term inside the label, the blur commit
      asks for the whole label. */
  datatype LabelTest = LabelContains(term: string) | LabelEquals(term: string)

  /** The filter callbacks. The whole-label test is the stricter one: a label it
      accepts also contains the term. The empty term is contained in every label. */
  predicate Accepts(t: LabelTest, o: Option): (b: bool)
    ensures b && t.LabelEquals? ==> Contains(ToLower(o.labelText), t.term)
    ensures t == LabelContains([]) ==> b
  {
    match t
    case LabelContains(term) => Contains(ToLower(o.labelText), term)
    case LabelEquals(term) => ToLower(o.labelText) == term
  }

  /** Array.prototype.filter: the elements of s that t accepts, in their order in s. */
  function KeepIf(s: seq<Option>, t: LabelTest): (r: seq<Option>)
    ensures IsSubsequence(r, s)
  {
    if s == [] then
      []
    else
      var rest := KeepIf(s[1..], t);
      if Accepts(t, s[0]) then
        var r := [s[0]] + rest;
        assert r[1..] == rest;
        r
      else
        rest
  }

  /** KeepIf holds every accepted element as often as s does, and no rejected element. */
  lemma {:induction false} KeepIfCounts(s: seq<Option>, t: LabelTest)
    ensures forall o :: multiset(KeepIf(s, t))[o] == if Accepts(t, o) then multiset(s)[o] else 0
  {
    if s != [] {
      KeepIfCounts(s[1..], t);
      assert s == [s[0]] + s[1..];
      if Accepts(t, s[0]) {
        assert KeepIf(s, t) == [s[0]] + KeepIf(s[1..], t);
      }
    }
  }

  /** An element is kept exactly when s holds it and t accepts it. */
  lemma KeepIfMembers(s: seq<Option>, t: LabelTest)
    ensures forall o :: o in KeepIf(s, t) <==> o in s && Accepts(t, o)
  {
    KeepIfCounts(s, t);
    forall o
      ensures o in KeepIf(s, t) <==> o in s && Accepts(t, o)
    {
      assert o in KeepIf(s, t) <==> multiset(KeepIf(s, t))[o] > 0;
      assert o in s <==> multiset(s)[o] > 0;
    }
  }

  /** KeepIf is the only subsequence of s that holds every accepted element as
      often as s does and no rejected element. */
  lemma {:induction false} KeepIfUnique(s: seq<Option>, t: LabelTest, r: seq<Option>)
    requires IsSubsequence(r, s)
    requires forall o :: multiset(r)[o] == if Accepts(t, o) then multiset(s)[o] else 0
    ensures r == KeepIf(s, t)
    decreases |s|
  {
    if s == [] {
      assert r == [];
    } else {
      var x := s[0];
      assert s == [x] + s[1..];
      if r != [] && r[0] == x && IsSubsequence(r[1..], s[1..]) {
        assert r == [x] + r[1..];
        assert Accepts(t, x) by {
          assert multiset(r)[x] > 0;
        }
        KeepIfUnique(s[1..], t, r[1..]);
      } else {
        assert IsSubsequence(r, s[1..]);
        SubsequenceCounts(r, s[1..]);
        assert multiset(s)[x] == multiset(s[1..])[x] + 1;
        if Accepts(t, x) {
          assert false;
        }
        KeepIfUnique(s[1..], t, r);
      }
    }
  }

  /** A test that accepts every element keeps the whole sequence. */
  lemma {:induction false} KeepIfAll(s: seq<Option>, t: LabelTest)
    requires forall o :: o in s ==> Accepts(t, o)
    ensures KeepIf(s, t) == s
  {
    if s != [] {
      KeepIfAll(s[1..], t);
    }
  }

  /** Filtering by t and then by a stricter u is filtering by u alone. */
  lemma {:induction false} KeepIfNested(s: seq<Option>, t: LabelTest, u: LabelTest)
    requires forall o :: Accepts(u, o) ==> Accepts(t, o)
    ensures KeepIf(KeepIf(s, t), u) == KeepIf(s, u)
  {
    if s != [] {
      KeepIfNested(s[1..], t, u);
      if Accepts(t, s[0]) {
        assert KeepIf(s, t)[1..] == KeepIf(s[1..], t);
      }
    }
  }

  /** The search term: the input text lower-cased, then trimmed. It is never
      longer than the input, and it is empty, or starts and ends with a character
      that is not white space. */
  function SearchTerm(inputText: string): (term: string)
    ensures |term| <= |inputText|
    ensures term != [] ==> !IsSpace(term[0]) && !IsSpace(term[|term| - 1])
  {
    TrimSpec(ToLower(inputText));
    Trim(ToLower(inputText))
  }

  /** filterOptions: with a blank term the whole catalog, otherwise the options
      that the term selects, in catalog order. */
  function FilterOptions(options: seq<Option>, inputText: string): (r: seq<Option>)
    ensures SearchTerm(inputText) == [] ==> r == options
    ensures IsSubsequence(r, options)
  {
    var term := SearchTerm(inputText);
    if term == [] then
      SubsequenceRefl(options);
      options
    else
      KeepIf(options, LabelContains(term))
  }

  /** Whatever the term, the filter keeps exactly the options whose lower-cased
      label contains it, each as often as the catalog holds it, in catalog order. */
  lemma FilterOptionsSelects(options: seq<Option>, inputText: string)
    ensures IsSubsequence(FilterOptions(options, inputText), options)
    ensures forall o :: multiset(FilterOptions(options, inputText))[o] ==
                        if Contains(ToLower(o.labelText), SearchTerm(inputText)) then multiset(options)[o] else 0
    ensures forall o :: o in FilterOptions(options, inputText) <==>
      o in options && Contains(ToLower(o.labelText), SearchTerm(inputText))
  {
    FilterIsContainsFilter(options, inputText);
    var term := SearchTerm(inputText);
    KeepIfCounts(options, LabelContains(term));
    KeepIfMembers(options, LabelContains(term));
  }

  /** A term that is blank (white space only) keeps the whole catalog. */
  lemma BlankInputKeepsAll(options: seq<Option>, inputText: string)
    requires forall k :: 0 <= k < |inputText| ==> IsSpace(inputText[k])
    ensures FilterOptions(options, inputText) == options
  {
    ToLowerChars(inputText);
    TrimSpec(ToLower(inputText));
  }

  /** Both branches of filterOptions are one filter: the blank term is contained in every label. */
  lemma FilterIsContainsFilter(options: seq<Option>, inputText: string)
    ensures FilterOptions(options, inputText) == KeepIf(options, LabelContains(SearchTerm(inputText)))
  {
    var term := SearchTerm(inputText);
    if term == [] {
      KeepIfAll(options, LabelContains(term));
    }
  }

  /** The filter ignores letter case in the input. */
  lemma FilterIgnoresCase(options: seq<Option>, inputText: string)
    ensures FilterOptions(options, ToLower(inputText)) == FilterOptions(options, inputText)
  {
    ToLowerIdempotent(inputText);
  }

  /** The options of filtered whose lower-cased label is the search term itself. */
  function ExactMatches(filtered: seq<Option>, inputText: string): (r: seq<Option>)
    ensures IsSubsequence(r, filtered)
  {
    KeepIf(filtered, LabelEquals(SearchTerm(inputText)))
  }

  /** An option is an exact match exactly when it is listed and its lower-cased
      label equals the search term. */
  lemma ExactMatchesMembers(filtered: seq<Option>, inputText: string)
    ensures forall o :: o in ExactMatches(filtered, inputText) <==>
      o in filtered && ToLower(o.labelText) == SearchTerm(inputText)
  {
    KeepIfMembers(filtered, LabelEquals(SearchTerm(inputText)));
  }

  /** On a list that is up to date with the input, the exact matches are those of
      the whole catalog: the filter never hides a label equal to the term. */
  lemma ExactMatchesOfFreshFilter(options: seq<Option>, inputText: string)
    ensures ExactMatches(FilterOptions(options, inputText), inputText) == ExactMatches(options, inputText)
  {
    var term := SearchTerm(inputText);
    if term != [] {
      KeepIfNested(options, LabelContains(term), LabelEquals(term));
    }
  }
}
