/** Keyboard navigation over the virtual list [search input, item 0, ..., item n-1]:
    where focus goes when an arrow or Tab key is pressed on a dropdown item. */
module Navigation {

  /** The element holding focus, with the document reduced to what the widget
      tells apart: its search input, its i-th dropdown item, or anything else. */
  datatype FocusTarget = SearchInput | Item(index: nat) | Outside

  /** The keys the handlers look at; every other key is OtherKey. */
  datatype Key = Tab | ArrowUp | ArrowDown | Enter | Escape | OtherKey

  /** ArrowUp and Shift+Tab on item i: the item directly above, or the search input
      from the first item. */
  function Previous(i: nat): (t: FocusTarget)
    ensures t != Outside
    ensures t == SearchInput <==> i == 0
    ensures t.Item? ==> t.index + 1 == i
  {
    if i == 0 then SearchInput else Item(i - 1)
  }

  /** ArrowDown and Tab on item i of n: the item directly below, or the search input
      from the last item. */
  function Next(i: nat, n: nat): (t: FocusTarget)
    ensures t != Outside
    ensures t == SearchInput <==> i + 1 == n
    ensures t.Item? ==> t.index == i + 1
  {
    if i == n - 1 then SearchInput else Item(i + 1)
  }

  /** From an item that exists, both directions land on the search input or on an
      item that exists: the list never wraps from one end to the other. */
  lemma NavigationStaysInList(i: nat, n: nat)
    requires i < n
    ensures Previous(i) == SearchInput || Previous(i).index < n
    ensures Next(i, n) == SearchInput || Next(i, n).index < n
  {
  }

  /** Up undoes down and down undoes up between existing items. */
  lemma PreviousNextInverse(i: nat, n: nat)
    requires i < n
    ensures Next(i, n).Item? ==> Previous(Next(i, n).index) == Item(i)
    ensures Previous(i).Item? ==> Next(Previous(i).index, n) == Item(i)
  {
  }

  /** One forward move (ArrowDown or Tab) with n listed items in an open dropdown:
      from the search input to the first item if there is one, from an item as Next
      says, to an item only when it exists. */
  function Forward(t: FocusTarget, n: nat): (u: FocusTarget)
    ensures u == Outside <==> t == Outside
    ensures t == SearchInput && n > 0 ==> u == Item(0)
    ensures t.Item? && t.index < n ==> u != t
    ensures u.Item? && u != t ==> u.index < n
  {
    match t
    case SearchInput => if n > 0 then Item(0) else SearchInput
    case Item(i) =>
      var u := Next(i, n);
      if u.Item? && u.index >= n then t else u
    case Outside => Outside
  }

  /** One backward move: ArrowUp anywhere, or Shift+Tab on an item. The search
      input ignores ArrowUp; it does not look at Shift, so Shift+Tab there is a
      forward move (Forward), not this one. */
  function Backward(t: FocusTarget, n: nat): (u: FocusTarget)
    ensures !t.Item? ==> u == t
    ensures t.Item? && t.index < n ==> u != t
    ensures u.Item? && u != t ==> u.index < n
  {
    match t
    case Item(i) =>
      var u := Previous(i);
      if u.Item? && u.index >= n then t else u
    case _ => t
  }

  /** k forward moves in a row. */
  function ForwardTimes(t: FocusTarget, n: nat, k: nat): (u: FocusTarget) {
    if k == 0 then t else Forward(ForwardTimes(t, n, k - 1), n)
  }

  /** k backward moves in a row. */
  function BackwardTimes(t: FocusTarget, n: nat, k: nat): (u: FocusTarget) {
    if k == 0 then t else Backward(BackwardTimes(t, n, k - 1), n)
  }

  /** Pressing Tab k times from the search input visits item 0, item 1, ... in order,
      and after n + 1 presses focus is back on the search input. */
  lemma {:induction false} ForwardCycle(n: nat, k: nat)
    requires 0 < n && k <= n + 1
    ensures ForwardTimes(SearchInput, n, k) == if k == 0 || k == n + 1 then SearchInput else Item(k - 1)
  {
    if k > 0 {
      ForwardCycle(n, k - 1);
    }
  }

  /** Pressing ArrowUp k times from item i walks up item by item, and after i + 1
      presses focus is on the search input. */
  lemma {:induction false} BackwardWalk(n: nat, i: nat, k: nat)
    requires i < n && k <= i + 1
    ensures BackwardTimes(Item(i), n, k) == if k == i + 1 then SearchInput else Item(i - k)
  {
    if k > 0 {
      BackwardWalk(n, i, k - 1);
    }
  }
}
