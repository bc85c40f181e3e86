/** The option catalog, nullable references to its entries, and the lookup
    of an entry by its value. */
module Options {

  /** One entry of the catalog: its label (`label` is a keyword here) and its value.
      The widget only ever references entries, it never builds one. */
  datatype Option = Option(labelText: string, value: string)

  /** A reference that may be null. */
  datatype Maybe<T> = Nothing | Just(item: T)

  /** a can be obtained from b by deleting elements, keeping the order of the rest. */
  ghost predicate IsSubsequence(a: seq<Option>, b: seq<Option>)
    decreases |b|
  {
    if a == [] then true
    else if b == [] then false
    else (a[0] == b[0] && IsSubsequence(a[1..], b[1..])) || IsSubsequence(a, b[1..])
  }

  lemma {:induction false} SubsequenceRefl(s: seq<Option>)
    ensures IsSubsequence(s, s)
  {
    if s != [] {
      SubsequenceRefl(s[1..]);
    }
  }

  /** Deleting elements never adds occurrences. */
  lemma {:induction false} SubsequenceCounts(a: seq<Option>, b: seq<Option>)
    requires IsSubsequence(a, b)
    ensures multiset(a) <= multiset(b)
    decreases |b|
  {
    if a != [] {
      assert b != [];
      assert b == [b[0]] + b[1..];
      if a[0] == b[0] && IsSubsequence(a[1..], b[1..]) {
        SubsequenceCounts(a[1..], b[1..]);
        assert a == [a[0]] + a[1..];
      } else {
        SubsequenceCounts(a, b[1..]);
      }
    }
  }

  /** Every element of a subsequence is an element of the whole. */
  lemma SubsequenceMembers(a: seq<Option>, b: seq<Option>)
    requires IsSubsequence(a, b)
    ensures forall x :: x in a ==> x in b
  {
    SubsequenceCounts(a, b);
    forall x | x in a
      ensures x in b
    {
      assert multiset(a)[x] > 0;
    }
  }

  /** Array.prototype.find on value: the first option whose value is the given one. */
  function FindByValue(options: seq<Option>, value: string): (r: Maybe<Option>)
    ensures r.Nothing? <==> forall o :: o in options ==> o.value != value
    ensures r.Just? ==> r.item in options && r.item.value == value
    ensures r.Just? ==> exists i :: 0 <= i < |options| && options[i] == r.item && forall j :: 0 <= j < i ==> options[j].value != value
  {
    if options == [] then
      Nothing
    else if options[0].value == value then
      Just(options[0])
    else
      var r := FindByValue(options[1..], value);
      assert r.Just? ==> exists i :: 0 <= i < |options| && options[i] == r.item && forall j :: 0 <= j < i ==> options[j].value != value by {
        if r.Just? {
          var i :| 0 <= i < |options[1..]| && options[1..][i] == r.item && forall j :: 0 <= j < i ==> options[1..][j].value != value;
          assert options[i + 1] == r.item;
          assert forall j :: 0 <= j < i + 1 ==> options[j].value != value by {
            forall j | 0 <= j < i + 1
              ensures options[j].value != value
            {
              if j > 0 { assert options[j] == options[1..][j - 1]; }
            }
          }
        }
      }
      r
  }
}
