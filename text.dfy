/** String primitives the picklist uses: toLowerCase, trim and includes,
    as they behave on the strings the widget compares. */
module Text {

  /** The code points String.prototype.trim removes: the WhiteSpace and
      LineTerminator characters of ECMAScript (space separators included). */
  predicate IsSpace(c: char) {
    || c == ' ' || c == '\t' || c == '\n' || c == '\r'
    || c == '\U{000B}' || c == '\U{000C}' || c == '\U{00A0}' || c == '\U{1680}'
    || ('\U{2000}' <= c <= '\U{200A}')
    || c == '\U{2028}' || c == '\U{2029}' || c == '\U{202F}' || c == '\U{205F}'
    || c == '\U{3000}' || c == '\U{FEFF}'
  }

  predicate IsUpper(c: char) {
    'A' <= c <= 'Z'
  }

  /** Lower-cases one character; only the ASCII letters are mapped. */
  function LowerChar(c: char): (d: char)
    ensures !IsUpper(d)
    ensures IsSpace(d) <==> IsSpace(c)
    ensures IsUpper(c) ==> d as int == c as int + 32
    ensures !IsUpper(c) ==> d == c
  {
    if IsUpper(c) then (c as int + 32) as char else c
  }

  /** toLowerCase: the same string with every upper-case letter lowered. */
  function ToLower(s: string): (r: string)
    ensures |r| == |s|
  {
    seq(|s|, i requires 0 <= i < |s| => LowerChar(s[i]))
  }

  /** A lowered string has no upper-case letter left and keeps its white space
      where it was. */
  lemma ToLowerChars(s: string)
    ensures forall i :: 0 <= i < |s| ==> !IsUpper(ToLower(s)[i])
    ensures forall i :: 0 <= i < |s| ==> (IsSpace(ToLower(s)[i]) <==> IsSpace(s[i]))
  {
  }

  /** Lowering twice is lowering once. */
  lemma ToLowerIdempotent(s: string)
    ensures ToLower(ToLower(s)) == ToLower(s)
  {
    var once := ToLower(s);
    var twice := ToLower(once);
    forall i | 0 <= i < |s|
      ensures twice[i] == once[i]
    {
      assert !IsUpper(once[i]);
    }
  }

  /** Drops the leading white space. */
  function TrimStart(s: string): (r: string)
    ensures |r| <= |s|
  {
    if s != [] && IsSpace(s[0]) then TrimStart(s[1..]) else s
  }

  /** TrimStart removes a prefix of white space and stops at the first other character. */
  lemma {:induction false} TrimStartSpec(s: string)
    ensures TrimStart(s) == s[|s| - |TrimStart(s)|..]
    ensures forall k :: 0 <= k < |s| - |TrimStart(s)| ==> IsSpace(s[k])
    ensures TrimStart(s) != [] ==> !IsSpace(TrimStart(s)[0])
  {
    if s != [] && IsSpace(s[0]) {
      TrimStartSpec(s[1..]);
      var r := TrimStart(s);
      forall k | 0 < k < |s| - |r|
        ensures IsSpace(s[k])
      {
        assert s[k] == s[1..][k - 1];
      }
    }
  }

  /** Drops the trailing white space. */
  function TrimEnd(s: string): (r: string)
    ensures |r| <= |s|
  {
    if s != [] && IsSpace(s[|s| - 1]) then TrimEnd(s[..|s| - 1]) else s
  }

  /** TrimEnd removes a suffix of white space and stops at the last other character. */
  lemma {:induction false} TrimEndSpec(s: string)
    ensures TrimEnd(s) == s[..|TrimEnd(s)|]
    ensures forall k :: |TrimEnd(s)| <= k < |s| ==> IsSpace(s[k])
    ensures TrimEnd(s) != [] ==> !IsSpace(TrimEnd(s)[|TrimEnd(s)| - 1])
  {
    if s != [] && IsSpace(s[|s| - 1]) {
      TrimEndSpec(s[..|s| - 1]);
      var r := TrimEnd(s);
      forall k | |r| <= k < |s| - 1
        ensures IsSpace(s[k])
      {
        assert s[k] == s[..|s| - 1][k];
      }
    }
  }

  /** r is the part s[i..i + |r|] of s and everything around it is white space. */
  ghost predicate TrimmedAt(s: string, r: string, i: int) {
    && 0 <= i && i + |r| <= |s|
    && r == s[i..i + |r|]
    && (forall k :: 0 <= k < i ==> IsSpace(s[k]))
    && (forall k :: i + |r| <= k < |s| ==> IsSpace(s[k]))
  }

  /** trim: white space removed from both ends. */
  function Trim(s: string): (r: string)
    ensures |r| <= |s|
  {
    TrimEnd(TrimStart(s))
  }

  /** Trim gives the inner part of s that neither starts nor ends with white space;
      it is empty exactly when s is all white space. */
  lemma TrimSpec(s: string)
    ensures exists i :: TrimmedAt(s, Trim(s), i)
    ensures Trim(s) != [] ==> !IsSpace(Trim(s)[0]) && !IsSpace(Trim(s)[|Trim(s)| - 1])
    ensures Trim(s) == [] <==> forall k :: 0 <= k < |s| ==> IsSpace(s[k])
  {
    var front := TrimStart(s);
    var r := Trim(s);
    TrimStartSpec(s);
    TrimEndSpec(front);
    var i := |s| - |front|;
    assert r == s[i..i + |r|];
    assert TrimmedAt(s, r, i) by {
      forall k | i + |r| <= k < |s|
        ensures IsSpace(s[k])
      {
        assert s[k] == front[k - i];
      }
    }
    if r != [] {
      assert r[0] == front[0];
      assert !IsSpace(s[i]);
    }
  }

  /** The needle n appears in h starting at position k. */
  ghost predicate OccursAt(h: string, n: string, k: int) {
    0 <= k && k + |n| <= |h| && h[k..k + |n|] == n
  }

  /** An occurrence in h past the first position is an occurrence in h[1..], shifted by one. */
  lemma OccursShift(h: string, n: string, k: int)
    requires h != [] && 1 <= k
    ensures OccursAt(h, n, k) <==> OccursAt(h[1..], n, k - 1)
  {
    if k + |n| <= |h| {
      assert h[1..][k - 1..k - 1 + |n|] == h[k..k + |n|];
    }
  }

  /** includes: whether n starts at some position of h. The scan never reports a
      needle longer than h, and it reaches the last position that can hold n. */
  function Contains(h: string, n: string): (r: bool)
    ensures r ==> |n| <= |h|
    ensures |n| <= |h| && h[|h| - |n|..] == n ==> r
    decreases |h|
  {
    if |n| > |h| then false
    else if h[..|n|] == n then true
    else
      assert |n| < |h| ==> h[1..][|h| - 1 - |n|..] == h[|h| - |n|..];
      Contains(h[1..], n)
  }

  /** Contains is substring search: it holds exactly when n occurs somewhere in h. */
  lemma {:induction false} ContainsSpec(h: string, n: string)
    ensures Contains(h, n) <==> exists k :: OccursAt(h, n, k)
    decreases |h|
  {
    if |n| > |h| {
    } else if h[..|n|] == n {
      assert OccursAt(h, n, 0);
    } else {
      ContainsSpec(h[1..], n);
      if Contains(h, n) {
        var k :| OccursAt(h[1..], n, k);
        OccursShift(h, n, k + 1);
      } else {
        forall k | OccursAt(h, n, k)
          ensures false
        {
          assert k != 0;
          OccursShift(h, n, k);
        }
      }
    }
  }
}
