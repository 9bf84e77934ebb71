/** SQL's SUM and COUNT over the rows of a table. */
module Sums {

  function Sum<T>(s: seq<T>, w: T -> int): int {
    if |s| == 0 then 0 else Sum(s[..|s| - 1], w) + w(s[|s| - 1])
  }

  lemma SumAppend<T>(s: seq<T>, x: T, w: T -> int)
    ensures Sum(s + [x], w) == Sum(s, w) + w(x)
  {
    assert (s + [x])[..|s|] == s;
  }

  lemma {:induction false} SumFirst<T>(s: seq<T>, w: T -> int)
    requires |s| > 0
    ensures Sum(s, w) == w(s[0]) + Sum(s[1..], w)
  {
    if |s| > 1 {
      var n := |s| - 1;
      SumFirst(s[..n], w);
      assert s[..n][1..] == s[1..][..n - 1];
    }
  }

  /** Two tables whose rows weigh the same, except possibly row i. */
  lemma {:induction false} SumExcept<T>(s: seq<T>, t: seq<T>, v: T -> int, w: T -> int, i: nat)
    requires |s| == |t| && i < |s|
    requires forall j :: 0 <= j < |s| && j != i ==> v(s[j]) == w(t[j])
    ensures Sum(t, w) == Sum(s, v) - v(s[i]) + w(t[i])
  {
    var n := |s| - 1;
    if i == n {
      SumSame(s[..n], t[..n], v, w);
    } else {
      SumExcept(s[..n], t[..n], v, w, i);
    }
  }

  lemma {:induction false} SumSame<T>(s: seq<T>, t: seq<T>, v: T -> int, w: T -> int)
    requires |s| == |t|
    requires forall j :: 0 <= j < |s| ==> v(s[j]) == w(t[j])
    ensures Sum(s, v) == Sum(t, w)
  {
    if |s| > 0 {
      SumSame(s[..|s| - 1], t[..|s| - 1], v, w);
    }
  }

  lemma {:induction false} SumZero<T>(s: seq<T>, w: T -> int)
    requires forall j :: 0 <= j < |s| ==> w(s[j]) == 0
    ensures Sum(s, w) == 0
  {
    if |s| > 0 {
      SumZero(s[..|s| - 1], w);
    }
  }

  lemma {:induction false} SumNonNegative<T>(s: seq<T>, w: T -> int)
    requires forall j :: 0 <= j < |s| ==> w(s[j]) >= 0
    ensures Sum(s, w) >= 0
  {
    if |s| > 0 {
      SumNonNegative(s[..|s| - 1], w);
    }
  }
}
