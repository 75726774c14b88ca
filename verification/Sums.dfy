/** Weighted sums over sequences, and the facts about them that the selection
    pipeline needs: a sum does not depend on the order of its terms, and it
    respects pointwise comparisons of the weights. */
module Sums {

  function Sum<T>(w: T -> int, s: seq<T>): int {
    if s == [] then 0 else Sum(w, s[..|s|-1]) + w(s[|s|-1])
  }

  function RealSum<T>(w: T -> real, s: seq<T>): real {
    if s == [] then 0.0 else RealSum(w, s[..|s|-1]) + w(s[|s|-1])
  }

  lemma {:induction false} SumSnoc<T>(w: T -> int, s: seq<T>, x: T)
    ensures Sum(w, s + [x]) == Sum(w, s) + w(x)
  {
    assert (s + [x])[..|s|] == s;
  }

  lemma SumPrefix<T>(w: T -> int, s: seq<T>, k: nat)
    requires k < |s|
    ensures Sum(w, s[..k+1]) == Sum(w, s[..k]) + w(s[k])
  {
    assert s[..k+1] == s[..k] + [s[k]];
    SumSnoc(w, s[..k], s[k]);
  }

  lemma {:induction false} SumConcat<T>(w: T -> int, a: seq<T>, b: seq<T>)
    ensures Sum(w, a + b) == Sum(w, a) + Sum(w, b)
  {
    if b == [] {
      assert a + b == a;
    } else {
      SumConcat(w, a, b[..|b|-1]);
      assert a + b == (a + b[..|b|-1]) + [b[|b|-1]];
      SumSnoc(w, a + b[..|b|-1], b[|b|-1]);
    }
  }

  /** A sum is a function of the multiset of its terms. */
  lemma {:induction false} SumPermutation<T>(w: T -> int, s: seq<T>, t: seq<T>)
    requires multiset(s) == multiset(t)
    ensures Sum(w, s) == Sum(w, t)
    decreases |s|
  {
    if s == [] {
      assert |multiset(t)| == 0;
    } else {
      var x := s[|s|-1];
      assert x in multiset(s);
      var i :| 0 <= i < |t| && t[i] == x;
      var a, b := t[..i], t[i+1..];
      assert t == a + [x] + b;
      assert s == s[..|s|-1] + [x];
      assert multiset(a + b) == multiset(t) - multiset{x};
      assert multiset(s[..|s|-1]) == multiset(s) - multiset{x};
      SumPermutation(w, s[..|s|-1], a + b);
      SumConcat(w, a, b);
      SumConcat(w, a + [x], b);
      SumSnoc(w, a, x);
    }
  }

  lemma {:induction false} SumLe<T>(v: T -> int, w: T -> int, s: seq<T>)
    requires forall x :: x in s ==> v(x) <= w(x)
    ensures Sum(v, s) <= Sum(w, s)
  {
    if s != [] {
      SumLe(v, w, s[..|s|-1]);
    }
  }

  lemma {:induction false} SumCongruent<T>(v: T -> int, w: T -> int, s: seq<T>)
    requires forall x :: x in s ==> v(x) == w(x)
    ensures Sum(v, s) == Sum(w, s)
  {
    SumLe(v, w, s);
    SumLe(w, v, s);
  }

  lemma {:induction false} SumZero<T>(w: T -> int, s: seq<T>)
    requires forall x :: x in s ==> w(x) == 0
    ensures Sum(w, s) == 0
  {
    if s != [] {
      SumZero(w, s[..|s|-1]);
    }
  }

  lemma {:induction false} SumNonNegative<T>(w: T -> int, s: seq<T>)
    requires forall x :: x in s ==> 0 <= w(x)
    ensures 0 <= Sum(w, s)
    ensures forall x :: x in s ==> w(x) <= Sum(w, s)
  {
    if s != [] {
      SumNonNegative(w, s[..|s|-1]);
      assert s == s[..|s|-1] + [s[|s|-1]];
    }
  }

  /** Two weights that never exceed one together. */
  lemma {:induction false} SumPair<T>(v: T -> int, w: T -> int, s: seq<T>)
    requires forall x :: x in s ==> v(x) + w(x) <= 1
    ensures Sum(v, s) + Sum(w, s) <= |s|
  {
    if s != [] {
      SumPair(v, w, s[..|s|-1]);
    }
  }

  /** A weight that vanishes outside a slice sums to the sum over the slice. */
  lemma {:induction false} SumSlice<T>(w: T -> int, v: T -> int, s: seq<T>, a: nat, b: nat)
    requires a <= b <= |s|
    requires forall i :: 0 <= i < a ==> w(s[i]) == 0
    requires forall i :: a <= i < b ==> w(s[i]) == v(s[i])
    requires forall i :: b <= i < |s| ==> w(s[i]) == 0
    ensures Sum(w, s) == Sum(v, s[a..b])
  {
    assert s == s[..a] + s[a..b] + s[b..];
    SumConcat(w, s[..a] + s[a..b], s[b..]);
    SumConcat(w, s[..a], s[a..b]);
    SumZero(w, s[..a]);
    SumZero(w, s[b..]);
    SumCongruent(w, v, s[a..b]);
  }

  function RemoveAt<T>(s: seq<T>, i: nat): (r: seq<T>)
    requires i < |s|
    ensures |r| == |s| - 1
    ensures forall j :: 0 <= j < |r| ==> r[j] == s[if j < i then j else j + 1]
  {
    s[..i] + s[i+1..]
  }

  lemma {:induction false} SumAround<T>(w: T -> int, a: seq<T>, x: T, b: seq<T>)
    ensures Sum(w, a + b) == Sum(w, a + [x] + b) - w(x)
  {
    SumConcat(w, a + [x], b);
    SumSnoc(w, a, x);
    SumConcat(w, a, b);
  }

  lemma {:induction false} SumRemoveAt<T>(w: T -> int, s: seq<T>, i: nat)
    requires i < |s|
    ensures Sum(w, RemoveAt(s, i)) == Sum(w, s) - w(s[i])
  {
    SplitAt(s, i);
    SumAround(w, s[..i], s[i], s[i+1..]);
  }

  lemma SplitAt<T>(s: seq<T>, i: nat)
    requires i < |s|
    ensures s[..i] + [s[i]] + s[i+1..] == s
  {
  }

  lemma RemoveAtMember<T>(s: seq<T>, i: nat, x: T)
    requires i < |s|
    ensures x in RemoveAt(s, i) ==> x in s
    ensures x in s && x != s[i] ==> x in RemoveAt(s, i)
  {
    if x in s && x != s[i] {
      var j :| 0 <= j < |s| && s[j] == x;
      assert RemoveAt(s, i)[if j < i then j else j - 1] == x;
    }
  }

  lemma MultisetRemoveAt<T>(s: seq<T>, i: nat)
    requires i < |s|
    ensures multiset(RemoveAt(s, i)) == multiset(s) - multiset{s[i]}
  {
    assert s == s[..i] + [s[i]] + s[i+1..];
  }
}
