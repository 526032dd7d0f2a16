/**
 Sums of natural-number weights over a sequence. Every counting argument of the
 project (tokens, places of a job, bytes queued, credit of a flow) is such a sum.
 */
module Sums {

  function Sum<T(!new)>(s: seq<T>, f: T -> nat): nat
  {
    if s == [] then 0 else f(s[0]) + Sum(s[1..], f)
  }

  lemma {:induction false} SumConcat<T(!new)>(a: seq<T>, b: seq<T>, f: T -> nat)
    ensures Sum(a + b, f) == Sum(a, f) + Sum(b, f)
  {
    if a == [] {
      assert a + b == b;
    } else {
      assert (a + b)[1..] == a[1..] + b;
      SumConcat(a[1..], b, f);
    }
  }

  lemma SumAppend<T(!new)>(s: seq<T>, x: T, f: T -> nat)
    ensures Sum(s + [x], f) == Sum(s, f) + f(x)
  {
    SumConcat(s, [x], f);
    assert Sum([x][1..], f) == 0;
  }

  lemma {:induction false} SumUpdate<T(!new)>(s: seq<T>, i: nat, x: T, f: T -> nat)
    requires i < |s|
    ensures Sum(s[i := x], f) + f(s[i]) == Sum(s, f) + f(x)
  {
    if i == 0 {
      assert s[0 := x][1..] == s[1..];
    } else {
      assert s[i := x][1..] == s[1..][i - 1 := x];
      SumUpdate(s[1..], i - 1, x, f);
    }
  }

  lemma {:induction false} SumAtLeast<T(!new)>(s: seq<T>, i: nat, f: T -> nat)
    requires i < |s|
    ensures f(s[i]) <= Sum(s, f)
  {
    if i > 0 {
      SumAtLeast(s[1..], i - 1, f);
    }
  }

  lemma {:induction false} SumAtLeastTwo<T(!new)>(s: seq<T>, i: nat, j: nat, f: T -> nat)
    requires i < j < |s|
    ensures f(s[i]) + f(s[j]) <= Sum(s, f)
  {
    if i == 0 {
      SumAtLeast(s[1..], j - 1, f);
    } else {
      SumAtLeastTwo(s[1..], i - 1, j - 1, f);
    }
  }

  /** A positive sum has a positive summand. */
  lemma {:induction false} SumWitness<T(!new)>(s: seq<T>, f: T -> nat) returns (i: nat)
    requires Sum(s, f) > 0
    ensures i < |s| && f(s[i]) > 0
  {
    if f(s[0]) > 0 {
      i := 0;
    } else {
      var k := SumWitness(s[1..], f);
      i := k + 1;
    }
  }

  /** Summands of at most one, one of them zero, add up to less than the length. */
  lemma {:induction false} SumBelowLength<T(!new)>(s: seq<T>, f: T -> nat)
    requires forall x :: x in s ==> f(x) <= 1
    ensures Sum(s, f) <= |s|
    ensures forall k :: 0 <= k < |s| && f(s[k]) == 0 ==> Sum(s, f) < |s|
  {
    if s != [] {
      SumBelowLength(s[1..], f);
      forall k | 0 <= k < |s| && f(s[k]) == 0
        ensures Sum(s, f) < |s|
      {
        assert s[0] in s;
        if k > 0 {
          assert s[1..][k - 1] == s[k];
        }
      }
    }
  }

  lemma {:induction false} SumZero<T(!new)>(s: seq<T>, f: T -> nat)
    requires forall x :: x in s ==> f(x) == 0
    ensures Sum(s, f) == 0
  {
    if s != [] {
      assert s[0] in s;
      SumZero(s[1..], f);
    }
  }

  lemma SumZeroIff<T(!new)>(s: seq<T>, f: T -> nat)
    ensures Sum(s, f) == 0 <==> forall x :: x in s ==> f(x) == 0
  {
    if x :| x in s && f(x) != 0 {
      var k :| 0 <= k < |s| && s[k] == x;
      SumAtLeast(s, k, f);
    } else {
      SumZero(s, f);
    }
  }
}
