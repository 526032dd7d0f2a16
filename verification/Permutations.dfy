/**
 Concatenating what a function yields for each element of a sequence; rearranging the
 elements rearranges the result.
 */
module Permutations {
  import opened Sequences

  function Gather<T, U>(s: seq<T>, f: T -> seq<U>): seq<U> {
    if s == [] then [] else Gather(s[..|s| - 1], f) + f(s[|s| - 1])
  }

  /** The result as a bag, which is all a rearrangement preserves. */
  ghost function Bag<T, U>(s: seq<T>, f: T -> seq<U>): multiset<U> {
    if s == [] then multiset{} else Bag(s[..|s| - 1], f) + multiset(f(s[|s| - 1]))
  }

  lemma {:induction false} BagOfGather<T, U>(s: seq<T>, f: T -> seq<U>)
    ensures multiset(Gather(s, f)) == Bag(s, f)
  {
    if s != [] {
      BagOfGather(s[..|s| - 1], f);
    }
  }

  lemma RemoveOne<T>(s: seq<T>, i: nat)
    requires i < |s|
    ensures multiset(Without(s, i)) == multiset(s) - multiset{s[i]}
  {
    assert s == s[..i] + [s[i]] + s[i + 1..];
  }

  lemma {:induction false} BagWithoutOne<T, U>(s: seq<T>, i: nat, f: T -> seq<U>)
    requires i < |s|
    ensures Bag(s, f) == Bag(Without(s, i), f) + multiset(f(s[i]))
  {
    var n := |s| - 1;
    WithoutLast(s, i);
    if i < n {
      BagWithoutOne(s[..n], i, f);
      BagAppend(Without(s[..n], i), s[n], f);
    }
  }

  lemma BagAppend<T, U>(s: seq<T>, x: T, f: T -> seq<U>)
    ensures Bag(s + [x], f) == Bag(s, f) + multiset(f(x))
  {
    DropAppended(s, x);
  }

  /** Leaving out the last element, or an earlier one. */
  lemma WithoutLast<T>(s: seq<T>, i: nat)
    requires i < |s|
    ensures var n := |s| - 1;
            Without(s, i) == if i == n then s[..n] else Without(s[..n], i) + [s[n]]
  {
  }

  function Without<T>(s: seq<T>, i: nat): seq<T>
    requires i < |s|
  {
    s[..i] + s[i + 1..]
  }

  /** The last element of one arrangement, found in the other. */
  lemma MatchLast<T>(a: seq<T>, b: seq<T>) returns (i: nat)
    requires multiset(a) == multiset(b) && a != []
    ensures i < |b| && b[i] == a[|a| - 1]
    ensures multiset(a[..|a| - 1]) == multiset(Without(b, i))
  {
    var n := |a| - 1;
    SameLength(a, b);
    assert a[n] in a;
    i := Locate(b, a[n]);
    RemoveOne(b, i);
    assert a == a[..n] + [a[n]];
  }

  lemma {:induction false} BagOfPermutation<T, U>(a: seq<T>, b: seq<T>, f: T -> seq<U>)
    requires multiset(a) == multiset(b)
    ensures Bag(a, f) == Bag(b, f)
  {
    if a == [] {
      SameLength(a, b);
    } else {
      var i := MatchLast(a, b);
      BagOfPermutation(a[..|a| - 1], Without(b, i), f);
      BagWithoutOne(b, i, f);
    }
  }

  lemma SameLength<T>(a: seq<T>, b: seq<T>)
    requires multiset(a) == multiset(b)
    ensures |a| == |b|
    ensures forall x :: x in a <==> x in b
  {
    assert |multiset(a)| == |multiset(b)|;
    forall x ensures x in a <==> x in b {
      assert x in a <==> x in multiset(a);
      assert x in b <==> x in multiset(b);
    }
  }

  lemma Locate<T>(s: seq<T>, x: T) returns (i: nat)
    requires x in s
    ensures i < |s| && s[i] == x
  {
    i :| 0 <= i < |s| && s[i] == x;
  }

  lemma GatherOfPermutation<T, U>(a: seq<T>, b: seq<T>, f: T -> seq<U>)
    requires multiset(a) == multiset(b)
    ensures multiset(Gather(a, f)) == multiset(Gather(b, f))
  {
    BagOfGather(a, f);
    BagOfGather(b, f);
    BagOfPermutation(a, b, f);
  }
}
