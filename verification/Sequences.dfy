/** Facts about finite sequences that the proofs share: sums over a sequence,
    permutations, and sequences without repetitions. */
module Sequences {
  function SumBy<T>(s: seq<T>, f: T -> int): int {
    if s == [] then 0 else f(s[0]) + SumBy(s[1..], f)
  }

  ghost predicate Distinct<T(!new)>(s: seq<T>) {
    forall i, j | 0 <= i < j < |s| :: s[i] != s[j]
  }

  lemma {:induction false} SumByAppend<T>(a: seq<T>, b: seq<T>, f: T -> int)
    ensures SumBy(a + b, f) == SumBy(a, f) + SumBy(b, f)
  {
    if a == [] {
      assert a + b == b;
    } else {
      assert (a + b)[1..] == a[1..] + b;
      SumByAppend(a[1..], b, f);
    }
  }

  lemma SumBySingle<T>(x: T, f: T -> int)
    ensures SumBy([x], f) == f(x)
  {
    assert [x][1..] == [];
  }

  lemma {:induction false} SumByCongruent<T>(s: seq<T>, f: T -> int, g: T -> int)
    requires forall x | x in s :: f(x) == g(x)
    ensures SumBy(s, f) == SumBy(s, g)
  {
    if s != [] {
      SumByCongruent(s[1..], f, g);
    }
  }

  lemma {:induction false} SumByAdd<T>(s: seq<T>, f: T -> int, g: T -> int, h: T -> int)
    requires forall x | x in s :: h(x) == f(x) + g(x)
    ensures SumBy(s, h) == SumBy(s, f) + SumBy(s, g)
  {
    if s != [] {
      SumByAdd(s[1..], f, g, h);
    }
  }

  lemma {:induction false} SumByScale<T>(s: seq<T>, f: T -> int, g: T -> int, c: int)
    requires forall x | x in s :: g(x) == c * f(x)
    ensures SumBy(s, g) == c * SumBy(s, f)
  {
    if s != [] {
      SumByScale(s[1..], f, g, c);
    }
  }

  lemma SumByRemove<T>(s: seq<T>, k: nat, f: T -> int)
    requires k < |s|
    ensures SumBy(s, f) == f(s[k]) + SumBy(s[..k] + s[k + 1..], f)
  {
    var front, back := s[..k], s[k + 1..];
    assert s == front + ([s[k]] + back);
    SumByAppend(front, [s[k]] + back, f);
    SumByAppend([s[k]], back, f);
    SumByAppend(front, back, f);
    SumBySingle(s[k], f);
  }

  lemma RemoveMultiset<T>(s: seq<T>, k: nat)
    requires k < |s|
    ensures multiset(s[..k] + s[k + 1..]) == multiset(s) - multiset{s[k]}
  {
    assert s == s[..k] + [s[k]] + s[k + 1..];
  }

  /** A sum does not depend on the order of the sequence. */
  lemma {:induction false} SumByPermutation<T>(a: seq<T>, b: seq<T>, f: T -> int)
    requires multiset(a) == multiset(b)
    ensures SumBy(a, f) == SumBy(b, f)
  {
    if a == [] {
      assert |multiset(b)| == 0;
    } else {
      assert a[0] in multiset(b);
      var k: nat :| k < |b| && b[k] == a[0];
      RemoveMultiset(b, k);
      RemoveMultiset(a, 0);
      assert a[..0] + a[1..] == a[1..];
      SumByPermutation(a[1..], b[..k] + b[k + 1..], f);
      SumByRemove(b, k, f);
    }
  }

  lemma PermutationMembers<T(!new)>(a: seq<T>, b: seq<T>)
    requires multiset(a) == multiset(b)
    ensures forall x :: x in a <==> x in b
  {
    forall x
      ensures x in a <==> x in b
    {
      assert x in a <==> x in multiset(a);
      assert x in b <==> x in multiset(b);
    }
  }

  lemma {:induction false} DistinctCount<T(!new)>(s: seq<T>, x: T)
    requires Distinct(s)
    ensures multiset(s)[x] == if x in s then 1 else 0
  {
    if s != [] {
      assert s == [s[0]] + s[1..];
      DistinctCount(s[1..], x);
    }
  }

  /** Two sequences without repetitions and with the same members are permutations of each other. */
  lemma SameMembersSameMultiset<T(!new)>(a: seq<T>, b: seq<T>)
    requires Distinct(a) && Distinct(b)
    requires forall x :: x in a <==> x in b
    ensures multiset(a) == multiset(b)
    ensures |a| == |b|
  {
    forall x
      ensures multiset(a)[x] == multiset(b)[x]
    {
      DistinctCount(a, x);
      DistinctCount(b, x);
    }
    assert multiset(a) == multiset(b);
    assert |multiset(a)| == |a| && |multiset(b)| == |b|;
  }

  lemma {:induction false} PermutationDistinct<T(!new)>(a: seq<T>, b: seq<T>)
    requires multiset(a) == multiset(b)
    ensures Distinct(a) <==> Distinct(b)
  {
    if Distinct(a) {
      CountsDistinct(a, b);
    }
    if Distinct(b) {
      CountsDistinct(b, a);
    }
  }

  lemma CountsDistinct<T(!new)>(a: seq<T>, b: seq<T>)
    requires multiset(a) == multiset(b) && Distinct(a)
    ensures Distinct(b)
  {
    forall i, j | 0 <= i < j < |b|
      ensures b[i] != b[j]
    {
      if b[i] == b[j] {
        assert b == b[..j] + [b[j]] + b[j + 1..];
        assert b[i] in b[..j];
        assert multiset(b)[b[i]] >= 2;
        DistinctCount(a, b[i]);
        assert false;
      }
    }
  }

  /** In a sequence of distinct indices, exactly one term of an indicator sum is picked out. */
  lemma {:induction false} SumIndicator<T(!new)>(s: seq<T>, f: T -> int, x: T, v: int)
    requires Distinct(s)
    requires forall y | y in s :: f(y) == if y == x then v else 0
    ensures SumBy(s, f) == if x in s then v else 0
  {
    if s != [] {
      SumIndicator(s[1..], f, x, v);
    }
  }

  /** Keeps the first occurrence of every element. */
  function Unique<T(==)>(s: seq<T>): (u: seq<T>) {
    if s == [] then [] else
      var u := Unique(s[..|s| - 1]);
      var last := s[|s| - 1];
      if last in u then u else u + [last]
  }

  lemma {:induction false} UniqueMembers<T(!new)>(s: seq<T>)
    ensures Distinct(Unique(s))
    ensures forall x :: x in Unique(s) <==> x in s
    ensures |Unique(s)| <= |s|
    ensures |Unique(s)| == |s| ==> Unique(s) == s
  {
    if s != [] {
      UniqueMembers(s[..|s| - 1]);
      assert s == s[..|s| - 1] + [s[|s| - 1]];
    }
  }
}
