/** Facts about sequences that several modules need, none of them about the modelled
    program: sequences without repetition and the number of their elements, which
    elements a concatenation holds, and what stays when the last element is taken off. */
module Sequences {

  predicate Distinct<T(==)>(s: seq<T>) {
    forall i, j :: 0 <= i < j < |s| ==> s[i] != s[j]
  }

  function Elements<T>(s: seq<T>): set<T> {
    set x | x in s
  }

  lemma {:induction false} Regroup<T>(a: seq<T>, b: seq<T>, c: seq<T>)
    ensures (a + b) + c == a + (b + c)
  {
  }

  lemma {:induction false} ElementsCons<T>(x: T, s: seq<T>)
    ensures Elements([x] + s) == {x} + Elements(s)
  {
  }

  lemma {:induction false} DistinctCons<T>(x: T, s: seq<T>)
    ensures Distinct([x] + s) <==> Distinct(s) && x !in s
  {
    var t := [x] + s;
    assert forall i :: 0 <= i < |s| ==> t[i + 1] == s[i];
    if Distinct(t) {
      forall i, j | 0 <= i < j < |s| ensures s[i] != s[j] { assert t[i + 1] != t[j + 1]; }
      forall i | 0 <= i < |s| ensures s[i] != x { assert t[0] != t[i + 1]; }
    }
  }

  lemma {:induction false} DistinctAppend<T>(s: seq<T>, x: T)
    ensures Distinct(s + [x]) <==> Distinct(s) && x !in s
  {
    var t := s + [x];
    if Distinct(t) {
      forall i, j | 0 <= i < j < |s| ensures s[i] != s[j] { assert t[i] != t[j]; }
      forall i | 0 <= i < |s| ensures s[i] != x { assert t[i] != t[|s|]; }
    }
  }

  lemma {:induction false} SizeOfDistinct<T>(s: seq<T>)
    requires Distinct(s)
    ensures |Elements(s)| == |s|
  {
    if s == [] {
      assert Elements(s) == {};
    } else {
      assert s == [s[0]] + s[1..];
      DistinctCons(s[0], s[1..]);
      ElementsCons(s[0], s[1..]);
      SizeOfDistinct(s[1..]);
    }
  }

  lemma {:induction false} DistinctCounts<T>(s: seq<T>)
    ensures Distinct(s) <==> forall x :: x in s ==> multiset(s)[x] == 1
  {
    if s != [] {
      var first, rest := s[0], s[1..];
      assert s == [first] + rest;
      DistinctCons(first, rest);
      DistinctCounts(rest);
      assert multiset(s) == multiset{first} + multiset(rest);
      if Distinct(s) {
        forall x | x in s ensures multiset(s)[x] == 1 { assert x == first || x in rest; }
      } else if first in rest {
        assert multiset(s)[first] > 1;
      } else {
        var x :| x in rest && multiset(rest)[x] != 1;
        assert x in s && multiset(s)[x] != 1;
      }
    }
  }

  /** Distinctness does not depend on the order. */
  lemma {:induction false} ReorderedDistinct<T>(a: seq<T>, b: seq<T>)
    requires multiset(a) == multiset(b)
    ensures Distinct(a) <==> Distinct(b)
  {
    DistinctCounts(a);
    DistinctCounts(b);
    assert forall x :: x in a <==> x in multiset(a);
    assert forall x :: x in b <==> x in multiset(b);
  }
}
