/** Python's `sorted`: a stable sort, by an order that is total but may tie. The
    first element of the sorted list that passes a test leads all that pass it: by
    the order, and among ties by position. */
module Sorting {
  import opened Results
  import opened Sequences

  ghost predicate TotalPreorder<T(!new)>(leq: (T, T) -> bool) {
    && (forall x, y :: leq(x, y) || leq(y, x))
    && (forall x, y, z :: leq(x, y) && leq(y, z) ==> leq(x, z))
  }

  predicate Sorted<T>(leq: (T, T) -> bool, s: seq<T>) {
    forall i, j :: 0 <= i < j < |s| ==> leq(s[i], s[j])
  }

  function Insert<T>(leq: (T, T) -> bool, x: T, s: seq<T>): seq<T> {
    if s == [] || leq(x, s[0]) then [x] + s else [s[0]] + Insert(leq, x, s[1..])
  }

  /** An element goes in front of the later ones it ties with. */
  function Sort<T>(leq: (T, T) -> bool, s: seq<T>): seq<T> {
    if s == [] then [] else Insert(leq, s[0], Sort(leq, s[1..]))
  }

  function Filter<T>(p: T -> bool, s: seq<T>): seq<T> {
    if s == [] then [] else if p(s[0]) then [s[0]] + Filter(p, s[1..]) else Filter(p, s[1..])
  }

  function First<T>(p: T -> bool, s: seq<T>): Option<T> {
    if s == [] then None else if p(s[0]) then Some(s[0]) else First(p, s[1..])
  }

  // ----- the result is sorted and has the same elements

  lemma {:induction false} InsertElements<T>(leq: (T, T) -> bool, x: T, s: seq<T>)
    ensures multiset(Insert(leq, x, s)) == multiset{x} + multiset(s)
  {
    if s != [] && !leq(x, s[0]) {
      InsertElements(leq, x, s[1..]);
      assert s == [s[0]] + s[1..];
    }
  }

  lemma {:induction false} SortElements<T>(leq: (T, T) -> bool, s: seq<T>)
    ensures multiset(Sort(leq, s)) == multiset(s)
  {
    if s != [] {
      SortElements(leq, s[1..]);
      InsertElements(leq, s[0], Sort(leq, s[1..]));
      assert s == [s[0]] + s[1..];
    }
  }

  lemma {:induction false} SortMembers<T>(leq: (T, T) -> bool, s: seq<T>)
    ensures forall x :: x in Sort(leq, s) <==> x in s
  {
    SortElements(leq, s);
    assert forall x :: x in Sort(leq, s) <==> x in multiset(Sort(leq, s));
  }

  lemma {:induction false} SortKeepsDistinct<T>(leq: (T, T) -> bool, s: seq<T>)
    ensures Distinct(Sort(leq, s)) <==> Distinct(s)
  {
    SortElements(leq, s);
    ReorderedDistinct(Sort(leq, s), s);
  }

  lemma {:induction false} SortedAppend<T>(leq: (T, T) -> bool, s: seq<T>, x: T)
    ensures Sorted(leq, s + [x]) <==> Sorted(leq, s) && forall i :: 0 <= i < |s| ==> leq(s[i], x)
  {
    var t := s + [x];
    assert forall i :: 0 <= i < |s| ==> t[i] == s[i];
    if Sorted(leq, t) {
      forall i, j | 0 <= i < j < |s| ensures leq(s[i], s[j]) { assert leq(t[i], t[j]); }
      forall i | 0 <= i < |s| ensures leq(s[i], x) { assert leq(t[i], t[|s|]); }
    }
  }

  lemma {:induction false} InsertSorted<T(!new)>(leq: (T, T) -> bool, x: T, s: seq<T>)
    requires TotalPreorder(leq) && Sorted(leq, s)
    ensures Sorted(leq, Insert(leq, x, s))
  {
    if s == [] {
    } else if leq(x, s[0]) {
      forall j | 0 <= j < |s| ensures leq(x, s[j]) {
        if j > 0 { assert leq(s[0], s[j]); }
      }
    } else {
      InsertSorted(leq, x, s[1..]);
      var rest := Insert(leq, x, s[1..]);
      InsertElements(leq, x, s[1..]);
      forall j | 0 <= j < |rest| ensures leq(s[0], rest[j]) {
        assert rest[j] in multiset(rest);
        assert rest[j] == x || rest[j] in s[1..];
      }
    }
  }

  lemma {:induction false} SortSorted<T(!new)>(leq: (T, T) -> bool, s: seq<T>)
    requires TotalPreorder(leq)
    ensures Sorted(leq, Sort(leq, s))
  {
    if s != [] {
      SortSorted(leq, s[1..]);
      InsertSorted(leq, s[0], Sort(leq, s[1..]));
    }
  }

  // ----- stability: the elements that tie with one another keep their order

  function Ties<T>(leq: (T, T) -> bool, x: T): T -> bool {
    y => leq(x, y) && leq(y, x)
  }

  lemma {:induction false} InsertStable<T(!new)>(leq: (T, T) -> bool, x: T, s: seq<T>, y: T)
    requires TotalPreorder(leq)
    ensures Filter(Ties(leq, y), Insert(leq, x, s)) == Filter(Ties(leq, y), [x] + s)
  {
    var p := Ties(leq, y);
    assert ([x] + s)[1..] == s;
    if s != [] && !leq(x, s[0]) {
      InsertStable(leq, x, s[1..], y);
      assert ([x] + s[1..])[1..] == s[1..];
      assert ([s[0]] + Insert(leq, x, s[1..]))[1..] == Insert(leq, x, s[1..]);
      assert !(p(x) && p(s[0]));
    }
  }

  lemma {:induction false} SortStable<T(!new)>(leq: (T, T) -> bool, s: seq<T>, y: T)
    requires TotalPreorder(leq)
    ensures Filter(Ties(leq, y), Sort(leq, s)) == Filter(Ties(leq, y), s)
  {
    if s != [] {
      var sorted := Sort(leq, s[1..]);
      SortStable(leq, s[1..], y);
      InsertStable(leq, s[0], sorted, y);
      assert ([s[0]] + sorted)[1..] == sorted;
    }
  }

  lemma {:induction false} FilterMembers<T>(p: T -> bool, s: seq<T>, x: T)
    ensures x in Filter(p, s) <==> x in s && p(x)
  {
    if s != [] {
      FilterMembers(p, s[1..], x);
      assert s == [s[0]] + s[1..];
    }
  }

  /** A sorted list is determined by the order within each class of ties. */
  lemma {:induction false} SortedByClasses<T(!new)>(leq: (T, T) -> bool, a: seq<T>, b: seq<T>)
    requires TotalPreorder(leq) && Sorted(leq, a) && Sorted(leq, b)
    requires forall y :: Filter(Ties(leq, y), a) == Filter(Ties(leq, y), b)
    ensures a == b
  {
    if a == [] || b == [] {
      if a != [] { FilterMembers(Ties(leq, a[0]), a, a[0]); }
      if b != [] { FilterMembers(Ties(leq, b[0]), b, b[0]); }
    } else {
      FilterMembers(Ties(leq, a[0]), a, a[0]);
      FilterMembers(Ties(leq, a[0]), b, a[0]);
      FilterMembers(Ties(leq, b[0]), a, b[0]);
      FilterMembers(Ties(leq, b[0]), b, b[0]);
      assert leq(a[0], b[0]) && leq(b[0], a[0]);
      assert Filter(Ties(leq, a[0]), a)[0] == a[0] && Filter(Ties(leq, a[0]), b)[0] == b[0];
      forall y ensures Filter(Ties(leq, y), a[1..]) == Filter(Ties(leq, y), b[1..]) {
        var p := Ties(leq, y);
        assert Filter(p, a) == Filter(p, b);
        if p(a[0]) {
          assert Filter(p, a)[1..] == Filter(p, a[1..]) && Filter(p, b)[1..] == Filter(p, b[1..]);
        }
      }
      SortedByClasses(leq, a[1..], b[1..]);
    }
  }

  /** Two lists that agree within each class of ties sort to the same list. */
  lemma {:induction false} SortCanonical<T(!new)>(leq: (T, T) -> bool, a: seq<T>, b: seq<T>)
    requires TotalPreorder(leq)
    requires forall y :: Filter(Ties(leq, y), a) == Filter(Ties(leq, y), b)
    ensures Sort(leq, a) == Sort(leq, b)
  {
    SortSorted(leq, a);
    SortSorted(leq, b);
    forall y ensures Filter(Ties(leq, y), Sort(leq, a)) == Filter(Ties(leq, y), Sort(leq, b)) {
      SortStable(leq, a, y);
      SortStable(leq, b, y);
    }
    SortedByClasses(leq, Sort(leq, a), Sort(leq, b));
  }

  /** Sorting leaves a sorted list as it is. */
  lemma {:induction false} SortOfSorted<T(!new)>(leq: (T, T) -> bool, s: seq<T>)
    requires TotalPreorder(leq) && Sorted(leq, s)
    ensures Sort(leq, s) == s
  {
    SortSorted(leq, s);
    forall y ensures Filter(Ties(leq, y), Sort(leq, s)) == Filter(Ties(leq, y), s) { SortStable(leq, s, y); }
    SortedByClasses(leq, Sort(leq, s), s);
  }

  // ----- the first accepted element of a sorted list

  lemma {:induction false} FirstFound<T>(p: T -> bool, s: seq<T>)
    ensures match First(p, s)
            case Some(x) => x in s && p(x)
            case None => forall x :: x in s ==> !p(x)
  {
    if s != [] && !p(s[0]) { FirstFound(p, s[1..]); }
  }

  lemma {:induction false} FirstOfInsert<T(!new)>(leq: (T, T) -> bool, p: T -> bool, x: T, s: seq<T>)
    requires TotalPreorder(leq) && Sorted(leq, s)
    ensures var f := First(p, s);
            First(p, Insert(leq, x, s)) ==
            if p(x) && (f == None || leq(x, f.value)) then Some(x) else f
  {
    FirstFound(p, s);
    if s == [] || leq(x, s[0]) {
      assert ([x] + s)[1..] == s;
      if First(p, s).Some? {
        var j :| 0 <= j < |s| && s[j] == First(p, s).value;
        assert leq(s[0], s[j]);
      }
    } else {
      FirstOfInsert(leq, p, x, s[1..]);
      assert ([s[0]] + Insert(leq, x, s[1..]))[1..] == Insert(leq, x, s[1..]);
    }
  }

  /** `s[i]` is accepted and every other accepted element comes after it, by the
      order or, on a tie, by position. */
  ghost predicate Leads<T>(leq: (T, T) -> bool, p: T -> bool, s: seq<T>, i: int) {
    && 0 <= i < |s| && p(s[i])
    && forall j :: 0 <= j < |s| && p(s[j]) ==> leq(s[i], s[j]) && (leq(s[j], s[i]) ==> i <= j)
  }

  /** The first element of the sorted, filtered list that `p` accepts leads all
      elements of the original list that pass both tests. */
  lemma {:induction false} FirstLeads<T(!new)>(
    leq: (T, T) -> bool, keep: T -> bool, p: T -> bool, both: T -> bool, s: seq<T>)
    requires TotalPreorder(leq) && forall x :: both(x) <==> keep(x) && p(x)
    ensures var f := First(p, Sort(leq, Filter(keep, s)));
            if f == None then forall j :: 0 <= j < |s| ==> !both(s[j])
            else exists i :: Leads(leq, both, s, i) && s[i] == f.value
  {
    if s != [] {
      var rest := Sort(leq, Filter(keep, s[1..]));
      var f := First(p, rest);
      FirstLeads(leq, keep, p, both, s[1..]);
      if keep(s[0]) {
        SortSorted(leq, Filter(keep, s[1..]));
        FirstOfInsert(leq, p, s[0], rest);
        assert ([s[0]] + Filter(keep, s[1..]))[1..] == Filter(keep, s[1..]);
      }
      if f.Some? {
        var k :| Leads(leq, both, s[1..], k) && s[1..][k] == f.value;
        if both(s[0]) && leq(s[0], f.value) {
          assert Leads(leq, both, s, 0);
        } else {
          assert Leads(leq, both, s, k + 1);
        }
      } else if both(s[0]) {
        assert Leads(leq, both, s, 0);
      }
    }
  }
}
