/** `deduplicate_acls`: one sorted list for each set of rules, and why replacing a
    role's rules by that list keeps every decision. */
module RuleSets {
  import opened Sequences
  import opened Strings
  import opened Sorting
  import opened Policy

  /** The sort key: priority down, topic up, ACL type up. */
  predicate RuleLeq(a: Acl, b: Acl) {
    if a.priority != b.priority then a.priority > b.priority
    else if a.topic != b.topic then StrLeq(a.topic, b.topic)
    else StrLeq(a.acltype, b.acltype)
  }

  predicate SameKey(a: Acl, b: Acl) {
    a.priority == b.priority && a.topic == b.topic && a.acltype == b.acltype
  }

  /** The dictionary's values: the first of each group of equal rules. */
  function Unique<T(==)>(s: seq<T>): seq<T> {
    if s == [] then []
    else
      var front := Unique(s[..|s| - 1]);
      if s[|s| - 1] in front then front else front + [s[|s| - 1]]
  }

  function Deduplicated(acls: seq<Acl>): seq<Acl> {
    Sort(RuleLeq, Unique(acls))
  }

  /** `deduplicate_acls` */
  method Deduplicate(acls: seq<Acl>) returns (r: seq<Acl>)
    ensures r == Deduplicated(acls)
  {
    var unique: seq<Acl> := [];
    for i := 0 to |acls|
      invariant unique == Unique(acls[..i])
    {
      assert acls[..i + 1][..i] == acls[..i];
      if acls[i] !in unique { unique := unique + [acls[i]]; }
    }
    assert acls[..|acls|] == acls;
    r := Sort(RuleLeq, unique);
  }

  // ----- the order

  lemma {:induction false} RuleOrder()
    ensures TotalPreorder(RuleLeq)
    ensures forall a, b :: RuleLeq(a, b) && RuleLeq(b, a) <==> SameKey(a, b)
  {
    forall a: Acl, b: Acl ensures RuleLeq(a, b) || RuleLeq(b, a) {
      StrLeqTotal(a.topic, b.topic);
      StrLeqTotal(a.acltype, b.acltype);
    }
    forall a, b ensures RuleLeq(a, b) && RuleLeq(b, a) <==> SameKey(a, b) {
      StrLeqTotal(a.acltype, b.acltype);
      if RuleLeq(a, b) && RuleLeq(b, a) {
        if a.topic != b.topic { StrLeqAntisymmetric(a.topic, b.topic); }
        StrLeqAntisymmetric(a.acltype, b.acltype);
      }
    }
    forall a, b, c | RuleLeq(a, b) && RuleLeq(b, c) ensures RuleLeq(a, c) { RuleTransitive(a, b, c); }
  }

  lemma {:induction false} RuleTransitive(a: Acl, b: Acl, c: Acl)
    requires RuleLeq(a, b) && RuleLeq(b, c)
    ensures RuleLeq(a, c)
  {
    if a.priority == b.priority == c.priority {
      if a.topic == b.topic == c.topic {
        StrLeqTransitive(a.acltype, b.acltype, c.acltype);
      } else if a.topic != b.topic && b.topic != c.topic {
        StrLeqTransitive(a.topic, b.topic, c.topic);
        if a.topic == c.topic { StrLeqAntisymmetric(a.topic, b.topic); }
      }
    }
  }

  // ----- the same rules, once each

  lemma {:induction false} UniqueMembers<T>(s: seq<T>, x: T)
    ensures x in Unique(s) <==> x in s
  {
    if s != [] {
      UniqueMembers(s[..|s| - 1], x);
      assert s == s[..|s| - 1] + [s[|s| - 1]];
    }
  }

  lemma {:induction false} UniqueDistinct<T>(s: seq<T>)
    ensures Distinct(Unique(s))
  {
    if s != [] {
      var front := s[..|s| - 1];
      UniqueDistinct(front);
      DistinctAppend(Unique(front), s[|s| - 1]);
    }
  }

  lemma {:induction false} UniqueOfDistinct<T>(s: seq<T>)
    requires Distinct(s)
    ensures Unique(s) == s
  {
    if s != [] {
      var front := s[..|s| - 1];
      assert s == front + [s[|s| - 1]];
      DistinctAppend(front, s[|s| - 1]);
      UniqueOfDistinct(front);
    }
  }

  lemma {:induction false} UniqueKeepsFirst<T>(s: seq<T>)
    requires s != []
    ensures Unique(s) != [] && Unique(s)[0] == s[0]
  {
    if |s| > 1 { UniqueKeepsFirst(s[..|s| - 1]); }
  }

  /** The list has the same rules as the input. */
  lemma {:induction false} DeduplicatedMembers(acls: seq<Acl>)
    ensures SameMembers(Deduplicated(acls), acls)
  {
    SortMembers(RuleLeq, Unique(acls));
    forall x ensures x in Unique(acls) <==> x in acls { UniqueMembers(acls, x); }
  }

  ghost predicate StrictlySorted(s: seq<Acl>) {
    forall i, j :: 0 <= i < j < |s| ==> RuleLeq(s[i], s[j]) && !RuleLeq(s[j], s[i])
  }

  /** What parsing guarantees: the priority says whether a rule allows. */
  ghost predicate PriorityTellsAllow(acls: seq<Acl>) {
    forall a, b :: a in acls && b in acls && a.priority == b.priority ==> a.allow == b.allow
  }

  /** No two rules differ only in what they decide. */
  ghost predicate NoContradiction(acls: seq<Acl>) {
    forall a, b :: a in acls && b in acls && SameKey(a, b) ==> a == b
  }

  lemma {:induction false} InsertStrict(x: Acl, s: seq<Acl>)
    requires StrictlySorted(s) && forall i :: 0 <= i < |s| ==> !SameKey(x, s[i])
    ensures StrictlySorted(Insert(RuleLeq, x, s))
  {
    RuleOrder();
    if s == [] {
    } else if RuleLeq(x, s[0]) {
      forall j | 0 <= j < |s| ensures RuleLeq(x, s[j]) && !RuleLeq(s[j], x) {
        if j > 0 { RuleTransitive(x, s[0], s[j]); }
      }
    } else {
      var rest := Insert(RuleLeq, x, s[1..]);
      InsertStrict(x, s[1..]);
      InsertElements(RuleLeq, x, s[1..]);
      forall j | 0 <= j < |rest| ensures RuleLeq(s[0], rest[j]) && !RuleLeq(rest[j], s[0]) {
        assert rest[j] in multiset(rest);
        assert rest[j] == x || rest[j] in s[1..];
      }
    }
  }

  lemma {:induction false} SortStrict(s: seq<Acl>)
    requires forall i, j :: 0 <= i < j < |s| ==> !SameKey(s[i], s[j])
    ensures StrictlySorted(Sort(RuleLeq, s))
  {
    if s != [] {
      SortStrict(s[1..]);
      var rest := Sort(RuleLeq, s[1..]);
      SortMembers(RuleLeq, s[1..]);
      forall i | 0 <= i < |rest| ensures !SameKey(s[0], rest[i]) {
        assert rest[i] in rest;
        var j :| 0 <= j < |s[1..]| && s[1..][j] == rest[i];
        assert s[j + 1] == rest[i];
      }
      InsertStrict(s[0], rest);
    }
  }

  /** The sort key tells the rules of the result apart exactly when no two rules
      contradict each other. */
  lemma {:induction false} DeduplicatedStrict(acls: seq<Acl>)
    ensures StrictlySorted(Deduplicated(acls)) <==> NoContradiction(acls)
  {
    RuleOrder();
    DeduplicatedMembers(acls);
    if NoContradiction(acls) {
      var u := Unique(acls);
      UniqueDistinct(acls);
      forall i, j | 0 <= i < j < |u| ensures !SameKey(u[i], u[j]) {
        UniqueMembers(acls, u[i]);
        UniqueMembers(acls, u[j]);
      }
      SortStrict(u);
    }
    if StrictlySorted(Deduplicated(acls)) {
      forall a, b | a in acls && b in acls && SameKey(a, b) ensures a == b {
        assert a in Deduplicated(acls) && b in Deduplicated(acls);
      }
    }
  }

  lemma {:induction false} StrictlySortedIsUnique(a: seq<Acl>, b: seq<Acl>)
    requires StrictlySorted(a) && StrictlySorted(b) && SameMembers(a, b)
    ensures a == b
  {
    assert (a != [] ==> a[0] in a) && (b != [] ==> b[0] in b);
    if a != [] && b != [] {
      HeadsAgree(a, b);
      forall x ensures x in a[1..] <==> x in b[1..] {
        HeadNotInTail(a);
        HeadNotInTail(b);
        assert a == [a[0]] + a[1..] && b == [b[0]] + b[1..];
        assert x in a <==> x in b;
      }
      StrictlySortedIsUnique(a[1..], b[1..]);
    }
  }

  lemma {:induction false} HeadNotInTail(a: seq<Acl>)
    requires a != [] && StrictlySorted(a)
    ensures a[0] !in a[1..]
  {
    forall k | 0 <= k < |a[1..]| ensures a[1..][k] != a[0] {
      assert a[1..][k] == a[k + 1];
    }
  }

  lemma {:induction false} HeadsAgree(a: seq<Acl>, b: seq<Acl>)
    requires a != [] && b != [] && StrictlySorted(a) && StrictlySorted(b) && SameMembers(a, b)
    ensures a[0] == b[0]
  {
    assert a[0] in b && b[0] in a;
    var i :| 0 <= i < |a| && a[i] == b[0];
    var j :| 0 <= j < |b| && b[j] == a[0];
  }

  /** The list depends only on which rules there are: not on their order, nor on
      how often each was given. */
  lemma {:induction false} DeduplicatedIsCanonical(a: seq<Acl>, b: seq<Acl>)
    requires NoContradiction(a) && SameMembers(a, b)
    ensures Deduplicated(a) == Deduplicated(b)
  {
    DeduplicatedStrict(a);
    DeduplicatedStrict(b);
    DeduplicatedMembers(a);
    DeduplicatedMembers(b);
    StrictlySortedIsUnique(Deduplicated(a), Deduplicated(b));
  }

  lemma {:induction false} DeduplicatedIsIdempotent(a: seq<Acl>)
    ensures Deduplicated(Deduplicated(a)) == Deduplicated(a)
  {
    RuleOrder();
    UniqueDistinct(a);
    SortKeepsDistinct(RuleLeq, Unique(a));
    UniqueOfDistinct(Deduplicated(a));
    SortSorted(RuleLeq, Unique(a));
    SortOfSorted(RuleLeq, Deduplicated(a));
  }

  /** Of the rules with the key of the first one given, the first one given stays first. */
  lemma {:induction false} FirstOfItsKey(acls: seq<Acl>)
    requires acls != []
    ensures var ties := Filter(Ties(RuleLeq, acls[0]), Deduplicated(acls));
            ties != [] && ties[0] == acls[0]
  {
    RuleOrder();
    UniqueKeepsFirst(acls);
    SortStable(RuleLeq, Unique(acls), acls[0]);
  }

  lemma {:induction false} SameTies(a: Acl, b: Acl, s: seq<Acl>)
    requires SameKey(a, b)
    ensures Filter(Ties(RuleLeq, a), s) == Filter(Ties(RuleLeq, b), s)
  {
    RuleOrder();
    if s != [] { SameTies(a, b, s[1..]); }
  }

  /** Two rules that contradict each other come out in the order they came in. */
  lemma {:induction false} OrderShows(acls: seq<Acl>, a: Acl, b: Acl)
    requires a in acls && b in acls && SameKey(a, b) && a != b
    ensures SameMembers([a, b] + acls, acls) && SameMembers([b, a] + acls, acls)
    ensures Deduplicated([a, b] + acls) != Deduplicated([b, a] + acls)
  {
    FirstOfItsKey([a, b] + acls);
    FirstOfItsKey([b, a] + acls);
    SameTies(a, b, Deduplicated([b, a] + acls));
  }

  /** Every order and repetition of the input gives the same list. */
  ghost predicate OneResult(acls: seq<Acl>) {
    forall b, c :: SameMembers(acls, b) && SameMembers(acls, c) ==> Deduplicated(b) == Deduplicated(c)
  }

  /** The result is independent of the order of the input exactly when no two rules
      differ only in what they decide. */
  lemma {:induction false} OrderIsIrrelevantIff(acls: seq<Acl>)
    ensures OneResult(acls) <==> NoContradiction(acls)
  {
    if NoContradiction(acls) {
      forall b, c | SameMembers(acls, b) && SameMembers(acls, c) ensures Deduplicated(b) == Deduplicated(c) {
        DeduplicatedIsCanonical(acls, b);
        DeduplicatedIsCanonical(acls, c);
      }
    } else {
      var a, b :| a in acls && b in acls && SameKey(a, b) && a != b;
      OrderShows(acls, a, b);
      assert SameMembers(acls, [a, b] + acls) && SameMembers(acls, [b, a] + acls);
    }
  }

  /** The smallest such input: two rules that differ only in what they decide. */
  lemma {:induction false} OrderShowsWithoutGuarantee(acltype: string, topic: string, priority: int)
    ensures var yes, no := Acl(acltype, topic, true, priority), Acl(acltype, topic, false, priority);
            Deduplicated([yes, no]) == [yes, no] && Deduplicated([no, yes]) == [no, yes]
  {
    var yes, no := Acl(acltype, topic, true, priority), Acl(acltype, topic, false, priority);
    RuleOrder();
    forall a: Acl, b: Acl | a != b && RuleLeq(a, b) ensures Deduplicated([a, b]) == [a, b] {
      UniqueOfDistinct([a, b]);
      SortOfSorted(RuleLeq, [a, b]);
    }
  }

  /** The order of the result: priority down, then topic up, then type up. */
  lemma {:induction false} DeduplicatedOrder(acls: seq<Acl>, i: nat, j: nat)
    requires i < j < |Deduplicated(acls)|
    ensures var a, b := Deduplicated(acls)[i], Deduplicated(acls)[j];
            || a.priority > b.priority
            || (a.priority == b.priority && a.topic != b.topic && StrLeq(a.topic, b.topic))
            || (a.priority == b.priority && a.topic == b.topic && StrLeq(a.acltype, b.acltype))
  {
    RuleOrder();
    SortSorted(RuleLeq, Unique(acls));
  }

  // ----- decisions

  /** A role's rules are left alone, or reordered and repeated where the priority
      tells whether a rule allows. */
  ghost predicate Rearranged(before: seq<Acl>, after: seq<Acl>) {
    before == after || (SameMembers(before, after) && PriorityTellsAllow(before))
  }

  /** The same rule, at its place in the other state. */
  ghost predicate Moved(q: Query, r: Query, c: Check, i: int, i': int) {
    && Hit(q, c, i) && Hit(r, c, i')
    && RulesOfRole(q, c.role.name)[i] == RulesOfRole(r, c.role.name)[i']
    && (RulesOfRole(q, c.role.name) == RulesOfRole(r, c.role.name) ==> i == i')
  }

  /** Two states whose roles hold the same rules, rearranged only where the priority
      tells whether a rule allows, give every request the same decision. */
  lemma {:induction false} SameRulesSameDecision(q: Query, r: Query)
    requires SameRequest(q, r) && q.client == r.client && q.groups == r.groups
    requires forall role :: Rearranged(RulesOfRole(q, role), RulesOfRole(r, role))
    ensures Evaluate(q).allow == Evaluate(r).allow
  {
    EvaluateDecides(q);
    EvaluateDecides(r);
    if Evaluate(q).ByRule? {
      var c, i :| Best(q, c, i) && Evaluate(q) == RuleVerdict(c, RulesOfRole(q, c.role.name)[i]);
      HitMoves(q, r, c, i);
      var i' :| Moved(q, r, c, i, i');
      var d, j :| Best(r, d, j) && Evaluate(r) == RuleVerdict(d, RulesOfRole(r, d.role.name)[j]);
      HitMoves(r, q, d, j);
      var j' :| Moved(r, q, d, j, j');
      BestOnBothSides(q, r, c, i, i', d, j, j');
    } else if Evaluate(r).ByRule? {
      var d, j :| Best(r, d, j) && Evaluate(r) == RuleVerdict(d, RulesOfRole(r, d.role.name)[j]);
      HitMoves(r, q, d, j);
    }
  }

  lemma {:induction false} HitMoves(q: Query, r: Query, c: Check, i: int)
    requires SameRequest(q, r) && q.client == r.client && q.groups == r.groups
    requires var a, b := RulesOfRole(q, c.role.name), RulesOfRole(r, c.role.name);
             Rearranged(a, b) || Rearranged(b, a)
    requires Hit(q, c, i)
    ensures exists i' :: Moved(q, r, c, i, i')
  {
    var mine, others := RulesOfRole(q, c.role.name), RulesOfRole(r, c.role.name);
    if mine == others {
      assert Moved(q, r, c, i, i);
    } else {
      assert mine[i] in others;
      var i' :| 0 <= i' < |others| && others[i'] == mine[i];
      assert Moved(q, r, c, i, i');
    }
  }

  lemma {:induction false} BestOnBothSides(q: Query, r: Query, c: Check, i: int, i': int, d: Check, j: int, j': int)
    requires Rearranged(RulesOfRole(q, c.role.name), RulesOfRole(r, c.role.name))
    requires Best(q, c, i) && Moved(q, r, c, i, i')
    requires Best(r, d, j) && Moved(r, q, d, j, j')
    ensures RulesOfRole(q, c.role.name)[i].allow == RulesOfRole(r, d.role.name)[j].allow
  {
    if c != d {
      assert Before(q, c, i, d, j') && Before(r, d, j, c, i');
      CheckOrder(c, d);
    } else {
      var a, b := RulesOfRole(q, c.role.name)[i], RulesOfRole(q, c.role.name)[j'];
      assert j' == i || Before(q, c, i, d, j');
      assert i' == j || Before(r, d, j, c, i');
      assert a.priority == b.priority;
    }
  }

  /** Deduplicating the rules of a role keeps every decision, whatever the other roles
      hold. */
  lemma {:induction false} DeduplicationKeepsDecisions(q: Query, role: string)
    requires role in q.roles && PriorityTellsAllow(q.roles[role])
    ensures Evaluate(q).allow == Evaluate(q.(roles := q.roles[role := Deduplicated(q.roles[role])])).allow
  {
    DeduplicatedMembers(q.roles[role]);
    SameRulesSameDecision(q, q.(roles := q.roles[role := Deduplicated(q.roles[role])]));
  }
}
