/** `evaluate_permission`: the roles of a client and of its groups, put in order of
    priority, and the first access rule in that order that matches. */
module Policy {
  import opened Results
  import opened Strings
  import opened Sorting
  import opened TopicFilter

  // A key that is missing from a Python dictionary is represented by the value
  // the code falls back to: priority -1, an empty name, no roles, not allowed.

  datatype Acl = Acl(acltype: string, topic: string, allow: bool, priority: int)

  datatype Assignment = Assignment(name: string, priority: int)

  datatype Client = Client(roles: seq<Assignment>, groups: seq<Assignment>)

  datatype Query = Query(
    client: Client,
    groups: map<string, seq<Assignment>>,  // the roles of each group
    roles: map<string, seq<Acl>>,          // the rules of each role
    username: string,
    clientid: string,
    topic: string,
    action: string,
    defaults: map<string, bool>)

  datatype Source = FromClient | FromGroup

  /** One entry of `role_checks`, with the priority of the group it came through. */
  datatype Check = Check(source: Source, groupPriority: int, sourceName: string, role: Assignment)

  datatype Verdict =
    | ByRule(allow: bool, rule: Acl, source: Source, sourceName: string, role: string, rolePriority: int)
    | ByDefault(allow: bool, key: string)

  predicate AssignmentLeq(a: Assignment, b: Assignment) {
    a.priority > b.priority || (a.priority == b.priority && StrLeq(a.name, b.name))
  }

  predicate AclLeq(a: Acl, b: Acl) {
    a.priority >= b.priority
  }

  function RolesOfGroup(q: Query, name: string): seq<Assignment> {
    if name in q.groups then q.groups[name] else []
  }

  function RulesOfRole(q: Query, name: string): seq<Acl> {
    if name in q.roles then q.roles[name] else []
  }

  predicate IsLiteral(action: string) {
    action == "subscribeLiteral" || action == "unsubscribeLiteral"
  }

  function DefaultKey(action: string): string {
    if "subscribe" <= action then "subscribe" else if "unsubscribe" <= action then "unsubscribe" else action
  }

  function DefaultVerdict(q: Query): Verdict {
    var key := DefaultKey(q.action);
    ByDefault(key in q.defaults && q.defaults[key], key)
  }

  function RuleVerdict(c: Check, rule: Acl): Verdict {
    ByRule(rule.allow, rule, c.source, c.sourceName, c.role.name, c.role.priority)
  }

  // ----- the result, stated without any order of evaluation

  /** The roles a client has, directly or through a group. */
  ghost predicate Reachable(q: Query, c: Check) {
    match c.source
    case FromClient => c.groupPriority == 0 && c.sourceName == q.username && c.role in q.client.roles
    case FromGroup =>
      Assignment(c.sourceName, c.groupPriority) in q.client.groups && c.role in RolesOfGroup(q, c.sourceName)
  }

  function HasType(action: string): Acl -> bool {
    (rule: Acl) => rule.acltype == action
  }

  function MatchesTopic(q: Query): Acl -> bool {
    (rule: Acl) => Admits(rule.topic, q.topic, q.username, q.clientid, IsLiteral(q.action))
  }

  function Applies(q: Query): Acl -> bool {
    (rule: Acl) =>
      rule.acltype == q.action && Admits(rule.topic, q.topic, q.username, q.clientid, IsLiteral(q.action))
  }

  /** Rule `i` of a reachable role has the asked type and matches. */
  ghost predicate Hit(q: Query, c: Check, i: int) {
    && Reachable(q, c)
    && 0 <= i < |RulesOfRole(q, c.role.name)|
    && Applies(q)(RulesOfRole(q, c.role.name)[i])
  }

  /** Client before group; group priority down, group name up; role priority down,
      role name up. */
  predicate CheckLeq(a: Check, b: Check) {
    if a.source != b.source then a.source == FromClient
    else if a.groupPriority != b.groupPriority then a.groupPriority > b.groupPriority
    else if a.sourceName != b.sourceName then StrLeq(a.sourceName, b.sourceName)
    else if a.role.priority != b.role.priority then a.role.priority > b.role.priority
    else StrLeq(a.role.name, b.role.name)
  }

  /** The order of rules: by role, then rule priority down, then list position up. */
  ghost predicate Before(q: Query, c: Check, i: int, d: Check, j: int)
    requires Hit(q, c, i) && Hit(q, d, j)
  {
    if c != d then CheckLeq(c, d)
    else
      var rules := RulesOfRole(q, c.role.name);
      rules[i].priority > rules[j].priority || (rules[i].priority == rules[j].priority && i < j)
  }

  ghost predicate Best(q: Query, c: Check, i: int) {
    Hit(q, c, i) && forall d, j :: Hit(q, d, j) && (d != c || j != i) ==> Before(q, c, i, d, j)
  }

  /** A best rule decides; the default does when nothing hits. */
  ghost predicate Decides(q: Query, v: Verdict) {
    match v
    case ByRule(_, _, _, _, _, _) =>
      exists c, i :: Best(q, c, i) && v == RuleVerdict(c, RulesOfRole(q, c.role.name)[i])
    case ByDefault(_, _) => v == DefaultVerdict(q) && forall c, i :: !Hit(q, c, i)
  }

  // ----- the same, spelled out

  /** A role counts when the client has it, or one of the client's groups, which must
      exist, has it. */
  lemma {:induction false} ReachableIff(q: Query, groupPriority: int, name: string, role: Assignment)
    ensures Reachable(q, Check(FromClient, 0, q.username, role)) <==> role in q.client.roles
    ensures Reachable(q, Check(FromGroup, groupPriority, name, role)) <==>
            Assignment(name, groupPriority) in q.client.groups && name in q.groups && role in q.groups[name]
  {
  }

  /** A rule counts when its role is reachable and exists, it has the asked type, and its
      filter admits the topic: literally, for the two literal types. */
  lemma {:induction false} HitIff(q: Query, c: Check, i: int)
    ensures Hit(q, c, i) <==>
            && Reachable(q, c) && c.role.name in q.roles && 0 <= i < |q.roles[c.role.name]|
            && q.roles[c.role.name][i].acltype == q.action
            && Admits(q.roles[c.role.name][i].topic, q.topic, q.username, q.clientid,
                      q.action == "subscribeLiteral" || q.action == "unsubscribeLiteral")
  {
  }

  /** What the verdict reports of the best rule, and of the default. */
  lemma {:induction false} VerdictSpelledOut(q: Query, c: Check, i: int)
    ensures Best(q, c, i) ==>
              var rule, v := q.roles[c.role.name][i], Evaluate(q);
              v == ByRule(rule.allow, rule, c.source, c.sourceName, c.role.name, c.role.priority)
    ensures (forall d, j :: !Hit(q, d, j)) ==>
              var key := DefaultKey(q.action);
              Evaluate(q) == ByDefault(key in q.defaults && q.defaults[key], key)
  {
    EvaluateDecides(q);
    if Best(q, c, i) {
      assert Decides(q, RuleVerdict(c, RulesOfRole(q, c.role.name)[i]));
      DecidesIsUnique(q, Evaluate(q), RuleVerdict(c, RulesOfRole(q, c.role.name)[i]));
    }
  }

  /** The default that stands for each type of access. */
  lemma {:induction false} DefaultOfType()
    ensures DefaultKey("publishClientSend") == "publishClientSend"
    ensures DefaultKey("publishClientReceive") == "publishClientReceive"
    ensures DefaultKey("subscribeLiteral") == "subscribe" == DefaultKey("subscribePattern")
    ensures DefaultKey("unsubscribeLiteral") == "unsubscribe" == DefaultKey("unsubscribePattern")
  {
    assert "publishClientSend"[0] == 'p' == "publishClientReceive"[0];
    assert "unsubscribeLiteral"[0] == 'u' == "unsubscribePattern"[0] && "subscribe"[0] == 's';
    assert "subscribeLiteral"[..9] == "subscribe" == "subscribePattern"[..9];
    assert "unsubscribeLiteral"[..11] == "unsubscribe" == "unsubscribePattern"[..11];
  }

  // ----- the orders

  lemma {:induction false} AssignmentOrder()
    ensures TotalPreorder(AssignmentLeq)
    ensures forall a, b :: AssignmentLeq(a, b) && AssignmentLeq(b, a) ==> a == b
  {
    forall a: Assignment, b: Assignment ensures AssignmentLeq(a, b) || AssignmentLeq(b, a) {
      StrLeqTotal(a.name, b.name);
    }
    forall a, b | AssignmentLeq(a, b) && AssignmentLeq(b, a) ensures a == b {
      StrLeqAntisymmetric(a.name, b.name);
    }
    forall a, b, c | AssignmentLeq(a, b) && AssignmentLeq(b, c) ensures AssignmentLeq(a, c) {
      if a.priority == b.priority == c.priority { StrLeqTransitive(a.name, b.name, c.name); }
    }
  }

  lemma {:induction false} CheckOrder(a: Check, b: Check)
    ensures CheckLeq(a, b) && CheckLeq(b, a) ==> a == b
  {
    AssignmentOrder();
    if StrLeq(a.sourceName, b.sourceName) && StrLeq(b.sourceName, a.sourceName) {
      StrLeqAntisymmetric(a.sourceName, b.sourceName);
    }
    if StrLeq(a.role.name, b.role.name) && StrLeq(b.role.name, a.role.name) {
      StrLeqAntisymmetric(a.role.name, b.role.name);
    }
  }

  /** No two rules are best. */
  lemma {:induction false} BestIsUnique(q: Query, c: Check, i: int, d: Check, j: int)
    requires Best(q, c, i) && Best(q, d, j)
    ensures c == d && i == j
  {
    CheckOrder(c, d);
  }

  lemma {:induction false} DecidesIsUnique(q: Query, v: Verdict, w: Verdict)
    requires Decides(q, v) && Decides(q, w)
    ensures v == w
  {
    if v.ByRule? {
      var c, i :| Best(q, c, i) && v == RuleVerdict(c, RulesOfRole(q, c.role.name)[i]);
      assert Hit(q, c, i);
      var d, j :| Best(q, d, j) && w == RuleVerdict(d, RulesOfRole(q, d.role.name)[j]);
      BestIsUnique(q, c, i, d, j);
    }
  }

  // ----- the order of evaluation

  function RoleChecks(source: Source, priority: int, name: string, roles: seq<Assignment>): seq<Check> {
    seq(|roles|, i requires 0 <= i < |roles| => Check(source, priority, name, roles[i]))
  }

  function GroupChecks(q: Query, groups: seq<Assignment>): seq<Check> {
    if groups == [] then []
    else
      RoleChecks(FromGroup, groups[0].priority, groups[0].name,
                 Sort(AssignmentLeq, RolesOfGroup(q, groups[0].name)))
      + GroupChecks(q, groups[1..])
  }

  function Checks(q: Query): seq<Check> {
    RoleChecks(FromClient, 0, q.username, Sort(AssignmentLeq, q.client.roles))
    + GroupChecks(q, Sort(AssignmentLeq, q.client.groups))
  }

  function Relevant(q: Query, role: string): seq<Acl> {
    Sort(AclLeq, Filter(HasType(q.action), RulesOfRole(q, role)))
  }

  function FirstVerdict(q: Query, checks: seq<Check>): Verdict {
    if checks == [] then DefaultVerdict(q)
    else match First(MatchesTopic(q), Relevant(q, checks[0].role.name))
      case Some(rule) => RuleVerdict(checks[0], rule)
      case None => FirstVerdict(q, checks[1..])
  }

  function Evaluate(q: Query): Verdict {
    FirstVerdict(q, Checks(q))
  }

  lemma {:induction false} GroupChecksReach(q: Query, groups: seq<Assignment>, c: Check)
    ensures c in GroupChecks(q, groups) <==>
            (c.source == FromGroup && Assignment(c.sourceName, c.groupPriority) in groups
             && c.role in RolesOfGroup(q, c.sourceName))
  {
    if groups != [] {
      var g := groups[0];
      var sorted := Sort(AssignmentLeq, RolesOfGroup(q, g.name));
      SortMembers(AssignmentLeq, RolesOfGroup(q, g.name));
      RoleChecksMembers(FromGroup, g.priority, g.name, sorted, c);
      GroupChecksReach(q, groups[1..], c);
      assert Assignment(c.sourceName, c.groupPriority) in groups <==>
             Assignment(c.sourceName, c.groupPriority) == g || Assignment(c.sourceName, c.groupPriority) in groups[1..];
    }
  }

  lemma {:induction false} RoleChecksMembers(
      source: Source, priority: int, name: string, roles: seq<Assignment>, c: Check)
    ensures c in RoleChecks(source, priority, name, roles) <==>
            (c.source == source && c.groupPriority == priority && c.sourceName == name && c.role in roles)
  {
    var checks := RoleChecks(source, priority, name, roles);
    if c.source == source && c.groupPriority == priority && c.sourceName == name && c.role in roles {
      var i :| 0 <= i < |roles| && roles[i] == c.role;
      assert checks[i] == c;
    }
  }

  /** The evaluation visits exactly the reachable roles. */
  lemma {:induction false} ChecksReach(q: Query, c: Check)
    ensures c in Checks(q) <==> Reachable(q, c)
  {
    RoleChecksMembers(FromClient, 0, q.username, Sort(AssignmentLeq, q.client.roles), c);
    SortMembers(AssignmentLeq, q.client.roles);
    GroupChecksReach(q, Sort(AssignmentLeq, q.client.groups), c);
    SortMembers(AssignmentLeq, q.client.groups);
  }

  lemma {:induction false} RoleChecksSorted(source: Source, priority: int, name: string, roles: seq<Assignment>)
    ensures Sorted(CheckLeq, RoleChecks(source, priority, name, Sort(AssignmentLeq, roles)))
  {
    AssignmentOrder();
    SortSorted(AssignmentLeq, roles);
  }

  /** In order, where a role may come again that has been visited before: a group
      granted twice repeats its roles. */
  ghost predicate VisitsInOrder(checks: seq<Check>) {
    forall i, j :: 0 <= i < j < |checks| ==> CheckLeq(checks[i], checks[j]) || checks[j] in checks[..i]
  }

  lemma {:induction false} VisitsConcat(a: seq<Check>, b: seq<Check>)
    requires VisitsInOrder(a) && VisitsInOrder(b)
    requires forall i, j :: 0 <= i < |a| && 0 <= j < |b| ==> CheckLeq(a[i], b[j]) || b[j] in a[..i]
    ensures VisitsInOrder(a + b)
  {
    var c := a + b;
    forall i, j | 0 <= i < j < |c| ensures CheckLeq(c[i], c[j]) || c[j] in c[..i] {
      if j < |a| {
        assert c[..i] == a[..i];
      } else if i < |a| {
        assert c[..i] == a[..i];
      } else {
        assert c[..i] == a + b[..i - |a|];
      }
    }
  }

  lemma {:induction false} GroupChecksInOrder(q: Query, groups: seq<Assignment>)
    requires Sorted(AssignmentLeq, groups)
    ensures VisitsInOrder(GroupChecks(q, groups))
  {
    if groups != [] {
      var g, rest := groups[0], GroupChecks(q, groups[1..]);
      var mine := RoleChecks(FromGroup, g.priority, g.name, Sort(AssignmentLeq, RolesOfGroup(q, g.name)));
      RoleChecksSorted(FromGroup, g.priority, g.name, RolesOfGroup(q, g.name));
      GroupChecksInOrder(q, groups[1..]);
      forall i, j | 0 <= i < |mine| && 0 <= j < |rest| ensures CheckLeq(mine[i], rest[j]) || rest[j] in mine[..i] {
        AfterGroup(q, groups, mine[i], rest[j]);
        if !CheckLeq(mine[i], rest[j]) {
          var k := VisitedAgain(q, groups, mine, rest[j]);
          StrLeqTotal(mine[i].role.name, mine[i].role.name);
          assert mine[..i][k] == rest[j];
        }
      }
      VisitsConcat(mine, rest);
    }
  }

  /** A role of a later listing of the first group has been visited with that group. */
  lemma {:induction false} VisitedAgain(q: Query, groups: seq<Assignment>, mine: seq<Check>, d: Check) returns (k: nat)
    requires groups != [] && d in GroupChecks(q, groups[1..])
    requires d.groupPriority == groups[0].priority && d.sourceName == groups[0].name
    requires mine == RoleChecks(FromGroup, groups[0].priority, groups[0].name,
                                Sort(AssignmentLeq, RolesOfGroup(q, groups[0].name)))
    ensures k < |mine| && mine[k] == d
  {
    var g := groups[0];
    SortMembers(AssignmentLeq, RolesOfGroup(q, g.name));
    GroupChecksReach(q, groups[1..], d);
    RoleChecksMembers(FromGroup, g.priority, g.name, Sort(AssignmentLeq, RolesOfGroup(q, g.name)), d);
    k :| 0 <= k < |mine| && mine[k] == d;
  }

  /** A role of the first group comes before every role of a later one, unless the
      same group is listed twice. */
  lemma {:induction false} AfterGroup(q: Query, groups: seq<Assignment>, c: Check, d: Check)
    requires groups != [] && Sorted(AssignmentLeq, groups)
    requires c.source == FromGroup && c.groupPriority == groups[0].priority && c.sourceName == groups[0].name
    requires d in GroupChecks(q, groups[1..])
    ensures CheckLeq(c, d) || (c.groupPriority == d.groupPriority && c.sourceName == d.sourceName)
  {
    GroupChecksReach(q, groups[1..], d);
    assert AssignmentLeq(groups[0], Assignment(d.sourceName, d.groupPriority));
  }

  lemma {:induction false} ChecksInOrder(q: Query)
    ensures VisitsInOrder(Checks(q))
  {
    var own := RoleChecks(FromClient, 0, q.username, Sort(AssignmentLeq, q.client.roles));
    var groups := Sort(AssignmentLeq, q.client.groups);
    RoleChecksSorted(FromClient, 0, q.username, q.client.roles);
    AssignmentOrder();
    SortSorted(AssignmentLeq, q.client.groups);
    GroupChecksInOrder(q, groups);
    forall i, j | 0 <= i < |own| && 0 <= j < |GroupChecks(q, groups)|
      ensures CheckLeq(own[i], GroupChecks(q, groups)[j])
    {
      GroupChecksReach(q, groups, GroupChecks(q, groups)[j]);
    }
    VisitsConcat(own, GroupChecks(q, groups));
  }

  // ----- the first rule found is the best one

  /** Rule `i` of the role has the type, matches, and leads the other such rules. */
  ghost predicate LeadsRole(q: Query, role: string, i: int) {
    Leads(AclLeq, Applies(q), RulesOfRole(q, role), i)
  }

  lemma {:induction false} FirstRule(q: Query, role: string)
    ensures var first := First(MatchesTopic(q), Relevant(q, role));
            if first == None then forall c, j :: Hit(q, c, j) ==> c.role.name != role
            else exists i :: LeadsRole(q, role, i) && RulesOfRole(q, role)[i] == first.value
  {
    FirstLeads(AclLeq, HasType(q.action), MatchesTopic(q), Applies(q), RulesOfRole(q, role));
  }

  /** No visited role has a hit. */
  ghost predicate NoHitIn(q: Query, checks: seq<Check>) {
    forall c, j :: Hit(q, c, j) ==> c !in checks
  }

  lemma {:induction false} NoHitCons(q: Query, c: Check, rest: seq<Check>)
    requires NoHitIn(q, rest) && forall d, j :: Hit(q, d, j) ==> d.role.name != c.role.name
    ensures NoHitIn(q, [c] + rest)
  {
    forall d, j | Hit(q, d, j) ensures d !in [c] + rest { assert d !in rest; }
  }

  /** The verdict comes from rule `i` of the visited role `k`, the first with a hit. */
  ghost predicate FoundAt(q: Query, checks: seq<Check>, k: int, i: int) {
    && 0 <= k < |checks| && NoHitIn(q, checks[..k])
    && LeadsRole(q, checks[k].role.name, i)
    && FirstVerdict(q, checks) == RuleVerdict(checks[k], RulesOfRole(q, checks[k].role.name)[i])
  }

  lemma {:induction false} FoundLater(q: Query, c: Check, rest: seq<Check>, k: int, i: int)
    requires First(MatchesTopic(q), Relevant(q, c.role.name)) == None
    requires forall d, j :: Hit(q, d, j) ==> d.role.name != c.role.name
    requires FoundAt(q, rest, k, i)
    ensures FoundAt(q, [c] + rest, k + 1, i)
  {
    NoHitCons(q, c, rest[..k]);
    var checks := [c] + rest;
    assert checks[1..] == rest && checks[..k + 1] == [c] + rest[..k];
  }

  /** The first role with a hit supplies the verdict. */
  lemma {:induction false} FirstVerdictFound(q: Query, checks: seq<Check>)
    ensures if FirstVerdict(q, checks).ByDefault?
            then FirstVerdict(q, checks) == DefaultVerdict(q) && NoHitIn(q, checks)
            else exists k, i :: FoundAt(q, checks, k, i)
  {
    if checks != [] {
      var role := checks[0].role.name;
      var first := First(MatchesTopic(q), Relevant(q, role));
      FirstRule(q, role);
      if first.Some? {
        var i :| LeadsRole(q, role, i) && RulesOfRole(q, role)[i] == first.value;
        assert FoundAt(q, checks, 0, i);
      } else {
        FirstVerdictFound(q, checks[1..]);
        if FirstVerdict(q, checks).ByRule? {
          var k, i :| FoundAt(q, checks[1..], k, i);
          FoundLater(q, checks[0], checks[1..], k, i);
          assert checks == [checks[0]] + checks[1..];
        } else {
          NoHitCons(q, checks[0], checks[1..]);
          assert checks == [checks[0]] + checks[1..];
        }
      }
    }
  }

  lemma {:induction false} InPrefix(checks: seq<Check>, l: nat, k: nat)
    requires l < k <= |checks|
    ensures checks[l] in checks[..k]
  {
    assert checks[..k][l] == checks[l];
  }

  /** A hit at the first visited role with a hit comes before every other hit. */
  lemma {:induction false} NothingBefore(q: Query, k: nat, i: int)
    requires k < |Checks(q)| && LeadsRole(q, Checks(q)[k].role.name, i)
    requires NoHitIn(q, Checks(q)[..k]) && Hit(q, Checks(q)[k], i)
    ensures Best(q, Checks(q)[k], i)
  {
    var c := Checks(q)[k];
    VisitedLater(q, k);
    forall d, j | Hit(q, d, j) && (d != c || j != i) ensures Before(q, c, i, d, j) {
      if d == c {
        var rules := RulesOfRole(q, c.role.name);
        assert AclLeq(rules[i], rules[j]);
      }
    }
  }

  lemma {:induction false} VisitedLater(q: Query, k: nat)
    requires k < |Checks(q)| && NoHitIn(q, Checks(q)[..k])
    ensures forall d, j :: Hit(q, d, j) && d != Checks(q)[k] ==> CheckLeq(Checks(q)[k], d)
  {
    var checks := Checks(q);
    ChecksInOrder(q);
    forall d, j | Hit(q, d, j) && d != checks[k] ensures CheckLeq(checks[k], d) {
      ChecksReach(q, d);
      var l :| 0 <= l < |checks| && checks[l] == d;
      if l < k { InPrefix(checks, l, k); assert false; }
    }
  }

  /** The evaluation returns the best rule, or the default when nothing hits. */
  lemma {:induction false} EvaluateDecides(q: Query)
    ensures Decides(q, Evaluate(q))
  {
    FirstVerdictFound(q, Checks(q));
    if Evaluate(q).ByDefault? {
      forall c, j ensures !Hit(q, c, j) { ChecksReach(q, c); }
    } else {
      var k, i :| FoundAt(q, Checks(q), k, i);
      var c := Checks(q)[k];
      ChecksReach(q, c);
      assert Hit(q, c, i);
      NothingBefore(q, k, i);
    }
  }

  // ----- the code

  /** The loop of `evaluate_permission` over one sorted list of role assignments. */
  method AppendRoles(source: Source, priority: int, name: string, roles: seq<Assignment>, checks: seq<Check>)
    returns (r: seq<Check>)
    ensures r == checks + RoleChecks(source, priority, name, Sort(AssignmentLeq, roles))
  {
    var ordered := Sort(AssignmentLeq, roles);
    r := checks;
    for j := 0 to |ordered|
      invariant r == checks + RoleChecks(source, priority, name, ordered[..j])
    {
      r := r + [Check(source, priority, name, ordered[j])];
    }
    assert ordered[..|ordered|] == ordered;
  }

  lemma {:induction false} ChecksOfNextGroup(q: Query, groups: seq<Assignment>, i: nat, before: seq<Check>)
    requires i < |groups|
    ensures before + GroupChecks(q, groups[i..]) ==
            before + RoleChecks(FromGroup, groups[i].priority, groups[i].name,
                                Sort(AssignmentLeq, RolesOfGroup(q, groups[i].name)))
            + GroupChecks(q, groups[i + 1..])
  {
    assert groups[i..][1..] == groups[i + 1..];
  }

  /** The first half of `evaluate_permission`: the list `role_checks`. */
  method CollectChecks(q: Query) returns (roleChecks: seq<Check>)
    ensures roleChecks == Checks(q)
  {
    roleChecks := AppendRoles(FromClient, 0, q.username, q.client.roles, []);
    var groups := Sort(AssignmentLeq, q.client.groups);
    for i := 0 to |groups|
      invariant roleChecks + GroupChecks(q, groups[i..]) == Checks(q)
    {
      var g := groups[i];
      ChecksOfNextGroup(q, groups, i, roleChecks);
      roleChecks := AppendRoles(FromGroup, g.priority, g.name, RolesOfGroup(q, g.name), roleChecks);
    }
  }

  /** The two inner loops: the first rule of a role that matches. */
  method FindRule(q: Query, role: string) returns (found: Option<Acl>)
    ensures found == First(MatchesTopic(q), Relevant(q, role))
  {
    var relevant := Relevant(q, role);
    for j := 0 to |relevant|
      invariant First(MatchesTopic(q), relevant) == First(MatchesTopic(q), relevant[j..])
    {
      var matched := TopicMatches(relevant[j].topic, q.topic, q.username, q.clientid, IsLiteral(q.action));
      if matched { return Some(relevant[j]); }
      assert relevant[j..][1..] == relevant[j + 1..];
    }
    found := None;
  }

  /** `evaluate_permission`. */
  method EvaluatePermission(q: Query) returns (v: Verdict)
    ensures v == Evaluate(q)
    ensures Decides(q, v)
  {
    EvaluateDecides(q);
    var roleChecks := CollectChecks(q);
    for i := 0 to |roleChecks|
      invariant Evaluate(q) == FirstVerdict(q, roleChecks[i..])
    {
      assert roleChecks[i..][1..] == roleChecks[i + 1..];
      var found := FindRule(q, roleChecks[i].role.name);
      if found.Some? { return RuleVerdict(roleChecks[i], found.value); }
    }
    v := DefaultVerdict(q);
  }

  // ----- what the result does not depend on

  ghost predicate SameRequest(q: Query, r: Query) {
    q.username == r.username && q.clientid == r.clientid && q.topic == r.topic && q.action == r.action
    && q.defaults == r.defaults
  }

  /** The verdict depends on the reachable roles and on their rules. */
  lemma {:induction false} SameHits(q: Query, r: Query)
    requires SameRequest(q, r)
    requires forall c :: Reachable(q, c) <==> Reachable(r, c)
    requires forall c :: Reachable(q, c) ==> RulesOfRole(q, c.role.name) == RulesOfRole(r, c.role.name)
    ensures Evaluate(q) == Evaluate(r)
  {
    EvaluateDecides(q);
    EvaluateDecides(r);
    forall c, i ensures Hit(q, c, i) <==> Hit(r, c, i) {}
    forall c, i | Best(r, c, i) ensures Best(q, c, i) { SameBest(q, r, c, i); }
    assert Decides(q, Evaluate(r));
    DecidesIsUnique(q, Evaluate(q), Evaluate(r));
  }

  lemma {:induction false} SameBest(q: Query, r: Query, c: Check, i: int)
    requires Best(r, c, i)
    requires forall d, j :: Hit(q, d, j) <==> Hit(r, d, j)
    requires RulesOfRole(q, c.role.name) == RulesOfRole(r, c.role.name)
    ensures Best(q, c, i)
  {
    forall d, j | Hit(q, d, j) && (d != c || j != i) ensures Before(q, c, i, d, j) {
      assert Before(r, c, i, d, j);
    }
  }

  /** Same elements, in any order and any number. */
  ghost predicate SameMembers<T(!new)>(a: seq<T>, b: seq<T>) {
    forall x :: x in a <==> x in b
  }

  /** The order, and repetition, of a client's roles, of its groups and of a group's
      roles do not matter. */
  lemma {:induction false} OrderOfAssignmentsIsIrrelevant(q: Query, r: Query)
    requires SameRequest(q, r) && q.roles == r.roles
    requires SameMembers(q.client.roles, r.client.roles) && SameMembers(q.client.groups, r.client.groups)
    requires forall g :: SameMembers(RolesOfGroup(q, g), RolesOfGroup(r, g))
    ensures Evaluate(q) == Evaluate(r)
  {
    forall c ensures Reachable(q, c) <==> Reachable(r, c) {
      assert SameMembers(RolesOfGroup(q, c.sourceName), RolesOfGroup(r, c.sourceName));
    }
    SameHits(q, r);
  }

  lemma {:induction false} PermutationHasSameMembers<T(!new)>(a: seq<T>, b: seq<T>)
    requires multiset(a) == multiset(b)
    ensures SameMembers(a, b)
  {
    assert forall x :: x in a <==> x in multiset(a);
    assert forall x :: x in b <==> x in multiset(b);
  }

  /** In particular permutations of them do not matter. */
  lemma {:induction false} PermutationsAreIrrelevant(q: Query, r: Query)
    requires SameRequest(q, r) && q.roles == r.roles
    requires multiset(q.client.roles) == multiset(r.client.roles)
    requires multiset(q.client.groups) == multiset(r.client.groups)
    requires forall g :: multiset(RolesOfGroup(q, g)) == multiset(RolesOfGroup(r, g))
    ensures Evaluate(q) == Evaluate(r)
  {
    PermutationHasSameMembers(q.client.roles, r.client.roles);
    PermutationHasSameMembers(q.client.groups, r.client.groups);
    forall g ensures SameMembers(RolesOfGroup(q, g), RolesOfGroup(r, g)) {
      PermutationHasSameMembers(RolesOfGroup(q, g), RolesOfGroup(r, g));
    }
    OrderOfAssignmentsIsIrrelevant(q, r);
  }

  function WithPriority(p: int): Acl -> bool {
    (rule: Acl) => rule.priority == p
  }

  /** Nor does the order of a role's rules, as long as those of equal priority keep theirs. */
  lemma {:induction false} OrderOfRulesIsIrrelevant(q: Query, r: Query)
    requires SameRequest(q, r) && q.client == r.client && q.groups == r.groups
    requires forall role, p ::
               Filter(WithPriority(p), RulesOfRole(q, role)) == Filter(WithPriority(p), RulesOfRole(r, role))
    ensures Evaluate(q) == Evaluate(r)
  {
    forall role ensures Relevant(q, role) == Relevant(r, role) {
      var a, b := RulesOfRole(q, role), RulesOfRole(r, role);
      forall y ensures Filter(Ties(AclLeq, y), Filter(HasType(q.action), a)) ==
                       Filter(Ties(AclLeq, y), Filter(HasType(q.action), b))
      {
        assert Filter(WithPriority(y.priority), a) == Filter(WithPriority(y.priority), b);
        FilterByTypeAndTie(q.action, a, y);
        FilterByTypeAndTie(q.action, b, y);
      }
      SortCanonical(AclLeq, Filter(HasType(q.action), a), Filter(HasType(q.action), b));
    }
    SameChecks(q, r);
    SameVerdict(q, r, Checks(q));
  }

  lemma {:induction false} FilterByTypeAndTie(action: string, rules: seq<Acl>, y: Acl)
    ensures Filter(Ties(AclLeq, y), Filter(HasType(action), rules)) ==
            Filter(HasType(action), Filter(WithPriority(y.priority), rules))
  {
    if rules != [] {
      FilterByTypeAndTie(action, rules[1..], y);
      var typed, tied := Filter(HasType(action), rules[1..]), Filter(WithPriority(y.priority), rules[1..]);
      assert ([rules[0]] + typed)[1..] == typed && ([rules[0]] + tied)[1..] == tied;
      assert AclLeq(y, rules[0]) && AclLeq(rules[0], y) <==> y.priority == rules[0].priority;
      assert Ties(AclLeq, y)(rules[0]) <==> WithPriority(y.priority)(rules[0]);
    }
  }

  lemma {:induction false} SameChecks(q: Query, r: Query)
    requires q.client == r.client && q.groups == r.groups && q.username == r.username
    ensures Checks(q) == Checks(r)
  {
    SameGroupChecks(q, r, Sort(AssignmentLeq, q.client.groups));
  }

  lemma {:induction false} SameGroupChecks(q: Query, r: Query, groups: seq<Assignment>)
    requires q.groups == r.groups
    ensures GroupChecks(q, groups) == GroupChecks(r, groups)
  {
    if groups != [] { SameGroupChecks(q, r, groups[1..]); }
  }

  lemma {:induction false} SameVerdict(q: Query, r: Query, checks: seq<Check>)
    requires SameRequest(q, r) && forall role :: Relevant(q, role) == Relevant(r, role)
    ensures FirstVerdict(q, checks) == FirstVerdict(r, checks)
  {
    if checks != [] {
      SameVerdict(q, r, checks[1..]);
      assert MatchesTopic(q) == MatchesTopic(r);
      assert Relevant(q, checks[0].role.name) == Relevant(r, checks[0].role.name);
    }
  }

  /** A decision by a role of the client itself stands whatever its groups grant. */
  lemma {:induction false} GroupsCannotOverride(q: Query, r: Query)
    requires SameRequest(q, r) && q.roles == r.roles && q.client.roles == r.client.roles
    requires Evaluate(q).ByRule? && Evaluate(q).source == FromClient
    ensures Evaluate(r) == Evaluate(q)
  {
    EvaluateDecides(q);
    EvaluateDecides(r);
    var c, i :| Best(q, c, i) && Evaluate(q) == RuleVerdict(c, RulesOfRole(q, c.role.name)[i]);
    assert Hit(q, c, i) && Hit(r, c, i);
    forall d, j | Hit(r, d, j) && (d != c || j != i) ensures Before(r, c, i, d, j) {
      if d.source == FromClient {
        assert Hit(q, d, j);
        assert Before(q, c, i, d, j);
      }
    }
    assert Best(r, c, i);
    assert Decides(r, Evaluate(q));
    DecidesIsUnique(r, Evaluate(q), Evaluate(r));
  }
}
