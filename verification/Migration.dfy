/** `migrate`: the Dynamic Security state built from the legacy files, what it
    decides, and what it conserves. */
module Migration {
  import opened Results
  import opened Sequences
  import opened Strings
  import opened Sorting
  import opened TopicFilter
  import opened Policy
  import opened RuleSets
  import opened LegacyAcl
  import opened Accounts

  datatype ClientRecord = ClientRecord(username: string, credential: Credential, roles: seq<Assignment>)

  datatype GroupRecord = GroupRecord(groupname: string, roles: seq<Assignment>, clients: seq<Assignment>)

  datatype RoleRecord = RoleRecord(rolename: string, acls: seq<Acl>)

  datatype Base = Base(clients: seq<ClientRecord>, roles: seq<RoleRecord>)

  datatype Dynsec = Dynsec(
    defaults: map<string, bool>, clients: seq<ClientRecord>, groups: seq<GroupRecord>, roles: seq<RoleRecord>)

  datatype Failure =
    | BadAccounts(refusal: Refusal)
    | BadAcl(fault: Fault)
    | UnknownAclUsers(users: seq<string>)
    | NoAdmin
    | MissingAdminRoles

  // ----- the base state

  function FindClient(clients: seq<ClientRecord>, username: string): Option<ClientRecord> {
    if clients == [] then None
    else if clients[0].username == username then Some(clients[0])
    else FindClient(clients[1..], username)
  }

  predicate IsPreserved(rolename: string) {
    rolename == "dynsec-admin" || rolename == "sys-observe" || rolename == "sys-notify"
  }

  /** Assigning to a dictionary: in place if the key is there, else at the end. */
  function PutRole(roles: seq<RoleRecord>, role: RoleRecord): seq<RoleRecord> {
    if roles == [] then [role]
    else if roles[0].rolename == role.rolename then [role] + roles[1..]
    else [roles[0]] + PutRole(roles[1..], role)
  }

  function PreservedRoles(roles: seq<RoleRecord>): seq<RoleRecord> {
    if roles == [] then []
    else
      var front, last := PreservedRoles(roles[..|roles| - 1]), roles[|roles| - 1];
      if IsPreserved(last.rolename) then PutRole(front, last) else front
  }

  function RoleNames(roles: seq<RoleRecord>): seq<string> {
    seq(|roles|, i requires 0 <= i < |roles| => roles[i].rolename)
  }

  // ----- what each identity becomes

  predicate ByName(a: Account, b: Account) {
    StrLeq(a.username, b.username)
  }

  function RoleName(username: string): string {
    "migrated-" + username
  }

  function RoleFor(file: AclFile, username: string): RoleRecord {
    RoleRecord(RoleName(username), Deduplicated(file.globals + RulesOf(file.users, username)))
  }

  function RolesFor(file: AclFile, accounts: seq<Account>): seq<RoleRecord> {
    seq(|accounts|, i requires 0 <= i < |accounts| => RoleFor(file, accounts[i].username))
  }

  function ClientFor(account: Account): ClientRecord {
    ClientRecord(account.username, account.credential, [Assignment(RoleName(account.username), 50)])
  }

  function ClientsFor(accounts: seq<Account>): seq<ClientRecord> {
    seq(|accounts|, i requires 0 <= i < |accounts| => ClientFor(accounts[i]))
  }

  function GroupOf(owners: map<string, Owner>, username: string): string {
    if username in owners then owners[username].group else ""
  }

  function GroupsOf(owners: map<string, Owner>, accounts: seq<Account>): seq<string> {
    seq(|accounts|, i requires 0 <= i < |accounts| => GroupOf(owners, accounts[i].username))
  }

  /** The members of a group, in the order of the accounts. */
  function MembersOf(group: string, owners: map<string, Owner>, accounts: seq<Account>): seq<Assignment> {
    if accounts == [] then []
    else
      var front, last := accounts[..|accounts| - 1], accounts[|accounts| - 1].username;
      MembersOf(group, owners, front) + if GroupOf(owners, last) == group then [Assignment(last, 50)] else []
  }

  function OwnerGroup(group: string, owners: map<string, Owner>, accounts: seq<Account>): GroupRecord {
    GroupRecord(group, [], MembersOf(group, owners, accounts))
  }

  function OwnerGroups(names: seq<string>, owners: map<string, Owner>, accounts: seq<Account>): seq<GroupRecord> {
    seq(|names|, i requires 0 <= i < |names| => OwnerGroup(names[i], owners, accounts))
  }

  const DENY_ALL: map<string, bool> :=
    map["publishClientSend" := false, "publishClientReceive" := false, "subscribe" := false, "unsubscribe" := false]

  const ADMIN_ROLES := [Assignment("dynsec-admin", 100), Assignment("sys-observe", 10)]

  /** The state for accounts in sorted order. */
  function StateFor(
    ordered: seq<Account>, owners: map<string, Owner>, file: AclFile, admin: ClientRecord, preserved: seq<RoleRecord>)
    : Dynsec
  {
    Dynsec(
      DENY_ALL,
      [admin.(roles := ADMIN_ROLES)] + ClientsFor(ordered),
      [GroupRecord("unauthenticated", [], [])]
      + OwnerGroups(Sort(StrLeq, Unique(GroupsOf(owners, ordered))), owners, ordered),
      preserved + RolesFor(file, ordered))
  }

  /** When the files and the base state are fit for migration. */
  predicate Migratable(accounts: seq<Account>, file: AclFile, base: Base) {
    && (forall u :: u in file.users.Keys ==> u in Names(accounts))
    && FindClient(base.clients, "admin").Some?
    && "dynsec-admin" in RoleNames(PreservedRoles(base.roles))
    && "sys-observe" in RoleNames(PreservedRoles(base.roles))
  }

  function Migrated(accounts: seq<Account>, owners: map<string, Owner>, file: AclFile, base: Base): Dynsec
    requires Migratable(accounts, file, base)
  {
    StateFor(Sort(ByName, accounts), owners, file, FindClient(base.clients, "admin").value, PreservedRoles(base.roles))
  }

  /** What the earlier steps of `migrate` have established. */
  ghost predicate Fit(accounts: seq<Account>, owners: map<string, Owner>, file: AclFile, base: Base) {
    Migratable(accounts, file, base) && Distinct(Names(accounts)) && FileParsed(file)
    && owners.Keys == Elements(Names(accounts))
  }

  // ----- the code

  function MembersIn(grouped: map<string, seq<Assignment>>, group: string): seq<Assignment> {
    if group in grouped then grouped[group] else []
  }

  lemma {:induction false} AddMember(grouped: map<string, seq<Assignment>>, group: string, member: Assignment)
    ensures var more := grouped[group := MembersIn(grouped, group) + [member]];
            forall g :: MembersIn(more, g) == MembersIn(grouped, g) + if g == group then [member] else []
  {
  }

  /** The part of the loop over the sorted identities that fills the groups. */
  method CollectGroups(ordered: seq<Account>, owners: map<string, Owner>)
    returns (names: seq<string>, grouped: map<string, seq<Assignment>>)
    ensures names == Unique(GroupsOf(owners, ordered))
    ensures forall g :: MembersIn(grouped, g) == MembersOf(g, owners, ordered)
  {
    names, grouped := [], map[];
    for i := 0 to |ordered|
      invariant names == Unique(GroupsOf(owners, ordered[..i]))
      invariant forall g :: MembersIn(grouped, g) == MembersOf(g, owners, ordered[..i])
    {
      var username := ordered[i].username;
      var group := GroupOf(owners, username);
      GroupStep(owners, ordered, i);
      if group !in names { names := names + [group]; }
      AddMember(grouped, group, Assignment(username, 50));
      grouped := grouped[group := MembersIn(grouped, group) + [Assignment(username, 50)]];
    }
    assert ordered[..|ordered|] == ordered;
  }

  lemma {:induction false} NextOwnerGroup(
      before: seq<GroupRecord>, names: seq<string>, owners: map<string, Owner>, accounts: seq<Account>, i: nat)
    requires i < |names|
    ensures before + OwnerGroups(names[..i + 1], owners, accounts) ==
            before + OwnerGroups(names[..i], owners, accounts) + [OwnerGroup(names[i], owners, accounts)]
  {
  }

  /** The list of groups that `migrate` writes. */
  method BuildGroups(ordered: seq<Account>, owners: map<string, Owner>) returns (groups: seq<GroupRecord>)
    ensures groups == [GroupRecord("unauthenticated", [], [])]
                      + OwnerGroups(Sort(StrLeq, Unique(GroupsOf(owners, ordered))), owners, ordered)
  {
    var names, grouped := CollectGroups(ordered, owners);
    var sorted := Sort(StrLeq, names);
    groups := [GroupRecord("unauthenticated", [], [])];
    for i := 0 to |sorted|
      invariant groups == [GroupRecord("unauthenticated", [], [])] + OwnerGroups(sorted[..i], owners, ordered)
    {
      NextOwnerGroup([GroupRecord("unauthenticated", [], [])], sorted, owners, ordered, i);
      groups := groups + [GroupRecord(sorted[i], [], MembersIn(grouped, sorted[i]))];
    }
    assert sorted[..|sorted|] == sorted;
  }

  /** The loop of `migrate` over the sorted identities, then the one over the groups. */
  method BuildState(
    ordered: seq<Account>, owners: map<string, Owner>, file: AclFile, admin: ClientRecord, preserved: seq<RoleRecord>)
    returns (d: Dynsec)
    ensures d == StateFor(ordered, owners, file, admin, preserved)
  {
    var clients := [admin.(roles := ADMIN_ROLES)];
    var roles := preserved;
    for i := 0 to |ordered|
      invariant clients == [admin.(roles := ADMIN_ROLES)] + ClientsFor(ordered[..i])
      invariant roles == preserved + RolesFor(file, ordered[..i])
    {
      var username := ordered[i].username;
      var acls := Deduplicate(file.globals + RulesOf(file.users, username));
      roles := roles + [RoleRecord(RoleName(username), acls)];
      clients := clients + [ClientFor(ordered[i])];
    }
    assert ordered[..|ordered|] == ordered;
    var groups := BuildGroups(ordered, owners);
    d := Dynsec(DENY_ALL, clients, groups, roles);
  }

  lemma {:induction false} GroupStep(owners: map<string, Owner>, ordered: seq<Account>, i: nat)
    requires i < |ordered|
    ensures var group := GroupOf(owners, ordered[i].username);
            var names := Unique(GroupsOf(owners, ordered[..i]));
            Unique(GroupsOf(owners, ordered[..i + 1])) == if group in names then names else names + [group]
    ensures forall g :: MembersOf(g, owners, ordered[..i + 1]) ==
                        MembersOf(g, owners, ordered[..i])
                        + if g != GroupOf(owners, ordered[i].username) then []
                          else [Assignment(ordered[i].username, 50)]
  {
    assert ordered[..i + 1][..i] == ordered[..i];
    assert GroupsOf(owners, ordered[..i + 1])[..i] == GroupsOf(owners, ordered[..i]);
  }

  lemma {:induction false} FitAfterParsing(
      lines: seq<PasswordLine>, rows: seq<OwnerRow>, acl: Option<string>, file: AclFile, base: Base)
    requires Distinct(Names(Logins(lines))) && Elements(RowNames(rows)) == Elements(Names(Logins(lines)))
    requires acl == None ==> file == AclFile([], map[])
    requires acl.Some? ==> Parse(ReadLines(SplitLines(acl.value))) == Ok(file)
    requires Migratable(Logins(lines), file, base)
    ensures Fit(Logins(lines), OwnersOf(rows), file, base)
  {
    var accounts := Logins(lines);
    forall i, j | 0 <= i < j < |accounts| ensures accounts[i].username != accounts[j].username {
      assert Names(accounts)[i] != Names(accounts)[j];
    }
    OwnersOfKeys(rows);
    if acl.Some? { ParsedRules(SplitLines(acl.value)); }
  }

  /** The files that `migrate` reads, as text, rows and values. */
  datatype Inputs = Inputs(
    passwords: string, ownerHeader: seq<string>, ownerRows: seq<OwnerRow>, acl: Option<string>, base: Base)

  function PasswordLines(x: Inputs): seq<PasswordLine> {
    ReadPasswordLines(SplitLines(x.passwords))
  }

  function Identities(x: Inputs): seq<Account> {
    Logins(PasswordLines(x))
  }

  function ParsedAcl(x: Inputs): Result<AclFile, Fault> {
    if x.acl == None then Ok(AclFile([], map[])) else Parse(ReadLines(SplitLines(x.acl.value)))
  }

  /** The first two files are as they must be. */
  ghost predicate Admissible(x: Inputs) {
    Acceptable(PasswordLines(x)) && Covers(x.ownerHeader, x.ownerRows, Elements(Names(Identities(x))))
  }

  /** Every input is as it must be. */
  ghost predicate Succeeds(x: Inputs) {
    Admissible(x) && ParsedAcl(x).Ok? && Migratable(Identities(x), ParsedAcl(x).value, x.base)
  }

  /** Which error is raised, in the order in which the inputs are looked at. */
  ghost predicate MigrationFault(x: Inputs, e: Failure) {
    if !Acceptable(PasswordLines(x)) then
      e.BadAccounts? && PasswordFault(PasswordLines(x), e.refusal)
    else if !Admissible(x) then
      e.BadAccounts? && OwnersFault(x.ownerHeader, x.ownerRows, Elements(Names(Identities(x))), e.refusal)
    else if ParsedAcl(x).Err? then e == BadAcl(ParsedAcl(x).error)
    else
      var unknown := ParsedAcl(x).value.users.Keys - Elements(Names(Identities(x)));
      var roles := RoleNames(PreservedRoles(x.base.roles));
      if unknown != {} then e.UnknownAclUsers? && Listing(e.users, unknown)
      else if FindClient(x.base.clients, "admin") == None then e == NoAdmin
      else e == MissingAdminRoles && ("dynsec-admin" !in roles || "sys-observe" !in roles)
  }

  /** `migrate`, from the contents of its input files to the state it writes. */
  method Migrate(x: Inputs) returns (r: Result<Dynsec, Failure>)
    ensures r.Ok? ==>
              && Succeeds(x) && Fit(Identities(x), OwnersOf(x.ownerRows), ParsedAcl(x).value, x.base)
              && r.value == Migrated(Identities(x), OwnersOf(x.ownerRows), ParsedAcl(x).value, x.base)
    ensures r.Err? ==> !Succeeds(x) && MigrationFault(x, r.error)
  {
    var clients := ParsePasswordFile(x.passwords);
    if clients.Err? { return Err(BadAccounts(clients.error)); }
    var accounts := clients.value;
    var owners := ParseOwners(x.ownerHeader, x.ownerRows, set u | u in Names(accounts));
    if owners.Err? { return Err(BadAccounts(owners.error)); }
    var file := ParseAclFile(x.acl);
    if file.Err? { return Err(BadAcl(file.error)); }
    var unknown := SortedList(file.value.users.Keys - Elements(Names(accounts)));
    EmptyListing(unknown, file.value.users.Keys - Elements(Names(accounts)));
    UsersKnownIff(accounts, file.value);
    if unknown != [] { return Err(UnknownAclUsers(unknown)); }
    var admin := FindClient(x.base.clients, "admin");
    if admin == None { return Err(NoAdmin); }
    var preserved := PreservedRoles(x.base.roles);
    if "dynsec-admin" !in RoleNames(preserved) || "sys-observe" !in RoleNames(preserved) {
      return Err(MissingAdminRoles);
    }
    FitAfterParsing(PasswordLines(x), x.ownerRows, x.acl, file.value, x.base);
    var d := BuildState(Sort(ByName, accounts), owners.value, file.value, admin.value, preserved);
    r := Ok(d);
  }

  lemma {:induction false} UsersKnownIff(accounts: seq<Account>, file: AclFile)
    ensures file.users.Keys - Elements(Names(accounts)) == {} <==> file.users.Keys <= Elements(Names(accounts))
    ensures file.users.Keys <= Elements(Names(accounts)) <==>
            forall u :: u in file.users.Keys ==> u in Names(accounts)
  {
    if file.users.Keys - Elements(Names(accounts)) == {} {
      forall u | u in file.users.Keys ensures u in Elements(Names(accounts)) {
        assert u !in file.users.Keys - Elements(Names(accounts));
      }
    }
    if forall u :: u in file.users.Keys ==> u in Names(accounts) {
      forall u | u in file.users.Keys ensures u in Elements(Names(accounts)) {}
    }
  }

  /** The inputs determine the error. */
  lemma {:induction false} MigrationFaultIsUnique(x: Inputs, e: Failure, f: Failure)
    requires MigrationFault(x, e) && MigrationFault(x, f)
    ensures e == f
  {
    if !Acceptable(PasswordLines(x)) {
      PasswordFaultIsUnique(PasswordLines(x), e.refusal, f.refusal);
    } else if !Admissible(x) {
      OwnersFaultIsUnique(x.ownerHeader, x.ownerRows, Elements(Names(Identities(x))), e.refusal, f.refusal);
    } else if e.UnknownAclUsers? && f.UnknownAclUsers? {
      ListingIsUnique(e.users, f.users, ParsedAcl(x).value.users.Keys - Elements(Names(Identities(x))));
    }
  }

  // ----- the state as the permission check sees it

  function RoleMap(roles: seq<RoleRecord>): map<string, seq<Acl>> {
    if roles == [] then map[]
    else RoleMap(roles[..|roles| - 1])[roles[|roles| - 1].rolename := roles[|roles| - 1].acls]
  }

  function GroupMap(groups: seq<GroupRecord>): map<string, seq<Assignment>> {
    if groups == [] then map[]
    else GroupMap(groups[..|groups| - 1])[groups[|groups| - 1].groupname := groups[|groups| - 1].roles]
  }

  /** The groups that list a client, with the priority of the membership. */
  function Memberships(groups: seq<GroupRecord>, username: string): seq<Assignment> {
    if groups == [] then []
    else MembershipsIn(groups[0].groupname, groups[0].clients, username) + Memberships(groups[1..], username)
  }

  function MembershipsIn(group: string, members: seq<Assignment>, username: string): seq<Assignment> {
    if members == [] then []
    else
      (if members[0].name == username then [Assignment(group, members[0].priority)] else [])
      + MembershipsIn(group, members[1..], username)
  }

  /** The request for the first client of that name. */
  function QueryFor(d: Dynsec, username: string, clientid: string, topic: string, action: string): Query {
    var roles := match FindClient(d.clients, username) case Some(c) => c.roles case None => [];
    Query(Client(roles, Memberships(d.groups, username)), GroupMap(d.groups), RoleMap(d.roles),
          username, clientid, topic, action, d.defaults)
  }

  // ----- one role, and denying rules above allowing ones

  /** Some rule of the kind applies to the request. */
  ghost predicate AnyApplies(q: Query, rules: seq<Acl>, allow: bool) {
    exists rule :: rule in rules && rule.allow == allow && Applies(q)(rule)
  }

  lemma {:induction false} SingleRole(q: Query, role: Assignment)
    requires q.client.roles == [role] && forall g :: RolesOfGroup(q, g) == []
    requires AllParsed(RulesOfRole(q, role.name))
    ensures var rules := RulesOfRole(q, role.name);
            if AnyApplies(q, rules, true) || AnyApplies(q, rules, false)
            then Evaluate(q).ByRule? && (Evaluate(q).allow <==> !AnyApplies(q, rules, false))
            else Evaluate(q) == DefaultVerdict(q)
  {
    var rules := RulesOfRole(q, role.name);
    var c := Check(FromClient, 0, q.username, role);
    EvaluateDecides(q);
    assert Reachable(q, c) by { assert role in q.client.roles; }
    forall d, j | Hit(q, d, j) ensures d == c {}
    if Evaluate(q).ByRule? {
      var d, i :| Best(q, d, i) && Evaluate(q) == RuleVerdict(d, RulesOfRole(q, d.role.name)[i]);
      assert Hit(q, d, i) && rules[i] in rules;
      if AnyApplies(q, rules, false) {
        DenyHits(q, c);
        var j :| Hit(q, c, j) && !rules[j].allow;
        assert j == i || Before(q, c, i, c, j);
      }
    } else {
      forall rule | rule in rules ensures !Applies(q)(rule) {
        var j :| 0 <= j < |rules| && rules[j] == rule;
        assert !Hit(q, c, j);
      }
    }
  }

  lemma {:induction false} DenyHits(q: Query, c: Check)
    requires Reachable(q, c) && AnyApplies(q, RulesOfRole(q, c.role.name), false)
    ensures exists j :: Hit(q, c, j) && !RulesOfRole(q, c.role.name)[j].allow
  {
    var rules := RulesOfRole(q, c.role.name);
    var rule :| rule in rules && rule.allow == false && Applies(q)(rule);
    var j :| 0 <= j < |rules| && rules[j] == rule;
    assert Hit(q, c, j);
  }

  // ----- what sorting and looking up keep

  lemma {:induction false} InsertNames(x: Account, s: seq<Account>)
    ensures multiset(Names(Insert(ByName, x, s))) == multiset{x.username} + multiset(Names(s))
  {
    if s == [] || ByName(x, s[0]) {
      assert Names([x] + s) == [x.username] + Names(s);
    } else {
      InsertNames(x, s[1..]);
      assert Names(s) == [s[0].username] + Names(s[1..]);
      assert Names([s[0]] + Insert(ByName, x, s[1..])) == [s[0].username] + Names(Insert(ByName, x, s[1..]));
    }
  }

  lemma {:induction false} SortNames(accounts: seq<Account>)
    ensures multiset(Names(Sort(ByName, accounts))) == multiset(Names(accounts))
  {
    if accounts != [] {
      SortNames(accounts[1..]);
      InsertNames(accounts[0], Sort(ByName, accounts[1..]));
      assert Names(accounts) == [accounts[0].username] + Names(accounts[1..]);
    }
  }

  lemma {:induction false} SortDistinct(accounts: seq<Account>)
    requires Distinct(Names(accounts))
    ensures Distinct(Names(Sort(ByName, accounts)))
  {
    SortNames(accounts);
    ReorderedDistinct(Names(accounts), Names(Sort(ByName, accounts)));
  }

  lemma {:induction false} FindAmong(accounts: seq<Account>, k: nat)
    requires k < |accounts| && Distinct(Names(accounts))
    ensures FindClient(ClientsFor(accounts), accounts[k].username) == Some(ClientFor(accounts[k]))
  {
    var names := Names(accounts);
    assert ClientsFor(accounts)[1..] == ClientsFor(accounts[1..]);
    if k > 0 {
      assert names[0] != names[k];
      assert names == [names[0]] + Names(accounts[1..]);
      DistinctCons(names[0], Names(accounts[1..]));
      FindAmong(accounts[1..], k - 1);
    }
  }

  /** The first client of that name. */
  predicate FirstNamed(clients: seq<ClientRecord>, username: string, k: int) {
    0 <= k < |clients| && clients[k].username == username && forall j :: 0 <= j < k ==> clients[j].username != username
  }

  lemma {:induction false} FoundClient(clients: seq<ClientRecord>, username: string)
    ensures var found := FindClient(clients, username);
            if found == None then forall c :: c in clients ==> c.username != username
            else exists k :: FirstNamed(clients, username, k) && clients[k] == found.value
  {
    if clients != [] && clients[0].username != username {
      FoundClient(clients[1..], username);
      if k :| FirstNamed(clients[1..], username, k) && Some(clients[1..][k]) == FindClient(clients[1..], username) {
        assert FirstNamed(clients, username, k + 1);
      }
    } else if clients != [] {
      assert FirstNamed(clients, username, 0);
    }
  }

  lemma {:induction false} RoleMapAt(roles: seq<RoleRecord>, k: nat)
    requires k < |roles| && Distinct(RoleNames(roles))
    ensures roles[k].rolename in RoleMap(roles) && RoleMap(roles)[roles[k].rolename] == roles[k].acls
  {
    var n := |roles| - 1;
    if k < n {
      assert RoleNames(roles)[k] != RoleNames(roles)[n];
      forall i, j | 0 <= i < j < n ensures RoleNames(roles[..n])[i] != RoleNames(roles[..n])[j] {
        assert RoleNames(roles)[i] != RoleNames(roles)[j];
      }
      RoleMapAt(roles[..n], k);
    }
  }

  lemma {:induction false} NoGroupRoles(groups: seq<GroupRecord>, g: string)
    requires forall i :: 0 <= i < |groups| ==> groups[i].roles == []
    ensures g in GroupMap(groups) ==> GroupMap(groups)[g] == []
  {
    if groups != [] { NoGroupRoles(groups[..|groups| - 1], g); }
  }

  // ----- role names

  lemma {:induction false} PutRoleNames(roles: seq<RoleRecord>, role: RoleRecord)
    requires Distinct(RoleNames(roles))
    ensures Distinct(RoleNames(PutRole(roles, role)))
    ensures Elements(RoleNames(PutRole(roles, role))) == Elements(RoleNames(roles)) + {role.rolename}
  {
    if roles == [] {
      ElementsCons(role.rolename, []);
      assert RoleNames([role]) == [role.rolename] + [];
    } else {
      var first, names := roles[0].rolename, RoleNames(roles[1..]);
      assert RoleNames(roles) == [first] + names;
      ElementsCons(first, names);
      DistinctCons(first, names);
      if first == role.rolename {
        assert RoleNames(PutRole(roles, role)) == [first] + names;
      } else {
        PutRoleNames(roles[1..], role);
        var rest := RoleNames(PutRole(roles[1..], role));
        assert RoleNames(PutRole(roles, role)) == [first] + rest;
        ElementsCons(first, rest);
        DistinctCons(first, rest);
        assert first in rest <==> first in Elements(rest);
        assert first in names <==> first in Elements(names);
      }
    }
  }

  /** Assigning replaces the role of that name. */
  lemma {:induction false} PutRoleMembers(roles: seq<RoleRecord>, role: RoleRecord, r: RoleRecord)
    requires Distinct(RoleNames(roles))
    ensures r in PutRole(roles, role) <==> r == role || (r in roles && r.rolename != role.rolename)
  {
    if roles != [] {
      var names := RoleNames(roles[1..]);
      assert roles == [roles[0]] + roles[1..] && RoleNames(roles) == [roles[0].rolename] + names;
      DistinctCons(roles[0].rolename, names);
      if roles[0].rolename == role.rolename {
        forall k | 0 <= k < |roles[1..]| ensures roles[1..][k].rolename != role.rolename {
          assert names[k] in names;
        }
      } else {
        PutRoleMembers(roles[1..], role, r);
      }
    }
  }

  /** The last role of its name in the base state. */
  predicate LastNamed(roles: seq<RoleRecord>, r: RoleRecord, k: int) {
    0 <= k < |roles| && roles[k] == r && forall j :: k < j < |roles| ==> roles[j].rolename != r.rolename
  }

  /** Of the three names the last role of each is kept as it is, and nothing else. */
  lemma {:induction false} PreservedIff(roles: seq<RoleRecord>, r: RoleRecord)
    ensures r in PreservedRoles(roles) <==>
            r.rolename in {"dynsec-admin", "sys-observe", "sys-notify"} && exists k :: LastNamed(roles, r, k)
  {
    if roles != [] {
      var n := |roles| - 1;
      var front := roles[..n];
      PreservedIff(front, r);
      PreservedNames(front);
      PutRoleMembers(PreservedRoles(front), roles[n], r);
      if k :| LastNamed(front, r, k) && roles[n].rolename != r.rolename { assert LastNamed(roles, r, k); }
      if k :| LastNamed(roles, r, k) { assert k < n ==> LastNamed(front, r, k); }
      assert roles[n] == r ==> LastNamed(roles, r, n);
    }
  }

  lemma {:induction false} PreservedNames(roles: seq<RoleRecord>)
    ensures Distinct(RoleNames(PreservedRoles(roles)))
    ensures forall i :: 0 <= i < |PreservedRoles(roles)| ==> IsPreserved(PreservedRoles(roles)[i].rolename)
  {
    if roles != [] {
      var front, last := PreservedRoles(roles[..|roles| - 1]), roles[|roles| - 1];
      PreservedNames(roles[..|roles| - 1]);
      if IsPreserved(last.rolename) {
        PutRoleNames(front, last);
        PutRoleIsPreserved(front, last);
      }
    }
  }

  lemma {:induction false} PutRoleIsPreserved(roles: seq<RoleRecord>, role: RoleRecord)
    requires IsPreserved(role.rolename) && forall i :: 0 <= i < |roles| ==> IsPreserved(roles[i].rolename)
    ensures forall i :: 0 <= i < |PutRole(roles, role)| ==> IsPreserved(PutRole(roles, role)[i].rolename)
  {
    if roles != [] { PutRoleIsPreserved(roles[1..], role); }
  }

  lemma {:induction false} RoleNameIsNew(username: string, other: string)
    ensures !IsPreserved(RoleName(username))
    ensures RoleName(username) == RoleName(other) ==> username == other
  {
    assert RoleName(username)[0] == 'm' && RoleName(username)[9..] == username && RoleName(other)[9..] == other;
  }

  /** No two roles of the migrated state share a name. */
  lemma {:induction false} RoleNamesDistinct(preserved: seq<RoleRecord>, file: AclFile, accounts: seq<Account>)
    requires Distinct(RoleNames(preserved)) && Distinct(Names(accounts))
    requires forall i :: 0 <= i < |preserved| ==> IsPreserved(preserved[i].rolename)
    ensures Distinct(RoleNames(preserved + RolesFor(file, accounts)))
  {
    var names, n := RoleNames(preserved + RolesFor(file, accounts)), |preserved|;
    forall i, j | 0 <= i < j < |names| ensures names[i] != names[j] {
      if j < n {
        assert RoleNames(preserved)[i] != RoleNames(preserved)[j];
      } else {
        if i >= n { assert Names(accounts)[i - n] != Names(accounts)[j - n]; }
        RoleNameIsNew(accounts[j - n].username, if i < n then "" else accounts[i - n].username);
      }
    }
  }

  // ----- what the migrated state decides

  /** The rules of the legacy file that concern a user. */
  function RulesFor(file: AclFile, username: string): seq<Acl> {
    file.globals + RulesOf(file.users, username)
  }

  /** Some legacy rule of the kind covers the request. */
  ghost predicate LegacyRule(
    file: AclFile, username: string, clientid: string, topic: string, action: string, allow: bool) {
    exists rule :: rule in RulesFor(file, username) && rule.allow == allow && rule.acltype == action
                   && Admits(rule.topic, topic, username, clientid, IsLiteral(action))
  }

  /** The legacy meaning: some allowing rule grants the request and no denying one
      covers it. */
  ghost predicate LegacyAllows(file: AclFile, username: string, clientid: string, topic: string, action: string) {
    && LegacyRule(file, username, clientid, topic, action, true)
    && !LegacyRule(file, username, clientid, topic, action, false)
  }

  lemma {:induction false} AccountIndex(accounts: seq<Account>, username: string) returns (k: nat)
    requires username in Names(accounts)
    ensures k < |Sort(ByName, accounts)| && Sort(ByName, accounts)[k].username == username
  {
    var i :| 0 <= i < |Names(accounts)| && Names(accounts)[i] == username;
    SortMembers(ByName, accounts);
    assert accounts[i] in Sort(ByName, accounts);
    k :| 0 <= k < |Sort(ByName, accounts)| && Sort(ByName, accounts)[k] == accounts[i];
  }

  lemma {:induction false} MigratedClient(
      accounts: seq<Account>, owners: map<string, Owner>, file: AclFile, base: Base, username: string)
    requires Fit(accounts, owners, file, base) && username in Names(accounts) && username != "admin"
    ensures var found := FindClient(Migrated(accounts, owners, file, base).clients, username);
            found.Some? && found.value.roles == [Assignment(RoleName(username), 50)]
  {
    var ordered, clients := Sort(ByName, accounts), Migrated(accounts, owners, file, base).clients;
    var k := AccountIndex(accounts, username);
    SortDistinct(accounts);
    FindAmong(ordered, k);
    FoundClient(base.clients, "admin");
    assert clients[0].username == "admin" && clients[1..] == ClientsFor(ordered);
  }

  lemma {:induction false} MigratedRole(
      accounts: seq<Account>, owners: map<string, Owner>, file: AclFile, base: Base, username: string)
    requires Fit(accounts, owners, file, base) && username in Names(accounts)
    ensures var roles := RoleMap(Migrated(accounts, owners, file, base).roles);
            RoleName(username) in roles && roles[RoleName(username)] == Deduplicated(RulesFor(file, username))
  {
    var ordered, preserved := Sort(ByName, accounts), PreservedRoles(base.roles);
    var k := AccountIndex(accounts, username);
    SortDistinct(accounts);
    PreservedNames(base.roles);
    RoleAt(preserved, file, ordered, k);
  }

  lemma {:induction false} RoleAt(preserved: seq<RoleRecord>, file: AclFile, accounts: seq<Account>, k: nat)
    requires Distinct(RoleNames(preserved)) && Distinct(Names(accounts)) && k < |accounts|
    requires forall i :: 0 <= i < |preserved| ==> IsPreserved(preserved[i].rolename)
    ensures var role := RoleFor(file, accounts[k].username);
            var roles := RoleMap(preserved + RolesFor(file, accounts));
            role.rolename in roles && roles[role.rolename] == role.acls
  {
    var roles := preserved + RolesFor(file, accounts);
    RoleNamesDistinct(preserved, file, accounts);
    assert roles[|preserved| + k] == RoleFor(file, accounts[k].username);
    RoleMapAt(roles, |preserved| + k);
  }

  /** The rules of a migrated role do not depend on the order of the lines. */
  lemma {:induction false} RoleIsCanonical(file: AclFile, username: string)
    requires FileParsed(file)
    ensures OneResult(RulesFor(file, username))
  {
    UserRulesParsed(file, username);
    OrderIsIrrelevantIff(RulesFor(file, username));
  }

  /** The request is put to the migrated state, about one of its identities other than
      `admin`. */
  ghost predicate Asks(accounts: seq<Account>, owners: map<string, Owner>, file: AclFile, base: Base, q: Query) {
    && Fit(accounts, owners, file, base) && q.username in Names(accounts) && q.username != "admin"
    && q == QueryFor(Migrated(accounts, owners, file, base), q.username, q.clientid, q.topic, q.action)
  }

  /** A migrated user has its own role, with its deduplicated rules, and nothing else. */
  lemma {:induction false} MigratedQuery(
      accounts: seq<Account>, owners: map<string, Owner>, file: AclFile, base: Base, q: Query)
    requires Asks(accounts, owners, file, base, q)
    ensures q.client.roles == [Assignment("migrated-" + q.username, 50)]
    ensures forall g :: RolesOfGroup(q, g) == []
    ensures RulesOfRole(q, "migrated-" + q.username) == Deduplicated(RulesFor(file, q.username))
    ensures q.defaults == map["publishClientSend" := false, "publishClientReceive" := false,
                              "subscribe" := false, "unsubscribe" := false]
  {
    MigratedClient(accounts, owners, file, base, q.username);
    MigratedRole(accounts, owners, file, base, q.username);
    forall g ensures RolesOfGroup(q, g) == [] { NoGroupRoles(Migrated(accounts, owners, file, base).groups, g); }
  }

  lemma {:induction false} UserRulesParsed(file: AclFile, username: string)
    requires FileParsed(file)
    ensures AllParsed(RulesFor(file, username)) && PriorityTellsAllow(RulesFor(file, username))
    ensures AllParsed(Deduplicated(RulesFor(file, username)))
  {
    var rules := RulesFor(file, username);
    DeduplicatedMembers(rules);
    forall i | 0 <= i < |Deduplicated(rules)|
      ensures Parsed(Deduplicated(rules)[i]) && IsEmittedType(Deduplicated(rules)[i].acltype)
    {
      assert Deduplicated(rules)[i] in rules;
    }
  }

  /** Migration preserves meaning: the permission check on the migrated state allows
      a request of a user exactly when the legacy rules for that user do. */
  lemma {:induction false} MigrationPreservesMeaning(
      accounts: seq<Account>, owners: map<string, Owner>, file: AclFile, base: Base, q: Query)
    requires Asks(accounts, owners, file, base, q)
    ensures Evaluate(q).allow <==> LegacyAllows(file, q.username, q.clientid, q.topic, q.action)
  {
    MigratedQuery(accounts, owners, file, base, q);
    UserRulesParsed(file, q.username);
    SingleRole(q, Assignment(RoleName(q.username), 50));
    AppliesMeans(q, file, true);
    AppliesMeans(q, file, false);
    AllDenied(q);
  }

  lemma {:induction false} AppliesMeans(q: Query, file: AclFile, allow: bool)
    ensures AnyApplies(q, Deduplicated(RulesFor(file, q.username)), allow) <==>
            LegacyRule(file, q.username, q.clientid, q.topic, q.action, allow)
  {
    var rules := RulesFor(file, q.username);
    DeduplicatedMembers(rules);
    if AnyApplies(q, Deduplicated(rules), allow) {
      var rule :| rule in Deduplicated(rules) && rule.allow == allow && Applies(q)(rule);
      assert rule in rules;
    }
    if rule :| rule in rules && rule.allow == allow && rule.acltype == q.action
               && Admits(rule.topic, q.topic, q.username, q.clientid, IsLiteral(q.action))
    {
      assert rule in Deduplicated(rules) && Applies(q)(rule);
    }
  }

  lemma {:induction false} AllDenied(q: Query)
    requires q.defaults == DENY_ALL
    ensures !DefaultVerdict(q).allow
  {
  }

  /** Requests of a type that migration never emits, such as literal subscriptions,
      are left to the default and denied. */
  lemma {:induction false} OtherRequestsAreDenied(
      accounts: seq<Account>, owners: map<string, Owner>, file: AclFile, base: Base, q: Query)
    requires Asks(accounts, owners, file, base, q) && !IsEmittedType(q.action)
    ensures Evaluate(q) == DefaultVerdict(q) && !Evaluate(q).allow
  {
    MigratedQuery(accounts, owners, file, base, q);
    UserRulesParsed(file, q.username);
    var rules := RulesOfRole(q, RoleName(q.username));
    forall rule | rule in rules ensures !Applies(q)(rule) {
      var i :| 0 <= i < |rules| && rules[i] == rule;
      assert IsEmittedType(rules[i].acltype);
    }
    SingleRole(q, Assignment(RoleName(q.username), 50));
    AllDenied(q);
  }

  /** Only the rules for everyone and the user's own rules matter: two files that
      agree on those give the user the same decisions. */
  lemma {:induction false} OtherUsersRulesAreIrrelevant(
      accounts: seq<Account>, owners: map<string, Owner>, a: AclFile, b: AclFile, base: Base, q: Query, r: Query)
    requires Asks(accounts, owners, a, base, q) && Asks(accounts, owners, b, base, r) && SameQuestion(q, r)
    requires a.globals == b.globals && RulesOf(a.users, q.username) == RulesOf(b.users, q.username)
    ensures Evaluate(q) == Evaluate(r)
  {
    MigratedQuery(accounts, owners, a, base, q);
    MigratedQuery(accounts, owners, b, base, r);
    assert RulesFor(a, q.username) == RulesFor(b, q.username);
    OwnRolesDecide(q, r);
  }

  predicate SameQuestion(q: Query, r: Query) {
    q.username == r.username && q.clientid == r.clientid && q.topic == r.topic && q.action == r.action
  }

  /** Requests that reach only roles with the same rules are answered alike. */
  lemma {:induction false} OwnRolesDecide(q: Query, r: Query)
    requires SameRequest(q, r) && q.client.roles == r.client.roles
    requires forall g :: RolesOfGroup(q, g) == [] == RolesOfGroup(r, g)
    requires forall a :: a in q.client.roles ==> RulesOfRole(q, a.name) == RulesOfRole(r, a.name)
    ensures Evaluate(q) == Evaluate(r)
  {
    forall c ensures Reachable(q, c) <==> Reachable(r, c) {}
    SameHits(q, r);
  }

  // ----- the identity `admin`

  /** The answer for one request is the legacy one. */
  ghost predicate MeaningKept(accounts: seq<Account>, owners: map<string, Owner>, file: AclFile, base: Base,
                              username: string, clientid: string, topic: string, action: string) {
    Fit(accounts, owners, file, base) ==>
      (Evaluate(QueryFor(Migrated(accounts, owners, file, base), username, clientid, topic, action)).allow
       <==> LegacyAllows(file, username, clientid, topic, action))
  }

  lemma {:induction false} PreservedRoleAt(
      preserved: seq<RoleRecord>, file: AclFile, accounts: seq<Account>, name: string, k: nat)
    requires Distinct(RoleNames(preserved)) && Distinct(Names(accounts))
    requires k < |preserved| && preserved[k].rolename == name
    requires forall i :: 0 <= i < |preserved| ==> IsPreserved(preserved[i].rolename)
    ensures var roles := RoleMap(preserved + RolesFor(file, accounts));
            name in roles && roles[name] == preserved[k].acls
  {
    var roles := preserved + RolesFor(file, accounts);
    RoleNamesDistinct(preserved, file, accounts);
    assert roles[k] == preserved[k];
    RoleMapAt(roles, k);
  }

  /** The rules of a preserved role are the same whatever the legacy file says. */
  lemma {:induction false} PreservedRulesStay(
      accounts: seq<Account>, a: AclFile, b: AclFile, preserved: seq<RoleRecord>, name: string)
    requires Distinct(RoleNames(preserved)) && Distinct(Names(accounts)) && name in RoleNames(preserved)
    requires forall i :: 0 <= i < |preserved| ==> IsPreserved(preserved[i].rolename)
    ensures var before, after := RoleMap(preserved + RolesFor(a, accounts)), RoleMap(preserved + RolesFor(b, accounts));
            name in before && name in after && before[name] == after[name]
  {
    var k :| 0 <= k < |preserved| && RoleNames(preserved)[k] == name;
    PreservedRoleAt(preserved, a, accounts, name, k);
    PreservedRoleAt(preserved, b, accounts, name, k);
  }

  lemma {:induction false} AdminQuery(
      accounts: seq<Account>, owners: map<string, Owner>, file: AclFile, base: Base, clientid: string,
      topic: string, action: string)
    requires Fit(accounts, owners, file, base)
    ensures var q := QueryFor(Migrated(accounts, owners, file, base), "admin", clientid, topic, action);
            q.client.roles == ADMIN_ROLES && forall g :: RolesOfGroup(q, g) == []
  {
    var q := QueryFor(Migrated(accounts, owners, file, base), "admin", clientid, topic, action);
    FoundClient(base.clients, "admin");
    forall g ensures RolesOfGroup(q, g) == [] { NoGroupRoles(Migrated(accounts, owners, file, base).groups, g); }
  }

  /** An identity named `admin` is answered by the administrator's roles, whatever the
      legacy file says. */
  lemma {:induction false} AdminIgnoresLegacyRules(
      accounts: seq<Account>, owners: map<string, Owner>, a: AclFile, b: AclFile, base: Base, clientid: string,
      topic: string, action: string)
    requires Fit(accounts, owners, a, base) && Fit(accounts, owners, b, base)
    ensures Evaluate(QueryFor(Migrated(accounts, owners, a, base), "admin", clientid, topic, action)) ==
            Evaluate(QueryFor(Migrated(accounts, owners, b, base), "admin", clientid, topic, action))
  {
    var q := QueryFor(Migrated(accounts, owners, a, base), "admin", clientid, topic, action);
    var r := QueryFor(Migrated(accounts, owners, b, base), "admin", clientid, topic, action);
    AdminQuery(accounts, owners, a, base, clientid, topic, action);
    AdminQuery(accounts, owners, b, base, clientid, topic, action);
    AdminRulesStay(accounts, owners, a, b, base);
    OwnRolesDecide(q, r);
  }

  lemma {:induction false} AdminRulesStay(
      accounts: seq<Account>, owners: map<string, Owner>, a: AclFile, b: AclFile, base: Base)
    requires Fit(accounts, owners, a, base) && Fit(accounts, owners, b, base)
    ensures var before := RoleMap(Migrated(accounts, owners, a, base).roles);
            var after := RoleMap(Migrated(accounts, owners, b, base).roles);
            forall role :: role in ADMIN_ROLES ==>
              role.name in before && role.name in after && before[role.name] == after[role.name]
  {
    var ordered, preserved := Sort(ByName, accounts), PreservedRoles(base.roles);
    SortDistinct(accounts);
    PreservedNames(base.roles);
    BothRolesStay(ordered, a, b, preserved);
  }

  lemma {:induction false} BothRolesStay(accounts: seq<Account>, a: AclFile, b: AclFile, preserved: seq<RoleRecord>)
    requires Distinct(RoleNames(preserved)) && Distinct(Names(accounts))
    requires "dynsec-admin" in RoleNames(preserved) && "sys-observe" in RoleNames(preserved)
    requires forall i :: 0 <= i < |preserved| ==> IsPreserved(preserved[i].rolename)
    ensures var before, after := RoleMap(preserved + RolesFor(a, accounts)), RoleMap(preserved + RolesFor(b, accounts));
            forall role :: role in ADMIN_ROLES ==>
              role.name in before && role.name in after && before[role.name] == after[role.name]
  {
    PreservedRulesStay(accounts, a, b, preserved, ADMIN_ROLES[0].name);
    PreservedRulesStay(accounts, a, b, preserved, ADMIN_ROLES[1].name);
  }

  const NO_RULES := AclFile([], map[])

  /** Everyone may publish to one topic. */
  const ONE_GRANT := AclFile(Rules("write", "t"), map[])

  lemma {:induction false} GrantTells(username: string)
    ensures LegacyAllows(ONE_GRANT, username, "", "t", "publishClientSend")
  {
    var rule := Acl("publishClientSend", "t", true, 10);
    assert RulesFor(ONE_GRANT, username) == [rule];
    assert rule in RulesFor(ONE_GRANT, username);
    NameAdmitsItself("t");
  }

  /** The administrator's answer cannot be right for both files. */
  lemma {:induction false} AdminLosesMeaning(
      accounts: seq<Account>, owners: map<string, Owner>, file: AclFile, base: Base)
    requires Fit(accounts, owners, file, base)
    ensures exists f :: !MeaningKept(accounts, owners, f, base, "admin", "", "t", "publishClientSend")
  {
    GrantTells("admin");
    assert Fit(accounts, owners, NO_RULES, base) && Fit(accounts, owners, ONE_GRANT, base);
    assert !LegacyAllows(NO_RULES, "admin", "", "t", "publishClientSend");
    AdminIgnoresLegacyRules(accounts, owners, NO_RULES, ONE_GRANT, base, "", "t", "publishClientSend");
    assert !MeaningKept(accounts, owners, NO_RULES, base, "admin", "", "t", "publishClientSend")
           || !MeaningKept(accounts, owners, ONE_GRANT, base, "admin", "", "t", "publishClientSend");
  }

  /** Whatever the legacy file, migration preserves the meaning for a user, exactly
      when that user is not named `admin`. */
  lemma {:induction false} MeaningKeptIff(
      accounts: seq<Account>, owners: map<string, Owner>, file: AclFile, base: Base, username: string)
    requires Fit(accounts, owners, file, base) && username in Names(accounts)
    ensures username != "admin" <==>
            forall f, clientid, topic, action ::
              MeaningKept(accounts, owners, f, base, username, clientid, topic, action)
  {
    if username != "admin" {
      forall f, clientid, topic, action
        ensures MeaningKept(accounts, owners, f, base, username, clientid, topic, action)
      {
        if Fit(accounts, owners, f, base) {
          var q := QueryFor(Migrated(accounts, owners, f, base), username, clientid, topic, action);
          MigrationPreservesMeaning(accounts, owners, f, base, q);
        }
      }
    } else {
      AdminLosesMeaning(accounts, owners, file, base);
    }
  }
}
