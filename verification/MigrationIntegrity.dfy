/** What `migrate` conserves: every legacy identity becomes one client with one role
    and one group membership, and all references resolve. */
module MigrationIntegrity {
  import opened Sequences
  import opened Strings
  import opened Sorting
  import opened Policy
  import opened RuleSets
  import opened LegacyAcl
  import opened Accounts
  import opened Migration

  function Usernames(clients: seq<ClientRecord>): seq<string> {
    seq(|clients|, i requires 0 <= i < |clients| => clients[i].username)
  }

  function GroupNames(groups: seq<GroupRecord>): seq<string> {
    seq(|groups|, i requires 0 <= i < |groups| => groups[i].groupname)
  }

  function MemberCount(groups: seq<GroupRecord>): nat {
    if groups == [] then 0 else |groups[0].clients| + MemberCount(groups[1..])
  }

  // ----- clients

  /** After the administrator, with its own credential and the two administrative roles,
      one client for each identity, with its credential and its own role. */
  lemma {:induction false} OneClientEach(accounts: seq<Account>, owners: map<string, Owner>, file: AclFile, base: Base)
    requires Fit(accounts, owners, file, base)
    ensures var clients := Migrated(accounts, owners, file, base).clients;
            && |clients| == |accounts| + 1 && IsAdministrator(clients[0], base)
            && multiset(Usernames(clients[1..])) == multiset(Names(accounts))
            && forall a :: a in accounts ==>
                 ClientRecord(a.username, a.credential, [Assignment("migrated-" + a.username, 50)]) in clients[1..]
  {
    var ordered := Sort(ByName, accounts);
    var clients := Migrated(accounts, owners, file, base).clients;
    FoundClient(base.clients, "admin");
    SortNames(accounts);
    SortElements(ByName, accounts);
    assert |multiset(ordered)| == |ordered| && |multiset(accounts)| == |accounts|;
    assert clients[1..] == ClientsFor(ordered);
    assert Usernames(ClientsFor(ordered)) == Names(ordered);
    forall a | a in accounts
      ensures ClientRecord(a.username, a.credential, [Assignment("migrated-" + a.username, 50)]) in clients[1..]
    {
      ClientAmong(accounts, a);
    }
    var k :| FirstNamed(base.clients, "admin", k) && base.clients[k] == FindClient(base.clients, "admin").value;
    assert IsAdministrator(clients[0], base);
  }

  /** The first `admin` of the base state, with two roles. */
  ghost predicate IsAdministrator(c: ClientRecord, base: Base) {
    && c.username == "admin" && c.roles == [Assignment("dynsec-admin", 100), Assignment("sys-observe", 10)]
    && exists k :: FirstNamed(base.clients, "admin", k) && c.credential == base.clients[k].credential
  }

  /** The preserved roles keep their rules in the migrated state. */
  lemma {:induction false} PreservedRolesKept(
      accounts: seq<Account>, owners: map<string, Owner>, file: AclFile, base: Base, r: RoleRecord, k: int)
    requires Fit(accounts, owners, file, base) && LastNamed(base.roles, r, k)
    requires r.rolename in {"dynsec-admin", "sys-observe", "sys-notify"}
    ensures r in Migrated(accounts, owners, file, base).roles
  {
    PreservedIff(base.roles, r);
  }

  lemma {:induction false} ClientAmong(accounts: seq<Account>, a: Account)
    requires a in accounts
    ensures ClientFor(a) in ClientsFor(Sort(ByName, accounts))
  {
    var ordered := Sort(ByName, accounts);
    SortMembers(ByName, accounts);
    var k :| 0 <= k < |ordered| && ordered[k] == a;
    assert ClientsFor(ordered)[k] == ClientFor(a);
  }

  lemma {:induction false} UsernamesOfClients(admin: ClientRecord, accounts: seq<Account>)
    ensures Usernames([admin] + ClientsFor(accounts)) == [admin.username] + Names(accounts)
  {
  }

  lemma {:induction false} SortKeepsNames(accounts: seq<Account>, u: string)
    ensures u in Names(Sort(ByName, accounts)) <==> u in Names(accounts)
  {
    SortNames(accounts);
    assert u in Names(accounts) <==> u in multiset(Names(accounts));
    assert u in Names(Sort(ByName, accounts)) <==> u in multiset(Names(Sort(ByName, accounts)));
  }

  /** Usernames are unique exactly when no legacy identity is called `admin`. */
  lemma {:induction false} UsernamesDistinctIff(
      accounts: seq<Account>, owners: map<string, Owner>, file: AclFile, base: Base)
    requires Fit(accounts, owners, file, base)
    ensures Distinct(Usernames(Migrated(accounts, owners, file, base).clients)) <==> "admin" !in Names(accounts)
  {
    var admin := FindClient(base.clients, "admin").value.(roles := ADMIN_ROLES);
    FoundClient(base.clients, "admin");
    UsernamesOfClients(admin, Sort(ByName, accounts));
    SortDistinct(accounts);
    SortKeepsNames(accounts, "admin");
    DistinctCons("admin", Names(Sort(ByName, accounts)));
  }

  lemma {:induction false} NamesAreSorted(admin: ClientRecord, accounts: seq<Account>)
    ensures Sorted(StrLeq, Usernames(([admin] + ClientsFor(Sort(ByName, accounts)))[1..]))
  {
    StrOrder();
    SortSorted(ByName, accounts);
    assert ([admin] + ClientsFor(Sort(ByName, accounts)))[1..] == ClientsFor(Sort(ByName, accounts));
  }

  lemma {:induction false} GroupsAreSorted(
      first: GroupRecord, owners: map<string, Owner>, accounts: seq<Account>)
    ensures var names := OwnerGroupNames(owners, accounts);
            Sorted(StrLeq, GroupNames(([first] + OwnerGroups(names, owners, accounts))[1..]))
  {
    var names := OwnerGroupNames(owners, accounts);
    StrOrder();
    SortSorted(StrLeq, Unique(GroupsOf(owners, accounts)));
    assert ([first] + OwnerGroups(names, owners, accounts))[1..] == OwnerGroups(names, owners, accounts);
    assert GroupNames(OwnerGroups(names, owners, accounts)) == names;
  }

  lemma {:induction false} MembersAreSorted(group: string, owners: map<string, Owner>, accounts: seq<Account>)
    requires Sorted(StrLeq, Names(accounts))
    ensures Sorted(StrLeq, MemberNames(MembersOf(group, owners, accounts)))
  {
    if accounts != [] {
      var n := |accounts| - 1;
      var front, last := accounts[..n], accounts[n].username;
      var members := MembersOf(group, owners, front);
      assert Names(accounts) == Names(front) + [last];
      SortedAppend(StrLeq, Names(front), last);
      MembersAreSorted(group, owners, front);
      forall i | 0 <= i < |members| ensures StrLeq(members[i].name, last) {
        MembersAreAccounts(group, owners, front, members[i]);
      }
      SortedAppend(StrLeq, MemberNames(members), last);
      assert MemberNames(members + [Assignment(last, 50)]) == MemberNames(members) + [last];
      assert MemberNames(members + []) == MemberNames(members);
    }
  }

  function MemberNames(members: seq<Assignment>): seq<string> {
    seq(|members|, i requires 0 <= i < |members| => members[i].name)
  }

  /** The members of a group are written in the order of their names. */
  lemma {:induction false} GroupMembersSorted(group: string, owners: map<string, Owner>, accounts: seq<Account>)
    ensures Sorted(StrLeq, MemberNames(MembersOf(group, owners, Sort(ByName, accounts))))
  {
    StrOrder();
    SortSorted(ByName, accounts);
    MembersAreSorted(group, owners, Sort(ByName, accounts));
  }

  /** Clients and owner groups are written in the order of their names. */
  lemma {:induction false} ListsAreSorted(
      accounts: seq<Account>, owners: map<string, Owner>, file: AclFile, base: Base)
    requires Fit(accounts, owners, file, base)
    ensures Sorted(StrLeq, Usernames(Migrated(accounts, owners, file, base).clients[1..]))
    ensures Sorted(StrLeq, GroupNames(Migrated(accounts, owners, file, base).groups[1..]))
  {
    NamesAreSorted(FindClient(base.clients, "admin").value.(roles := ADMIN_ROLES), accounts);
    GroupsAreSorted(GroupRecord("unauthenticated", [], []), owners, Sort(ByName, accounts));
  }

  // ----- memberships

  lemma {:induction false} MembershipsInConcat(group: string, a: seq<Assignment>, b: seq<Assignment>, u: string)
    ensures MembershipsIn(group, a + b, u) == MembershipsIn(group, a, u) + MembershipsIn(group, b, u)
  {
    if a == [] {
      assert a + b == b;
    } else {
      assert (a + b)[1..] == a[1..] + b;
      MembershipsInConcat(group, a[1..], b, u);
      var mine := if a[0].name == u then [Assignment(group, a[0].priority)] else [];
      Regroup(mine, MembershipsIn(group, a[1..], u), MembershipsIn(group, b, u));
    }
  }

  lemma {:induction false} LastMembership(
      group: string, owners: map<string, Owner>, front: seq<Assignment>, last: string, u: string)
    ensures var mine := if GroupOf(owners, last) == group then [Assignment(last, 50)] else [];
            MembershipsIn(group, front + mine, u) ==
            MembershipsIn(group, front, u)
            + if u == last && GroupOf(owners, u) == group then [Assignment(group, 50)] else []
  {
    MembershipsInConcat(group, front, if GroupOf(owners, last) == group then [Assignment(last, 50)] else [], u);
  }

  /** How often, and where, a user is listed in the group made for one owner group. */
  lemma {:induction false} MemberOnce(group: string, owners: map<string, Owner>, accounts: seq<Account>, u: string)
    requires Distinct(Names(accounts))
    ensures MembershipsIn(group, MembersOf(group, owners, accounts), u) ==
            if u in Names(accounts) && GroupOf(owners, u) == group then [Assignment(group, 50)] else []
  {
    if accounts != [] {
      var front, last := accounts[..|accounts| - 1], accounts[|accounts| - 1].username;
      LastNameIsNew(accounts);
      MemberOnce(group, owners, front, u);
      LastMembership(group, owners, MembersOf(group, owners, front), last, u);
      assert u in Names(accounts) <==> u in Names(front) || u == last;
    }
  }

  lemma {:induction false} LastNameIsNew(accounts: seq<Account>)
    requires Distinct(Names(accounts)) && accounts != []
    ensures var front, last := accounts[..|accounts| - 1], accounts[|accounts| - 1].username;
            Names(accounts) == Names(front) + [last] && last !in Names(front) && Distinct(Names(front))
  {
    var front, last := accounts[..|accounts| - 1], accounts[|accounts| - 1].username;
    assert Names(accounts) == Names(front) + [last];
    DistinctAppend(Names(front), last);
  }

  lemma {:induction false} MembershipsOfGroups(
      names: seq<string>, owners: map<string, Owner>, accounts: seq<Account>, u: string)
    requires Distinct(Names(accounts)) && Distinct(names)
    ensures Memberships(OwnerGroups(names, owners, accounts), u) ==
            if u in Names(accounts) && GroupOf(owners, u) in names then [Assignment(GroupOf(owners, u), 50)] else []
  {
    if names != [] {
      assert OwnerGroups(names, owners, accounts)[1..] == OwnerGroups(names[1..], owners, accounts);
      assert names == [names[0]] + names[1..];
      DistinctCons(names[0], names[1..]);
      MembershipsOfGroups(names[1..], owners, accounts, u);
      MemberOnce(names[0], owners, accounts, u);
    }
  }

  function OwnerGroupNames(owners: map<string, Owner>, ordered: seq<Account>): seq<string> {
    Sort(StrLeq, Unique(GroupsOf(owners, ordered)))
  }

  /** The names of the owner groups: once each. */
  lemma {:induction false} OwnerGroupsOnce(owners: map<string, Owner>, ordered: seq<Account>)
    ensures Distinct(OwnerGroupNames(owners, ordered))
    ensures forall g :: g in OwnerGroupNames(owners, ordered) <==> g in GroupsOf(owners, ordered)
  {
    var groups := GroupsOf(owners, ordered);
    UniqueDistinct(groups);
    SortKeepsDistinct(StrLeq, Unique(groups));
    SortMembers(StrLeq, Unique(groups));
    forall g ensures g in Unique(groups) <==> g in groups { UniqueMembers(groups, g); }
  }

  lemma {:induction false} GroupIsListed(owners: map<string, Owner>, ordered: seq<Account>, u: string)
    requires u in Names(ordered)
    ensures GroupOf(owners, u) in GroupsOf(owners, ordered)
  {
    var k :| 0 <= k < |Names(ordered)| && Names(ordered)[k] == u;
    assert GroupsOf(owners, ordered)[k] == GroupOf(owners, u);
  }

  /** Every identity is listed exactly once in all groups: under its owner's group. */
  lemma {:induction false} OneMembershipEach(
      accounts: seq<Account>, owners: map<string, Owner>, file: AclFile, base: Base, u: string)
    requires Fit(accounts, owners, file, base)
    ensures Memberships(Migrated(accounts, owners, file, base).groups, u) ==
            if u in Names(accounts) then [Assignment(owners[u].group, 50)] else []
  {
    var ordered, groups := Sort(ByName, accounts), Migrated(accounts, owners, file, base).groups;
    SortDistinct(accounts);
    SortNames(accounts);
    assert u in Names(ordered) <==> u in multiset(Names(ordered));
    assert u in Names(accounts) <==> u in multiset(Names(accounts));
    var names := OwnerGroupNames(owners, ordered);
    OwnerGroupsOnce(owners, ordered);
    MembershipsOfGroups(names, owners, ordered, u);
    if u in Names(ordered) { GroupIsListed(owners, ordered, u); }
    assert groups[1..] == OwnerGroups(names, owners, ordered);
    assert u in Names(accounts) ==> u in Elements(Names(accounts));
  }

  // ----- the number of memberships

  function CountIn(names: seq<string>, owners: map<string, Owner>, accounts: seq<Account>): nat {
    if accounts == [] then 0
    else
      CountIn(names, owners, accounts[..|accounts| - 1])
      + if GroupOf(owners, accounts[|accounts| - 1].username) in names then 1 else 0
  }

  lemma {:induction false} CountSplits(
      g: string, names: seq<string>, owners: map<string, Owner>, accounts: seq<Account>)
    requires g !in names
    ensures CountIn([g] + names, owners, accounts) ==
            |MembersOf(g, owners, accounts)| + CountIn(names, owners, accounts)
  {
    if accounts != [] { CountSplits(g, names, owners, accounts[..|accounts| - 1]); }
  }

  lemma {:induction false} CountOfGroups(names: seq<string>, owners: map<string, Owner>, accounts: seq<Account>)
    requires Distinct(names)
    ensures MemberCount(OwnerGroups(names, owners, accounts)) == CountIn(names, owners, accounts)
  {
    if names == [] {
      NoGroupsNoCount(owners, accounts);
    } else {
      assert names == [names[0]] + names[1..];
      DistinctCons(names[0], names[1..]);
      CountOfGroups(names[1..], owners, accounts);
      CountSplits(names[0], names[1..], owners, accounts);
      assert OwnerGroups(names, owners, accounts)[1..] == OwnerGroups(names[1..], owners, accounts);
    }
  }

  lemma {:induction false} NoGroupsNoCount(owners: map<string, Owner>, accounts: seq<Account>)
    ensures CountIn([], owners, accounts) == 0
  {
    if accounts != [] { NoGroupsNoCount(owners, accounts[..|accounts| - 1]); }
  }

  lemma {:induction false} AllCounted(names: seq<string>, owners: map<string, Owner>, accounts: seq<Account>)
    requires forall i :: 0 <= i < |accounts| ==> GroupOf(owners, accounts[i].username) in names
    ensures CountIn(names, owners, accounts) == |accounts|
  {
    if accounts != [] { AllCounted(names, owners, accounts[..|accounts| - 1]); }
  }

  /** All memberships together are as many as the identities. */
  lemma {:induction false} MembershipsTotal(
      accounts: seq<Account>, owners: map<string, Owner>, file: AclFile, base: Base)
    requires Fit(accounts, owners, file, base)
    ensures MemberCount(Migrated(accounts, owners, file, base).groups) == |accounts|
  {
    var ordered, groups := Sort(ByName, accounts), Migrated(accounts, owners, file, base).groups;
    SortElements(ByName, accounts);
    assert |multiset(ordered)| == |ordered| && |multiset(accounts)| == |accounts|;
    var names := OwnerGroupNames(owners, ordered);
    OwnerGroupsOnce(owners, ordered);
    forall i | 0 <= i < |ordered| ensures GroupOf(owners, ordered[i].username) in names {
      assert Names(ordered)[i] in Names(ordered);
      GroupIsListed(owners, ordered, ordered[i].username);
    }
    AllCounted(names, owners, ordered);
    CountOfGroups(names, owners, ordered);
    assert groups[1..] == OwnerGroups(names, owners, ordered);
  }

  lemma {:induction false} NamesOfGroups(
      first: GroupRecord, names: seq<string>, owners: map<string, Owner>, accounts: seq<Account>)
    ensures GroupNames([first] + OwnerGroups(names, owners, accounts)) == [first.groupname] + names
  {
  }

  /** Group names are unique exactly when no owner uses the name `unauthenticated`. */
  lemma {:induction false} GroupNamesDistinctIff(
      accounts: seq<Account>, owners: map<string, Owner>, file: AclFile, base: Base)
    requires Fit(accounts, owners, file, base)
    ensures Distinct(GroupNames(Migrated(accounts, owners, file, base).groups)) <==>
            forall u :: u in Names(accounts) ==> owners[u].group != "unauthenticated"
  {
    var ordered := Sort(ByName, accounts);
    var names := OwnerGroupNames(owners, ordered);
    OwnerGroupsOnce(owners, ordered);
    NamesOfGroups(GroupRecord("unauthenticated", [], []), names, owners, ordered);
    UnauthenticatedListed(accounts, owners);
    DistinctCons("unauthenticated", names);
  }

  lemma {:induction false} UnauthenticatedListed(accounts: seq<Account>, owners: map<string, Owner>)
    requires owners.Keys == Elements(Names(accounts))
    ensures "unauthenticated" in GroupsOf(owners, Sort(ByName, accounts)) <==>
            exists u :: u in Names(accounts) && owners[u].group == "unauthenticated"
  {
    var ordered := Sort(ByName, accounts);
    SortNames(accounts);
    forall u ensures u in Names(ordered) <==> u in Names(accounts) {
      assert u in Names(ordered) <==> u in multiset(Names(ordered));
      assert u in Names(accounts) <==> u in multiset(Names(accounts));
    }
    if "unauthenticated" in GroupsOf(owners, ordered) {
      var k :| 0 <= k < |ordered| && GroupsOf(owners, ordered)[k] == "unauthenticated";
      assert Names(ordered)[k] in Names(accounts);
      assert Names(ordered)[k] in Elements(Names(accounts));
    }
    forall u | u in Names(accounts) && owners[u].group == "unauthenticated"
      ensures "unauthenticated" in GroupsOf(owners, ordered)
    {
      GroupIsListed(owners, ordered, u);
    }
  }

  // ----- references

  /** Role names are unique, and every role a client is assigned exists. */
  lemma {:induction false} RolesResolve(accounts: seq<Account>, owners: map<string, Owner>, file: AclFile, base: Base)
    requires Fit(accounts, owners, file, base)
    ensures var d := Migrated(accounts, owners, file, base);
            && Distinct(RoleNames(d.roles))
            && forall c, a :: c in d.clients && a in c.roles ==> a.name in RoleNames(d.roles)
  {
    var ordered, preserved := Sort(ByName, accounts), PreservedRoles(base.roles);
    SortDistinct(accounts);
    PreservedNames(base.roles);
    RoleNamesDistinct(preserved, file, ordered);
    AssignmentsResolve(FindClient(base.clients, "admin").value, preserved, file, ordered);
  }

  lemma {:induction false} AssignmentsResolve(
      admin: ClientRecord, preserved: seq<RoleRecord>, file: AclFile, ordered: seq<Account>)
    requires "dynsec-admin" in RoleNames(preserved) && "sys-observe" in RoleNames(preserved)
    ensures forall c, a :: c in [admin.(roles := ADMIN_ROLES)] + ClientsFor(ordered) && a in c.roles ==>
              a.name in RoleNames(preserved + RolesFor(file, ordered))
  {
    var clients := [admin.(roles := ADMIN_ROLES)] + ClientsFor(ordered);
    assert RoleNames(preserved + RolesFor(file, ordered)) == RoleNames(preserved) + RoleNames(RolesFor(file, ordered));
    forall c, a | c in clients && a in c.roles ensures a.name in RoleNames(preserved + RolesFor(file, ordered)) {
      var k :| 0 <= k < |clients| && clients[k] == c;
      if k == 0 {
        assert a == ADMIN_ROLES[0] || a == ADMIN_ROLES[1];
      } else {
        AssignedRole(file, ordered, k - 1, a);
      }
    }
  }

  lemma {:induction false} AssignedRole(file: AclFile, accounts: seq<Account>, k: nat, a: Assignment)
    requires k < |accounts| && a in ClientsFor(accounts)[k].roles
    ensures a.name in RoleNames(RolesFor(file, accounts))
  {
    assert RoleNames(RolesFor(file, accounts))[k] == RoleName(accounts[k].username);
  }

  lemma {:induction false} MembersAreAccounts(
      group: string, owners: map<string, Owner>, accounts: seq<Account>, m: Assignment)
    requires m in MembersOf(group, owners, accounts)
    ensures m.name in Names(accounts)
  {
    var front, last := accounts[..|accounts| - 1], accounts[|accounts| - 1].username;
    assert Names(accounts) == Names(front) + [last];
    if m in MembersOf(group, owners, front) { MembersAreAccounts(group, owners, front, m); }
  }

  lemma {:induction false} MembersOfOwnerGroups(
      names: seq<string>, owners: map<string, Owner>, accounts: seq<Account>, g: GroupRecord, m: Assignment)
    requires g in OwnerGroups(names, owners, accounts) && m in g.clients
    ensures m.name in Names(accounts)
  {
    var k :| 0 <= k < |names| && OwnerGroups(names, owners, accounts)[k] == g;
    MembersAreAccounts(names[k], owners, accounts, m);
  }

  /** Every group member is one of the clients. */
  lemma {:induction false} MembersResolve(
      accounts: seq<Account>, owners: map<string, Owner>, file: AclFile, base: Base)
    requires Fit(accounts, owners, file, base)
    ensures var d := Migrated(accounts, owners, file, base);
            forall g, m :: g in d.groups && m in g.clients ==> m.name in Usernames(d.clients)
  {
    var d, ordered := Migrated(accounts, owners, file, base), Sort(ByName, accounts);
    var names := OwnerGroupNames(owners, ordered);
    OwnerGroupsOnce(owners, ordered);
    UsernamesOfClients(FindClient(base.clients, "admin").value.(roles := ADMIN_ROLES), ordered);
    forall g, m | g in d.groups && m in g.clients ensures m.name in Usernames(d.clients) {
      assert g in OwnerGroups(names, owners, ordered);
      MembersOfOwnerGroups(names, owners, ordered, g, m);
    }
  }
}
