/** The identities to migrate: `parse_password_file` and `parse_owners`. */
module Accounts {
  import opened Results
  import opened Sequences
  import opened Strings
  import opened Sorting
  import opened LegacyAcl

  datatype Credential =
    | Argon2id(encoded: string)
    | Pbkdf2(password: string, salt: string, iterations: nat)

  datatype Account = Account(username: string, credential: Credential)

  datatype Owner = Owner(owner: string, group: string)

  datatype Refusal =
    | InvalidPasswordEntry(line: nat)
    | InvalidUsername(line: nat)
    | DuplicateUsername(username: string)
    | RotationRequired(usernames: seq<string>)
    | NoIdentities
    | InvalidHeader
    | EmptyOwnerField
    | InvalidGroup(group: string)
    | DuplicateOwner(username: string)
    | CoverageMismatch(missing: seq<string>, extra: seq<string>)

  // ----- password file

  /** What a line of the password file says. */
  datatype PasswordLine =
    | Skipped
    | Malformed
    | BadName
    | Login(username: string, credential: Option<Credential>)  // None: the hash must be rotated

  function ReadPasswordLine(raw: string): PasswordLine {
    var line := Strip(raw);
    if line == "" || line[0] == '#' then Skipped
    else
      var fields := Split(line, ':');
      if |fields| < 2 then Malformed
      else if !ValidName(fields[0]) then BadName
      else Login(fields[0], ReadHash(Join(fields[1..], ':')))
  }

  function ReadHash(hash: string): Option<Credential> {
    if "$argon2id$" <= hash then Some(Argon2id(hash))
    else if "$7$" <= hash then
      var parts := Split(hash, '$');
      if |parts| != 5 || !IsDigits(parts[2]) || parts[3] == "" || parts[4] == "" then None
      else Some(Pbkdf2(parts[4], parts[3], Number(parts[2])))
    else None
  }

  /** The text of a PBKDF2 entry. */
  function Pbkdf2Text(digits: string, salt: string, password: string): string {
    "$7$" + digits + "$" + salt + "$" + password
  }

  ghost predicate Pbkdf2Fields(digits: string, salt: string, password: string) {
    IsDigits(digits) && salt != "" && password != "" && '$' !in salt && '$' !in password
  }

  lemma {:induction false} Pbkdf2Parts(digits: string, salt: string, password: string)
    requires Pbkdf2Fields(digits, salt, password)
    ensures Pbkdf2Text(digits, salt, password) == Join(["", "7", digits, salt, password], '$')
    ensures Split(Pbkdf2Text(digits, salt, password), '$') == ["", "7", digits, salt, password]
  {
    var parts := ["", "7", digits, salt, password];
    assert parts[1..] == ["7", digits, salt, password] && parts[1..][1..] == [digits, salt, password];
    assert parts[1..][1..][1..] == [salt, password] && parts[1..][1..][1..][1..] == [password];
    assert Join([password], '$') == password;
    assert Join([salt, password], '$') == salt + ['$'] + password;
    assert Join([digits, salt, password], '$') == digits + ['$'] + (salt + ['$'] + password);
    assert Join(["7", digits, salt, password], '$') == "7" + ['$'] + (digits + ['$'] + (salt + ['$'] + password));
    SplitJoin(parts, '$');
  }

  /** A PBKDF2 entry holds iterations, salt and password, in this order. */
  lemma {:induction false} Pbkdf2Reads(digits: string, salt: string, password: string)
    requires Pbkdf2Fields(digits, salt, password)
    ensures ReadHash(Pbkdf2Text(digits, salt, password)) == Some(Pbkdf2(password, salt, Number(digits)))
  {
    Pbkdf2Parts(digits, salt, password);
    var text := Pbkdf2Text(digits, salt, password);
    assert text[1] == '7' && "$argon2id$"[1] == 'a';
  }

  /** What can be migrated: an Argon2id text, kept as it is, or a PBKDF2 entry. */
  lemma {:induction false} HashIsReadIff(hash: string)
    ensures "$argon2id$" <= hash ==> ReadHash(hash) == Some(Argon2id(hash))
    ensures ReadHash(hash).Some? <==>
            || "$argon2id$" <= hash
            || exists digits, salt, password ::
                 Pbkdf2Fields(digits, salt, password) && hash == Pbkdf2Text(digits, salt, password)
  {
    if ReadHash(hash).Some? && !("$argon2id$" <= hash) {
      var parts := Split(hash, '$');
      SplitParts(hash, '$');
      JoinSplit(hash, '$');
      assert hash == "$7$" + hash[3..];
      SplitConcat("", hash[1..], '$');
      SplitConcat("7", hash[3..], '$');
      assert hash == "" + ['$'] + hash[1..] && hash[1..] == "7" + ['$'] + hash[3..];
      SplitWithoutSep("", '$');
      SplitWithoutSep("7", '$');
      assert parts == ["", "7", parts[2], parts[3], parts[4]];
      Pbkdf2Parts(parts[2], parts[3], parts[4]);
    }
    if digits, salt, password :|
      Pbkdf2Fields(digits, salt, password) && hash == Pbkdf2Text(digits, salt, password)
    {
      Pbkdf2Reads(digits, salt, password);
    }
  }

  /** A line names an identity up to the first colon; the rest is its hash. */
  lemma {:induction false} LoginReads(name: string, hash: string)
    requires ValidName(name) && hash != "" && !IsSpace(hash[|hash| - 1])
    ensures ReadPasswordLine(name + ":" + hash) == Login(name, ReadHash(hash))
    ensures ReadPasswordLine(name) == Malformed
  {
    assert ':' !in name && Strip(name) == name && name[0] != '#';
    var line := name + [':'] + hash;
    SplitConcat(name, hash, ':');
    SplitWithoutSep(name, ':');
    JoinSplit(hash, ':');
    assert Split(line, ':')[1..] == Split(hash, ':');
    assert IsNameChar(line[0]) && Strip(line) == line;
  }

  /** Something before the first colon that is no name is reported as such. */
  lemma {:induction false} BadNameReads(word: string, hash: string)
    requires NoSpace(word) && NoSpace(hash) && ':' !in word && !ValidName(word) && (word != "" ==> word[0] != '#')
    ensures ReadPasswordLine(word + ":" + hash) == BadName
  {
    var line := word + [':'] + hash;
    SplitConcat(word, hash, ':');
    SplitWithoutSep(word, ':');
    assert !IsSpace(line[0]) && !IsSpace(line[|line| - 1]) && Strip(line) == line;
  }

  function ReadPasswordLines(raw: seq<string>): seq<PasswordLine> {
    seq(|raw|, i requires 0 <= i < |raw| => ReadPasswordLine(raw[i]))
  }

  function Names(accounts: seq<Account>): seq<string> {
    seq(|accounts|, i requires 0 <= i < |accounts| => accounts[i].username)
  }

  /** The accounts that the lines name, in their order. */
  function Logins(lines: seq<PasswordLine>): seq<Account> {
    if lines == [] then []
    else
      var rest := Logins(lines[..|lines| - 1]);
      match lines[|lines| - 1]
      case Login(username, Some(credential)) => rest + [Account(username, credential)]
      case _ => rest
  }

  predicate Sound(line: PasswordLine) {
    line.Skipped? || (line.Login? && line.credential.Some?)
  }

  /** What the file must be: sound lines only, every identity once, and at least one. */
  ghost predicate Acceptable(lines: seq<PasswordLine>) {
    && (forall i :: 0 <= i < |lines| ==> Sound(lines[i]))
    && Distinct(Names(Logins(lines)))
    && Logins(lines) != []
  }

  /** The identities whose hash must be rotated, in the order of their lines. */
  function Rotations(lines: seq<PasswordLine>): seq<string> {
    if lines == [] then []
    else
      var rest := Rotations(lines[..|lines| - 1]);
      match lines[|lines| - 1]
      case Login(username, None) => rest + [username]
      case _ => rest
  }

  /** Reading stops at line `i`: it is no entry, or names an identity already taken up. */
  predicate Stops(lines: seq<PasswordLine>, i: int)
  {
    && 0 <= i < |lines|
    && (lines[i].Malformed? || lines[i].BadName?
        || (lines[i].Login? && lines[i].username in Names(Logins(lines[..i]))))
  }

  ghost predicate NoStopBefore(lines: seq<PasswordLine>, n: int) {
    forall i :: 0 <= i < n ==> !Stops(lines, i)
  }

  ghost predicate StopsFirst(lines: seq<PasswordLine>, i: int) {
    Stops(lines, i) && NoStopBefore(lines, i)
  }

  /** Which error is raised, and for which line: the first line that stops reading, or
      else the hashes to be rotated, or else that there is no identity. */
  ghost predicate PasswordFault(lines: seq<PasswordLine>, e: Refusal) {
    || (e.InvalidPasswordEntry? && StopsFirst(lines, e.line - 1) && lines[e.line - 1].Malformed?)
    || (e.InvalidUsername? && StopsFirst(lines, e.line - 1) && lines[e.line - 1].BadName?)
    || (e.DuplicateUsername? && StopsAtName(lines, e.username))
    || (e.RotationRequired? && NoStopBefore(lines, |lines|)
        && Rotations(lines) != [] && e.usernames == Sort(StrLeq, Rotations(lines)))
    || (e.NoIdentities? && NoStopBefore(lines, |lines|) && Rotations(lines) == [] && Logins(lines) == [])
  }

  ghost predicate StopsAtName(lines: seq<PasswordLine>, username: string) {
    exists i :: StopsFirst(lines, i) && lines[i].Login? && lines[i].username == username
  }

  lemma {:induction false} PasswordFaultIsUnique(lines: seq<PasswordLine>, e: Refusal, f: Refusal)
    requires PasswordFault(lines, e) && PasswordFault(lines, f)
    ensures e == f
  {
    forall i, j | StopsFirst(lines, i) && StopsFirst(lines, j) ensures i == j {}
    forall i | StopsFirst(lines, i) ensures !NoStopBefore(lines, |lines|) {}
  }

  lemma {:induction false} LoginsStep(lines: seq<PasswordLine>, i: nat)
    requires i < |lines|
    ensures Logins(lines[..i + 1]) ==
            if lines[i].Login? && lines[i].credential.Some?
            then Logins(lines[..i]) + [Account(lines[i].username, lines[i].credential.value)]
            else Logins(lines[..i])
    ensures Rotations(lines[..i + 1]) ==
            if lines[i].Login? && lines[i].credential == None
            then Rotations(lines[..i]) + [lines[i].username]
            else Rotations(lines[..i])
  {
    assert lines[..i + 1][..i] == lines[..i];
  }

  lemma {:induction false} LoginsGrow(lines: seq<PasswordLine>, i: nat)
    requires i <= |lines|
    ensures Names(Logins(lines[..i])) <= Names(Logins(lines))
    decreases |lines| - i
  {
    if i < |lines| {
      LoginsStep(lines, i);
      LoginsGrow(lines, i + 1);
    } else {
      assert lines[..i] == lines;
    }
  }

  lemma {:induction false} NewNameDistinct(accounts: seq<Account>, account: Account)
    requires Distinct(Names(accounts)) && account.username !in Names(accounts)
    ensures Distinct(Names(accounts + [account]))
  {
    assert Names(accounts + [account]) == Names(accounts) + [account.username];
    DistinctAppend(Names(accounts), account.username);
  }

  /** As long as nothing stops reading, the identities taken up are distinct. */
  lemma {:induction false} LoginsDistinct(lines: seq<PasswordLine>, n: nat)
    requires n <= |lines| && NoStopBefore(lines, n)
    ensures Distinct(Names(Logins(lines[..n])))
  {
    if n > 0 {
      LoginsDistinct(lines, n - 1);
      LoginsStep(lines, n - 1);
      var before, line := Logins(lines[..n - 1]), lines[n - 1];
      assert !Stops(lines, n - 1);
      if line.Login? && line.credential.Some? {
        NewNameDistinct(before, Account(line.username, line.credential.value));
      }
    }
  }

  lemma {:induction false} RepeatedLogin(lines: seq<PasswordLine>, i: nat)
    requires i < |lines| && lines[i].Login? && lines[i].credential.Some?
    requires lines[i].username in Names(Logins(lines[..i]))
    ensures !Distinct(Names(Logins(lines)))
  {
    LoginsStep(lines, i);
    LoginsGrow(lines, i + 1);
    var before, after := Names(Logins(lines[..i])), Names(Logins(lines[..i + 1]));
    var k :| 0 <= k < |before| && before[k] == lines[i].username;
    assert after[k] == before[k] && after[|before|] == lines[i].username;
  }

  lemma {:induction false} SoundWithoutRotations(lines: seq<PasswordLine>)
    requires Rotations(lines) == []
    ensures forall i :: 0 <= i < |lines| && lines[i].Login? ==> lines[i].credential.Some?
  {
    if lines != [] { SoundWithoutRotations(lines[..|lines| - 1]); }
  }

  lemma {:induction false} NoRotations(lines: seq<PasswordLine>)
    requires forall i :: 0 <= i < |lines| ==> Sound(lines[i])
    ensures Rotations(lines) == []
  {
    if lines != [] { NoRotations(lines[..|lines| - 1]); }
  }

  lemma {:induction false} AcceptableIff(lines: seq<PasswordLine>)
    ensures Acceptable(lines) <==>
            NoStopBefore(lines, |lines|) && Rotations(lines) == [] && Logins(lines) != []
  {
    if Acceptable(lines) {
      NoRotations(lines);
      forall i | 0 <= i < |lines| ensures !Stops(lines, i) {
        assert Sound(lines[i]);
        if lines[i].Login? && lines[i].username in Names(Logins(lines[..i])) { RepeatedLogin(lines, i); }
      }
    }
    if NoStopBefore(lines, |lines|) && Rotations(lines) == [] {
      SoundWithoutRotations(lines);
      forall i | 0 <= i < |lines| ensures Sound(lines[i]) { assert !Stops(lines, i); }
      LoginsDistinct(lines, |lines|);
      assert lines[..|lines|] == lines;
    }
  }

  /** The loop of `parse_password_file` over lines that have been read. */
  method CollectAccounts(lines: seq<PasswordLine>) returns (r: Result<seq<Account>, Refusal>)
    ensures r.Ok? ==> Acceptable(lines) && r.value == Logins(lines)
    ensures r.Err? ==> !Acceptable(lines) && PasswordFault(lines, r.error)
  {
    AcceptableIff(lines);
    var clients: seq<Account> := [];
    var rotation: seq<string> := [];
    for i := 0 to |lines|
      invariant clients == Logins(lines[..i])
      invariant rotation == Rotations(lines[..i])
      invariant NoStopBefore(lines, i)
    {
      LoginsStep(lines, i);
      match lines[i] {
        case Skipped =>
        case Malformed =>
          assert Stops(lines, i);
          return Err(InvalidPasswordEntry(i + 1));
        case BadName =>
          assert Stops(lines, i);
          return Err(InvalidUsername(i + 1));
        case Login(username, credential) =>
          if username in Names(clients) {
            assert StopsFirst(lines, i);
            return Err(DuplicateUsername(username));
          }
          match credential {
            case None => rotation := rotation + [username];
            case Some(c) => clients := clients + [Account(username, c)];
          }
      }
    }
    assert lines[..|lines|] == lines;
    if rotation != [] { return Err(RotationRequired(Sort(StrLeq, rotation))); }
    if clients == [] { return Err(NoIdentities); }
    r := Ok(clients);
  }

  /** `parse_password_file`: succeeds exactly on acceptable files, with one account
      for each line that names one, and otherwise raises the error of the first fault. */
  method ParsePasswordFile(text: string) returns (r: Result<seq<Account>, Refusal>)
    ensures var lines := ReadPasswordLines(SplitLines(text));
            && (r.Ok? ==> Acceptable(lines) && r.value == Logins(lines))
            && (r.Err? ==> !Acceptable(lines) && PasswordFault(lines, r.error))
  {
    r := CollectAccounts(ReadPasswordLines(SplitLines(text)));
  }

  // ----- sorted lists of sets

  /** What `sorted` makes of a set. */
  ghost predicate Listing(list: seq<string>, s: set<string>) {
    Sorted(StrLeq, list) && Distinct(list) && Elements(list) == s
  }

  lemma {:induction false} EmptyListing(list: seq<string>, s: set<string>)
    requires Listing(list, s)
    ensures list == [] <==> s == {}
  {
    if list != [] { assert list[0] in Elements(list); }
  }

  method SortedList(s: set<string>) returns (list: seq<string>)
    ensures Listing(list, s)
  {
    var rest := s;
    list := [];
    while rest != {}
      invariant Elements(list) + rest == s && Elements(list) !! rest && Distinct(list)
    {
      var x :| x in rest;
      DistinctAppend(list, x);
      assert x !in Elements(list) && Elements(list + [x]) == Elements(list) + {x};
      list, rest := list + [x], rest - {x};
    }
    StrOrder();
    SortSorted(StrLeq, list);
    SortKeepsDistinct(StrLeq, list);
    SortMembers(StrLeq, list);
    assert forall x :: x in Elements(list) <==> x in list;
    list := Sort(StrLeq, list);
    assert forall x :: x in Elements(list) <==> x in list;
  }

  lemma {:induction false} StrOrder()
    ensures TotalPreorder(StrLeq)
  {
    forall a, b ensures StrLeq(a, b) || StrLeq(b, a) { StrLeqTotal(a, b); }
    forall a, b, c | StrLeq(a, b) && StrLeq(b, c) ensures StrLeq(a, c) { StrLeqTransitive(a, b, c); }
  }

  lemma {:induction false} OnlyTie(list: seq<string>, y: string)
    requires Distinct(list)
    ensures Filter(Ties(StrLeq, y), list) == if y in list then [y] else []
  {
    StrLeqTotal(y, y);
    if list != [] {
      assert list == [list[0]] + list[1..];
      DistinctCons(list[0], list[1..]);
      OnlyTie(list[1..], y);
      if Ties(StrLeq, y)(list[0]) { StrLeqAntisymmetric(y, list[0]); }
    }
  }

  lemma {:induction false} ListingIsUnique(a: seq<string>, b: seq<string>, s: set<string>)
    requires Listing(a, s) && Listing(b, s)
    ensures a == b
  {
    StrOrder();
    forall y ensures Filter(Ties(StrLeq, y), a) == Filter(Ties(StrLeq, y), b) {
      OnlyTie(a, y);
      OnlyTie(b, y);
      assert (y in a <==> y in Elements(a)) && (y in b <==> y in Elements(b));
    }
    SortedByClasses(StrLeq, a, b);
  }

  // ----- ownership table

  /** A row after `(row.get(field) or "").strip()`. */
  datatype OwnerRow = OwnerRow(username: string, owner: string, group: string)

  predicate FilledRow(row: OwnerRow) {
    row.username != "" && row.owner != "" && row.group != ""
  }

  predicate CompleteRow(row: OwnerRow) {
    FilledRow(row) && ValidName(row.group)
  }

  function RowNames(rows: seq<OwnerRow>): seq<string> {
    seq(|rows|, i requires 0 <= i < |rows| => rows[i].username)
  }

  const OWNER_HEADER := ["username", "owner", "group"]

  /** Complete rows, each identity once, and exactly the identities to migrate. */
  ghost predicate Covers(header: seq<string>, rows: seq<OwnerRow>, usernames: set<string>) {
    && header == ["username", "owner", "group"]
    && (forall i :: 0 <= i < |rows| ==>
          rows[i].username != "" && rows[i].owner != "" && rows[i].group != "" && ValidName(rows[i].group))
    && Distinct(RowNames(rows))
    && Elements(RowNames(rows)) == usernames
  }

  function OwnersOf(rows: seq<OwnerRow>): map<string, Owner> {
    if rows == [] then map[]
    else
      var last := rows[|rows| - 1];
      OwnersOf(rows[..|rows| - 1])[last.username := Owner(last.owner, last.group)]
  }

  lemma {:induction false} OwnersOfKeys(rows: seq<OwnerRow>)
    ensures OwnersOf(rows).Keys == Elements(RowNames(rows))
  {
    if rows != [] {
      var front, last := rows[..|rows| - 1], rows[|rows| - 1].username;
      OwnersOfKeys(front);
      assert RowNames(rows) == RowNames(front) + [last];
    }
  }

  /** With distinct names, every row is found under its name. */
  lemma {:induction false} OwnersOfRow(rows: seq<OwnerRow>, i: nat)
    requires i < |rows| && Distinct(RowNames(rows))
    ensures rows[i].username in OwnersOf(rows)
    ensures OwnersOf(rows)[rows[i].username] == Owner(rows[i].owner, rows[i].group)
  {
    var n := |rows| - 1;
    if i < n {
      forall j, k | 0 <= j < k < n ensures RowNames(rows[..n])[j] != RowNames(rows[..n])[k] {
        assert RowNames(rows)[j] != RowNames(rows)[k];
      }
      OwnersOfRow(rows[..n], i);
      assert RowNames(rows)[i] != RowNames(rows)[n];
    }
  }

  /** Reading stops at row `i`: a field is missing or wrong, or its name is taken. */
  predicate RowStops(rows: seq<OwnerRow>, i: int)
  {
    0 <= i < |rows| && (!CompleteRow(rows[i]) || rows[i].username in RowNames(rows[..i]))
  }

  ghost predicate NoRowStopsBefore(rows: seq<OwnerRow>, n: int) {
    forall i :: 0 <= i < n ==> !RowStops(rows, i)
  }

  ghost predicate RowStopsFirst(rows: seq<OwnerRow>, i: int) {
    RowStops(rows, i) && NoRowStopsBefore(rows, i)
  }

  /** The error for the first row that stops reading. */
  ghost predicate RowFault(rows: seq<OwnerRow>, e: Refusal) {
    exists i :: RowStopsFirst(rows, i) && FaultOfRow(rows[i], e)
  }

  predicate FaultOfRow(row: OwnerRow, e: Refusal) {
    e == if !FilledRow(row) then EmptyOwnerField
         else if !CompleteRow(row) then InvalidGroup(row.group)
         else DuplicateOwner(row.username)
  }

  /** Which error is raised: for the header, for the first row that stops reading, or
      for the identities without a row and the rows without an identity. */
  ghost predicate OwnersFault(header: seq<string>, rows: seq<OwnerRow>, usernames: set<string>, e: Refusal) {
    if header != OWNER_HEADER then e == InvalidHeader
    else
      var owned := Elements(RowNames(rows));
      || RowFault(rows, e)
      || (e.CoverageMismatch? && NoRowStopsBefore(rows, |rows|) && owned != usernames
          && Listing(e.missing, usernames - owned) && Listing(e.extra, owned - usernames))
  }

  lemma {:induction false} OwnersFaultIsUnique(
      header: seq<string>, rows: seq<OwnerRow>, usernames: set<string>, e: Refusal, f: Refusal)
    requires OwnersFault(header, rows, usernames, e) && OwnersFault(header, rows, usernames, f)
    ensures e == f
  {
    forall i, j | RowStopsFirst(rows, i) && RowStopsFirst(rows, j) ensures i == j {}
    forall i | RowStopsFirst(rows, i) ensures !NoRowStopsBefore(rows, |rows|) {}
    if e.CoverageMismatch? && f.CoverageMismatch? {
      ListingIsUnique(e.missing, f.missing, usernames - Elements(RowNames(rows)));
      ListingIsUnique(e.extra, f.extra, Elements(RowNames(rows)) - usernames);
    }
  }

  lemma {:induction false} RowsDistinctIff(rows: seq<OwnerRow>, n: nat)
    requires n <= |rows|
    ensures NoRowStopsBefore(rows, n) <==>
            Distinct(RowNames(rows[..n])) && forall i :: 0 <= i < n ==> CompleteRow(rows[i])
  {
    if n > 0 {
      RowsDistinctIff(rows, n - 1);
      assert RowNames(rows[..n]) == RowNames(rows[..n - 1]) + [rows[n - 1].username];
      DistinctAppend(RowNames(rows[..n - 1]), rows[n - 1].username);
      if NoRowStopsBefore(rows, n) { assert !RowStops(rows, n - 1) && NoRowStopsBefore(rows, n - 1); }
      if NoRowStopsBefore(rows, n - 1) && !RowStops(rows, n - 1) { assert NoRowStopsBefore(rows, n); }
    }
  }

  /** The loop of `parse_owners` over the rows. */
  method CollectOwners(rows: seq<OwnerRow>) returns (r: Result<map<string, Owner>, Refusal>)
    ensures r.Ok? ==> NoRowStopsBefore(rows, |rows|) && r.value == OwnersOf(rows)
    ensures r.Err? ==> !NoRowStopsBefore(rows, |rows|) && RowFault(rows, r.error)
  {
    var owners: map<string, Owner> := map[];
    for i := 0 to |rows|
      invariant NoRowStopsBefore(rows, i)
      invariant owners == OwnersOf(rows[..i])
    {
      var row := rows[i];
      OwnersOfKeys(rows[..i]);
      if row.username == "" || row.owner == "" || row.group == "" {
        assert RowStopsFirst(rows, i);
        return Err(EmptyOwnerField);
      }
      if !ValidName(row.group) {
        assert RowStopsFirst(rows, i);
        return Err(InvalidGroup(row.group));
      }
      if row.username in owners {
        assert RowStopsFirst(rows, i);
        return Err(DuplicateOwner(row.username));
      }
      assert rows[..i + 1][..i] == rows[..i];
      owners := owners[row.username := Owner(row.owner, row.group)];
    }
    assert rows[..|rows|] == rows;
    r := Ok(owners);
  }

  /** The comparison of the identities that have a row with those to migrate. */
  method CheckCoverage(owned: set<string>, usernames: set<string>) returns (r: Option<Refusal>)
    ensures owned == usernames ==> r == None
    ensures owned != usernames ==>
              && r.Some? && r.value.CoverageMismatch?
              && Listing(r.value.missing, usernames - owned) && Listing(r.value.extra, owned - usernames)
  {
    var missing := SortedList(usernames - owned);
    var extra := SortedList(owned - usernames);
    EmptyListing(missing, usernames - owned);
    EmptyListing(extra, owned - usernames);
    r := if missing != [] || extra != [] then Some(CoverageMismatch(missing, extra)) else None;
  }

  /** `parse_owners`, after the CSV reader. */
  method ParseOwners(header: seq<string>, rows: seq<OwnerRow>, usernames: set<string>)
    returns (r: Result<map<string, Owner>, Refusal>)
    ensures r.Ok? ==> Covers(header, rows, usernames) && r.value == OwnersOf(rows)
    ensures r.Err? ==> !Covers(header, rows, usernames) && OwnersFault(header, rows, usernames, r.error)
  {
    if header != OWNER_HEADER { return Err(InvalidHeader); }
    RowsDistinctIff(rows, |rows|);
    assert rows[..|rows|] == rows;
    var owners := CollectOwners(rows);
    if owners.Err? { return Err(owners.error); }
    OwnersOfKeys(rows);
    var mismatch := CheckCoverage(owners.value.Keys, usernames);
    r := if mismatch.Some? then Err(mismatch.value) else owners;
  }
}
