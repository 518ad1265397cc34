/** What the lines of a legacy ACL file mean, word by word, and that migration keeps it:
    from the text of the file to the decision on the migrated state. */
module LegacyMeaning {
  import opened Results
  import opened Strings
  import opened TopicFilter
  import opened Policy
  import opened LegacyAcl
  import opened Accounts
  import opened Migration

  // ----- one line

  /** Which types of access a word of the file is about. */
  predicate Covers(access: string, acltype: string) {
    if acltype == "publishClientSend" then access in {"write", "readwrite", "deny"}
    else
      && acltype in {"publishClientReceive", "subscribePattern", "unsubscribePattern"}
      && access in {"read", "readwrite", "deny"}
  }

  /** One rule for each covered type, which only `deny` denies, with priority. */
  ghost predicate RulesMean(rules: seq<Acl>, access: string, topic: string) {
    forall rule :: rule in rules <==>
      && rule.topic == topic && Covers(access, rule.acltype)
      && (rule.allow <==> access != "deny") && rule.priority == if access == "deny" then 100 else 10
  }

  lemma {:induction false} TypesMean(access: string, acltype: string)
    requires access in {"read", "write", "readwrite", "deny"}
    ensures acltype in AccessTypes(access) <==> Covers(access, acltype)
  {
  }

  lemma {:induction false} WordMeans(access: string, topic: string)
    requires access in {"read", "write", "readwrite", "deny"}
    ensures RulesMean(Rules(access, topic), access, topic)
  {
    var types, rules := AccessTypes(access), Rules(access, topic);
    forall rule
      ensures rule in rules <==> rule.acltype in types && rule == Rule(rule.acltype, access, topic)
    {
      if rule.acltype in types && rule == Rule(rule.acltype, access, topic) {
        var i :| 0 <= i < |types| && types[i] == rule.acltype;
        assert rules[i] == rule;
      }
    }
    forall rule: Acl ensures rule.acltype in types <==> Covers(access, rule.acltype) {
      TypesMean(access, rule.acltype);
    }
  }

  /** How a written line reads: `pattern` for everyone, `topic` for the section. */
  lemma {:induction false} LineMeans(everyone: bool, access: string, topic: string)
    requires access in {"read", "write", "readwrite", "deny"} && Normalised(topic)
    ensures var line := ReadLine((if everyone then "pattern" else "topic") + " " + access + " " + topic);
            line.Grants? && line.everyone == everyone && RulesMean(line.rules, access, topic)
  {
    WrittenRule(everyone, access, topic);
    WordMeans(access, topic);
  }

  lemma {:induction false} WithoutAccess(word: string, topic: string)
    requires (word == "pattern" || word == "topic") && topic != "" && NoSpace(topic)
    ensures var line := word + [' '] + topic;
            Strip(line) == line && Tokens(line) == [word] + [topic] && word + [' '] <= line
  {
    TokensCons(word, topic);
    TokensOfJoin([topic]);
    assert !IsSpace(topic[|topic| - 1]) && !IsSpace(word[0]);
  }

  /** Without an access word the line grants reading and writing. */
  lemma {:induction false} BareLineMeans(everyone: bool, topic: string)
    requires topic != "" && NoSpace(topic)
    ensures var line := ReadLine((if everyone then "pattern" else "topic") + " " + topic);
            line.Grants? && line.everyone == everyone && RulesMean(line.rules, "readwrite", topic)
  {
    var word := if everyone then "pattern" else "topic";
    var line := word + [' '] + topic;
    WithoutAccess(word, topic);
    assert Tokens(line)[0] == word && Tokens(line)[1] == topic;
    if everyone { PatternReads(line, Rules("readwrite", topic)); } else { TopicReads(line, Rules("readwrite", topic)); }
    WordMeans("readwrite", topic);
  }

  /** Letters, digits, dot, underscore and hyphen make a name, by code point. */
  lemma {:induction false} NameIff(name: string)
    ensures ValidName(name) <==> name != "" && forall i :: 0 <= i < |name| ==>
              var c := name[i] as int;
              65 <= c <= 90 || 97 <= c <= 122 || 48 <= c <= 57 || c == 46 || c == 95 || c == 45
  {
    assert forall i :: 0 <= i < |name| ==>
             (IsNameChar(name[i]) <==>
              var c := name[i] as int;
              65 <= c <= 90 || 97 <= c <= 122 || 48 <= c <= 57 || c == 46 || c == 95 || c == 45);
  }

  /** Blank lines and comments say nothing, in both files; `user` opens a section. */
  lemma {:induction false} OtherLinesMean(line: string, name: string)
    ensures Strip(line) == "" || Strip(line)[0] == '#' ==>
              ReadLine(line) == Ignored && ReadPasswordLine(line) == Skipped
    ensures ValidName(name) ==> ReadLine("user " + name) == User(name)
  {
    if ValidName(name) { WrittenUser(name); }
  }

  /** What cannot be read: another directive, */
  lemma {:induction false} OtherDirective(line: string)
    requires line == Strip(line) != "" && line[0] != '#'
    requires !("user " <= line) && !("topic " <= line) && !("pattern " <= line)
    ensures ReadLine(line) == Faulty(UnsupportedDirective)
  {
  }

  /** a user who is no name, */
  lemma {:induction false} BadUser(name: string)
    requires name != "" && NoSpace(name) && !ValidName(name)
    ensures ReadLine("user " + name) == Faulty(InvalidUser)
  {
    var text := "user " + name;
    assert text[5..] == name && Strip(name) == name && Strip(text) == text && text[0] == 'u';
  }

  /** or a rule with an unknown word of access. */
  lemma {:induction false} UnknownAccess(text: string, word: string, access: string, topic: string)
    requires (word == "pattern" || word == "topic") && text == word + [' '] + (access + [' '] + topic)
    requires access != "" && NoSpace(access) && Normalised(topic)
    requires access !in {"read", "write", "readwrite", "deny"}
    ensures ReadLine(text) == Faulty(AccessRequired)
  {
    RuleWords(word, access, topic);
    NormalisedEnds(topic);
    UnknownTokens(Tokens(text), word, access, Tokens(topic));
    FaultyRule(text, word == "pattern");
  }

  lemma {:induction false} UnknownTokens(tokens: seq<string>, word: string, access: string, more: seq<string>)
    requires tokens == [word] + ([access] + more) && (word == "pattern" || word == "topic") && more != []
    requires access !in {"read", "write", "readwrite", "deny"}
    ensures ParseTokens(tokens) == Err(AccessRequired)
  {
    assert tokens[0] == word && tokens[1] == access && |tokens| > 2;
  }

  lemma {:induction false} FaultyRule(text: string, everyone: bool)
    requires if everyone then "pattern " <= text else "topic " <= text
    requires Strip(text) == text && ParseTokens(Tokens(text)) == Err(AccessRequired)
    ensures ReadLine(text) == Faulty(AccessRequired)
  {
    assert text[0] == if everyone then 'p' else 't';
  }

  /** The first line that cannot be read is reported, by its number. */
  lemma {:induction false} FirstFault(lines: seq<Line>, st: State, number: nat, k: nat)
    requires k < |lines| && lines[k].Faulty? && forall i :: 0 <= i < k ==> !lines[i].Faulty?
    ensures Run(st, lines, number) == Err(Fault(lines[k].kind, number + k))
    decreases k
  {
    if k > 0 { FirstFault(lines[1..], Step(st, lines[0]), number + 1, k - 1); }
  }

  lemma {:induction false} ParseFault(lines: seq<Line>, k: nat)
    requires k < |lines| && lines[k].Faulty? && forall i :: 0 <= i < k ==> !lines[i].Faulty?
    ensures Parse(lines) == Err(Fault(lines[k].kind, k + 1))
  {
    FirstFault(lines, INITIAL, 1, k);
  }

  // ----- a whole file

  /** The user named last before line `k`. */
  function Named(ds: seq<Directive>, k: nat, start: Option<string>): Option<string>
    requires k <= |ds|
  {
    if k == 0 then start
    else if ds[k - 1].UserLine? then Some(ds[k - 1].name)
    else Named(ds, k - 1, start)
  }

  /** Line `k` is a rule that counts for the user: it is for everyone, stands before any
      user line, or in a section of the user. */
  ghost predicate Concerns(ds: seq<Directive>, k: int, start: Option<string>, user: string) {
    && 0 <= k < |ds| && ds[k].RuleLine?
    && (ds[k].everyone || Named(ds, k, start) == None || Named(ds, k, start) == Some(user))
  }

  lemma {:induction false} NamedTail(ds: seq<Directive>, k: nat, start: Option<string>)
    requires 1 <= k <= |ds|
    ensures Named(ds, k, start) == Named(ds[1..], k - 1, if ds[0].UserLine? then Some(ds[0].name) else start)
  {
    if k > 1 { NamedTail(ds, k - 1, start); }
  }

  ghost predicate Comes(ds: seq<Directive>, start: Option<string>, user: string, rule: Acl, k: int) {
    Concerns(ds, k, start, user) && rule in Rules(ds[k].access, ds[k].topic)
  }

  lemma {:induction false} RulesComeFromLines(ds: seq<Directive>, start: Option<string>, user: string, rule: Acl)
    ensures rule in GlobalRules(ds, start) + OwnRules(ds, start, user) <==> exists k :: Comes(ds, start, user, rule, k)
  {
    if ds != [] {
      var rest, next := ds[1..], if ds[0].UserLine? then Some(ds[0].name) else start;
      RulesComeFromLines(rest, next, user, rule);
      forall k | 0 < k < |ds| ensures Comes(ds, start, user, rule, k) <==> Comes(rest, next, user, rule, k - 1) {
        NamedTail(ds, k, start);
      }
      if k :| Comes(rest, next, user, rule, k) { assert Comes(ds, start, user, rule, k + 1); }
      if k :| Comes(ds, start, user, rule, k) { assert k > 0 ==> Comes(rest, next, user, rule, k - 1); }
      assert Comes(ds, start, user, rule, 0) <==>
             ds[0].RuleLine? && (ds[0].everyone || start == None || start == Some(user))
             && rule in Rules(ds[0].access, ds[0].topic);
    }
  }

  lemma {:induction false} NoOwnRules(ds: seq<Directive>, start: Option<string>, user: string)
    requires user !in Users(ds) && start != Some(user)
    ensures OwnRules(ds, start, user) == []
  {
    if ds != [] {
      forall i | 0 <= i < |ds[1..]| && ds[1..][i].UserLine? ensures ds[1..][i].name != user {
        assert ds[i + 1].UserLine? && ds[i + 1].name in Users(ds);
      }
      assert ds[0].UserLine? ==> ds[0].name in Users(ds);
      NoOwnRules(ds[1..], if ds[0].UserLine? then Some(ds[0].name) else start, user);
    }
  }

  /** Some line of the kind that concerns the user is about the action and the topic. */
  ghost predicate Says(
    ds: seq<Directive>, user: string, clientid: string, topic: string, action: string, allow: bool) {
    exists k :: SaysAt(ds, k, user, clientid, topic, action, allow)
  }

  ghost predicate SaysAt(
    ds: seq<Directive>, k: int, user: string, clientid: string, topic: string, action: string, allow: bool) {
    && Concerns(ds, k, None, user) && (ds[k].access != "deny") == allow
    && Covers(ds[k].access, action) && Admits(ds[k].topic, topic, user, clientid, false)
  }

  lemma {:induction false} FileSays(
      ds: seq<Directive>, user: string, clientid: string, topic: string, action: string, allow: bool)
    requires forall k :: 0 <= k < |ds| ==> Writable(ds[k])
    ensures LegacyRule(AclFile(GlobalRules(ds, None), UserRules(ds)), user, clientid, topic, action, allow) <==>
            Says(ds, user, clientid, topic, action, allow)
  {
    var file := AclFile(GlobalRules(ds, None), UserRules(ds));
    if user !in Users(ds) { NoOwnRules(ds, None, user); }
    assert RulesFor(file, user) == GlobalRules(ds, None) + OwnRules(ds, None, user);
    if LegacyRule(file, user, clientid, topic, action, allow) {
      var rule :| rule in RulesFor(file, user) && rule.allow == allow && rule.acltype == action
                  && Admits(rule.topic, topic, user, clientid, IsLiteral(action));
      RuleIsSaid(ds, user, clientid, topic, rule);
    }
    if k :| SaysAt(ds, k, user, clientid, topic, action, allow) {
      SaidIsRule(ds, k, user, clientid, topic, action, allow);
    }
  }

  lemma {:induction false} RuleIsSaid(ds: seq<Directive>, user: string, clientid: string, topic: string, rule: Acl)
    requires forall k :: 0 <= k < |ds| ==> Writable(ds[k])
    requires rule in GlobalRules(ds, None) + OwnRules(ds, None, user)
    requires Admits(rule.topic, topic, user, clientid, IsLiteral(rule.acltype))
    ensures Says(ds, user, clientid, topic, rule.acltype, rule.allow)
  {
    RulesComeFromLines(ds, None, user, rule);
    var k :| Comes(ds, None, user, rule, k);
    assert Writable(ds[k]);
    WordMeans(ds[k].access, ds[k].topic);
    assert SaysAt(ds, k, user, clientid, topic, rule.acltype, rule.allow);
  }

  lemma {:induction false} SaidIsRule(
      ds: seq<Directive>, k: int, user: string, clientid: string, topic: string, action: string, allow: bool)
    requires forall k :: 0 <= k < |ds| ==> Writable(ds[k])
    requires SaysAt(ds, k, user, clientid, topic, action, allow)
    ensures !IsLiteral(action)
    ensures Acl(action, ds[k].topic, allow, if allow then 10 else 100) in
              GlobalRules(ds, None) + OwnRules(ds, None, user)
  {
    assert Writable(ds[k]);
    WordMeans(ds[k].access, ds[k].topic);
    var rule := Acl(action, ds[k].topic, allow, if allow then 10 else 100);
    assert Comes(ds, None, user, rule, k);
    RulesComeFromLines(ds, None, user, rule);
  }

  /** From the text to the decision: on the state that `migrate` writes, a request of a
      user is allowed exactly when some line that concerns the user grants it and no such
      line denies it. */
  lemma {:induction false} FileDecides(
      accounts: seq<Account>, owners: map<string, Owner>, base: Base, ds: seq<Directive>, file: AclFile, q: Query)
    requires forall k :: 0 <= k < |ds| ==> Writable(ds[k])
    requires Parse(ReadLines(SplitLines(Unlines(WriteAll(ds))))) == Ok(file)
    requires Asks(accounts, owners, file, base, q)
    ensures Evaluate(q).allow <==>
            && Says(ds, q.username, q.clientid, q.topic, q.action, true)
            && !Says(ds, q.username, q.clientid, q.topic, q.action, false)
  {
    ParseUndoesWrite(ds);
    MigrationPreservesMeaning(accounts, owners, file, base, q);
    FileSays(ds, q.username, q.clientid, q.topic, q.action, true);
    FileSays(ds, q.username, q.clientid, q.topic, q.action, false);
  }
}
