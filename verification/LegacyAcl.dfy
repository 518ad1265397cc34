/** The legacy Mosquitto ACL file: `parse_acl_line` and `parse_acl_file`, the text
    that a list of directives stands for, and how parsing undoes writing. */
module LegacyAcl {
  import opened Results
  import opened Sequences
  import opened Strings
  import opened Policy

  datatype FaultKind = InvalidAcl | AccessRequired | EmptyTopic | InvalidUser | UnsupportedDirective

  /** A MigrationError with the number of the offending line. */
  datatype Fault = Fault(kind: FaultKind, line: nat)

  datatype AclFile = AclFile(globals: seq<Acl>, users: map<string, seq<Acl>>)

  // ----- names and access words

  predicate IsNameChar(c: char) {
    'A' <= c <= 'Z' || 'a' <= c <= 'z' || '0' <= c <= '9' || c == '.' || c == '_' || c == '-'
  }

  /** NAME_PATTERN.fullmatch */
  predicate ValidName(name: string) {
    name != "" && forall i :: 0 <= i < |name| ==> IsNameChar(name[i])
  }

  predicate IsAccess(word: string) {
    word == "read" || word == "write" || word == "readwrite" || word == "deny"
  }

  function AccessTypes(access: string): seq<string> {
    if access == "read" then ["publishClientReceive", "subscribePattern", "unsubscribePattern"]
    else if access == "write" then ["publishClientSend"]
    else ["publishClientSend", "publishClientReceive", "subscribePattern", "unsubscribePattern"]
  }

  function Rule(acltype: string, access: string, topic: string): Acl {
    if access == "deny" then Acl(acltype, topic, false, 100) else Acl(acltype, topic, true, 10)
  }

  /** One access rule for each ACL type that the access word covers. */
  function Rules(access: string, topic: string): seq<Acl> {
    var types := AccessTypes(access);
    seq(|types|, i requires 0 <= i < |types| => Rule(types[i], access, topic))
  }

  // ----- parsing

  /** `parse_acl_line` */
  function ParseRule(line: string): Result<seq<Acl>, FaultKind> {
    ParseTokens(Tokens(line))
  }

  function ParseTokens(tokens: seq<string>): Result<seq<Acl>, FaultKind> {
    if |tokens| < 2 || (tokens[0] != "topic" && tokens[0] != "pattern") then Err(InvalidAcl)
    else if |tokens| == 2 then Ok(Rules("readwrite", tokens[1]))
    else if !IsAccess(tokens[1]) then Err(AccessRequired)
    else
      var topic := Join(tokens[2..], ' ');
      if topic == "" then Err(EmptyTopic) else Ok(Rules(tokens[1], topic))
  }

  /** What a line says, once stripped. */
  datatype Line =
    | Ignored
    | User(name: string)
    | Grants(everyone: bool, rules: seq<Acl>)
    | Faulty(kind: FaultKind)

  function ReadLine(raw: string): Line {
    ReadStripped(Strip(raw))
  }

  function ReadStripped(line: string): Line {
    if line == "" || line[0] == '#' then Ignored
    else if "user " <= line then
      var name := Strip(line[5..]);
      if ValidName(name) then User(name) else Faulty(InvalidUser)
    else if !("topic " <= line) && !("pattern " <= line) then Faulty(UnsupportedDirective)
    else match ParseRule(line)
      case Err(kind) => Faulty(kind)
      case Ok(rules) => Grants("pattern " <= line, rules)
  }

  function ReadLines(raw: seq<string>): seq<Line> {
    seq(|raw|, i requires 0 <= i < |raw| => ReadLine(raw[i]))
  }

  datatype State = State(file: AclFile, current: Option<string>)

  const INITIAL := State(AclFile([], map[]), None)

  function RulesOf(users: map<string, seq<Acl>>, user: string): seq<Acl> {
    if user in users then users[user] else []
  }

  function AddRules(users: map<string, seq<Acl>>, user: string, rules: seq<Acl>): map<string, seq<Acl>> {
    users[user := RulesOf(users, user) + rules]
  }

  /** What one sound line does to the parser's state. */
  function Step(st: State, line: Line): State
    requires !line.Faulty?
  {
    match line
    case Ignored => st
    case User(name) => State(AclFile(st.file.globals, AddRules(st.file.users, name, [])), Some(name))
    case Grants(everyone, rules) =>
      if everyone || st.current == None
      then State(AclFile(st.file.globals + rules, st.file.users), st.current)
      else State(AclFile(st.file.globals, AddRules(st.file.users, st.current.value, rules)), st.current)
  }

  function Run(st: State, lines: seq<Line>, number: nat): Result<State, Fault>
    decreases |lines|
  {
    if lines == [] then Ok(st)
    else if lines[0].Faulty? then Err(Fault(lines[0].kind, number))
    else Run(Step(st, lines[0]), lines[1..], number + 1)
  }

  function Parse(lines: seq<Line>): Result<AclFile, Fault> {
    match Run(INITIAL, lines, 1)
    case Err(fault) => Err(fault)
    case Ok(st) => Ok(st.file)
  }

  /** `parse_acl_file`; `None` stands for a path that is absent or does not exist. */
  method ParseAclFile(text: Option<string>) returns (r: Result<AclFile, Fault>)
    ensures text == None ==> r == Ok(AclFile([], map[]))
    ensures text.Some? ==> r == Parse(ReadLines(SplitLines(text.value)))
  {
    if text == None { return Ok(AclFile([], map[])); }
    var raw := SplitLines(text.value);
    ghost var lines := ReadLines(raw);
    var globals: seq<Acl>, users: map<string, seq<Acl>> := [], map[];
    var current: Option<string> := None;
    for i := 0 to |raw|
      invariant Run(INITIAL, lines, 1) == Run(State(AclFile(globals, users), current), lines[i..], i + 1)
    {
      assert lines[i..][1..] == lines[i + 1..];
      var line := ReadLine(raw[i]);
      assert lines[i..][0] == line;
      match line {
        case Ignored =>
        case User(name) =>
          current := Some(name);
          users := AddRules(users, name, []);
        case Grants(everyone, rules) =>
          if everyone || current == None {
            globals := globals + rules;
          } else {
            users := AddRules(users, current.value, rules);
          }
        case Faulty(kind) => return Err(Fault(kind, i + 1));
      }
    }
    assert lines[|raw|..] == [];
    r := Ok(AclFile(globals, users));
  }

  // ----- what parsing guarantees of every rule

  /** Denying rules have priority 100 and allowing ones 10. */
  predicate Parsed(rule: Acl) {
    rule.priority == if rule.allow then 10 else 100
  }

  predicate AllParsed(rules: seq<Acl>) {
    forall i :: 0 <= i < |rules| ==> Parsed(rules[i]) && IsEmittedType(rules[i].acltype)
  }

  predicate IsEmittedType(acltype: string) {
    acltype == "publishClientSend" || acltype == "publishClientReceive"
    || acltype == "subscribePattern" || acltype == "unsubscribePattern"
  }

  ghost predicate FileParsed(file: AclFile) {
    AllParsed(file.globals) && forall u :: u in file.users ==> AllParsed(file.users[u])
  }

  lemma {:induction false} ParsedTokens(tokens: seq<string>)
    requires ParseTokens(tokens).Ok?
    ensures AllParsed(ParseTokens(tokens).value)
  {
  }

  lemma {:induction false} LineParses(line: string)
    requires ReadStripped(line).Grants?
    ensures AllParsed(ReadStripped(line).rules)
  {
    assert ParseRule(line).Ok? && ReadStripped(line).rules == ParseRule(line).value;
    ParsedTokens(Tokens(line));
  }

  lemma {:induction false} RunParses(st: State, lines: seq<Line>, number: nat)
    requires FileParsed(st.file) && Run(st, lines, number).Ok?
    requires forall i :: 0 <= i < |lines| && lines[i].Grants? ==> AllParsed(lines[i].rules)
    ensures FileParsed(Run(st, lines, number).value.file)
    decreases |lines|
  {
    if lines != [] {
      RunParses(Step(st, lines[0]), lines[1..], number + 1);
    }
  }

  /** In every file that parses, all rules carry the priority of their kind. */
  lemma {:induction false} ParsedRules(raw: seq<string>)
    requires Parse(ReadLines(raw)).Ok?
    ensures FileParsed(Parse(ReadLines(raw)).value)
  {
    forall i | 0 <= i < |raw| && ReadLine(raw[i]).Grants? ensures AllParsed(ReadLine(raw[i]).rules) {
      LineParses(Strip(raw[i]));
    }
    RunParses(INITIAL, ReadLines(raw), 1);
  }

  // ----- directives and the text they are written as

  datatype Directive = UserLine(name: string) | RuleLine(everyone: bool, access: string, topic: string)

  /** Single spaces between words and none around them. */
  predicate Normalised(topic: string) {
    topic != "" && topic == Join(Tokens(topic), ' ')
  }

  predicate Writable(d: Directive) {
    match d
    case UserLine(name) => ValidName(name)
    case RuleLine(_, access, topic) => IsAccess(access) && Normalised(topic)
  }

  function Write(d: Directive): string {
    match d
    case UserLine(name) => "user " + name
    case RuleLine(everyone, access, topic) => (if everyone then "pattern" else "topic") + " " + access + " " + topic
  }

  function WriteAll(ds: seq<Directive>): seq<string> {
    seq(|ds|, i requires 0 <= i < |ds| => Write(ds[i]))
  }

  /** The rules that hold for everyone: `pattern` rules, and those before any user. */
  function GlobalRules(ds: seq<Directive>, current: Option<string>): seq<Acl> {
    if ds == [] then []
    else match ds[0]
      case UserLine(name) => GlobalRules(ds[1..], Some(name))
      case RuleLine(everyone, access, topic) =>
        (if everyone || current == None then Rules(access, topic) else []) + GlobalRules(ds[1..], current)
  }

  /** The rules of one user: `topic` rules after a line that names the user. */
  function OwnRules(ds: seq<Directive>, current: Option<string>, user: string): seq<Acl> {
    if ds == [] then []
    else match ds[0]
      case UserLine(name) => OwnRules(ds[1..], Some(name), user)
      case RuleLine(everyone, access, topic) =>
        (if !everyone && current == Some(user) then Rules(access, topic) else []) + OwnRules(ds[1..], current, user)
  }

  function Users(ds: seq<Directive>): set<string> {
    set i | 0 <= i < |ds| && ds[i].UserLine? :: ds[i].name
  }

  function UserRules(ds: seq<Directive>): map<string, seq<Acl>> {
    map u | u in Users(ds) :: OwnRules(ds, None, u)
  }

  /** The line of a directive, as the parser should read it. */
  function Meaning(d: Directive): Line {
    match d
    case UserLine(name) => User(name)
    case RuleLine(everyone, access, topic) => Grants(everyone, Rules(access, topic))
  }

  function Meanings(ds: seq<Directive>): seq<Line> {
    seq(|ds|, i requires 0 <= i < |ds| => Meaning(ds[i]))
  }

  lemma {:induction false} WrittenUser(name: string)
    requires ValidName(name)
    ensures ReadLine(Write(UserLine(name))) == User(name) && NoLineBreak(Write(UserLine(name)))
  {
    var line := Write(UserLine(name));
    assert line[5..] == name && Strip(name) == name && Strip(line) == line;
  }

  predicate IsKeyword(word: string) {
    word == "topic" || word == "pattern"
  }

  lemma {:induction false} RuleWords(word: string, access: string, topic: string)
    requires word != "" && NoSpace(word) && access != "" && NoSpace(access) && Normalised(topic)
    ensures var line := word + [' '] + (access + [' '] + topic);
            Strip(line) == line && NoLineBreak(line) && Tokens(line) == [word] + ([access] + Tokens(topic))
  {
    TokensCons(word, access + [' '] + topic);
    TokensCons(access, topic);
    NormalisedEnds(topic);
    WordAndBlank(access);
    WordAndBlank(word);
  }

  lemma {:induction false} WordAndBlank(word: string)
    requires word != "" && NoSpace(word)
    ensures NoLineBreak(word + [' ']) && !IsSpace((word + [' '])[0])
  {
  }

  lemma {:induction false} NormalisedEnds(topic: string)
    requires Normalised(topic)
    ensures Tokens(topic) != [] && !IsSpace(topic[|topic| - 1]) && NoLineBreak(topic)
  {
    assert Join([], ' ') == "";
    JoinedWords(Tokens(topic));
  }

  lemma {:induction false} WordsParse(word: string, access: string, words: seq<string>)
    requires IsKeyword(word) && IsAccess(access) && words != [] && Join(words, ' ') != ""
    ensures ParseTokens([word] + ([access] + words)) == Ok(Rules(access, Join(words, ' ')))
  {
    var tokens := [word] + ([access] + words);
    assert tokens[0] == word && tokens[1] == access && tokens[2..] == words;
  }

  lemma {:induction false} PatternReads(line: string, rules: seq<Acl>)
    requires "pattern " <= line && ParseTokens(Tokens(line)) == Ok(rules)
    ensures ReadStripped(line) == Grants(true, rules)
  {
    assert line[0] == 'p';
  }

  lemma {:induction false} TopicReads(line: string, rules: seq<Acl>)
    requires "topic " <= line && ParseTokens(Tokens(line)) == Ok(rules)
    ensures ReadStripped(line) == Grants(false, rules)
  {
    assert line[0] == 't';
  }

  lemma {:induction false} WrittenRule(everyone: bool, access: string, topic: string)
    requires IsAccess(access) && Normalised(topic)
    ensures ReadLine(Write(RuleLine(everyone, access, topic))) == Grants(everyone, Rules(access, topic))
    ensures NoLineBreak(Write(RuleLine(everyone, access, topic)))
  {
    if everyone {
      WrittenPattern(access, topic);
    } else {
      WrittenTopic(access, topic);
    }
  }

  /** A rule line parses to its rules, whichever of the two keywords it starts with. */
  lemma {:induction false} RuleLineParses(line: string, word: string, access: string, topic: string)
    requires IsKeyword(word) && IsAccess(access) && Normalised(topic)
    requires line == word + [' '] + (access + [' '] + topic)
    ensures ParseTokens(Tokens(line)) == Ok(Rules(access, topic))
    ensures Strip(line) == line && NoLineBreak(line) && word + [' '] <= line
  {
    RuleWords(word, access, topic);
    NormalisedEnds(topic);
    WordsParse(word, access, Tokens(topic));
  }

  lemma {:induction false} WrittenPattern(access: string, topic: string)
    requires IsAccess(access) && Normalised(topic)
    ensures var line := Write(RuleLine(true, access, topic));
            ReadLine(line) == Grants(true, Rules(access, topic)) && NoLineBreak(line)
  {
    var line := Write(RuleLine(true, access, topic));
    RuleLineParses(line, "pattern", access, topic);
    PatternReads(line, Rules(access, topic));
  }

  lemma {:induction false} WrittenTopic(access: string, topic: string)
    requires IsAccess(access) && Normalised(topic)
    ensures var line := Write(RuleLine(false, access, topic));
            ReadLine(line) == Grants(false, Rules(access, topic)) && NoLineBreak(line)
  {
    var line := Write(RuleLine(false, access, topic));
    RuleLineParses(line, "topic", access, topic);
    TopicReads(line, Rules(access, topic));
  }

  /** One directive moves rules from what is still to come into the state. */
  lemma {:induction false} StepGlobals(ds: seq<Directive>, st: State)
    requires ds != []
    ensures var next := Step(st, Meaning(ds[0]));
            next.file.globals + GlobalRules(ds[1..], next.current) == st.file.globals + GlobalRules(ds, st.current)
  {
    var later := GlobalRules(ds[1..], Step(st, Meaning(ds[0])).current);
    match ds[0]
    case UserLine(name) =>
    case RuleLine(everyone, access, topic) => Regroup(st.file.globals, Rules(access, topic), later);
  }

  lemma {:induction false} StepOwn(ds: seq<Directive>, st: State, u: string)
    requires ds != []
    ensures var next := Step(st, Meaning(ds[0]));
            RulesOf(next.file.users, u) + OwnRules(ds[1..], next.current, u) ==
            RulesOf(st.file.users, u) + OwnRules(ds, st.current, u)
  {
    var later := OwnRules(ds[1..], Step(st, Meaning(ds[0])).current, u);
    match ds[0]
    case UserLine(name) => RulesOfAdd(st.file.users, name, [], u);
    case RuleLine(everyone, access, topic) =>
      Regroup(RulesOf(st.file.users, u), Rules(access, topic), later);
      if st.current.Some? { RulesOfAdd(st.file.users, st.current.value, Rules(access, topic), u); }
  }

  /** Running the parser over directives gives what they denote. */
  lemma {:induction false} RunMeanings(ds: seq<Directive>, st: State, number: nat)
    requires st.current.Some? ==> st.current.value in st.file.users
    ensures Run(st, Meanings(ds), number).Ok?
    ensures var file := Run(st, Meanings(ds), number).value.file;
            file.globals == st.file.globals + GlobalRules(ds, st.current)
            && file.users.Keys == st.file.users.Keys + Users(ds)
            && forall u :: RulesOf(file.users, u) == RulesOf(st.file.users, u) + OwnRules(ds, st.current, u)
    decreases |ds|
  {
    if ds != [] {
      var lines := Meanings(ds);
      assert lines[0] == Meaning(ds[0]) && lines[1..] == Meanings(ds[1..]);
      UsersOfTail(ds);
      RunMeanings(ds[1..], Step(st, lines[0]), number + 1);
      forall u ensures RulesOf(Run(st, lines, number).value.file.users, u) ==
                       RulesOf(st.file.users, u) + OwnRules(ds, st.current, u)
      {
        StepOwn(ds, st, u);
      }
      StepGlobals(ds, st);
    }
  }

  lemma {:induction false} UsersOfTail(ds: seq<Directive>)
    requires ds != []
    ensures Users(ds) == Users(ds[1..]) + if ds[0].UserLine? then {ds[0].name} else {}
  {
    forall name | name in Users(ds) ensures name in Users(ds[1..]) || (ds[0].UserLine? && ds[0].name == name) {
      var i :| 0 <= i < |ds| && ds[i].UserLine? && ds[i].name == name;
      assert i > 0 ==> ds[1..][i - 1] == ds[i];
    }
    forall name | name in Users(ds[1..]) ensures name in Users(ds) {
      var i :| 0 <= i < |ds[1..]| && ds[1..][i].UserLine? && ds[1..][i].name == name;
      assert ds[i + 1] == ds[1..][i];
    }
  }

  lemma {:induction false} ReadWritten(ds: seq<Directive>)
    requires forall i :: 0 <= i < |ds| ==> Writable(ds[i])
    ensures ReadLines(WriteAll(ds)) == Meanings(ds)
    ensures forall k :: 0 <= k < |ds| ==> NoLineBreak(WriteAll(ds)[k])
  {
    forall k | 0 <= k < |ds| ensures ReadLine(Write(ds[k])) == Meaning(ds[k]) && NoLineBreak(Write(ds[k])) {
      WrittenReads(ds[k]);
    }
  }

  lemma {:induction false} WrittenReads(d: Directive)
    requires Writable(d)
    ensures ReadLine(Write(d)) == Meaning(d) && NoLineBreak(Write(d))
  {
    match d
    case UserLine(name) => WrittenUser(name);
    case RuleLine(everyone, access, topic) => WrittenRule(everyone, access, topic);
  }

  lemma {:induction false} ParseMeanings(ds: seq<Directive>)
    ensures Parse(Meanings(ds)) == Ok(AclFile(GlobalRules(ds, None), UserRules(ds)))
  {
    RunMeanings(ds, INITIAL, 1);
    var file := Run(INITIAL, Meanings(ds), 1).value.file;
    FileFromNothing(ds, file);
  }

  lemma {:induction false} FileFromNothing(ds: seq<Directive>, file: AclFile)
    requires file.globals == [] + GlobalRules(ds, None) && file.users.Keys == {} + Users(ds)
    requires forall u :: RulesOf(file.users, u) == [] + OwnRules(ds, None, u)
    ensures file == AclFile(GlobalRules(ds, None), UserRules(ds))
  {
    assert file.globals == GlobalRules(ds, None) && file.users.Keys == Users(ds);
    forall u ensures RulesOf(file.users, u) == OwnRules(ds, None, u) {
      assert RulesOf(file.users, u) == [] + OwnRules(ds, None, u);
    }
  }

  /** Parsing a written file gives back exactly the rules of everyone and of each user. */
  lemma {:induction false} ParseUndoesWrite(ds: seq<Directive>)
    requires forall i :: 0 <= i < |ds| ==> Writable(ds[i])
    ensures Parse(ReadLines(SplitLines(Unlines(WriteAll(ds))))) ==
            Ok(AclFile(GlobalRules(ds, None), UserRules(ds)))
  {
    ReadWritten(ds);
    SplitUnlines(WriteAll(ds));
    ParseMeanings(ds);
  }

  // ----- one file after another

  function MergeUsers(a: map<string, seq<Acl>>, b: map<string, seq<Acl>>): map<string, seq<Acl>> {
    map u | u in a.Keys + b.Keys :: RulesOf(a, u) + RulesOf(b, u)
  }

  function Merge(a: AclFile, b: AclFile): AclFile {
    AclFile(a.globals + b.globals, MergeUsers(a.users, b.users))
  }

  /** The first line that counts names a user. */
  predicate StartsWithUser(lines: seq<Line>) {
    lines != [] && (lines[0].User? || (lines[0].Ignored? && StartsWithUser(lines[1..])))
  }

  lemma {:induction false} RunConcat(st: State, a: seq<Line>, b: seq<Line>, number: nat)
    ensures Run(st, a + b, number) ==
            match Run(st, a, number) case Err(f) => Err(f) case Ok(mid) => Run(mid, b, number + |a|)
    decreases |a|
  {
    if a == [] {
      assert a + b == b;
    } else {
      assert (a + b)[1..] == a[1..] + b;
      if !a[0].Faulty? { RunConcat(Step(st, a[0]), a[1..], b, number + 1); }
    }
  }

  lemma {:induction false} RulesOfAdd(b: map<string, seq<Acl>>, user: string, rules: seq<Acl>, u: string)
    ensures RulesOf(AddRules(b, user, rules), u) == RulesOf(b, u) + if u == user then rules else []
    ensures u in AddRules(b, user, rules) <==> u in b || u == user
  {
  }

  lemma {:induction false} MergeAdd(a: map<string, seq<Acl>>, b: map<string, seq<Acl>>, user: string, rules: seq<Acl>)
    ensures MergeUsers(a, AddRules(b, user, rules)) == AddRules(MergeUsers(a, b), user, rules)
  {
    var b', ab := AddRules(b, user, rules), MergeUsers(a, b);
    forall u
      ensures (u in MergeUsers(a, b') <==> u in AddRules(ab, user, rules)) &&
              RulesOf(MergeUsers(a, b'), u) == RulesOf(AddRules(ab, user, rules), u)
    {
      RulesOfAdd(b, user, rules, u);
      RulesOfAdd(ab, user, rules, u);
      Regroup(RulesOf(a, u), RulesOf(b, u), if u == user then rules else []);
    }
  }

  /** A step of a parser that has read `base` before. */
  lemma {:induction false} StepAfter(base: AclFile, st: State, line: Line)
    requires !line.Faulty?
    ensures Step(State(Merge(base, st.file), st.current), line) ==
            State(Merge(base, Step(st, line).file), Step(st, line).current)
  {
    match line
    case Ignored =>
    case User(name) => MergeAdd(base.users, st.file.users, name, []);
    case Grants(everyone, rules) =>
      assert base.globals + (st.file.globals + rules) == (base.globals + st.file.globals) + rules;
      if st.current.Some? { MergeAdd(base.users, st.file.users, st.current.value, rules); }
  }

  /** A parser that has already read `base` ends with `base` merged in front. */
  lemma {:induction false} RunAfter(base: AclFile, before: Option<string>, st: State, lines: seq<Line>, m: nat, d: nat)
    requires before == st.current || StartsWithUser(lines)
    ensures var r := Run(State(Merge(base, st.file), before), lines, m + d);
            match Run(st, lines, m)
            case Err(f) => r == Err(Fault(f.kind, f.line + d))
            case Ok(end) => r.Ok? && r.value.file == Merge(base, end.file)
    decreases |lines|
  {
    if lines != [] && !lines[0].Faulty? {
      StepAfter(base, st, lines[0]);
      if lines[0].User? { MergeAdd(base.users, st.file.users, lines[0].name, []); }
      var next := Step(State(Merge(base, st.file), before), lines[0]);
      RunAfter(base, next.current, Step(st, lines[0]), lines[1..], m + 1, d);
    }
  }

  /** A file followed by one that starts with a user: both must parse, and the rules
      of everyone and of each user are concatenated. */
  lemma {:induction false} ParseConcat(a: seq<Line>, b: seq<Line>)
    requires StartsWithUser(b)
    ensures match Parse(a)
            case Err(f) => Parse(a + b) == Err(f)
            case Ok(first) =>
              match Parse(b)
              case Err(f) => Parse(a + b) == Err(Fault(f.kind, f.line + |a|))
              case Ok(second) => Parse(a + b) == Ok(Merge(first, second))
  {
    RunConcat(INITIAL, a, b, 1);
    if Run(INITIAL, a, 1).Ok? {
      var mid := Run(INITIAL, a, 1).value;
      MergeEmpty(mid.file);
      RunAfter(mid.file, mid.current, INITIAL, b, 1, |a|);
    }
  }

  lemma {:induction false} MergeEmpty(file: AclFile)
    ensures Merge(file, INITIAL.file) == file
  {
    assert file.globals + [] == file.globals;
    assert MergeUsers(file.users, map[]) == file.users by {
      forall u | u in file.users ensures MergeUsers(file.users, map[])[u] == file.users[u] {
        assert file.users[u] + [] == file.users[u];
      }
    }
  }
}
